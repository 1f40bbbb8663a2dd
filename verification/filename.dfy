/** The download file name of `downloadLogo` (App.tsx lines 104-105): the
    brand name with every maximal run of whitespace replaced by one '-',
    lowercased, followed by a suffix naming the variant. */
module FileName {
  import opened JsText

  const TransparentSuffix := "-transparent.png"
  const WhiteSuffix := "-white.png"

  /** `s.replace(/\s+/g, '-')`, defined on the last character: a
      whitespace character that continues a run adds nothing, one that
      starts a run adds the single '-'. */
  function Hyphenate(s: string): (r: string)
    ensures |r| <= |s|
    ensures |r| == 0 <==> |s| == 0
    decreases |s|
  {
    if |s| == 0 then ""
    else
      var init, c := s[..|s| - 1], s[|s| - 1];
      if !IsSpace(c) then Hyphenate(init) + [c]
      else if |init| > 0 && IsSpace(init[|init| - 1]) then Hyphenate(init)
      else Hyphenate(init) + "-"
  }

  /** The text ends in a whitespace character, so a run may continue. */
  predicate EndsInSpace(s: string) {
    |s| > 0 && IsSpace(s[|s| - 1])
  }

  /** One step of the definition, stated for text extended by a character. */
  lemma HyphenateSnoc(s: string, c: char)
    ensures Hyphenate(s + [c]) ==
      if !IsSpace(c) then Hyphenate(s) + [c]
      else if EndsInSpace(s) then Hyphenate(s)
      else Hyphenate(s) + "-"
  {
    assert (s + [c])[..|s|] == s;
  }

  /** No whitespace survives: every run has become a '-'. */
  lemma {:induction false} HyphenateNoSpace(s: string)
    ensures forall i :: 0 <= i < |Hyphenate(s)| ==> !IsSpace(Hyphenate(s)[i])
    decreases |s|
  {
    if |s| > 0 {
      var init, c := s[..|s| - 1], s[|s| - 1];
      assert init + [c] == s;
      HyphenateNoSpace(init);
      HyphenateSnoc(init, c);
      var h, hinit := Hyphenate(s), Hyphenate(init);
      forall i | 0 <= i < |h| ensures !IsSpace(h[i]) {
        if i < |hinit| {
          assert h[i] == hinit[i];
        }
      }
    }
  }

  /** Appending to text that already ends the same way. */
  lemma EndsInSpaceAppend(a: string, b: string)
    requires |b| > 0
    ensures EndsInSpace(a + b) == EndsInSpace(b)
  {
    assert (a + b)[|a + b| - 1] == b[|b| - 1];
  }

  /** Text without whitespace passes through unchanged. */
  lemma {:induction false} HyphenateWord(w: string)
    requires forall i :: 0 <= i < |w| ==> !IsSpace(w[i])
    ensures Hyphenate(w) == w
    decreases |w|
  {
    if |w| > 0 {
      var init := w[..|w| - 1];
      HyphenateWord(init);
      assert init + [w[|w| - 1]] == w;
      HyphenateSnoc(init, w[|w| - 1]);
    }
  }

  /** A whole run of whitespace, however long, becomes one '-'. */
  lemma {:induction false} HyphenateRun(ws: string)
    requires |ws| > 0 && AllSpace(ws)
    ensures Hyphenate(ws) == "-"
    decreases |ws|
  {
    var init := ws[..|ws| - 1];
    assert init + [ws[|ws| - 1]] == ws;
    HyphenateSnoc(init, ws[|ws| - 1]);
    if |ws| > 1 {
      assert IsSpace(init[|init| - 1]);
      HyphenateRun(init);
    }
  }

  /** Concatenation regroups. */
  lemma AppendAssoc(x: string, y: string, z: string)
    ensures (x + y) + z == x + (y + z)
  {
  }

  /** One character more on both sides of a split that `Hyphenate` already
      respects: when that character is whitespace, whether a run continues
      is decided by the right-hand part alone. */
  lemma HyphenateAppendStep(a: string, b: string, c: char)
    requires Hyphenate(a + b) == Hyphenate(a) + Hyphenate(b)
    requires IsSpace(c) ==> EndsInSpace(a + b) == EndsInSpace(b)
    ensures Hyphenate(a + b + [c]) == Hyphenate(a) + Hyphenate(b + [c])
  {
    var x, y := Hyphenate(a), Hyphenate(b);
    if !IsSpace(c) {
      calc {
        Hyphenate(a + b + [c]);
        == { HyphenateSnoc(a + b, c); }
        (x + y) + [c];
        == { AppendAssoc(x, y, [c]); }
        x + (y + [c]);
        == { HyphenateSnoc(b, c); }
        x + Hyphenate(b + [c]);
      }
    } else if EndsInSpace(b) {
      calc {
        Hyphenate(a + b + [c]);
        == { HyphenateSnoc(a + b, c); }
        x + y;
        == { HyphenateSnoc(b, c); }
        x + Hyphenate(b + [c]);
      }
    } else {
      calc {
        Hyphenate(a + b + [c]);
        == { HyphenateSnoc(a + b, c); }
        (x + y) + "-";
        == { AppendAssoc(x, y, "-"); }
        x + (y + "-");
        == { HyphenateSnoc(b, c); }
        x + Hyphenate(b + [c]);
      }
    }
  }

  /** Splitting the text where no run of whitespace is cut in two splits the
      result the same way. Together with `HyphenateWord` and
      `HyphenateRun`, this pins the function down on every string: cut it
      into its maximal runs of whitespace and of other characters. */
  lemma {:induction false} HyphenateAppend(a: string, b: string)
    requires !EndsInSpace(a) || |b| == 0 || !IsSpace(b[0])
    ensures Hyphenate(a + b) == Hyphenate(a) + Hyphenate(b)
    decreases |b|
  {
    if |b| == 0 {
      assert a + b == a;
    } else {
      var binit, c := b[..|b| - 1], b[|b| - 1];
      assert IsSpace(c) ==> EndsInSpace(a + binit) == EndsInSpace(binit) by {
        if |binit| > 0 {
          assert binit[0] == b[0];
          EndsInSpaceAppend(a, binit);
        } else {
          assert a + binit == a;
        }
      }
      HyphenateAppend(a, binit);
      HyphenateAppendStep(a, binit, c);
      assert a + binit + [c] == a + b by {
        assert binit + [c] == b;
        AppendAssoc(a, binit, [c]);
      }
      assert binit + [c] == b;
    }
  }

  /** Neither suffix holds whitespace or an upper-case letter. */
  lemma SuffixesClean(transparent: bool)
    ensures var suffix := if transparent then TransparentSuffix else WhiteSuffix;
      forall i :: 0 <= i < |suffix| ==> !IsSpace(suffix[i]) && !IsUpper(suffix[i])
  {
  }

  /** The name before the suffix: the brand name hyphenated, then
      lowercased. */
  function Stem(brandName: string): (r: string)
    ensures r == Hyphenate(Lower(brandName))
    ensures forall i :: 0 <= i < |r| ==> !IsSpace(r[i]) && !IsUpper(r[i])
  {
    LowerCommutes(brandName);
    HyphenateNoSpace(brandName);
    var h := Hyphenate(brandName);
    var r := Lower(h);
    forall i | 0 <= i < |r| ensures !IsSpace(r[i]) && !IsUpper(r[i]) {
      assert r[i] == LowerChar(h[i]);
      LowerKeepsSpaces(h[i]);
    }
    r
  }

  /** The file name the download link gets: the brand name lowercased and
      hyphenated (in either order, see `LowerCommutes`), then the suffix. */
  function DownloadName(brandName: string, transparent: bool): (r: string)
    ensures var suffix := if transparent then TransparentSuffix else WhiteSuffix;
      r == Hyphenate(Lower(brandName)) + suffix
    ensures var suffix := if transparent then TransparentSuffix else WhiteSuffix;
      |r| >= |suffix| && r[|r| - |suffix|..] == suffix
    ensures forall i :: 0 <= i < |r| ==> !IsSpace(r[i]) && !IsUpper(r[i])
  {
    var stem := Stem(brandName);
    var suffix := if transparent then TransparentSuffix else WhiteSuffix;
    var r := stem + suffix;
    SuffixesClean(transparent);
    forall i | 0 <= i < |r| ensures !IsSpace(r[i]) && !IsUpper(r[i]) {
      if i >= |stem| {
        assert r[i] == suffix[i - |stem|];
      }
    }
    assert r[|r| - |suffix|..] == suffix;
    r
  }

  /** Lowercasing a text extended by one character. */
  lemma LowerSnoc(s: string, c: char)
    ensures Lower(s + [c]) == Lower(s) + [LowerChar(c)]
  {
    LowerAppend(s, [c]);
  }

  /** Lowercasing does not change whether a text ends in whitespace. */
  lemma LowerEndsInSpace(s: string)
    ensures EndsInSpace(Lower(s)) == EndsInSpace(s)
  {
    if |s| > 0 {
      LowerKeepsSpaces(s[|s| - 1]);
    }
  }

  /** One character more on a text for which the two orders already agree. */
  lemma LowerCommutesStep(init: string, c: char)
    requires Lower(Hyphenate(init)) == Hyphenate(Lower(init))
    ensures Lower(Hyphenate(init + [c])) == Hyphenate(Lower(init + [c]))
  {
    var linit, lc := Lower(init), LowerChar(c);
    assert Lower(init + [c]) == linit + [lc] by { LowerSnoc(init, c); }
    assert IsSpace(lc) == IsSpace(c) by { LowerKeepsSpaces(c); }
    assert EndsInSpace(linit) == EndsInSpace(init) by { LowerEndsInSpace(init); }
    if !IsSpace(c) {
      calc {
        Lower(Hyphenate(init + [c]));
        == { HyphenateSnoc(init, c); }
        Lower(Hyphenate(init) + [c]);
        == { LowerSnoc(Hyphenate(init), c); }
        Hyphenate(linit) + [lc];
        == { HyphenateSnoc(linit, lc); }
        Hyphenate(linit + [lc]);
      }
    } else if EndsInSpace(init) {
      calc {
        Lower(Hyphenate(init + [c]));
        == { HyphenateSnoc(init, c); }
        Hyphenate(linit);
        == { HyphenateSnoc(linit, lc); }
        Hyphenate(linit + [lc]);
      }
    } else {
      calc {
        Lower(Hyphenate(init + [c]));
        == { HyphenateSnoc(init, c); }
        Lower(Hyphenate(init) + "-");
        == { LowerAppend(Hyphenate(init), "-"); assert Lower("-") == "-"; }
        Hyphenate(linit) + "-";
        == { HyphenateSnoc(linit, lc); }
        Hyphenate(linit + [lc]);
      }
    }
  }

  /** Lowercasing first and hyphenating second gives the same name: ASCII
      lowercasing never creates or removes whitespace. */
  lemma {:induction false} LowerCommutes(s: string)
    ensures Lower(Hyphenate(s)) == Hyphenate(Lower(s))
    decreases |s|
  {
    if |s| > 0 {
      var init, c := s[..|s| - 1], s[|s| - 1];
      assert init + [c] == s;
      LowerCommutes(init);
      LowerCommutesStep(init, c);
    }
  }

  /** "Aether  Labs" becomes "Aether-Labs" before lowercasing. */
  lemma ExampleHyphenate()
    ensures Hyphenate("Aether  Labs") == "Aether-Labs"
  {
    var word1, gap, word2 := "Aether", "  ", "Labs";
    assert Hyphenate(gap + word2) == "-" + word2 by {
      HyphenateWord(word2);
      HyphenateRun(gap);
      HyphenateAppend(gap, word2);
    }
    assert Hyphenate(word1 + (gap + word2)) == word1 + ("-" + word2) by {
      HyphenateWord(word1);
      HyphenateAppend(word1, gap + word2);
    }
    assert word1 + (gap + word2) == "Aether  Labs";
    assert word1 + ("-" + word2) == "Aether-Labs";
  }

  /** "Aether-Labs" lowercases to "aether-labs". */
  lemma ExampleLower()
    ensures Lower("Aether-Labs") == "aether-labs"
  {
  }

  /** The stem of "Aether  Labs" is "aether-labs". */
  lemma ExampleStem()
    ensures Stem("Aether  Labs") == "aether-labs"
  {
    ExampleHyphenate();
    ExampleLower();
  }

  /** The transparent export of brand "Aether  Labs" is saved as
      "aether-labs-transparent.png". */
  lemma ExampleName()
    ensures DownloadName("Aether  Labs", true) == "aether-labs-transparent.png"
  {
    ExampleStem();
    assert "aether-labs" + TransparentSuffix == "aether-labs-transparent.png";
  }
}
