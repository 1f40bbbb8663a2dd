/** The near-white background removal of `removeBackground` in App.tsx: one
    pass over the canvas's RGBA byte buffer that makes every pixel whose red,
    green and blue channels are all strictly above a threshold fully
    transparent. Decoding the data URL onto a canvas and re-encoding it are
    browser plumbing and stay outside the model: the transform works on the
    decoded `ImageData`. */
module Background {

  /** One element of a `Uint8ClampedArray`. */
  newtype byte = x: int | 0 <= x < 256

  /** The threshold the source compares against (App.tsx line 81). */
  const Threshold: int := 248

  /** The decoded pixels of a canvas: row-major RGBA, four bytes per pixel. */
  datatype ImageData = ImageData(width: nat, height: nat, data: seq<byte>)

  predicate Valid(img: ImageData) {
    |img.data| == img.width * img.height * 4
  }

  /** The pixel whose red byte is at index `p` passes the test: each colour
      channel is strictly greater than `t`. A channel index past the end of
      the buffer reads as `undefined` in JavaScript, and `undefined > t` is
      false, so a truncated pixel never passes. */
  predicate NearWhite(data: seq<byte>, p: nat, t: int) {
    p + 2 < |data| && data[p] as int > t && data[p + 1] as int > t && data[p + 2] as int > t
  }

  /** Byte `k` is the alpha channel of a pixel that passes the test. */
  predicate Cleared(data: seq<byte>, k: nat, t: int) {
    k % 4 == 3 && NearWhite(data, k - 3, t)
  }

  /** The buffer after the loop, as a function of the buffer before it. The
      alpha of a near-white pixel becomes 0; every colour byte, and the alpha
      of every other pixel, is what it was. */
  function RemoveNearWhite(data: seq<byte>, t: int): (r: seq<byte>)
    ensures |r| == |data|
    ensures forall k :: 0 <= k < |data| && k % 4 != 3 ==> r[k] == data[k]
    ensures forall p :: 0 <= p && p + 3 < |data| && p % 4 == 0 ==>
      (NearWhite(data, p, t) ==> r[p + 3] == 0) && (!NearWhite(data, p, t) ==> r[p + 3] == data[p + 3])
  {
    seq(|data|, k requires 0 <= k < |data| => if Cleared(data, k, t) then 0 else data[k])
  }

  /** Byte `k` of the result, read off the definition. */
  lemma ByteAt(data: seq<byte>, t: int, k: nat)
    requires k < |data|
    ensures RemoveNearWhite(data, t)[k] == if Cleared(data, k, t) then 0 else data[k]
  {
  }

  /** The loop of App.tsx lines 75-84, run on a copy of the buffer: it walks
      the buffer four bytes at a time, reads the channels from the buffer as
      it is being updated, and writes alpha 0 only when the alpha index
      exists (a write past the end of a typed array is ignored). */
  method RemoveNearWhiteLoop(data: seq<byte>, t: int) returns (out: seq<byte>)
    ensures out == RemoveNearWhite(data, t)
  {
    out := data;
    var i := 0;
    while i < |out|
      invariant |out| == |data|
      invariant i % 4 == 0 && 0 <= i
      invariant forall k :: 0 <= k < |data| && i <= k ==> out[k] == data[k]
      invariant forall k :: 0 <= k < |data| && k < i ==> out[k] == if Cleared(data, k, t) then 0 else data[k]
      decreases |out| - i
    {
      ghost var prev := out;
      var near := out[i] as int > t && i + 1 < |out| && out[i + 1] as int > t && i + 2 < |out| && out[i + 2] as int > t;
      GuardReadsUntouched(data, out, i, t);
      if near && i + 3 < |out| {
        out := out[i + 3 := 0];
      }
      forall k | 0 <= k < |data| && k < i + 4 ensures out[k] == if Cleared(data, k, t) then 0 else data[k] {
        if k < i {
          assert out[k] == prev[k];
        } else if k == i + 3 {
          assert Cleared(data, k, t) == near;
        } else {
          assert k % 4 != 3;
        }
      }
      i := i + 4;
    }
    forall k | 0 <= k < |data| ensures out[k] == RemoveNearWhite(data, t)[k] {
      ByteAt(data, t, k);
    }
  }

  /** The loop's test at pixel `i` reads bytes it has not written yet, so it
      agrees with the test on the original buffer. */
  lemma GuardReadsUntouched(data: seq<byte>, out: seq<byte>, i: nat, t: int)
    requires |out| == |data| && i < |out|
    requires forall k :: 0 <= k < |data| && i <= k ==> out[k] == data[k]
    ensures (out[i] as int > t && i + 1 < |out| && out[i + 1] as int > t && i + 2 < |out| && out[i + 2] as int > t)
      == NearWhite(data, i, t)
  {
  }

  /** `removeBackground` on the decoded image: the canvas keeps the image's
      width and height (App.tsx lines 65-66, 71 and 86), and only the buffer
      changes. */
  function RemoveBackground(img: ImageData, t: int): (r: ImageData)
    ensures r.width == img.width && r.height == img.height
    ensures Valid(img) ==> Valid(r)
    ensures r.data == RemoveNearWhite(img.data, t)
  {
    img.(data := RemoveNearWhite(img.data, t))
  }

  /** The comparison is strict: a pixel with any colour channel equal to the
      threshold keeps its alpha. */
  lemma ThresholdIsStrict(data: seq<byte>, p: nat, t: int)
    requires p + 3 < |data| && p % 4 == 0
    requires data[p] as int == t || data[p + 1] as int == t || data[p + 2] as int == t
    ensures RemoveNearWhite(data, t)[p + 3] == data[p + 3]
  {
  }

  /** Alpha bytes only ever move to 0. */
  lemma OnlyAlphaCleared(data: seq<byte>, t: int, k: nat)
    requires k < |data|
    ensures RemoveNearWhite(data, t)[k] == data[k] || (k % 4 == 3 && RemoveNearWhite(data, t)[k] == 0)
  {
  }

  /** Byte `k` is the same after one run and after two: a colour byte is
      never written, and an alpha byte is decided by colour bytes the first
      run left alone. */
  lemma IdempotentAt(data: seq<byte>, t: int, k: nat)
    requires k < |data|
    ensures RemoveNearWhite(RemoveNearWhite(data, t), t)[k] == RemoveNearWhite(data, t)[k]
  {
    var once := RemoveNearWhite(data, t);
    ByteAt(once, t, k);
    ByteAt(data, t, k);
    if k % 4 == 3 {
      var p := k - 3;
      ByteAt(data, t, p);
      ByteAt(data, t, p + 1);
      ByteAt(data, t, p + 2);
      assert NearWhite(once, p, t) == NearWhite(data, p, t);
    }
  }

  /** Running the transform a second time changes nothing. */
  lemma Idempotent(data: seq<byte>, t: int)
    ensures RemoveNearWhite(RemoveNearWhite(data, t), t) == RemoveNearWhite(data, t)
  {
    forall k | 0 <= k < |data|
      ensures RemoveNearWhite(RemoveNearWhite(data, t), t)[k] == RemoveNearWhite(data, t)[k]
    {
      IdempotentAt(data, t, k);
    }
  }

  /** Whole-image idempotence, dimensions included. */
  lemma RemoveBackgroundIdempotent(img: ImageData, t: int)
    ensures RemoveBackground(RemoveBackground(img, t), t) == RemoveBackground(img, t)
  {
    Idempotent(img.data, t);
  }

  /** An all-white image (every colour byte 255) comes out with every alpha
      byte 0, for the threshold the source uses. */
  lemma WhiteImageBecomesTransparent(img: ImageData)
    requires Valid(img)
    requires forall k :: 0 <= k < |img.data| && k % 4 != 3 ==> img.data[k] == 255
    ensures forall k :: 0 <= k < |img.data| && k % 4 == 3 ==> RemoveBackground(img, Threshold).data[k] == 0
  {
    var r := RemoveBackground(img, Threshold);
    forall k | 0 <= k < |img.data| && k % 4 == 3 ensures r.data[k] == 0 {
      var p := k - 3;
      assert img.data[p] == 255 && img.data[p + 1] == 255 && img.data[p + 2] == 255;
    }
  }

  /** Two pixels, white and near-black, both opaque: the white one loses its
      alpha and the dark one keeps it. */
  lemma TwoPixelExample()
    ensures RemoveNearWhite([255, 255, 255, 255, 10, 10, 10, 255], Threshold) == [255, 255, 255, 0, 10, 10, 10, 255]
  {
    var d: seq<byte> := [255, 255, 255, 255, 10, 10, 10, 255];
    var r := RemoveNearWhite(d, Threshold);
    assert NearWhite(d, 0, Threshold) && !NearWhite(d, 4, Threshold);
    assert r[3] == 0 && r[7] == 255;
  }
}
