/** The records and enumerations of types.ts. TypeScript string enums are
    plain strings at run time, so a request carries the raw `style` and
    `palette` strings; `LogoStyle` and `ColorPalette` name the enumerated
    members and their string values. */
module Types {
  import opened Wrappers

  datatype LogoStyle = Geometric | Typographic | Abstract | Monoline | MinimalistPictorial {

    /** The string value the enum member stands for (types.ts lines 2-8). */
    function Value(): string {
      match this
      case Geometric => "Geometric"
      case Typographic => "Typographic"
      case Abstract => "Abstract"
      case Monoline => "Monoline"
      case MinimalistPictorial => "Minimalist Pictorial"
    }
  }

  /** The enum member whose value is `v`, if any. */
  function ParseStyle(v: string): (r: Option<LogoStyle>)
    ensures r.Some? ==> r.value.Value() == v
    ensures forall s: LogoStyle :: s.Value() == v ==> r == Some(s)
  {
    if v == Geometric.Value() then Some(Geometric)
    else if v == Typographic.Value() then Some(Typographic)
    else if v == Abstract.Value() then Some(Abstract)
    else if v == Monoline.Value() then Some(Monoline)
    else if v == MinimalistPictorial.Value() then Some(MinimalistPictorial)
    else None
  }

  datatype ColorPalette = Monochrome | Pastel | Vibrant | Earthy | Luxury {

    /** The string value the enum member stands for (types.ts lines 10-16). */
    function Value(): string {
      match this
      case Monochrome => "Monochrome (B&W)"
      case Pastel => "Soft Pastels"
      case Vibrant => "Modern Vibrant"
      case Earthy => "Natural Earthy"
      case Luxury => "Gold & Charcoal"
    }
  }

  /** What the user asks for. `slogan` and `customDetails` are optional
      fields; `style` and `palette` hold the enum's run-time string. */
  datatype LogoRequest = LogoRequest(
    brandName: string,
    slogan: Option<string>,
    industry: string,
    style: string,
    palette: string,
    customDetails: Option<string>)

  /** One entry of the in-memory history. */
  datatype GeneratedLogo = GeneratedLogo(
    id: string,
    imageUrl: string,
    prompt: string,
    timestamp: int,
    request: LogoRequest)
}
