/**
 * The Color constructor, which dispatches on its text argument, and `clone`,
 * which goes back through the constructor with an `rgb(...)` text.
 */
module Construction {
  import opened Wrappers
  import opened PureColor
  import opened ColorCache
  import opened Coherence

  /**
   * What the `tag(values)` pattern extracts from a constructor argument: the
   * trimmed tag and the integer-parsed, comma-separated values.
   */
  datatype Call = Call(tag: string, values: seq<int>)

  /** The argument the constructor takes when none is given. */
  const DefaultText: string := "#000"

  /** A constructor argument whose first character is `#` is taken as hex, as is. */
  predicate IsHexLiteral(text: string) {
    |text| > 0 && text[0] == '#'
  }

  /** The tags the constructor accepts, with the number of values each one's setter demands. */
  function Arity(tag: string): Option<nat> {
    if tag == "rgb" || tag == "hsv" then Some(3)
    else if tag == "rgba" then Some(4)
    else None
  }

  /** A thrown setter error aborts construction; otherwise the set object is the result. */
  function Raise(o: Outcome): Result<Color, Error> {
    if o.thrown.Some? then Failure(o.thrown.value) else Success(o.color)
  }

  /**
   * `new Color(text)`, where `call` is what the `tag(values)` pattern matched in
   * `text` (None when it does not match). The setters start from a blank object.
   */
  function Create(text: string, call: Option<Call>): (r: Result<Color, Error>)
    ensures IsHexLiteral(text) ==> r == Success(Color(None, None, Some(text), 1))
    ensures !IsHexLiteral(text) && call.None? ==> r == Failure(UnknownFormat(text))
    ensures !IsHexLiteral(text) && call.Some? && Arity(call.value.tag).None? ==>
      r == Failure(UnsupportedFormat(text))
    ensures r == Failure(InvalidLength) <==>
      && !IsHexLiteral(text) && call.Some? && Arity(call.value.tag).Some?
      && |call.value.values| != Arity(call.value.tag).value
    ensures r.Success? <==>
      || IsHexLiteral(text)
      || (call.Some? && Arity(call.value.tag).Some? && |call.value.values| == Arity(call.value.tag).value)
    ensures r.Success? ==> Readable(r.value)
    ensures r.Success? && (IsHexLiteral(text) || !(call.Some? && call.value.tag == "rgba")) ==>
      r.value.alpha == 1
  {
    if IsHexLiteral(text) then Success(SetHex(Blank, text))
    else
      match call
      case None => Failure(UnknownFormat(text))
      case Some(Call(tag, values)) =>
        if tag == "rgb" then Raise(SetRgb(Blank, values))
        else if tag == "rgba" then Raise(SetRgba(Blank, values))
        else if tag == "hsv" then Raise(SetHsv(Blank, values))
        else Failure(UnsupportedFormat(text))
  }

  /** The representation a successfully constructed colour holds as its authority. */
  function Assigned(text: string, call: Option<Call>): Authority
    requires Create(text, call).Success?
  {
    if IsHexLiteral(text) then FromHex(text)
    else if call.value.tag == "hsv" then FromHsv(call.value.values)
    else if call.value.tag == "rgb" then FromRgb(call.value.values)
    else FromRgb(call.value.values[..3])
  }

  /** What the constructor was given is what reading the corresponding property returns. */
  lemma ConstructionReadsBack(lib: Library, text: string, call: Option<Call>)
    requires Create(text, call).Success?
    ensures Coherent(lib, Create(text, call).value, Assigned(text, call))
    ensures IsHexLiteral(text) ==> GetHex(lib, Create(text, call).value).value == text
    ensures !IsHexLiteral(text) && call.value.tag == "rgb" ==>
      GetRgb(lib, Create(text, call).value).value == call.value.values
    ensures !IsHexLiteral(text) && call.value.tag == "rgba" ==>
      GetRgba(lib, Create(text, call).value).value == call.value.values
    ensures !IsHexLiteral(text) && call.value.tag == "hsv" ==>
      GetHsv(lib, Create(text, call).value).value == call.value.values
  {
  }

  /** Without an argument the constructor yields the hex colour `#000`. */
  lemma DefaultIsBlackHex(call: Option<Call>)
    ensures Create(DefaultText, call) == Success(Color(None, None, Some("#000"), 1))
  {
  }

  /** The decimal digits of a natural number. */
  function Digits(n: nat): string
    decreases n
  {
    if n < 10 then ["0123456789"[n]] else Digits(n / 10) + ["0123456789"[n % 10]]
  }

  /** An integer written in decimal, as JavaScript writes it when joining an array. */
  function Decimal(n: int): string {
    if n < 0 then "-" + Digits(-n) else Digits(n)
  }

  /** The values written in decimal and separated by commas. */
  function Join(values: seq<int>): string
    decreases |values|
  {
    if |values| == 0 then ""
    else if |values| == 1 then Decimal(values[0])
    else Decimal(values[0]) + "," + Join(values[1..])
  }

  /**
   * `clone()`: reads rgb (memoising it in this object) and constructs a new
   * colour from the text `rgb(r,g,b)`. Returns the clone and this object after the read.
   */
  function Clone(lib: Library, c: Color): (r: Read<Color>)
    requires Readable(c)
    ensures OnlyRgb(r.value, GetRgb(lib, c).value)
    ensures r.color == GetRgb(lib, c).color
  {
    var rgb := GetRgb(lib, c);
    var made := Create("rgb(" + Join(rgb.value) + ")", Some(Call("rgb", rgb.value)));
    assert made.Success?;
    Read(made.value, rgb.color)
  }

  /**
   * A clone of a coherent colour has the same rgb, but it drops alpha (reading
   * rgba on it ends in 1) and keeps rgb as its only authority, so its hsv and hex
   * are re-derived from rgb.
   */
  lemma CloneNormalisesThroughRgb(lib: Library, c: Color, a: Authority)
    requires Coherent(lib, c, a)
    ensures Coherent(lib, Clone(lib, c).value, FromRgb(RgbOf(lib, a)))
    ensures GetRgba(lib, Clone(lib, c).value).value == RgbOf(lib, a) + [1]
    ensures GetHsv(lib, Clone(lib, c).value).value == lib.rgbToHsv(RgbOf(lib, a))
    ensures Coherent(lib, Clone(lib, c).color, a)
  {
  }
}
