/**
 * The state of a Color object: an optional cached slot per representation
 * (rgb, hsv, hex) plus the alpha field, with the setters that replace the cache
 * and the memoising getters that fill it.
 */
module ColorCache {
  import opened Wrappers
  import opened PureColor

  /** The errors the Color class raises. */
  datatype Error =
    | UnsupportedFormat(text: string)  // `tag(...)` with a tag other than rgb, rgba, hsv
    | UnknownFormat(text: string)      // neither a `#` literal nor `tag(...)`
    | InvalidLength                    // an array of the wrong length given to a setter

  /** The fields of a Color: the representation cache and alpha. */
  datatype Color = Color(rgb: Option<Triple>, hsv: Option<Triple>, hex: Option<string>, alpha: int)

  /** What a getter hands back: the value read, and the object with its cache as the read left it. */
  datatype Read<+T> = Read(value: T, color: Color)

  /** The object after an assignment, and the error the assignment raised, if any. */
  datatype Outcome = Outcome(color: Color, thrown: Option<Error>)

  /** A freshly allocated object: alpha is initialised to 1 and nothing is cached yet. */
  const Blank := Color(None, None, None, 1)

  /** The hex slot counts only when it holds a non-empty string (an empty string is falsy). */
  predicate HexTruthy(c: Color) {
    c.hex.Some? && c.hex.value != ""
  }

  /** Exactly the states in which the getters terminate: otherwise rgb and hsv ask each other forever. */
  predicate Readable(c: Color) {
    c.rgb.Some? || HexTruthy(c) || c.hsv.Some?
  }

  /** `d` keeps alpha and every slot that `c` had filled (the hex slot only when truthy). */
  predicate Keeps(c: Color, d: Color) {
    && d.alpha == c.alpha
    && (c.rgb.Some? ==> d.rgb == c.rgb)
    && (c.hsv.Some? ==> d.hsv == c.hsv)
    && (HexTruthy(c) ==> d.hex == c.hex)
  }

  /** The cache holds the rgb slot alone, alpha is 1. */
  predicate OnlyRgb(c: Color, v: seq<int>) {
    c.rgb.Some? && c.rgb.value == v && c.hsv.None? && c.hex.None? && c.alpha == 1
  }

  /** The cache holds the hsv slot alone, alpha is 1. */
  predicate OnlyHsv(c: Color, v: seq<int>) {
    c.hsv.Some? && c.hsv.value == v && c.rgb.None? && c.hex.None? && c.alpha == 1
  }

  /** Assigning `rgb`: a length other than 3 throws before anything is touched. */
  function SetRgb(c: Color, v: seq<int>): (r: Outcome)
    ensures r.thrown.Some? <==> |v| != 3
    ensures r.thrown.Some? ==> r.thrown.value == InvalidLength && r.color == c
    ensures r.thrown.None? ==> OnlyRgb(r.color, v)
  {
    if |v| != 3 then Outcome(c, Some(InvalidLength))
    else Outcome(Color(Some(v), None, None, 1), None)
  }

  /** Assigning `rgba`: the first three values go through the rgb setter, the fourth becomes alpha. */
  function SetRgba(c: Color, v: seq<int>): (r: Outcome)
    ensures r.thrown.Some? <==> |v| != 4
    ensures r.thrown.Some? ==> r.thrown.value == InvalidLength && r.color == c
    ensures r.thrown.None? ==>
      && r.color.rgb == Some(v[..3]) && r.color.hsv.None? && r.color.hex.None?
      && r.color.alpha == v[3]
  {
    if |v| != 4 then Outcome(c, Some(InvalidLength))
    else
      assert [v[0], v[1], v[2]] == v[..3];
      var viaRgb := SetRgb(c, [v[0], v[1], v[2]]);
      Outcome(viaRgb.color.(alpha := v[3]), viaRgb.thrown)
  }

  /** Assigning `hsv`: a length other than 3 throws before anything is touched. */
  function SetHsv(c: Color, v: seq<int>): (r: Outcome)
    ensures r.thrown.Some? <==> |v| != 3
    ensures r.thrown.Some? ==> r.thrown.value == InvalidLength && r.color == c
    ensures r.thrown.None? ==> OnlyHsv(r.color, v)
  {
    if |v| != 3 then Outcome(c, Some(InvalidLength))
    else Outcome(Color(None, Some(v), None, 1), None)
  }

  /** Assigning `hex`: no validation at all, so it never throws. */
  function SetHex(c: Color, h: string): (r: Color)
    ensures r.hex == Some(h) && r.rgb.None? && r.hsv.None? && r.alpha == 1
  {
    Color(None, None, Some(h), 1)
  }

  /**
   * Reading `rgb`: the cached slot if there is one, otherwise derived from the
   * hex slot when it is truthy, else from hsv, and memoised.
   */
  function GetRgb(lib: Library, c: Color): (r: Read<Triple>)
    requires Readable(c)
    ensures r.color.rgb == Some(r.value)
    ensures r.color.hsv == c.hsv && r.color.hex == c.hex && r.color.alpha == c.alpha
    ensures c.rgb.Some? ==> r.value == c.rgb.value && r.color == c
    ensures c.rgb.None? && HexTruthy(c) ==> r.value == lib.hexToRgb(c.hex.value)
    ensures c.rgb.None? && !HexTruthy(c) ==> r.value == lib.hsvToRgb(c.hsv.value)
  {
    if c.rgb.Some? then Read(c.rgb.value, c)
    else
      // Reading `this.hex` and `this.hsv` here returns their cached slots unchanged.
      var v := if HexTruthy(c) then lib.hexToRgb(c.hex.value) else lib.hsvToRgb(c.hsv.value);
      Read(v, c.(rgb := Some(v)))
  }

  /** Reading `hsv`: the cached slot if there is one, otherwise derived from (a read of) rgb and memoised. */
  function GetHsv(lib: Library, c: Color): (r: Read<Triple>)
    requires Readable(c)
    ensures r.color.hsv == Some(r.value)
    ensures Keeps(c, r.color) && r.color.hex == c.hex
    ensures c.hsv.Some? ==> r.value == c.hsv.value && r.color == c
    ensures c.hsv.None? ==>
      && r.value == lib.rgbToHsv(GetRgb(lib, c).value)
      && r.color.rgb == Some(GetRgb(lib, c).value)
  {
    if c.hsv.Some? then Read(c.hsv.value, c)
    else
      var rgb := GetRgb(lib, c);
      var v := lib.rgbToHsv(rgb.value);
      Read(v, rgb.color.(hsv := Some(v)))
  }

  /** Reading `hex`: the cached slot if it is truthy, otherwise derived from (a read of) rgb and memoised. */
  function GetHex(lib: Library, c: Color): (r: Read<string>)
    requires Readable(c)
    ensures r.color.hex == Some(r.value)
    ensures Keeps(c, r.color) && r.color.hsv == c.hsv
    ensures HexTruthy(c) ==> r.value == c.hex.value && r.color == c
    ensures !HexTruthy(c) ==>
      && r.value == lib.rgbToHex(GetRgb(lib, c).value)
      && r.color.rgb == Some(GetRgb(lib, c).value)
  {
    if HexTruthy(c) then Read(c.hex.value, c)
    else
      var rgb := GetRgb(lib, c);
      var v := lib.rgbToHex(rgb.value);
      Read(v, rgb.color.(hex := Some(v)))
  }

  /** Reading `rgba`: the rgb getter is read once per channel, then alpha is appended. */
  function GetRgba(lib: Library, c: Color): (r: Read<seq<int>>)
    requires Readable(c)
    ensures |r.value| == 4 && r.value[3] == c.alpha
    ensures r.value[..3] == GetRgb(lib, c).value
    ensures r.color.rgb == Some(r.value[..3])
    ensures Keeps(c, r.color)
    ensures r.color == GetRgb(lib, c).color
  {
    var red := GetRgb(lib, c);
    var green := GetRgb(lib, red.color);
    var blue := GetRgb(lib, green.color);
    Read([red.value[0], green.value[1], blue.value[2], blue.color.alpha], blue.color)
  }

  /** Reading any representation twice in a row returns the same value and changes nothing the second time. */
  lemma ReadsAreIdempotent(lib: Library, c: Color)
    requires Readable(c)
    ensures GetRgb(lib, GetRgb(lib, c).color) == GetRgb(lib, c)
    ensures GetHsv(lib, GetHsv(lib, c).color) == GetHsv(lib, c)
    ensures GetHex(lib, GetHex(lib, c).color) == GetHex(lib, c)
    ensures GetRgba(lib, GetRgba(lib, c).color) == GetRgba(lib, c)
  {
  }
}
