/**
 * The cache invariant of a Color: the representation set most recently is the
 * authority, and every other slot is either empty or holds what the getters
 * derive from that authority. Under it, what a read returns depends on the
 * authority alone, never on which slots happen to be memoised.
 */
module Coherence {
  import opened Wrappers
  import opened PureColor
  import opened ColorCache

  /** The representation that was assigned last. */
  datatype Authority = FromRgb(rgb: Triple) | FromHsv(hsv: Triple) | FromHex(hex: string)

  /** The rgb triplet an authority stands for. */
  function RgbOf(lib: Library, a: Authority): Triple {
    match a
    case FromRgb(x) => x
    case FromHsv(y) => lib.hsvToRgb(y)
    case FromHex(z) => lib.hexToRgb(z)
  }

  /** The hsv triplet an authority stands for (derived through rgb unless it is hsv itself). */
  function HsvOf(lib: Library, a: Authority): Triple {
    if a.FromHsv? then a.hsv else lib.rgbToHsv(RgbOf(lib, a))
  }

  /** The hex string an authority stands for (derived through rgb unless it is hex itself). */
  function HexOf(lib: Library, a: Authority): string {
    if a.FromHex? then a.hex else lib.rgbToHex(RgbOf(lib, a))
  }

  /**
   * `c` is a cache of `a`: the authority's own slot is filled (a hex authority
   * being non-empty), each other filled slot holds the derived value, and the
   * hsv and hex slots are only ever derived after rgb has been.
   */
  predicate Coherent(lib: Library, c: Color, a: Authority) {
    && (match a
        case FromRgb(x) => c.rgb == Some(x)
        case FromHsv(y) => c.hsv == Some(y)
        case FromHex(z) => z != "" && c.hex == Some(z))
    && (c.rgb.Some? ==> c.rgb.value == RgbOf(lib, a))
    && (c.hsv.Some? ==> c.hsv.value == HsvOf(lib, a) && (a.FromHsv? || c.rgb.Some?))
    && (c.hex.Some? ==> c.hex.value == HexOf(lib, a) && (a.FromHex? || c.rgb.Some?))
  }

  lemma CoherentIsReadable(lib: Library, c: Color, a: Authority)
    requires Coherent(lib, c, a)
    ensures Readable(c)
  {
  }

  /** A successful rgb, rgba or hsv assignment, or a non-empty hex assignment, makes the new value the authority. */
  lemma AssignmentsEstablishCoherence(lib: Library, c: Color, v: seq<int>, h: string)
    ensures |v| == 3 ==> Coherent(lib, SetRgb(c, v).color, FromRgb(v))
    ensures |v| == 3 ==> Coherent(lib, SetHsv(c, v).color, FromHsv(v))
    ensures |v| == 4 ==> Coherent(lib, SetRgba(c, v).color, FromRgb(v[..3]))
    ensures h != "" ==> Coherent(lib, SetHex(c, h), FromHex(h))
  {
  }

  lemma ReadRgbFollowsAuthority(lib: Library, c: Color, a: Authority)
    requires Coherent(lib, c, a)
    ensures GetRgb(lib, c).value == RgbOf(lib, a)
    ensures Coherent(lib, GetRgb(lib, c).color, a)
  {
  }

  lemma ReadHsvFollowsAuthority(lib: Library, c: Color, a: Authority)
    requires Coherent(lib, c, a)
    ensures GetHsv(lib, c).value == HsvOf(lib, a)
    ensures Coherent(lib, GetHsv(lib, c).color, a)
  {
  }

  lemma ReadHexFollowsAuthority(lib: Library, c: Color, a: Authority)
    requires Coherent(lib, c, a)
    ensures GetHex(lib, c).value == HexOf(lib, a)
    ensures Coherent(lib, GetHex(lib, c).color, a)
  {
  }

  lemma ReadRgbaFollowsAuthority(lib: Library, c: Color, a: Authority)
    requires Coherent(lib, c, a)
    ensures GetRgba(lib, c).value == RgbOf(lib, a) + [c.alpha]
    ensures Coherent(lib, GetRgba(lib, c).color, a)
  {
  }

  /** A property read of the object. */
  datatype Access = RgbRead | RgbaRead | HsvRead | HexRead

  /** A value a read can return: channels (rgb, rgba, hsv) or a hex string. */
  datatype Value = Channels(channels: seq<int>) | Text(text: string)

  /** One read, on the object as it currently stands. */
  function Perform(lib: Library, c: Color, x: Access): (r: Read<Value>)
    requires Readable(c)
    ensures Keeps(c, r.color) && Readable(r.color)
  {
    match x
    case RgbRead => var g := GetRgb(lib, c); Read(Channels(g.value), g.color)
    case RgbaRead => var g := GetRgba(lib, c); Read(Channels(g.value), g.color)
    case HsvRead => var g := GetHsv(lib, c); Read(Channels(g.value), g.color)
    case HexRead => var g := GetHex(lib, c); Read(Text(g.value), g.color)
  }

  /** What a read returns according to the authority alone. */
  function Expected(lib: Library, a: Authority, alpha: int, x: Access): Value {
    match x
    case RgbRead => Channels(RgbOf(lib, a))
    case RgbaRead => Channels(RgbOf(lib, a) + [alpha])
    case HsvRead => Channels(HsvOf(lib, a))
    case HexRead => Text(HexOf(lib, a))
  }

  /** Reads performed one after another, each on the object the previous one left behind. */
  function Replay(lib: Library, c: Color, xs: seq<Access>): (r: Read<seq<Value>>)
    requires Readable(c)
    ensures |r.value| == |xs|
    ensures Keeps(c, r.color) && Readable(r.color)
    decreases |xs|
  {
    if |xs| == 0 then Read([], c)
    else
      var first := Perform(lib, c, xs[0]);
      var rest := Replay(lib, first.color, xs[1..]);
      Read([first.value] + rest.value, rest.color)
  }

  /**
   * Memoisation is invisible: on a coherent object, any sequence of reads returns,
   * at every step, exactly what the authority stands for, and leaves the object coherent.
   */
  lemma {:induction false} ReplayFollowsAuthority(lib: Library, c: Color, a: Authority, xs: seq<Access>)
    requires Coherent(lib, c, a)
    ensures Coherent(lib, Replay(lib, c, xs).color, a)
    ensures forall i :: 0 <= i < |xs| ==> Replay(lib, c, xs).value[i] == Expected(lib, a, c.alpha, xs[i])
    decreases |xs|
  {
    if |xs| > 0 {
      var first := Perform(lib, c, xs[0]);
      ReplayFollowsAuthority(lib, first.color, a, xs[1..]);
      assert first.color.alpha == c.alpha;
    }
  }
}
