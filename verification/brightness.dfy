/**
 * brighterThan, darkerThan and brighterOrDarkerThan: compare the value (third
 * hsv channel) of this colour with another's and, when it is not already far
 * enough from it, assign a clamped new value through the hsv setter.
 */
module Brightness {
  import opened PureColor
  import opened ColorCache
  import opened Coherence

  /** The upper clamp applied to a brightened value (the hue range, not the value range). */
  const Ceiling := 360

  /** This object and the other one after an adjustment (reading the other's hsv memoises it). */
  datatype Adjusted = Adjusted(color: Color, other: Color)

  function Min(a: int, b: int): int {
    if a <= b then a else b
  }

  function Max(a: int, b: int): int {
    if a >= b then a else b
  }

  /** The value channel of a colour as the hsv getter reads it. */
  function HsvValue(lib: Library, c: Color): int
    requires Readable(c)
  {
    GetHsv(lib, c).value[2]
  }

  /**
   * Make this colour at least `difference` brighter than `other`: a no-op when it
   * already is, otherwise its value becomes other's value plus `difference`,
   * clamped to 360, with its own hue and saturation.
   */
  function BrighterThan(lib: Library, c: Color, other: Color, difference: int): (r: Adjusted)
    requires Readable(c) && Readable(other)
    ensures Readable(r.color) && Keeps(other, r.other) && Readable(r.other)
    ensures r.other == GetHsv(lib, other).color
    ensures GetHsv(lib, r.color).value[..2] == GetHsv(lib, c).value[..2]
    ensures HsvValue(lib, r.color) >= Min(HsvValue(lib, other) + difference, Ceiling)
    ensures HsvValue(lib, c) >= HsvValue(lib, other) + difference ==>
      && r.color == GetHsv(lib, c).color
      && Keeps(c, r.color) && HsvValue(lib, r.color) == HsvValue(lib, c)
    ensures HsvValue(lib, c) < HsvValue(lib, other) + difference ==>
      && OnlyHsv(r.color, GetHsv(lib, r.color).value)
      && HsvValue(lib, r.color) == Min(HsvValue(lib, other) + difference, Ceiling)
  {
    var own := GetHsv(lib, c);
    var theirs := GetHsv(lib, other);
    if own.value[2] >= theirs.value[2] + difference then Adjusted(own.color, theirs.color)
    else
      var raised := theirs.value[2] + difference;
      var v := if raised > Ceiling then Ceiling else raised;
      var assignment := SetHsv(own.color, [own.value[0], own.value[1], v]);
      Adjusted(assignment.color, theirs.color)
  }

  /**
   * Make this colour at least `difference` darker than `other`: a no-op when it
   * already is, otherwise its value becomes other's value minus `difference`,
   * clamped to 0, with its own hue and saturation.
   */
  function DarkerThan(lib: Library, c: Color, other: Color, difference: int): (r: Adjusted)
    requires Readable(c) && Readable(other)
    ensures Readable(r.color) && Keeps(other, r.other) && Readable(r.other)
    ensures r.other == GetHsv(lib, other).color
    ensures GetHsv(lib, r.color).value[..2] == GetHsv(lib, c).value[..2]
    ensures HsvValue(lib, r.color) <= Max(HsvValue(lib, other) - difference, 0)
    ensures HsvValue(lib, c) <= HsvValue(lib, other) - difference ==>
      && r.color == GetHsv(lib, c).color
      && Keeps(c, r.color) && HsvValue(lib, r.color) == HsvValue(lib, c)
    ensures HsvValue(lib, c) > HsvValue(lib, other) - difference ==>
      && OnlyHsv(r.color, GetHsv(lib, r.color).value)
      && HsvValue(lib, r.color) == Max(HsvValue(lib, other) - difference, 0)
  {
    var own := GetHsv(lib, c);
    var theirs := GetHsv(lib, other);
    if own.value[2] <= theirs.value[2] - difference then Adjusted(own.color, theirs.color)
    else
      var lowered := theirs.value[2] - difference;
      var v := if lowered < 0 then 0 else lowered;
      var assignment := SetHsv(own.color, [own.value[0], own.value[1], v]);
      Adjusted(assignment.color, theirs.color)
  }

  /**
   * Darken when this colour's value does not exceed the other's (ties included),
   * brighten otherwise. Both colours' hsv are read first, which only memoises.
   */
  function BrighterOrDarkerThan(lib: Library, c: Color, other: Color, difference: int): (r: Adjusted)
    requires Readable(c) && Readable(other)
    ensures HsvValue(lib, c) <= HsvValue(lib, other) ==> r == DarkerThan(lib, c, other, difference)
    ensures HsvValue(lib, c) > HsvValue(lib, other) ==> r == BrighterThan(lib, c, other, difference)
  {
    var own := GetHsv(lib, c);
    var theirs := GetHsv(lib, other);
    if own.value[2] <= theirs.value[2] then DarkerThan(lib, own.color, theirs.color, difference)
    else BrighterThan(lib, own.color, theirs.color, difference)
  }

  /** A value within [0, 360] stays within it under all three adjustments. */
  lemma AdjustmentsStayInRange(lib: Library, c: Color, other: Color, difference: int)
    requires Readable(c) && Readable(other)
    requires 0 <= HsvValue(lib, c) <= Ceiling
    ensures 0 <= HsvValue(lib, BrighterThan(lib, c, other, difference).color) <= Ceiling
    ensures 0 <= HsvValue(lib, DarkerThan(lib, c, other, difference).color) <= Ceiling
    ensures 0 <= HsvValue(lib, BrighterOrDarkerThan(lib, c, other, difference).color) <= Ceiling
  {
  }

  /** Equal values go to darkerThan: with a positive difference the value drops to other's minus it, floored at 0. */
  lemma TieDarkens(lib: Library, c: Color, other: Color, difference: int)
    requires Readable(c) && Readable(other)
    requires HsvValue(lib, c) == HsvValue(lib, other) && difference > 0
    ensures HsvValue(lib, BrighterOrDarkerThan(lib, c, other, difference).color) == Max(HsvValue(lib, c) - difference, 0)
    ensures BrighterOrDarkerThan(lib, c, other, difference).color.alpha == 1
  {
  }

  /** Adjusting a second time against the same colour changes nothing more. */
  lemma AdjustmentsAreIdempotent(lib: Library, c: Color, other: Color, difference: int)
    requires Readable(c) && Readable(other)
    ensures var once := BrighterThan(lib, c, other, difference);
      BrighterThan(lib, once.color, once.other, difference) == once
    ensures var once := DarkerThan(lib, c, other, difference);
      DarkerThan(lib, once.color, once.other, difference) == once
  {
  }

  /**
   * On coherent colours, an adjustment that does nothing leaves this colour a cache
   * of the same authority, one that changes the value makes the new hsv the
   * authority, and the other colour stays a cache of its own.
   */
  lemma BrighterThanKeepsCoherence(lib: Library, c: Color, a: Authority, other: Color, b: Authority, difference: int)
    requires Coherent(lib, c, a) && Coherent(lib, other, b)
    ensures var r := BrighterThan(lib, c, other, difference);
      && Coherent(lib, r.other, b)
      && (HsvOf(lib, a)[2] >= HsvOf(lib, b)[2] + difference ==> Coherent(lib, r.color, a))
      && (HsvOf(lib, a)[2] < HsvOf(lib, b)[2] + difference ==>
            Coherent(lib, r.color, FromHsv([HsvOf(lib, a)[0], HsvOf(lib, a)[1], Min(HsvOf(lib, b)[2] + difference, Ceiling)])))
  {
  }

  lemma DarkerThanKeepsCoherence(lib: Library, c: Color, a: Authority, other: Color, b: Authority, difference: int)
    requires Coherent(lib, c, a) && Coherent(lib, other, b)
    ensures var r := DarkerThan(lib, c, other, difference);
      && Coherent(lib, r.other, b)
      && (HsvOf(lib, a)[2] <= HsvOf(lib, b)[2] - difference ==> Coherent(lib, r.color, a))
      && (HsvOf(lib, a)[2] > HsvOf(lib, b)[2] - difference ==>
            Coherent(lib, r.color, FromHsv([HsvOf(lib, a)[0], HsvOf(lib, a)[1], Max(HsvOf(lib, b)[2] - difference, 0)])))
  {
  }

  /**
   * The no-op tests compare with other's value plus or minus `difference`, not
   * with the clamped bound: a colour already at the clamp is assigned again
   * (so alpha is reset to 1), and brightening a value above 360 lowers it to 360.
   */
  lemma ClampedValuesAreReassigned(lib: Library, c: Color, other: Color, difference: int)
    requires Readable(c) && Readable(other)
    ensures HsvValue(lib, c) == Ceiling < HsvValue(lib, other) + difference ==>
      var r := BrighterThan(lib, c, other, difference).color;
      HsvValue(lib, r) == Ceiling && r.alpha == 1 && OnlyHsv(r, GetHsv(lib, r).value)
    ensures HsvValue(lib, c) == 0 > HsvValue(lib, other) - difference ==>
      var r := DarkerThan(lib, c, other, difference).color;
      HsvValue(lib, r) == 0 && r.alpha == 1 && OnlyHsv(r, GetHsv(lib, r).value)
    ensures Ceiling < HsvValue(lib, c) < HsvValue(lib, other) + difference ==>
      HsvValue(lib, BrighterThan(lib, c, other, difference).color) == Ceiling
  {
  }
}
