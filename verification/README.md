# Color, verified

A Dafny model of the `Color` class of the avatars package
(`packages/avatars/src/Color.ts`). A Color holds an `alpha` field and a cache of
up to three representations of one colour: `rgb` and `hsv` (three integers each)
and `hex` (a string). The representation assigned last is the authority. The
others are derived on demand through the `pure-color` conversions and memoised.
The class also has a constructor that dispatches on its text argument, `clone`,
and three brightness adjustments that compare the value channel of hsv with
another colour's. The adjustments decide whether to act by comparing with the
other value plus or minus the difference, before clamping. So when other value +
difference exceeds 360, brighterThan assigns a colour already at 360 again and
resets its alpha, and lowers a value between 360 and other value + difference
to 360. Likewise, when other value - difference is below 0, darkerThan assigns a
colour already at 0 again and resets its alpha.

The model is functional:

- A `Color` is an immutable record of three `Option` slots plus `alpha`.
- The rgb, rgba and hsv setters return the object after the assignment together with the error thrown, if any. The hex setter cannot throw and returns only the object.
- Getters return the value read together with the object, whose cache the read may have filled.
- The brightness operations return this object and the other one, since reading the other's hsv memoises it too.

Modules:

- `Wrappers`: `Option` and `Result`.
- `PureColor`: the conversion library, as a record of four functions. Every
  getter takes it as a parameter, so every result holds whatever the conversions
  compute. Each conversion in the record includes the rounding that Color.ts
  applies after calling the library.
- `ColorCache`: the state, the setters, the memoising getters, and read idempotence.
- `Coherence`: the cache invariant (`Coherent`), the reference values of an
  authority (`RgbOf`, `HsvOf`, `HexOf`), and the proof that any sequence of reads
  returns those values.
- `Construction`: the constructor (`Create`) and `clone`.
- `Brightness`: `brighterThan`, `darkerThan` and `brighterOrDarkerThan`.

Getters require `Readable`: a cached rgb slot, a non-empty hex slot, or a cached
hsv slot. In the JavaScript, an empty hex string is falsy. On an object holding
only `''` as hex, the rgb getter falls back to the hsv getter, which asks the rgb
getter again, and neither returns. `Readable` is exactly the condition under
which the getters terminate. Every constructed colour satisfies it, and so does
every colour that is `Coherent`.

## Model

| member | source | states |
|---|---|---|
| ColorCache.SetRgb | packages/avatars/src/Color.ts:53-62 | throws InvalidLength exactly when the length is not 3, and then leaves the object as it was; otherwise alpha is 1 and rgb is the only cached slot, holding the given value |
| ColorCache.SetRgba | packages/avatars/src/Color.ts:68-75 | throws InvalidLength exactly when the length is not 4, leaving the object as it was; otherwise rgb is the first three values, hsv and hex are empty and alpha is the fourth value |
| ColorCache.SetHsv | packages/avatars/src/Color.ts:81-90 | throws InvalidLength exactly when the length is not 3, leaving the object as it was; otherwise alpha is 1 and hsv is the only cached slot |
| ColorCache.SetHex | packages/avatars/src/Color.ts:97-102 | never throws (no validation); alpha is 1 and hex is the only cached slot |
| ColorCache.GetRgb | packages/avatars/src/Color.ts:64-66 | returns the cached rgb if present, else hexToRgb of a truthy hex, else hsvToRgb of hsv; the result is stored in the rgb slot; alpha, hsv and hex are unchanged |
| ColorCache.GetHsv | packages/avatars/src/Color.ts:92-95 | returns the cached hsv unchanged if present, else rgbToHsv of an rgb read, memoising both; alpha and every filled slot are kept |
| ColorCache.GetHex | packages/avatars/src/Color.ts:104-107 | returns a truthy cached hex unchanged, else rgbToHex of an rgb read, memoising both; alpha and every filled slot are kept |
| ColorCache.GetRgba | packages/avatars/src/Color.ts:77-79 | four values: the rgb read followed by the current alpha; the object changes exactly as one rgb read changes it, so alpha, hsv and hex are untouched |
| ColorCache.ReadsAreIdempotent | packages/avatars/src/Color.ts:64-107 | reading rgb, hsv, hex or rgba twice in a row gives the same value and the second read changes nothing |
| Coherence.CoherentIsReadable | packages/avatars/src/Color.ts:64-95 | a coherent cache always lets the getters terminate |
| Coherence.AssignmentsEstablishCoherence | packages/avatars/src/Color.ts:53-102 | each successful assignment (hex only when non-empty) makes the assigned value the sole authority of a coherent cache |
| Coherence.ReadRgbFollowsAuthority | packages/avatars/src/Color.ts:64-66 | on a coherent object the rgb read returns the authority's rgb whichever slots are cached, and leaves the object coherent |
| Coherence.ReadHsvFollowsAuthority | packages/avatars/src/Color.ts:92-95 | on a coherent object the hsv read returns the authority's hsv and leaves the object coherent |
| Coherence.ReadHexFollowsAuthority | packages/avatars/src/Color.ts:104-107 | on a coherent object the hex read returns the authority's hex and leaves the object coherent |
| Coherence.ReadRgbaFollowsAuthority | packages/avatars/src/Color.ts:77-79 | on a coherent object the rgba read returns the authority's rgb followed by alpha |
| Coherence.Perform | packages/avatars/src/Color.ts:64-107 | any single read keeps alpha and every filled slot, and leaves the object readable |
| Coherence.Replay | packages/avatars/src/Color.ts:64-107 | a sequence of reads returns one value per read and keeps alpha, every filled slot and readability |
| Coherence.ReplayFollowsAuthority | packages/avatars/src/Color.ts:64-107 | every read in any sequence of reads on a coherent object returns what the authority alone determines, so memoisation is never observable |
| Construction.Create | packages/avatars/src/Color.ts:15-47 | succeeds exactly when the text starts with `#` or it is an rgb, rgba or hsv call with the number of values that tag's setter demands; a leading `#` yields exactly the hex-only colour holding the text, with alpha 1, whatever else the text contains; otherwise no `tag(...)` match gives UnknownFormat, a tag other than rgb, rgba, hsv gives UnsupportedFormat, and a wrong number of values gives the setter's InvalidLength (exactly then); a constructed colour is readable and has alpha 1 unless built by an rgba call |
| Construction.ConstructionReadsBack | packages/avatars/src/Color.ts:15-47 | a constructed colour is coherent, and reading back the property it was built with returns the text or the parsed values (rgba included, alpha as the fourth) |
| Construction.DefaultIsBlackHex | packages/avatars/src/Color.ts:15-18 | with no argument the constructor yields the hex colour `#000` with alpha 1 |
| Construction.Clone | packages/avatars/src/Color.ts:49-51 | the clone holds only this colour's rgb, with alpha 1; this object is left as the rgb read left it |
| Construction.CloneNormalisesThroughRgb | packages/avatars/src/Color.ts:49-51 | a clone of a coherent colour has rgb as its authority: same rgb, rgba ending in 1 (alpha dropped), and hsv re-derived from rgb |
| Brightness.BrighterThan | packages/avatars/src/Color.ts:109-126 | afterwards the value is at least min(other value + difference, 360), with hue and saturation kept; if the value is already at least other value + difference, nothing is set: this object changes only as one hsv read changes it, and alpha is unchanged; otherwise only hsv is cached, its value is exactly min(other value + difference, 360), and alpha is 1; the other colour changes only as one hsv read changes it |
| Brightness.DarkerThan | packages/avatars/src/Color.ts:128-145 | afterwards the value is at most max(other value - difference, 0), with hue and saturation kept; if the value is already at most other value - difference, nothing is set: this object changes only as one hsv read changes it, and alpha is unchanged; otherwise only hsv is cached with value exactly max(other value - difference, 0), and alpha is 1; the other colour changes only as one hsv read changes it |
| Brightness.BrighterOrDarkerThan | packages/avatars/src/Color.ts:147-156 | behaves as darkerThan when this value is at most the other's (ties included) and as brighterThan otherwise; the preliminary reads make no difference |
| Brightness.AdjustmentsStayInRange | packages/avatars/src/Color.ts:109-156 | a value within [0, 360] stays within [0, 360] under all three adjustments |
| Brightness.TieDarkens | packages/avatars/src/Color.ts:147-156 | with equal values and a positive difference, brighterOrDarkerThan lowers the value to max(value - difference, 0) and sets alpha to 1 |
| Brightness.AdjustmentsAreIdempotent | packages/avatars/src/Color.ts:109-145 | repeating brighterThan or darkerThan against the same colour changes nothing further |
| Brightness.BrighterThanKeepsCoherence | packages/avatars/src/Color.ts:109-126 | on coherent colours a no-op keeps this colour's authority, a change makes the new hsv the authority, and the other colour stays coherent |
| Brightness.DarkerThanKeepsCoherence | packages/avatars/src/Color.ts:128-145 | the same for darkerThan |
| Brightness.ClampedValuesAreReassigned | packages/avatars/src/Color.ts:113-142 | the no-op tests use other value ± difference, not the clamped bound: when other value + difference exceeds 360, brighterThan assigns a value already at 360 again (alpha reset to 1, only hsv cached) and lowers any value above 360 but below other value + difference to 360; when other value - difference is below 0, darkerThan assigns a value already at 0 again, likewise resetting alpha |

## Left out

- The `pure-color` conversions are library code doing floating-point maths, followed by the `Math.round` in Color.ts. They are parameters returning three integers (hex→rgb, rgb→hsv, hsv→rgb) or a string (rgb→hex). Nothing is proved about their values and there are no round-trip claims between representations.
- The constructor's regular expression `(.*)\((.*)\)`, the comma split, `trim` and `parseInt` are not modelled. `Create` takes the text, used for the `#` test and the error payload, together with what the pattern extracted (`Call`: the trimmed tag and the parsed integers, or None when nothing matched). NaN from non-numeric tokens is not representable.
- Construction.Clone: the model assumes that parsing the text `rgb(` + join + `)` gives back the integers that were joined. It passes them as the `Call` directly. Join and the decimal rendering are modelled only to build that text.
- Channels, alpha and `difference` are integers. Fractional numbers, which JavaScript allows when a setter is assigned directly, are not modelled.
- Getters require `Readable`. An object whose only slot is an empty hex string makes the JavaScript getters recurse until the stack overflows. This model excludes that case instead of producing the stack-overflow error.
- Defensive copies (`.slice(0)` in the hsv and hex getters) and array aliasing are not modelled, because Dafny sequences are values.
- `this` and `other` are modelled as distinct objects. Calling an adjustment with the object itself as `other` is not modelled.
- Error messages are reduced to three error kinds. The rgba setter's message says that a length of 3 is expected, although it checks for 4. The model records only `InvalidLength`.
- The brightness methods return `this` so that calls can be chained. Here they return the adjusted state instead.
