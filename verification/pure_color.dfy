/**
 * The four conversions Color.ts borrows from the `pure-color` package, each already
 * followed by the `Math.round` that Color.ts applies to its numeric results.
 *
 * They are floating-point library code this model does not see, so they are passed
 * around as a record of total functions: every property proved about the colour
 * holds whatever the conversions compute, as long as the numeric ones produce
 * three channels.
 */
module PureColor {

  /** Three integer channels: red/green/blue or hue/saturation/value. */
  type Triple = s: seq<int> | |s| == 3 witness [0, 0, 0]

  /** The conversion library, one field per conversion used by Color.ts. */
  datatype Library = Library(
    hexToRgb: string -> Triple,
    rgbToHsv: Triple -> Triple,
    rgbToHex: Triple -> string,
    hsvToRgb: Triple -> Triple
  )
}
