/**
 * The names under which block encodings are registered.  Each block class of the
 * block model reports one of these from `getEncodingName`.
 */
module BlockEncodings {
  const VariableWidth: string := "VARIABLE_WIDTH"
  const ByteArray: string := "BYTE_ARRAY"
  const ShortArray: string := "SHORT_ARRAY"
  const IntArray: string := "INT_ARRAY"
  const LongArray: string := "LONG_ARRAY"
  const Int96Array: string := "INT96_ARRAY"
  const Int128Array: string := "INT128_ARRAY"
  const Dictionary: string := "DICTIONARY"
  const ArrayEncoding: string := "ARRAY"
  const MapEncoding: string := "MAP"
  const MapElement: string := "MAP_ELEMENT"
  const RowEncoding: string := "ROW"
  const RowElement: string := "ROW_ELEMENT"
  const RunLength: string := "RLE"
  const Lazy: string := "LAZY"

  /** The fifteen encodings a fresh manager registers, in registration order. */
  const BuiltIns: seq<string> := [VariableWidth, ByteArray, ShortArray, IntArray, LongArray,
    Int96Array, Int128Array, Dictionary, ArrayEncoding, MapEncoding, MapElement, RowEncoding,
    RowElement, RunLength, Lazy]

  /** Encodings of the flat (leaf) blocks of the model. */
  const LeafNames: set<string> := {VariableWidth, ByteArray, ShortArray, IntArray, LongArray,
    Int96Array, Int128Array}
}
