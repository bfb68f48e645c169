/**
 JSON documents after parsing. Numbers are kept as their text; keys of an object are distinct. The strings
 are of any type: texts of Unicode characters, or Python strings, which may hold surrogates.
 */
module Json {
  datatype Value<!S(==)> =
    | Null
    | Bool(value: bool)
    | Number(text: string)
    | Str(s: S)
    | Arr(items: seq<Value<S>>)
    | Obj(fields: map<S, Value<S>>)

  type Json = Value<string>

  newtype CodePoint = n: int | 0 <= n < 0x110000

  /** A Python string: code points, surrogates included. */
  type Text = seq<CodePoint>

  type Document = Value<Text>

  function FromString(s: string): Text {
    seq(|s|, i requires 0 <= i < |s| => s[i] as int as CodePoint)
  }

  /** A string that `encode("utf-8")` refuses. */
  predicate HasSurrogate(s: Text) {
    exists i | 0 <= i < |s| :: 0xD800 <= s[i] < 0xE000
  }
}
