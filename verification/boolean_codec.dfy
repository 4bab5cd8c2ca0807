/** The `boolean` codec: decodes a reference's text with `Boolean.valueOf`, which never
    fails, and encodes a value with `toString`. */
module BooleanCodec {
  import opened JavaLang

  /** The codec is stateless: its one value stands for the shared instance that
      `getInstance` returns. */
  datatype Codec = Instance

  function GetInstance(): (c: Codec)
    ensures c == Instance
  {
    Instance
  }

  function LowerAscii(c: char): char
  {
    if 'A' <= c <= 'Z' then (c as int - 'A' as int + 'a' as int) as char else c
  }

  function UpperAscii(c: char): char
  {
    if 'a' <= c <= 'z' then (c as int - 'a' as int + 'A' as int) as char else c
  }

  /** Every character of `word` is a lower-case ASCII letter. */
  predicate LowerAsciiWord(word: string)
  {
    forall i :: 0 <= i < |word| ==> 'a' <= word[i] <= 'z'
  }

  /** `String.equalsIgnoreCase` against an all-lower-case ASCII word: on such a word it
      agrees with Java's definition, under which the lengths match and each pair of
      characters is equal, equal in upper case or equal in lower case. */
  predicate EqualsIgnoreCase(s: string, word: string)
    ensures LowerAsciiWord(word) ==>
              (EqualsIgnoreCase(s, word) <==>
                 |s| == |word| &&
                 forall i :: 0 <= i < |s| ==>
                   s[i] == word[i] || UpperAscii(s[i]) == UpperAscii(word[i]) || LowerAscii(s[i]) == LowerAscii(word[i]))
  {
    |s| == |word| && forall i :: 0 <= i < |s| ==> LowerAscii(s[i]) == word[i]
  }

  /** `_decode`: `Boolean.valueOf(objectReference)`, true exactly for a non-null text
      equal to `true` ignoring case. */
  function Decode(objectReference: Option<string>, applicationReference: Option<string>): (b: bool)
    ensures b ==> objectReference.Some? && |objectReference.value| == 4
    ensures objectReference == Some("true") || objectReference == Some("TRUE") ==> b
    ensures objectReference == Some("false") ==> !b
  {
    objectReference.Some? && EqualsIgnoreCase(objectReference.value, "true")
  }

  /** `_encode`: `"null"` for null, otherwise `"true"` or `"false"`. */
  function Encode(value: Option<bool>): (s: string)
    ensures s == "null" || s == "true" || s == "false"
    ensures s == "null" <==> value.None?
    ensures value.Some? ==> (s == "true" <==> value.value)
  {
    if value.None? then "null" else if value.value then "true" else "false"
  }

  /** Round trip: `_decode(_encode(b)) == b`. */
  lemma RoundTrip(b: bool, applicationReference: Option<string>)
    ensures Decode(Some(Encode(Some(b))), applicationReference) == b
  {
    if !b {
      assert LowerAscii("false"[0]) != "true"[0];
    }
  }

  /** Null does not survive the trip: it encodes as `"null"`, which decodes to false. */
  lemma NullDecodesToFalse(applicationReference: Option<string>)
    ensures Encode(None) == "null" && !Decode(Some(Encode(None)), applicationReference)
  {
    assert LowerAscii("null"[0]) != "true"[0];
  }

  /** `s` spells `word` with each letter in either case. */
  predicate IsCaseVariant(s: string, word: string)
  {
    |s| == |word| && forall i :: 0 <= i < |s| ==> s[i] == word[i] || s[i] == UpperAscii(word[i])
  }

  /** `_decode` is true for exactly the sixteen spellings of `true` in mixed case. */
  lemma DecodeIffCaseVariant(s: string, applicationReference: Option<string>)
    ensures Decode(Some(s), applicationReference) <==> IsCaseVariant(s, "true")
  {
    if |s| == 4 {
      forall i | 0 <= i < 4
        ensures LowerAscii(s[i]) == "true"[i] <==> s[i] == "true"[i] || s[i] == UpperAscii("true"[i])
      {
      }
    }
  }
}
