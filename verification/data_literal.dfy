/** The binary payload type `Data`: a reference whose text `«data HHHH…»` is decoded, two
    hexadecimal characters at a time, into a byte array. Pairs that do not parse are
    skipped; no type tag is skipped. */
module DataLiteral {
  import opened JavaLang

  /** Why decoding a literal throws: `substring` is asked for characters past the end. */
  datatype Failure = IndexOutOfBounds

  /** The text the decoder looks for at index 1, right after the opening mark. */
  const DataMarker: string := "data "

  /** `Character.digit(c, 16)` on ASCII characters. */
  function HexDigit(c: char): (d: Option<int>)
    ensures d.Some? ==> 0 <= d.value < 16
  {
    if '0' <= c <= '9' then Some(c as int - '0' as int)
    else if 'a' <= c <= 'f' then Some(c as int - 'a' as int + 10)
    else if 'A' <= c <= 'F' then Some(c as int - 'A' as int + 10)
    else None
  }

  /** `Integer.parseInt(p, 16)` on the two-character string `p` = `first second`: a
      sign followed by one digit, or two digits; anything else is a
      NumberFormatException (`None`). */
  function ParsePair(first: char, second: char): (v: Option<int>)
    ensures v.Some? ==> -15 <= v.value < 256
    ensures HexDigit(first).Some? && HexDigit(second).Some? ==>
              v == Some(16 * HexDigit(first).value + HexDigit(second).value)
    ensures (first == '-' || first == '+') ==> (v.Some? <==> HexDigit(second).Some?)
    ensures first == '-' && HexDigit(second).Some? ==> v == Some(-HexDigit(second).value)
    ensures first == '+' && HexDigit(second).Some? ==> v == Some(HexDigit(second).value)
    ensures first != '-' && first != '+' && (HexDigit(first).None? || HexDigit(second).None?) ==> v.None?
  {
    if first == '-' then
      (if HexDigit(second).Some? then Some(-HexDigit(second).value) else None)
    else if first == '+' then
      HexDigit(second)
    else if HexDigit(first).Some? && HexDigit(second).Some? then
      Some(16 * HexDigit(first).value + HexDigit(second).value)
    else
      None
  }

  /** What one pair `substring(i, i + 2)`, with characters `first` and `second`,
      contributes: its byte, or nothing when `parseInt` rejects it. */
  function PairBytes(first: char, second: char): seq<Int8>
  {
    var p := ParsePair(first, second);
    if p.Some? then [LowByte(p.value)] else []
  }

  /** The bytes a hex body decodes to: those of its pairs, left to right; a pair that
      does not parse contributes nothing. Only whole pairs are read: on an odd-length
      body the source fails instead, which `DecodeLiteral` and `DecodeHex` state. */
  function Pairs(hex: string): seq<Int8>
    decreases |hex|
  {
    if |hex| < 2 then [] else PairBytes(hex[0], hex[1]) + Pairs(hex[2..])
  }

  /** Whether the constructor recognises `objectReference` as a data literal:
      `startsWith("data ", 1)`. */
  predicate IsDataLiteral(objectReference: string)
  {
    |objectReference| >= 1 + |DataMarker| && objectReference[1..1 + |DataMarker|] == DataMarker
  }

  /** What the constructor leaves in `data`: null (`None`) for a non-data reference, the
      decoded bytes of a data literal, or a failure for a body that is missing (the text
      ends right after `data `) or has odd length. The last character, normally the
      closing mark, is dropped unchecked. */
  function DecodeLiteral(objectReference: string): (r: Result<Option<seq<Int8>>, Failure>)
    ensures !IsDataLiteral(objectReference) ==> r == Ok(None)
    ensures r.Ok? && r.value.Some? ==>
              IsDataLiteral(objectReference)
              && |objectReference| >= 7 && (|objectReference| - 7) % 2 == 0
              && r.value.value == Pairs(objectReference[6..|objectReference| - 1])
    ensures r.Err? <==>
              IsDataLiteral(objectReference)
              && (|objectReference| < 7 || (|objectReference| - 7) % 2 == 1)
    ensures IsDataLiteral(objectReference) && |objectReference| >= 7 && (|objectReference| - 7) % 2 == 0 ==>
              r == Ok(Some(Pairs(objectReference[6..|objectReference| - 1])))
  {
    if !IsDataLiteral(objectReference) then Ok(None)
    else if |objectReference| - 1 < 6 then Err(IndexOutOfBounds)
    else
      var hex := objectReference[6..|objectReference| - 1];
      if |hex| % 2 == 1 then Err(IndexOutOfBounds) else Ok(Some(Pairs(hex)))
  }

  /** The constructor's loop over the hex body; the last `substring(i, i + 2)` of an
      odd-length body is out of bounds. */
  method DecodeHex(hex: string) returns (r: Result<seq<Int8>, Failure>)
    ensures |hex| % 2 == 1 <==> r.Err?
    ensures r.Ok? ==> r.value == Pairs(hex)
  {
    var out: seq<Int8> := [];
    var i := 0;
    while i < |hex|
      invariant 0 <= i <= |hex| && i % 2 == 0
      invariant out == Pairs(hex[..i])
    {
      if i + 2 > |hex| {
        assert |hex| == i + 1;
        assert |hex| % 2 == 1;
        return Err(IndexOutOfBounds);
      }
      PairsPrefixStep(hex, i);
      out := out + PairBytes(hex[i], hex[i + 1]);
      i := i + 2;
    }
    assert |hex| % 2 == 0 && hex[..i] == hex;
    return Ok(out);
  }

  /** `Data`, a reference that carries a byte array. */
  class Data {
    const objectReference: Option<string>
    const applicationReference: Option<string>
    var data: array?<Int8>

    /** The private no-argument constructor behind the shared instance. */
    constructor Empty()
      ensures objectReference == None && applicationReference == None && data == null
    {
      objectReference := None;
      applicationReference := None;
      data := null;
    }

    /** `Data(objectReference, applicationReference)`: decodes a data literal into a
        fresh array, and leaves `data` null for any other reference. */
    constructor (objectReference: string, applicationReference: Option<string>)
      requires DecodeLiteral(objectReference).Ok?
      ensures this.objectReference == Some(objectReference)
      ensures this.applicationReference == applicationReference
      ensures DecodeLiteral(objectReference).value.None? ==> data == null
      ensures DecodeLiteral(objectReference).value.Some? ==>
                data != null && fresh(data) && data[..] == DecodeLiteral(objectReference).value.value
    {
      this.objectReference := Some(objectReference);
      this.applicationReference := applicationReference;
      var bytes: array?<Int8> := null;
      if IsDataLiteral(objectReference) {
        var hex := objectReference[6..|objectReference| - 1];
        var decoded := DecodeHex(hex);
        var out := decoded.value;
        bytes := new Int8[|out|](i requires 0 <= i < |out| => out[i]);
      }
      data := bytes;
    }

    function GetData(): (a: array?<Int8>)
      reads this
      ensures a == data
    {
      data
    }

    /** `setData` stores the array itself, so `getData` hands back that same array. */
    method SetData(a: array?<Int8>)
      modifies this
      ensures GetData() == a
    {
      data := a;
    }
  }

  /** The static part of `Data`: the shared instance that `getInstance` returns. */
  class DataStatics {
    const instance: Data

    constructor ()
      ensures fresh(instance)
      ensures instance.objectReference == None && instance.applicationReference == None
      ensures instance.data == null
    {
      instance := new Data.Empty();
    }

    method GetInstance() returns (d: Data)
      ensures d == instance
    {
      d := instance;
    }
  }

  /** Decoding yields at most one byte per pair. */
  lemma {:induction false} PairsLength(hex: string)
    ensures |Pairs(hex)| <= |hex| / 2
    decreases |hex|
  {
    if |hex| >= 2 {
      PairsLength(hex[2..]);
    }
  }

  /** Decoding runs left to right: the bytes of a concatenation of whole pairs are the
      bytes of each part in order. */
  lemma {:induction false} PairsConcat(a: string, b: string)
    requires |a| % 2 == 0
    ensures Pairs(a + b) == Pairs(a) + Pairs(b)
    decreases |a|
  {
    if a == [] {
      assert a + b == b;
    } else {
      assert (a + b)[2..] == a[2..] + b;
      PairsConcat(a[2..], b);
    }
  }

  /** Reading one more pair appends its bytes to those of the pairs before it. */
  lemma PairsPrefixStep(hex: string, i: nat)
    requires i + 2 <= |hex| && i % 2 == 0
    ensures Pairs(hex[..i + 2]) == Pairs(hex[..i]) + PairBytes(hex[i], hex[i + 1])
  {
    var pair := hex[i..i + 2];
    assert hex[..i + 2] == hex[..i] + pair;
    PairsConcat(hex[..i], pair);
    assert pair[2..] == [];
  }

  /** A pair that `parseInt` rejects is skipped without disturbing the rest. */
  lemma RejectedPairSkipped(a: string, bad: string, b: string)
    requires |a| % 2 == 0 && |bad| == 2 && ParsePair(bad[0], bad[1]).None?
    ensures Pairs(a + bad + b) == Pairs(a) + Pairs(b)
  {
    var tail := bad + b;
    assert tail[0] == bad[0] && tail[1] == bad[1] && tail[2..] == b;
    assert Pairs(tail) == Pairs(b);
    PairsConcat(a, tail);
    assert a + bad + b == a + tail;
  }

  predicate AllHexDigits(s: string)
  {
    forall i :: 0 <= i < |s| ==> HexDigit(s[i]).Some?
  }

  /** The byte a pair of hex digits at index `2k` decodes to. */
  function PairByte(hex: string, k: int): Int8
    requires 0 <= 2 * k && 2 * k + 1 < |hex| && AllHexDigits(hex)
  {
    LowByte(16 * HexDigit(hex[2 * k]).value + HexDigit(hex[2 * k + 1]).value)
  }

  /** Dropping the first pair of a body of hex digits leaves a body of hex digits
      whose pair `k - 1` is pair `k` of the whole. */
  lemma PairByteShift(hex: string, k: int)
    requires AllHexDigits(hex) && 2 <= 2 * k && 2 * k + 1 < |hex|
    ensures AllHexDigits(hex[2..]) && PairByte(hex[2..], k - 1) == PairByte(hex, k)
  {
    var rest := hex[2..];
    forall i | 0 <= i < |rest| ensures HexDigit(rest[i]).Some? {
      assert rest[i] == hex[i + 2];
    }
    assert rest[2 * (k - 1)] == hex[2 * k] && rest[2 * (k - 1) + 1] == hex[2 * k + 1];
  }

  /** On a body of hex digits only, every pair is kept: byte `k` is the value of
      characters `2k` and `2k+1`, truncated to a signed byte. */
  lemma {:induction false} PairsOfHexDigits(hex: string)
    requires AllHexDigits(hex)
    ensures |Pairs(hex)| == |hex| / 2
    ensures forall k :: 0 <= k < |hex| / 2 ==> Pairs(hex)[k] == PairByte(hex, k)
    decreases |hex|
  {
    if |hex| >= 2 {
      var rest := hex[2..];
      assert AllHexDigits(rest) by {
        forall i | 0 <= i < |rest| ensures HexDigit(rest[i]).Some? {
          assert rest[i] == hex[i + 2];
        }
      }
      PairsOfHexDigits(rest);
      var all := Pairs(hex);
      assert PairBytes(hex[0], hex[1]) == [PairByte(hex, 0)];
      assert all == [PairByte(hex, 0)] + Pairs(rest);
      forall k | 0 < k < |hex| / 2
        ensures all[k] == PairByte(hex, k)
      {
        PairByteShift(hex, k);
        assert all[k] == Pairs(rest)[k - 1];
      }
    }
  }

  /** `«data ABCDBBBB»` keeps all four bytes: no four-character tag is skipped. */
  lemma DecodesAllFourBytes()
    ensures DecodeLiteral("\U{00AB}data ABCDBBBB\U{00BB}") == Ok(Some([-85, -51, -69, -69]))
  {
    var lit := "\U{00AB}data ABCDBBBB\U{00BB}";
    var hex := "ABCDBBBB";
    assert lit[1..6] == DataMarker && lit[6..|lit| - 1] == hex;
    assert hex[2..] == "CDBBBB" && "CDBBBB"[2..] == "BBBB" && "BBBB"[2..] == "BB" && "BB"[2..] == "";
    assert PairBytes('B', 'B') == [-69] && PairBytes('C', 'D') == [-51] && PairBytes('A', 'B') == [-85];
    assert Pairs("BB") == [-69];
    assert Pairs("BBBB") == [-69, -69];
    assert Pairs("CDBBBB") == [-51, -69, -69];
    assert Pairs(hex) == [-85, -51, -69, -69];
  }

  /** The closing mark is not checked: `«data ABC` drops its last character and decodes
      the pair `AB`. */
  lemma UncheckedClosingMark()
    ensures DecodeLiteral("\U{00AB}data ABC") == Ok(Some([-85]))
  {
    var lit := "\U{00AB}data ABC";
    assert lit[1..6] == DataMarker && lit[6..|lit| - 1] == "AB" && "AB"[2..] == "";
    assert PairBytes('A', 'B') == [-85];
    assert Pairs("AB") == [-85];
    assert DecodeLiteral(lit) == Ok(Some(Pairs("AB")));
  }

  /** `parseInt` accepts a sign, so `-1` is not skipped; it is written as byte 0xFF. */
  lemma SignedPairIsKept()
    ensures Pairs("-1") == [-1]
  {
    assert "-1"[2..] == "";
  }
}
