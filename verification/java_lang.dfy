/** Value types and library behaviour of the Java platform that the bridge relies on:
    fixed-width integers, failure-compatible results and String.trim. */
module JavaLang {

  /** A value of Java's `byte`. */
  type Int8 = x: int | -0x80 <= x < 0x80

  /** A value of Java's `int`. */
  type Int32 = x: int | -0x8000_0000 <= x < 0x8000_0000

  /** A value of Java's `long`. */
  type Int64 = x: int | -0x8000_0000_0000_0000 <= x < 0x8000_0000_0000_0000

  datatype Option<+T> = None | Some(value: T)

  datatype Result<+R, +E> = Ok(value: R) | Err(error: E)

  /** The low eight bits of `x` read as a signed byte, as `OutputStream.write(int)`
      followed by `toByteArray()` keeps them. */
  function LowByte(x: int): (b: Int8)
    ensures (b - x) % 0x100 == 0
    ensures 0 <= x < 0x80 ==> b == x
    ensures 0x80 <= x < 0x100 ==> b == x - 0x100
  {
    var u := x % 0x100;
    if u < 0x80 then u else u - 0x100
  }

  /** Java `int` arithmetic: the value of `x` after wrap-around to 32 bits. */
  function WrapInt32(x: int): (r: Int32)
    ensures (r - x) % 0x1_0000_0000 == 0
    ensures -0x8000_0000 <= x < 0x8000_0000 ==> r == x
  {
    var u := x % 0x1_0000_0000;
    if u < 0x8000_0000 then u else u - 0x1_0000_0000
  }

  /** `a` and `b` are the same Java `int` once wrapped: they agree modulo 2^32. */
  ghost predicate Congruent32(a: int, b: int)
  {
    (a - b) % 0x1_0000_0000 == 0
  }

  /** A number divisible by 2^32 is a multiple of it. */
  lemma DivisibleIsMultiple(x: int)
    requires x % 0x1_0000_0000 == 0
    ensures x == 0x1_0000_0000 * (x / 0x1_0000_0000)
  {
  }

  /** A multiple of 2^32 is divisible by it. */
  lemma MultipleIsDivisible(k: int)
    ensures (0x1_0000_0000 * k) % 0x1_0000_0000 == 0
  {
  }

  /** One step `31 * h + c` of a Java hash loop in `int` arithmetic stays congruent to
      the same step on the unbounded value. */
  lemma HashStep(h: int, p: int, c: int)
    requires Congruent32(h, p)
    ensures Congruent32(WrapInt32(31 * h + c), 31 * p + c)
  {
    var r := WrapInt32(31 * h + c);
    DivisibleIsMultiple(h - p);
    DivisibleIsMultiple(r - (31 * h + c));
    var k := (r - (31 * h + c)) / 0x1_0000_0000 + 31 * ((h - p) / 0x1_0000_0000);
    assert r - (31 * p + c) == 0x1_0000_0000 * k;
    MultipleIsDivisible(k);
  }

  /** The characters `String.trim` strips: every code unit up to and including the space. */
  predicate IsTrimmed(c: char)
  {
    c <= ' '
  }

  /** `s` without its leading trimmed characters. */
  function TrimLeading(s: string): (r: string)
    ensures |r| <= |s| && r == s[|s| - |r|..]
    ensures forall i :: 0 <= i < |s| - |r| ==> IsTrimmed(s[i])
    ensures r == [] || !IsTrimmed(r[0])
  {
    if s != [] && IsTrimmed(s[0]) then TrimLeading(s[1..]) else s
  }

  /** `s` without its trailing trimmed characters. */
  function TrimTrailing(s: string): (r: string)
    ensures |r| <= |s| && r == s[..|r|]
    ensures forall i :: |r| <= i < |s| ==> IsTrimmed(s[i])
    ensures r == [] || !IsTrimmed(r[|r| - 1])
  {
    if s != [] && IsTrimmed(s[|s| - 1]) then TrimTrailing(s[..|s| - 1]) else s
  }

  /** `r` is the infix of `s` starting at `lo`, and everything outside it is trimmed. */
  ghost predicate InfixAfterTrimming(s: string, lo: int, r: string)
  {
    && 0 <= lo <= |s| - |r| && r == s[lo..lo + |r|]
    && (forall i :: 0 <= i < lo ==> IsTrimmed(s[i]))
    && (forall i :: lo + |r| <= i < |s| ==> IsTrimmed(s[i]))
  }

  /** Stripping the leading and then the trailing characters leaves an infix with
      only trimmed characters around it, and trimmed at neither end. */
  lemma TrimmedInfix(s: string, t: string, r: string)
    requires |t| <= |s| && t == s[|s| - |t|..]
    requires forall i :: 0 <= i < |s| - |t| ==> IsTrimmed(s[i])
    requires |r| <= |t| && r == t[..|r|]
    requires forall i :: |r| <= i < |t| ==> IsTrimmed(t[i])
    requires t == [] || !IsTrimmed(t[0])
    requires r == [] || !IsTrimmed(r[|r| - 1])
    ensures InfixAfterTrimming(s, |s| - |t|, r)
    ensures r == [] || (!IsTrimmed(r[0]) && !IsTrimmed(r[|r| - 1]))
  {
    var lo := |s| - |t|;
    forall j | 0 <= j < |r|
      ensures r[j] == s[lo + j]
    {
      assert r[j] == t[j];
    }
    assert r == s[lo..lo + |r|];
    forall i | lo + |r| <= i < |s|
      ensures IsTrimmed(s[i])
    {
      assert s[i] == t[i - lo];
    }
    assert r != [] ==> r[0] == t[0];
  }

  /** `String.trim`: the longest infix of `s` that neither starts nor ends with a
      character at or below the space, obtained by removing only such characters. */
  function Trim(s: string): (r: string)
    ensures exists lo :: InfixAfterTrimming(s, lo, r)
    ensures r == [] || (!IsTrimmed(r[0]) && !IsTrimmed(r[|r| - 1]))
  {
    var t := TrimLeading(s);
    var r := TrimTrailing(t);
    TrimmedInfix(s, t, r);
    r
  }

  /** The result of `Trim` has nothing left to trim. */
  lemma TrimIdempotent(s: string)
    ensures Trim(Trim(s)) == Trim(s)
  {
    var r := Trim(s);
    if r != [] {
      assert TrimLeading(r) == r;
      assert TrimTrailing(r) == r;
    }
  }
}
