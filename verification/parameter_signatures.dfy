/** `ParameterSignature`, the description of one parameter of a generated method: its
    annotations (each represented by its text), name, type and Javadoc description. The
    constructor sorts the caller's annotation array in place by text. */
module ParameterSignatures {
  import opened JavaLang

  /** What `String.compareTo(a, b) <= 0` means: `a` is a prefix of `b`, or at the
      first index where they differ `a` has the smaller character. */
  ghost predicate PrefixOrSmallerAtFirstDifference(a: string, b: string)
  {
    a <= b || exists k :: 0 <= k < |a| && k < |b| && a[..k] == b[..k] && a[k] < b[k]
  }

  lemma FirstDifferenceAtHead(a: string, b: string)
    requires a != [] && b != [] && a[0] != b[0]
    ensures PrefixOrSmallerAtFirstDifference(a, b) <==> a[0] < b[0]
  {
    if a[0] < b[0] {
      assert a[..0] == b[..0];
    }
  }

  lemma FirstDifferenceAfterHead(a: string, b: string)
    requires a != [] && b != [] && a[0] == b[0]
    ensures PrefixOrSmallerAtFirstDifference(a, b) <==> PrefixOrSmallerAtFirstDifference(a[1..], b[1..])
  {
    assert a == [a[0]] + a[1..] && b == [b[0]] + b[1..];
    assert a <= b <==> a[1..] <= b[1..];
    if k :| 0 <= k < |a| && k < |b| && a[..k] == b[..k] && a[k] < b[k] {
      DifferenceMovesDown(a, b, k);
    }
    if k :| 0 <= k < |a| - 1 && k < |b| - 1 && a[1..][..k] == b[1..][..k] && a[1..][k] < b[1..][k] {
      DifferenceMovesUp(a, b, k);
    }
  }

  lemma DifferenceMovesDown(a: string, b: string, k: int)
    requires a != [] && b != [] && a[0] == b[0]
    requires 0 <= k < |a| && k < |b| && a[..k] == b[..k] && a[k] < b[k]
    ensures 0 < k && a[1..][..k - 1] == b[1..][..k - 1] && a[1..][k - 1] < b[1..][k - 1]
  {
    assert a[1..][..k - 1] == a[..k][1..];
    assert b[1..][..k - 1] == b[..k][1..];
  }

  lemma DifferenceMovesUp(a: string, b: string, k: int)
    requires a != [] && b != [] && a[0] == b[0]
    requires 0 <= k < |a| - 1 && k < |b| - 1 && a[1..][..k] == b[1..][..k] && a[1..][k] < b[1..][k]
    ensures a[..k + 1] == b[..k + 1] && a[k + 1] < b[k + 1]
  {
    assert a[..k + 1] == [a[0]] + a[1..][..k];
    assert b[..k + 1] == [b[0]] + b[1..][..k];
  }

  /** `String.compareTo(a, b) <= 0`: the lexicographic order on characters, in which a
      proper prefix comes first. */
  predicate AtMost(a: string, b: string)
    ensures AtMost(a, b) <==> PrefixOrSmallerAtFirstDifference(a, b)
    decreases |a|
  {
    a == [] || (b != [] && (
      if a[0] == b[0] then FirstDifferenceAfterHead(a, b); AtMost(a[1..], b[1..])
      else FirstDifferenceAtHead(a, b); a[0] < b[0]))
  }

  lemma {:induction false} AtMostReflexive(a: string)
    ensures AtMost(a, a)
    decreases |a|
  {
    if a != [] {
      AtMostReflexive(a[1..]);
    }
  }

  lemma {:induction false} AtMostTotal(a: string, b: string)
    ensures AtMost(a, b) || AtMost(b, a)
    decreases |a|
  {
    if a != [] && b != [] && a[0] == b[0] {
      AtMostTotal(a[1..], b[1..]);
    }
  }

  lemma {:induction false} AtMostTransitive(a: string, b: string, c: string)
    requires AtMost(a, b) && AtMost(b, c)
    ensures AtMost(a, c)
    decreases |a|
  {
    if a != [] && a[0] == b[0] && b[0] == c[0] {
      AtMostTransitive(a[1..], b[1..], c[1..]);
    }
  }

  lemma {:induction false} AtMostAntisymmetric(a: string, b: string)
    requires AtMost(a, b) && AtMost(b, a)
    ensures a == b
    decreases |a|
  {
    if a != [] {
      AtMostAntisymmetric(a[1..], b[1..]);
      assert a == [a[0]] + a[1..] && b == [b[0]] + b[1..];
    }
  }

  /** Every annotation text is at most every later one. */
  ghost predicate Sorted(s: seq<string>)
  {
    forall i, j :: 0 <= i < j < |s| ==> AtMost(s[i], s[j])
  }

  ghost predicate AdjacentSorted(s: seq<string>)
  {
    forall k :: 0 < k < |s| ==> AtMost(s[k - 1], s[k])
  }

  lemma {:induction false} AdjacentChain(s: seq<string>, i: nat, j: nat)
    requires AdjacentSorted(s) && i <= j < |s|
    ensures AtMost(s[i], s[j])
    decreases j - i
  {
    if i == j {
      AtMostReflexive(s[i]);
    } else {
      AdjacentChain(s, i, j - 1);
      AtMostTransitive(s[i], s[j - 1], s[j]);
    }
  }

  lemma AdjacentSortedIsSorted(s: seq<string>)
    requires AdjacentSorted(s)
    ensures Sorted(s)
  {
    forall i, j | 0 <= i < j < |s|
      ensures AtMost(s[i], s[j])
    {
      AdjacentChain(s, i, j);
    }
  }

  /** The first text of a sorted sequence is at most every text in it. */
  lemma SortedHeadIsLeast(s: seq<string>, x: string)
    requires Sorted(s) && s != [] && x in multiset(s)
    ensures AtMost(s[0], x)
  {
    var i :| 0 <= i < |s| && s[i] == x;
    if i == 0 {
      AtMostReflexive(x);
    }
  }

  /** Dropping the first element keeps a sequence sorted and removes one copy of it. */
  lemma SortedTail(s: seq<string>)
    requires Sorted(s) && s != []
    ensures Sorted(s[1..])
    ensures multiset(s[1..]) == multiset(s) - multiset{s[0]}
  {
    assert s == [s[0]] + s[1..];
  }

  /** Two sorted arrangements of the same non-empty annotations start alike. */
  lemma SortedSameHead(s: seq<string>, t: seq<string>)
    requires Sorted(s) && Sorted(t) && multiset(s) == multiset(t) && s != []
    ensures t != [] && s[0] == t[0]
  {
    assert s[0] in multiset(t);
    assert t[0] in multiset(s);
    SortedHeadIsLeast(s, t[0]);
    SortedHeadIsLeast(t, s[0]);
    AtMostAntisymmetric(s[0], t[0]);
  }

  /** Two sorted arrangements of the same annotations are the same sequence, so the
      order `Arrays.sort` leaves is determined by the texts alone. */
  lemma {:induction false} SortedPermutationUnique(s: seq<string>, t: seq<string>)
    requires Sorted(s) && Sorted(t) && multiset(s) == multiset(t)
    ensures s == t
    decreases |s|
  {
    if s == [] {
      assert |t| == |multiset(t)| == 0;
    } else {
      SortedSameHead(s, t);
      SortedTail(s);
      SortedTail(t);
      SortedPermutationUnique(s[1..], t[1..]);
      assert s == [s[0]] + s[1..] && t == [t[0]] + t[1..];
    }
  }

  /** The state of the insertion step that moves element `i` down to position `j`:
      neighbours are in order everywhere in `s[..i + 1]` except across `j`, and the
      element at `j` already belongs after the one at `j - 1`'s left neighbour. */
  ghost predicate Inserting(s: seq<string>, i: nat, j: nat)
  {
    && j <= i < |s|
    && (forall k :: 0 < k <= i && k != j ==> AtMost(s[k - 1], s[k]))
    && (0 < j < i ==> AtMost(s[j - 1], s[j + 1]))
  }

  /** Element `i` of a sequence sorted before it starts its insertion in place. */
  lemma InsertStart(s: seq<string>, i: nat)
    requires i < |s| && AdjacentSorted(s[..i])
    ensures Inserting(s, i, i)
  {
    forall k | 0 < k < i
      ensures AtMost(s[k - 1], s[k])
    {
      assert s[..i][k - 1] == s[k - 1] && s[..i][k] == s[k];
    }
  }

  /** An insertion that stops at the front, or behind a text at most its own, leaves
      the first `i + 1` elements sorted. */
  lemma InsertDone(s: seq<string>, i: nat, j: nat)
    requires Inserting(s, i, j) && (j == 0 || AtMost(s[j - 1], s[j]))
    ensures AdjacentSorted(s[..i + 1])
  {
    var t := s[..i + 1];
    forall k | 0 < k < |t|
      ensures AtMost(t[k - 1], t[k])
    {
      assert t[k - 1] == s[k - 1] && t[k] == s[k];
    }
  }

  /** Swapping an out-of-order pair moves the insertion point one place left. */
  lemma SwapStep(s: seq<string>, i: nat, j: nat)
    requires Inserting(s, i, j) && 0 < j && !AtMost(s[j - 1], s[j])
    ensures Inserting(s[j - 1 := s[j]][j := s[j - 1]], i, j - 1)
    ensures multiset(s[j - 1 := s[j]][j := s[j - 1]]) == multiset(s)
  {
    AtMostTotal(s[j - 1], s[j]);
    var t := s[j - 1 := s[j]][j := s[j - 1]];
    forall k | 0 < k <= i && k != j - 1
      ensures AtMost(t[k - 1], t[k])
    {
      if k == j + 1 {
        assert t[k - 1] == s[j - 1] && t[k] == s[j + 1];
      } else if k != j {
        assert t[k - 1] == s[k - 1] && t[k] == s[k];
      }
    }
  }

  /** `Arrays.sort(annotations, comparing(toString))`: an insertion sort of the texts. */
  method SortByText(a: array<string>)
    modifies a
    ensures Sorted(a[..])
    ensures multiset(a[..]) == multiset(old(a[..]))
  {
    var i := 0;
    while i < a.Length
      invariant 0 <= i <= a.Length
      invariant AdjacentSorted(a[..i])
      invariant multiset(a[..]) == multiset(old(a[..]))
    {
      var j := i;
      InsertStart(a[..], i);
      while j > 0 && !AtMost(a[j - 1], a[j])
        invariant Inserting(a[..], i, j)
        invariant multiset(a[..]) == multiset(old(a[..]))
      {
        ghost var s := a[..];
        SwapStep(s, i, j);
        a[j - 1], a[j] := a[j], a[j - 1];
        assert a[..] == s[j - 1 := s[j]][j := s[j - 1]];
        j := j - 1;
      }
      InsertDone(a[..], i, j);
      i := i + 1;
    }
    assert a[..i] == a[..];
    AdjacentSortedIsSorted(a[..]);
  }

  /** Java's rendering of a possibly null string in a concatenation. */
  function Text(s: Option<string>): string
  {
    if s.Some? then s.value else "null"
  }

  /** Each annotation followed by one space, in order. */
  function Spaced(annotations: seq<string>): string
  {
    if annotations == [] then "" else annotations[0] + " " + Spaced(annotations[1..])
  }

  lemma {:induction false} SpacedAppend(annotations: seq<string>, x: string)
    ensures Spaced(annotations + [x]) == Spaced(annotations) + x + " "
    decreases |annotations|
  {
    if annotations == [] {
      assert Spaced([x]) == x + " " + Spaced([]);
    } else {
      assert (annotations + [x])[1..] == annotations[1..] + [x];
      SpacedAppend(annotations[1..], x);
    }
  }

  /** The Javadoc tag that opens a parameter's line. */
  const ParamTag: string := " * @param "

  /** The values `equals` can be handed. */
  datatype Object = Null | Signature(sig: ParameterSignature) | Other

  class ParameterSignature {
    const annotations: array?<string>
    const name: Option<string>
    const typeName: Option<string>
    const description: Option<string>

    /** The constructor keeps the caller's annotation array and sorts it in place by
        text; a null array stays null. */
    constructor (name: Option<string>, description: Option<string>, typeName: Option<string>,
                 annotations: array?<string>)
      modifies annotations
      ensures this.annotations == annotations
      ensures this.name == name && this.typeName == typeName && this.description == description
      ensures annotations != null ==>
                Sorted(annotations[..]) && multiset(annotations[..]) == multiset(old(annotations[..]))
    {
      this.annotations := annotations;
      this.name := name;
      this.typeName := typeName;
      this.description := description;
      new;
      if annotations != null {
        SortByText(annotations);
      }
    }

    /** The annotation texts, or `None` for a null array. */
    function AnnotationTexts(): Option<seq<string>>
      reads annotations
    {
      if annotations == null then None else Some(annotations[..])
    }

    /** What `equals` and `hashCode` look at: the annotation texts, the name and the
        type. */
    function Key(): (Option<seq<string>>, Option<string>, Option<string>)
      reads annotations
    {
      (AnnotationTexts(), name, typeName)
    }

    /** `toJavadoc`: the `@param` line, with the description after one space when there
        is one. */
    function ToJavadoc(): (s: string)
      ensures |s| >= |ParamTag + Text(name)| && s[..|ParamTag + Text(name)|] == ParamTag + Text(name)
      ensures description.None? <==> s == ParamTag + Text(name)
      ensures description.Some? ==> s[|ParamTag + Text(name)|..] == " " + description.value
    {
      if description.None? then ParamTag + Text(name)
      else ParamTag + Text(name) + " " + description.value
    }

    /** `equals`: the same object, or another signature with equal annotations, name and
        type; the description takes no part. */
    predicate Equals(o: Object)
      reads annotations, if o.Signature? then {o.sig.annotations} else {}
      ensures Equals(o) <==> o.Signature? && o.sig.Key() == Key()
    {
      if o.Signature? && o.sig == this then true
      else if !o.Signature? then false
      else
        var that := o.sig;
        AnnotationTexts() == that.AnnotationTexts() && name == that.name && typeName == that.typeName
    }

    /** `hashCode`, over annotations, name and type, with Java's 32-bit arithmetic. */
    function HashCode(): (h: Int32)
      reads annotations
      ensures Congruent32(h, 961 * ArrayHash(AnnotationTexts()) + 31 * FieldHash(name) + FieldHash(typeName))
    {
      var result := ArrayHash(AnnotationTexts());
      var withName := WrapInt32(31 * result + FieldHash(name));
      HashStep(result, result, FieldHash(name));
      HashStep(withName, 31 * result + FieldHash(name), FieldHash(typeName));
      WrapInt32(31 * withName + FieldHash(typeName))
    }

    /** `toString`: each annotation and a space, in stored order, then type, a space and
        name. */
    method ToString() returns (s: string)
      ensures s == Spaced(if annotations == null then [] else annotations[..]) + Text(typeName) + " " + Text(name)
    {
      var sb := "";
      if annotations != null {
        var i := 0;
        while i < annotations.Length
          invariant 0 <= i <= annotations.Length
          invariant sb == Spaced(annotations[..i])
        {
          SpacedAppend(annotations[..i], annotations[i]);
          assert annotations[..i + 1] == annotations[..i] + [annotations[i]];
          sb := sb + annotations[i] + " ";
          i := i + 1;
        }
        assert annotations[..i] == annotations[..];
      }
      s := sb + Text(typeName) + " " + Text(name);
    }
  }

  /** `31^n`. */
  ghost function Pow31(n: nat): int
  {
    if n == 0 then 1 else 31 * Pow31(n - 1)
  }

  /** The polynomial `ds[0]*31^(n-1) + … + ds[n-1]` that Java's hash codes are defined
      by, without overflow. */
  ghost function Poly(ds: seq<int>): int
  {
    if ds == [] then 0 else ds[0] * Pow31(|ds| - 1) + Poly(ds[1..])
  }

  /** Appending a term multiplies the polynomial by 31 and adds the term: the
      polynomial is what Horner's loop computes. */
  lemma {:induction false} PolySnoc(ds: seq<int>, d: int)
    ensures Poly(ds + [d]) == 31 * Poly(ds) + d
    decreases |ds|
  {
    var t := ds + [d];
    if ds == [] {
      assert t[1..] == [];
      assert Poly(t) == d * Pow31(0) + Poly([]);
    } else {
      assert t[1..] == ds[1..] + [d];
      PolySnoc(ds[1..], d);
      assert Pow31(|ds|) == 31 * Pow31(|ds| - 1);
      assert ds[0] * Pow31(|ds|) == 31 * (ds[0] * Pow31(|ds| - 1));
    }
  }

  /** The code units of a string, as numbers. */
  ghost function Codes(s: string): seq<int>
  {
    if s == [] then [] else Codes(s[..|s| - 1]) + [s[|s| - 1] as int]
  }

  /** `String.hashCode`: `s[0]*31^(n-1) + … + s[n-1]` in 32-bit arithmetic. */
  function StringHash(s: string): (h: Int32)
    ensures Congruent32(h, Poly(Codes(s)))
    decreases |s|
  {
    if s == [] then 0
    else
      var front := s[..|s| - 1];
      var last := s[|s| - 1] as int;
      var prev := StringHash(front);
      PolySnoc(Codes(front), last);
      HashStep(prev, Poly(Codes(front)), last);
      WrapInt32(31 * prev + last)
  }

  /** The hash of a possibly null field: 0 for null. */
  function FieldHash(s: Option<string>): Int32
  {
    if s.Some? then StringHash(s.value) else 0
  }

  /** `Arrays.hashCode` over elements hashed as their text; 0 for a null array. */
  function ArrayHash(a: Option<seq<string>>): Int32
  {
    if a.None? then 0 else ElementsHash(a.value)
  }

  /** The hash codes of the elements, as numbers. */
  ghost function Hashes(xs: seq<string>): seq<int>
  {
    if xs == [] then [] else Hashes(xs[..|xs| - 1]) + [StringHash(xs[|xs| - 1]) as int]
  }

  /** `Arrays.hashCode` of a non-null array: `31^n + h0*31^(n-1) + … + h(n-1)` in
      32-bit arithmetic, where `hi` is the hash of element `i`. */
  function ElementsHash(xs: seq<string>): (h: Int32)
    ensures Congruent32(h, Pow31(|xs|) + Poly(Hashes(xs)))
    decreases |xs|
  {
    if xs == [] then 1
    else
      var front := xs[..|xs| - 1];
      var last := StringHash(xs[|xs| - 1]) as int;
      var prev := ElementsHash(front);
      PolySnoc(Hashes(front), last);
      HashStep(prev, Pow31(|front|) + Poly(Hashes(front)), last);
      WrapInt32(31 * prev + last)
  }

  /** `equals` is reflexive. */
  lemma EqualsReflexive(p: ParameterSignature)
    ensures p.Equals(Signature(p))
  {
  }

  /** `equals` is false for null and for objects of other classes. */
  lemma EqualsOnlySignatures(p: ParameterSignature)
    ensures !p.Equals(Null) && !p.Equals(Other)
  {
  }

  /** `equals` is symmetric. */
  lemma EqualsSymmetric(p: ParameterSignature, q: ParameterSignature)
    ensures p.Equals(Signature(q)) <==> q.Equals(Signature(p))
  {
  }

  /** Two signatures that differ at most in their descriptions are equal. */
  lemma EqualsIgnoresDescription(p: ParameterSignature, q: ParameterSignature)
    requires p.AnnotationTexts() == q.AnnotationTexts() && p.name == q.name && p.typeName == q.typeName
    ensures p.Equals(Signature(q))
  {
  }

  /** Equal signatures have equal hash codes. */
  lemma HashCodeConsistent(p: ParameterSignature, q: ParameterSignature)
    requires p.Equals(Signature(q))
    ensures p.HashCode() == q.HashCode()
  {
  }

  /** Because the constructor sorts, the order in which a caller lists the annotations
      does not matter: signatures built from rearrangements of the same annotations,
      with the same name and type, are equal. */
  lemma EqualsUpToAnnotationOrder(p: ParameterSignature, q: ParameterSignature)
    requires p.annotations != null && q.annotations != null
    requires Sorted(p.annotations[..]) && Sorted(q.annotations[..])
    requires multiset(p.annotations[..]) == multiset(q.annotations[..])
    requires p.name == q.name && p.typeName == q.typeName
    ensures p.Equals(Signature(q))
  {
    SortedPermutationUnique(p.annotations[..], q.annotations[..]);
  }
}
