/** The remote-class descriptor `TypeClass`: a name, an optional four-letter code and a
    superclass link, interned in a registry keyed by both name and code, with a loose
    alias-tolerant equality and assignability tests that walk the superclass chain. */
module TypeClasses {
  import opened JavaLang

  /** `«`, the mark that opens a raw class code such as `«class capp»`. */
  const OpenMark: char := '\U{00AB}'

  /** The Java values that `equals` and `isInstance` can be handed. A `Class` is itself
      a reference; `declared` is the type class its reference part reports. */
  datatype Object =
    | Null
    | Plain
    | Ref(declared: TypeClass?)
    | Class(tc: TypeClass, declared: TypeClass?)
  {
    predicate IsReference()
    {
      Ref? || Class?
    }
  }

  class TypeClass {
    /** The human-readable name, the object reference of the underlying reference. */
    const name: string
    /** The code, e.g. `«class capp»`; null in Java when absent. */
    const code: Option<string>
    const applicationReference: Option<string>
    const superClass: TypeClass?
    /** Length of the superclass chain above this class; it makes the chain finite. */
    ghost const depth: nat

    /** Every class on the superclass chain sits strictly lower than the one below it. */
    ghost predicate Valid()
      decreases depth
    {
      superClass != null ==> superClass.depth < depth && superClass.Valid()
    }

    /** The private four-argument constructor. */
    constructor Create(name: string, code: Option<string>, applicationReference: Option<string>,
                       superClass: TypeClass?)
      requires superClass != null ==> superClass.Valid()
      ensures this.name == name && this.code == code
      ensures this.applicationReference == applicationReference && this.superClass == superClass
      ensures Valid()
    {
      this.name := name;
      this.code := code;
      this.applicationReference := applicationReference;
      this.superClass := superClass;
      this.depth := if superClass == null then 0 else superClass.depth + 1;
    }

    /** The public two-argument constructor: resolves `objectReference` through the
        registry, taking name, code and superclass of a registered class; an unregistered
        reference that starts with `«` is its own code. */
    constructor (registry: Registry, objectReference: string, applicationReference: Option<string>)
      requires registry.Valid()
      ensures name == registry.LookupRefName(objectReference)
      ensures objectReference in registry.types ==>
                code == registry.types[objectReference].code
                && superClass == registry.types[objectReference].superClass
      ensures objectReference !in registry.types ==>
                code == (if |objectReference| > 0 && objectReference[0] == OpenMark
                         then Some(objectReference) else None)
                && superClass == null
      ensures this.applicationReference == applicationReference
      ensures Valid()
    {
      var resolvedName := registry.LookupRefName(objectReference);
      var resolvedCode := if |objectReference| > 0 && objectReference[0] == OpenMark
                          then Some(objectReference) else None;
      var resolvedSuper: TypeClass? := null;
      if objectReference in registry.types {
        var registered := registry.types[objectReference];
        resolvedSuper := registered.superClass;
        resolvedCode := registered.code;
      }
      name := resolvedName;
      code := resolvedCode;
      this.applicationReference := applicationReference;
      superClass := resolvedSuper;
      depth := if resolvedSuper == null then 0 else resolvedSuper.depth + 1;
    }

    /** The spellings a type class answers to: its name and, when present, its code. */
    function Keys(): (k: set<string>)
      ensures name in k && (code.Some? ==> code.value in k)
      ensures forall x :: x in k ==> x == name || code == Some(x)
    {
      {name} + (if code.Some? then {code.value} else {})
    }

    /** `equals` between two type classes: some name or code on one side matches a name
        or code on the other; an absent code matches nothing. */
    predicate Equals(that: TypeClass)
      ensures Equals(that) <==> Keys() * that.Keys() != {}
    {
      || name == that.name
      || that.code == Some(name)
      || (code.Some? && code == that.code)
      || (code.Some? && code.value == that.name)
    }

    /** `equals(Object)`: only type classes can be equal to a type class. */
    predicate EqualsObject(obj: Object)
      ensures EqualsObject(obj) <==> obj.Class? && Keys() * obj.tc.Keys() != {}
    {
      obj.Class? && Equals(obj.tc)
    }

    /** `hashCode` puts every type class in one bucket. */
    function HashCode(): (h: Int32)
      ensures h == 1
    {
      1
    }

    /** `toString`: the name alone when it is the code, otherwise `name/code`. */
    function ToString(): (s: string)
      ensures |name| <= |s| && s[..|name|] == name
      ensures s == name <==> code == Some(name)
      ensures code != Some(name) ==> s[|name|] == '/'
      ensures code != Some(name) ==> s[|name| + 1..] == (if code.Some? then code.value else "null")
    {
      if code == Some(name) then name
      else name + "/" + (if code.Some? then code.value else "null")
    }

    /** The superclass chain `this, superClass, superClass.superClass, …`. */
    function Chain(): (s: seq<TypeClass>)
      requires Valid()
      decreases depth
      ensures |s| <= depth + 1
      ensures |s| >= 1 && s[0] == this && s[|s| - 1].superClass == null
      ensures forall i :: 0 < i < |s| ==> s[i - 1].superClass == s[i]
      ensures forall i :: 0 <= i < |s| ==> s[i].Valid()
    {
      if superClass == null then [this] else [this] + superClass.Chain()
    }

    /** `isAssignableFrom`: walks the chain of `cls` until a class equal to this one. */
    method IsAssignableFrom(cls: TypeClass?) returns (r: bool)
      requires cls != null ==> cls.Valid()
      ensures r <==> cls != null && ChainMeets(cls, this)
    {
      if cls == null {
        return false;
      }
      var otherClass: TypeClass? := cls;
      while otherClass != null && !otherClass.Equals(this)
        invariant otherClass != null ==> otherClass.Valid()
        invariant otherClass != null ==> (ChainMeets(cls, this) <==> ChainMeets(otherClass, this))
        invariant otherClass == null ==> !ChainMeets(cls, this)
        decreases if otherClass == null then 0 else otherClass.depth + 1
      {
        ChainMeetsStep(otherClass, this);
        otherClass := otherClass.superClass;
      }
      if otherClass != null {
        ChainMeetsStep(otherClass, this);
      }
      r := otherClass != null && otherClass.Equals(this);
    }

    /** `isInstance`: false for null and non-references; otherwise the same walk from
        the type class the reference declares. */
    method IsInstance(obj: Object) returns (r: bool)
      requires obj.IsReference() && obj.declared != null ==> obj.declared.Valid()
      ensures r <==> obj.IsReference() && obj.declared != null && ChainMeets(obj.declared, this)
    {
      if obj.Null? {
        return false;
      }
      if !obj.IsReference() {
        return false;
      }
      var thisClass := obj.declared;
      while thisClass != null && !thisClass.Equals(this)
        invariant thisClass != null ==> thisClass.Valid()
        invariant thisClass != null ==> (ChainMeets(obj.declared, this) <==> ChainMeets(thisClass, this))
        invariant thisClass == null ==> obj.declared == null || !ChainMeets(obj.declared, this)
        decreases if thisClass == null then 0 else thisClass.depth + 1
      {
        ChainMeetsStep(thisClass, this);
        thisClass := thisClass.superClass;
      }
      if thisClass != null {
        ChainMeetsStep(thisClass, this);
      }
      r := thisClass != null && thisClass.Equals(this);
    }
  }

  /** Some class on the superclass chain of `c` equals `target`. */
  ghost predicate ChainMeets(c: TypeClass, target: TypeClass)
    requires c.Valid()
  {
    exists i :: 0 <= i < |c.Chain()| && c.Chain()[i].Equals(target)
  }

  /** One step of the walk: the chain of `c` meets `target` at `c` or further up. */
  lemma ChainMeetsStep(c: TypeClass, target: TypeClass)
    requires c.Valid()
    ensures ChainMeets(c, target) <==>
              c.Equals(target) || (c.superClass != null && ChainMeets(c.superClass, target))
  {
    var s := c.Chain();
    if c.superClass != null {
      var t := c.superClass.Chain();
      assert s == [c] + t;
      if ChainMeets(c, target) && !c.Equals(target) {
        var i :| 0 <= i < |s| && s[i].Equals(target);
        assert t[i - 1].Equals(target);
      }
      if ChainMeets(c.superClass, target) {
        var i :| 0 <= i < |t| && t[i].Equals(target);
        assert s[i + 1].Equals(target);
      }
    } else if c.Equals(target) {
      assert s[0].Equals(target);
    }
  }

  /** `equals` is reflexive. */
  lemma EqualsReflexive(a: TypeClass)
    ensures a.Equals(a)
  {
  }

  /** `equals` is symmetric: each of the four alias matches has its mirror image. */
  lemma EqualsSymmetric(a: TypeClass, b: TypeClass)
    ensures a.Equals(b) <==> b.Equals(a)
  {
  }

  /** The constant `hashCode` agrees with `equals`. */
  lemma HashCodeConsistent(a: TypeClass, b: TypeClass)
    requires a.EqualsObject(Class(b, null))
    ensures a.HashCode() == b.HashCode()
  {
  }

  /** Every class is assignable from itself. */
  lemma AssignableFromItself(c: TypeClass)
    requires c.Valid()
    ensures ChainMeets(c, c)
  {
    assert c.Chain()[0].Equals(c);
  }

  /** The chain of a class further up is the rest of the chain. */
  lemma {:induction false} ChainSuffix(c: TypeClass, i: nat)
    requires c.Valid() && i < |c.Chain()|
    ensures c.Chain()[i].Chain() == c.Chain()[i..]
    decreases c.depth
  {
    if i > 0 {
      var s := c.Chain();
      assert s == [c] + c.superClass.Chain();
      ChainSuffix(c.superClass, i - 1);
      assert s[i..] == c.superClass.Chain()[i - 1..];
    }
  }

  /** Whatever a class further up the chain is assignable to, the class below is too. */
  lemma AssignableThroughSuperclass(c: TypeClass, i: nat, target: TypeClass)
    requires c.Valid() && i < |c.Chain()|
    requires ChainMeets(c.Chain()[i], target)
    ensures ChainMeets(c, target)
  {
    var s := c.Chain();
    var t := s[i].Chain();
    ChainSuffix(c, i);
    assert t == s[i..];
    var k :| 0 <= k < |t| && t[k].Equals(target);
    assert t[k] == s[i + k];
    assert 0 <= i + k < |s| && s[i + k].Equals(target);
  }

  /** The loose equality is not transitive: a class equal to an alias of another need
      not equal it. */
  method EqualsIsNotTransitive() returns (a: TypeClass, b: TypeClass, c: TypeClass)
    ensures a.Equals(b) && b.Equals(c) && !a.Equals(c)
  {
    a := new TypeClass.Create("x", Some("c"), None, null);
    b := new TypeClass.Create("c", Some("y"), None, null);
    c := new TypeClass.Create("y", None, None, null);
  }

  /** A registered class is a valid, unscoped class with a code, stored under its
      name or its code. */
  ghost predicate RegisteredUnder(t: TypeClass, key: string)
  {
    t.Valid() && t.applicationReference == None && t.code.Some?
    && (t.name == key || t.code == Some(key))
  }

  /** The process-wide `TYPE_CLASS_MAP`. */
  class Registry {
    var types: map<string, TypeClass>

    ghost predicate Valid()
      reads this
    {
      forall key :: key in types ==> RegisteredUnder(types[key], key)
    }

    constructor ()
      ensures types == map[] && Valid()
    {
      types := map[];
    }

    /** `lookupRefName`: a registered spelling resolves to its class's name, so a code
        resolves to the human-readable name it aliases. */
    function LookupRefName(name: string): (r: string)
      reads this
      requires Valid()
      ensures name in types ==> r == types[name].name
      ensures name !in types ==> r == name
      ensures r == name || (name in types && types[name].code == Some(name))
    {
      if name in types then types[name].name else name
    }

    /** `getInstance`: lookup-or-insert. A registered name returns the stored instance
        and ignores the other arguments; otherwise a fresh instance is made, and it is
        stored under both name and code only when a code is given and no application
        scopes the class. */
    method GetInstance(name: string, code: Option<string>, applicationReference: Option<string>,
                       superClass: TypeClass?) returns (tc: TypeClass)
      requires Valid()
      requires superClass != null ==> superClass.Valid()
      modifies this
      ensures Valid() && tc.Valid()
      ensures name in old(types) ==> tc == old(types)[name] && types == old(types)
      ensures name !in old(types) ==>
                && fresh(tc)
                && tc.name == name && tc.code == code
                && tc.applicationReference == applicationReference && tc.superClass == superClass
                && types == if code.Some? && applicationReference.None?
                            then old(types)[name := tc][code.value := tc]
                            else old(types)
    {
      if name in types {
        tc := types[name];
        return;
      }
      tc := new TypeClass.Create(name, code, applicationReference, superClass);
      if code.Some? && applicationReference.None? {
        types := types[name := tc][code.value := tc];
      }
    }
  }

  /** After an unscoped `getInstance` with a fresh name, looking up its code yields the
      same instance, whatever code, application and superclass the second call passes. */
  method InternedUnderBothKeys(registry: Registry, name: string, code: string, superClass: TypeClass?,
                               otherCode: Option<string>, otherApplication: Option<string>,
                               otherSuperClass: TypeClass?)
    returns (first: TypeClass, second: TypeClass)
    requires registry.Valid() && name !in registry.types
    requires superClass != null ==> superClass.Valid()
    requires otherSuperClass != null ==> otherSuperClass.Valid()
    modifies registry
    ensures registry.Valid()
    ensures first == second && first.name == name && first.code == Some(code)
  {
    first := registry.GetInstance(name, Some(code), None, superClass);
    second := registry.GetInstance(code, otherCode, otherApplication, otherSuperClass);
  }
}
