/** The constant-time subtype test: a display of ancestors, a list of the other supertypes and a one-entry cache. */
module Subtypes {

  const DISPLAY_SIZE: nat := 8
  const MAX_SUPERTYPES: nat := 256

  /** A class or an interface. */
  class Klass {
    const isInterface: bool
    const depth: nat
    /** The declared parents, in terms of which the subtype relation is defined. */
    ghost const super: Klass?
    ghost const implemented: seq<Klass>

    var typeCheckOffset: nat
    /** Ancestors by depth; the last entry is the cache. */
    const display: array<Klass?>
    /** The supertypes that the display has no room for. */
    var rssList: seq<Klass>

    constructor Interface()
      ensures isInterface && WellFounded() && typeCheckOffset == DISPLAY_SIZE && fresh(display)
    {
      isInterface, depth, super, implemented := true, 0, null, [];
      typeCheckOffset, rssList := DISPLAY_SIZE, [];
      display := new Klass?[0];
    }

    /** The class at the top of the hierarchy. */
    constructor Root()
      ensures !isInterface && depth == 0 && super == null && implemented == [] && WellFounded() && fresh(display)
      ensures typeCheckOffset == 0 && rssList == [] && display[..] == [this] + Empty(DISPLAY_SIZE)
    {
      isInterface, depth, super, implemented := false, 0, null, [];
      typeCheckOffset, rssList := 0, [];
      display := new Klass?[DISPLAY_SIZE + 1](_ => null);
      new;
      display[0] := this;
      assert display[..] == [this] + Empty(DISPLAY_SIZE);
    }

    /** A class before it inherits anything. */
    constructor Class(parent: Klass, ghost interfaces: seq<Klass>)
      ensures !isInterface && depth == parent.depth + 1 && super == parent && implemented == interfaces
      ensures fresh(display) && display[..] == Empty(DISPLAY_SIZE + 1) && rssList == []
    {
      isInterface, depth, super, implemented := false, parent.depth + 1, parent, interfaces;
      typeCheckOffset, rssList := 0, [];
      display := new Klass?[DISPLAY_SIZE + 1](_ => null);
      new;
      assert display[..] == Empty(DISPLAY_SIZE + 1);
    }

    /** Depths count the classes above; only classes have parents. */
    ghost predicate WellFounded()
      decreases depth
    {
      if isInterface || super == null then depth == 0 && super == null && implemented == []
      else
        && depth == super.depth + 1 && !super.isInterface && super.WellFounded()
        && forall i :: 0 <= i < |implemented| ==> implemented[i].isInterface
    }
  }

  function Empty(n: nat): (s: seq<Klass?>)
    ensures |s| == n && forall i :: 0 <= i < n ==> s[i] == null
  {
    seq(n, _ => null)
  }

  /** `t` is `s`, an ancestor of `s`, or an interface that `s` or an ancestor implements. */
  ghost predicate Subtype(older t: Klass, s: Klass)
    requires s.WellFounded()
    decreases s.depth
  {
    t == s || t in s.implemented || (s.super != null && Subtype(t, s.super))
  }

  /** The types the display has no room for. */
  ghost predicate Restricted(t: Klass) {
    t.isInterface || t.depth >= DISPLAY_SIZE
  }

  ghost function AncestorAt(s: Klass, k: nat): (a: Klass)
    requires s.WellFounded() && k <= s.depth
    ensures a.depth == k
    decreases s.depth
  {
    if k == s.depth then s else AncestorAt(s.super, k)
  }

  lemma {:induction false} ClassSupertypesAreAncestors(t: Klass, s: Klass)
    requires s.WellFounded() && !t.isInterface && !s.isInterface
    ensures Subtype(t, s) <==> t.depth <= s.depth && AncestorAt(s, t.depth) == t
    decreases s.depth
  {
    if s.super != null && t != s {
      ClassSupertypesAreAncestors(t, s.super);
    }
  }

  /** Some ancestor of `s`, or `s` itself, is `t` or declares it as an interface. */
  ghost predicate Declares(t: Klass, s: Klass, k: nat)
    requires s.WellFounded()
  {
    k <= s.depth && (AncestorAt(s, k) == t || t in AncestorAt(s, k).implemented)
  }

  /** The ancestors are what the declared superclasses lead to, one after the other. */
  lemma {:induction false} AncestorsAreDeclared(s: Klass, k: nat)
    requires s.WellFounded() && k <= s.depth
    ensures AncestorAt(s, s.depth) == s
    ensures k < s.depth ==> AncestorAt(s, k + 1).super == AncestorAt(s, k)
    decreases s.depth
  {
    if k + 1 < s.depth {
      AncestorsAreDeclared(s.super, k);
    }
  }

  /** Subtyping is what the declarations of a class and its ancestors say. */
  lemma {:induction false} SubtypeIsDeclared(t: Klass, s: Klass)
    requires s.WellFounded()
    ensures Subtype(t, s) <==> exists k: nat :: Declares(t, s, k)
    decreases s.depth
  {
    assert Declares(t, s, s.depth) <==> t == s || t in s.implemented;
    if !s.isInterface && s.super != null {
      SubtypeIsDeclared(t, s.super);
      forall k: nat | k <= s.super.depth ensures Declares(t, s, k) <==> Declares(t, s.super, k) {
      }
      assert forall k: nat :: Declares(t, s, k) && k <= s.super.depth ==> Declares(t, s.super, k);
      assert forall k: nat :: Declares(t, s.super, k) ==> Declares(t, s, k);
    }
  }

  /** What the type information of a class says about its supertypes. */
  ghost predicate Informed(s: Klass)
    requires s.WellFounded()
    reads s, s.display
  {
    && !s.isInterface && s.display.Length == DISPLAY_SIZE + 1
    && s.typeCheckOffset == (if s.depth < DISPLAY_SIZE then s.depth else DISPLAY_SIZE)
    && (forall k :: 0 <= k < DISPLAY_SIZE ==> s.display[k] == if k <= s.depth then AncestorAt(s, k) else null)
    && (s.display[DISPLAY_SIZE] != null ==> Restricted(s.display[DISPLAY_SIZE]) && Subtype(s.display[DISPLAY_SIZE], s))
    && (forall t :: t in s.rssList ==> Restricted(t) && t != s && Subtype(t, s))
    && (forall t :: Subtype(t, s) && Restricted(t) && t != s ==> t in s.rssList)
  }

  /** A class under a root: what `registerStaticClass` records for a class without a superclass. */
  lemma RootIsInformed(s: Klass)
    requires !s.isInterface && s.super == null && s.WellFounded() && s.display.Length == DISPLAY_SIZE + 1
    requires s.typeCheckOffset == 0 && s.rssList == [] && s.display[..] == [s] + Empty(DISPLAY_SIZE)
    ensures Informed(s)
  {
    forall k | 0 <= k <= DISPLAY_SIZE ensures s.display[k] == if k == 0 then s else null {
      assert s.display[k] == s.display[..][k];
    }
  }

  /** Supertypes are no deeper. */
  lemma {:induction false} SupertypesAreAbove(t: Klass, s: Klass)
    requires s.WellFounded() && !s.isInterface && Subtype(t, s) && !t.isInterface
    ensures t.depth <= s.depth
    decreases s.depth
  {
    if t != s && t !in s.implemented {
      SupertypesAreAbove(t, s.super);
    }
  }

  /** The restricted proper supertypes of a class, from those of its superclass. */
  lemma RestrictedSupertypes(t: Klass, s: Klass)
    requires s.WellFounded() && !s.isInterface && s.super != null && Informed(s.super)
    ensures Restricted(t) && t != s && Subtype(t, s) <==>
            (t == s.super && s.super.depth >= DISPLAY_SIZE) || t in s.super.rssList || t in s.implemented
  {
    if Subtype(t, s.super) && !t.isInterface {
      SupertypesAreAbove(t, s.super);
    }
  }

  /** What a class may be declared to inherit. */
  predicate Inheritable(super: Klass, interfaces: seq<Klass>) {
    !super.isInterface && forall i :: 0 <= i < |interfaces| ==> interfaces[i].isInterface
  }

  /** Copies the display of the superclass; the copy has room for superclasses of depth 8 at most. At depth 8
      the superclass's cache is copied too: what it remembers holds for the subclass as well. */
  method CopyDisplay(clazz: Klass, super: Klass)
    requires clazz.depth == super.depth + 1
    requires super.WellFounded() && Informed(super) && super.depth <= DISPLAY_SIZE
    requires clazz.display != super.display && clazz.display[..] == Empty(DISPLAY_SIZE + 1)
    modifies clazz`typeCheckOffset, clazz.display
    ensures clazz.typeCheckOffset == (if clazz.depth < DISPLAY_SIZE then clazz.depth else DISPLAY_SIZE)
    ensures forall k :: 0 <= k < DISPLAY_SIZE ==>
              clazz.display[k] ==
                if k < clazz.depth then AncestorAt(super, k) else if k == clazz.depth then clazz else null
    ensures clazz.display[DISPLAY_SIZE] != null ==>
              Restricted(clazz.display[DISPLAY_SIZE]) && Subtype(clazz.display[DISPLAY_SIZE], super)
  {
    var typeDepth := clazz.depth;
    var size := if typeDepth > DISPLAY_SIZE then typeDepth else DISPLAY_SIZE;
    for i := 0 to size
      invariant clazz.display[..] == super.display[..i] + Empty(DISPLAY_SIZE + 1 - i)
    {
      clazz.display[i] := super.display[i];
    }
    assert forall k :: 0 <= k < size ==> clazz.display[k] == clazz.display[..][k] == super.display[k];
    assert size == DISPLAY_SIZE ==> clazz.display[..][DISPLAY_SIZE] == null;
    if typeDepth < DISPLAY_SIZE {
      clazz.display[typeDepth] := clazz;
      clazz.typeCheckOffset := typeDepth;
    } else {
      clazz.typeCheckOffset := DISPLAY_SIZE;
    }
  }

  /** Makes a class inherit from a superclass and interfaces; raised means that one of them is of the wrong kind. */
  method Inherit(clazz: Klass, super: Klass, interfaces: seq<Klass>) returns (raised: bool)
    requires !clazz.isInterface && clazz.super == super
    requires clazz.implemented == interfaces && clazz.depth == super.depth + 1
    requires !super.isInterface ==> super.WellFounded() && Informed(super) && super.depth <= DISPLAY_SIZE
    requires |super.rssList| + |interfaces| + 1 <= MAX_SUPERTYPES
    requires clazz.display != super.display && clazz.display[..] == Empty(DISPLAY_SIZE + 1)
    modifies clazz`typeCheckOffset, clazz`rssList, clazz.display
    ensures raised <==> !Inheritable(super, interfaces)
    ensures !raised ==> clazz.WellFounded() && Informed(clazz)
  {
    if super.isInterface {
      return true;
    }
    CopyDisplay(clazz, super);
    var supertypes: seq<Klass> := [];
    if super.depth >= DISPLAY_SIZE {
      supertypes := supertypes + [super];
    }
    supertypes := supertypes + super.rssList;
    for i := 0 to |interfaces|
      invariant |supertypes| <= |super.rssList| + 1 + i
      invariant forall j :: 0 <= j < i ==> interfaces[j].isInterface
      invariant forall t :: t in supertypes <==>
                  (t == super && super.depth >= DISPLAY_SIZE) || t in super.rssList || t in interfaces[..i]
    {
      if !interfaces[i].isInterface {
        return true;
      }
      if interfaces[i] !in supertypes {
        supertypes := supertypes + [interfaces[i]];
      }
      assert interfaces[..i + 1] == interfaces[..i] + [interfaces[i]];
    }
    assert interfaces[..|interfaces|] == interfaces;
    assert |supertypes| <= MAX_SUPERTYPES;
    forall t ensures t in supertypes <==> Restricted(t) && t != clazz && Subtype(t, clazz) {
      RestrictedSupertypes(t, clazz);
    }
    clazz.rssList := supertypes;
    return false;
  }

  /** The subtype test; a positive answer from the list is remembered in the cache. */
  method InstanceOf(t: Klass, s: Klass) returns (r: bool)
    requires s.WellFounded() && Informed(s) && t.WellFounded()
    requires if t.isInterface then t.typeCheckOffset == DISPLAY_SIZE else t != s ==> Informed(t)
    modifies s.display
    ensures Informed(s) && (r <==> Subtype(t, s))
  {
    if !t.isInterface {
      ClassSupertypesAreAncestors(t, s);
    }
    var checkOffset := t.typeCheckOffset;
    if s.display[checkOffset] == t {
      return true;
    }
    if checkOffset != DISPLAY_SIZE {
      return false;
    }
    if s == t {
      return true;
    }
    var i := 0;
    while i < |s.rssList|
      invariant 0 <= i <= |s.rssList| && forall j :: 0 <= j < i ==> s.rssList[j] != t
    {
      if s.rssList[i] == t {
        s.display[DISPLAY_SIZE] := t;
        return true;
      }
      i := i + 1;
    }
    return false;
  }

  /** The classes and interfaces that a program has defined. */
  class Hierarchy {
    ghost var types: set<Klass>

    ghost predicate Valid()
      reads this, types, set t | t in types :: t.display
    {
      && (forall t :: t in types ==>
            && t.WellFounded()
            && (if t.isInterface then t.typeCheckOffset == DISPLAY_SIZE else Informed(t)))
      && (forall t, s :: t in types && s in types && t != s ==> t.display != s.display)
    }

    constructor ()
      ensures Valid() && types == {}
    {
      types := {};
    }

    method DefineInterface() returns (t: Klass)
      requires Valid()
      modifies this
      ensures Valid() && fresh(t) && t.isInterface && types == old(types) + {t}
    {
      t := new Klass.Interface();
      types := types + {t};
    }

    method DefineRoot() returns (s: Klass)
      requires Valid()
      modifies this
      ensures Valid() && fresh(s) && !s.isInterface && s.super == null && types == old(types) + {s}
    {
      s := new Klass.Root();
      RootIsInformed(s);
      types := types + {s};
    }

    /** Defines a class; it becomes part of the hierarchy unless its declaration raises an error. */
    method DefineClass(super: Klass, interfaces: seq<Klass>) returns (s: Klass, raised: bool)
      requires Valid() && super in types && forall t :: t in interfaces ==> t in types
      requires super.depth <= DISPLAY_SIZE && |super.rssList| + |interfaces| + 1 <= MAX_SUPERTYPES
      modifies this
      ensures Valid() && (raised <==> !Inheritable(super, interfaces))
      ensures types == if raised then old(types) else old(types) + {s}
      ensures fresh(s) && !s.isInterface && s.super == super && s.implemented == interfaces
    {
      s := new Klass.Class(super, interfaces);
      raised := Inherit(s, super, interfaces);
      if !raised {
        types := types + {s};
      }
    }

    /** In every hierarchy that definitions and queries can reach, the test is exact, and its use of the cache
        keeps it so. */
    method IsA(t: Klass, s: Klass) returns (r: bool)
      requires Valid() && t in types && s in types && !s.isInterface
      modifies s.display
      ensures Valid() && (r <==> Subtype(t, s))
    {
      r := InstanceOf(t, s);
    }
  }
}
