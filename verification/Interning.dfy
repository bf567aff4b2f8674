/** String interning on the open-addressing table: one object per byte sequence. */
module Interning {
  import opened HashIndex
  import opened OpenTable
  import opened Probing
  import opened WeakSweep

  // ----- the string hash -----

  /** `hash ^= ch; hash *= 16777619` in 32-bit arithmetic. */
  function HashStep(hash: bv32, ch: bv8): bv32 {
    (hash ^ (ch as bv32)) * 16777619
  }

  function HashOf(chars: seq<bv8>): bv32 {
    if chars == [] then 2166136261 else HashStep(HashOf(chars[..|chars| - 1]), chars[|chars| - 1])
  }

  function HashNumber(hash: bv32): uint32 {
    hash as int
  }

  /** Test vectors of FNV-1a: the hashes of "", "a" and "foobar". */
  lemma HashVectors()
    ensures HashOf([]) == 0x811C9DC5 && HashOf([0x61]) == 0xE40C292C
    ensures HashOf([0x66, 0x6F, 0x6F, 0x62, 0x61, 0x72]) == 0xBF9CF968
  {
    var s: seq<bv8> := [0x66, 0x6F, 0x6F, 0x62, 0x61, 0x72];
    assert s[..5][..4] == s[..4] && s[..4][..3] == s[..3] && s[..3][..2] == s[..2];
    assert s[..2][..1] == s[..1] && s[..1][..0] == [];
    assert HashOf(s[..1]) == HashStep(0x811C9DC5, 0x66);
    assert HashOf(s[..2]) == HashStep(HashOf(s[..1]), 0x6F);
    assert HashOf(s[..3]) == HashStep(HashOf(s[..2]), 0x6F);
    assert HashOf(s[..4]) == HashStep(HashOf(s[..3]), 0x62);
    assert HashOf(s[..5]) == HashStep(HashOf(s[..4]), 0x61);
  }

  method HashString(key: seq<bv8>) returns (hash: uint32)
    ensures hash == HashNumber(HashOf(key))
  {
    hide HashStep, HashNumber;
    var h: bv32 := 2166136261;
    for i := 0 to |key|
      invariant h == HashOf(key[..i])
    {
      assert key[..i + 1][..i] == key[..i];
      h := HashStep(h, key[i]);
    }
    assert key[..|key|] == key;
    hash := HashNumber(h);
  }

  // ----- canonical string sets -----

  /** Each stored string carries its own hash, and no two stored strings have the same bytes. */
  ghost predicate Canonical(strings: set<ObjString>) {
    && (forall k :: k in strings ==> k.hash == HashNumber(HashOf(k.chars)))
    && (forall k, l :: k in strings && l in strings && k.chars == l.chars ==> k == l)
  }

  /** The walk from `home` to just before `i` met only strings with other bytes. */
  ghost predicate SearchedTo(s: Slots, home: nat, chars: seq<bv8>, i: nat) {
    && home < |s| && i < |s|
    && forall x :: 0 <= x < |s| && Distance(|s|, home, x) < Distance(|s|, home, i) ==>
                     s[x].key != null && s[x].key.chars != chars
  }

  lemma SearchOn(s: Slots, home: nat, chars: seq<bv8>, i: nat, e: nat)
    requires SearchedTo(s, home, chars, i)
    requires s[i].key != null && s[i].key.chars != chars
    requires e < |s| && s[e].key == null
    requires Distance(|s|, home, i) <= Distance(|s|, home, e)
    ensures (i + 1) % |s| == Next(|s|, i)
    ensures SearchedTo(s, home, chars, Next(|s|, i))
    ensures Distance(|s|, home, i) < Distance(|s|, home, Next(|s|, i)) <= Distance(|s|, home, e)
  {
    assert i != e;
    DistanceOfNext(|s|, home, i);
  }

  /** A search by content that runs into an empty slot proves that no stored string has these bytes. */
  lemma EmptySlotMeansAbsent(s: Slots, shift: nat, m: map<ObjString, Value>, chars: seq<bv8>, i: nat)
    requires WellFormed(s, shift, m) && Canonical(m.Keys)
    requires SearchedTo(s, IndexFor(HashNumber(HashOf(chars)), shift), chars, i)
    requires s[i].key == null
    ensures forall k :: k in m ==> k.chars != chars
  {
    var home := IndexFor(HashNumber(HashOf(chars)), shift);
    forall k | k in m ensures k.chars != chars {
      var j :| 0 <= j < |s| && j != -1 && s[j].key == k;
      assert Unbroken(s, IndexFor(k.hash, shift), j, -1);
      assert i != j;
    }
  }

  lemma StoredKey(s: Slots, shift: nat, m: map<ObjString, Value>, i: nat)
    requires WellFormed(s, shift, m)
    requires i < |s| && s[i].key != null
    ensures s[i].key in m
  {
  }

  lemma SearchStarts(s: Slots, shift: nat, chars: seq<bv8>, hash: uint32, e: nat)
    requires Sized(s, shift) && e < |s|
    ensures
      var home := IndexFor(hash, shift);
      && SearchedTo(s, home, chars, home)
      && Distance(|s|, home, home) <= Distance(|s|, home, e)
  {
    HomeInRange(s, shift, hash);
  }

  class Interner {
    const strings: Table
    /** Every string handed out so far that no collection has reclaimed. */
    ghost var live: set<ObjString>

    ghost predicate Valid()
      reads this, strings, strings.entries
    {
      && strings.Valid()
      && Canonical(strings.m.Keys)
      && live <= strings.m.Keys
    }

    constructor ()
      ensures Valid() && fresh(strings) && fresh(strings.entries) && live == {}
    {
      strings := new Table();
      live := {};
    }

    /** Lookup by content: finds the one stored string with these bytes, if there is one. */
    method FindString(chars: seq<bv8>, hash: uint32) returns (found: ObjString?)
      requires Valid() && hash == HashNumber(HashOf(chars))
      ensures found != null ==> found in strings.m && found.chars == chars
      ensures found == null ==> forall k :: k in strings.m ==> k.chars != chars
    {
      hide WellFormed, Occupied, Sized, Distance, Canonical, SearchedTo, HashOf, HashNumber, IndexFor;
      if strings.count == 0 {
        return null;
      }
      ghost var s, shift := strings.entries[..], strings.shift;
      WellFormedFacts(s, shift, strings.m);
      ghost var e := SomeSlotIsEmpty(s);
      ghost var home := IndexFor(hash, shift);
      SearchStarts(s, shift, chars, hash, e);
      HomeInRange(s, shift, hash);
      var index: nat := IndexFor(hash, strings.shift);
      while true
        invariant index < |s| && SearchedTo(s, home, chars, index)
        invariant Distance(|s|, home, index) <= Distance(|s|, home, e)
        decreases Distance(|s|, home, e) - Distance(|s|, home, index)
      {
        var key := strings.entries[index].key;
        if key == null {
          EmptySlotMeansAbsent(s, shift, strings.m, chars, index);
          return null;
        } else if |key.chars| == |chars| && key.hash == hash && key.chars == chars {
          StoredKey(s, shift, strings.m, index);
          return key;
        }
        StoredKey(s, shift, strings.m, index);
        DifferentBytes(strings.m, key, chars, hash);
        SearchOn(s, home, chars, index, e);
        index := (index + 1) % strings.entries.Length;
      }
    }

    /** Returns the string object for `chars`, creating and storing it on first use.
        Among all live strings, sameness of objects is sameness of bytes. */
    method Intern(chars: seq<bv8>) returns (str: ObjString)
      requires Valid() && strings.entries.Length < 0x4000_0000
      modifies this, strings, strings.entries
      ensures Valid() && (strings.entries == old(strings.entries) || fresh(strings.entries))
      ensures str.chars == chars && live == old(live) + {str}
      ensures forall r :: r in live ==> (r == str <==> r.chars == chars)
      ensures str in old(strings.m) || fresh(str)
    {
      hide WellFormed, Occupied, HashOf, HashNumber, Table.Valid;
      var hash := HashString(chars);
      var interned := FindString(chars, hash);
      if interned != null {
        live := live + {interned};
        return interned;
      }
      str := new ObjString(chars, hash);
      var _ := strings.Set(str, Nil);
      live := live + {str};
    }

    /** The weak-table pass of a collection: marked strings stay canonical. When no slot is refilled with an unmarked
        string, which is always so if no unmarked string lies on the probe path of another, only marked strings are
        left, and what a later lookup finds has not been freed. */
    method RemoveUnmarked()
      requires Valid()
      modifies this, strings, strings.entries
      ensures Valid() && strings.entries == old(strings.entries)
      ensures live == set r | r in old(live) && r.markers != 0
      ensures live <= strings.m.Keys <= old(strings.m.Keys)
      ensures SweepOutcome(old(strings.entries[..]), strings.shift, old(strings.Whites()), strings.Whites())
      ensures old(live == strings.m.Keys) && strings.Whites() == {} ==> live == strings.m.Keys
    {
      hide WellFormed, Occupied, HashOf, HashNumber, Table.Valid, Swept, SweepOutcome, SweepIsClean, PathsClear;
      strings.RemoveWhite();
      live := set r | r in live && r.markers != 0;
      assert forall k :: k in strings.m && k.markers == 0 ==> k in strings.Whites();
    }
  }

  lemma DifferentBytes(m: map<ObjString, Value>, key: ObjString, chars: seq<bv8>, hash: uint32)
    requires Canonical(m.Keys) && key in m && hash == HashNumber(HashOf(chars))
    requires !(|key.chars| == |chars| && key.hash == hash && key.chars == chars)
    ensures key.chars != chars
  {
  }
}
