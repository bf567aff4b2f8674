/** The slots of the open-addressing hash table: linear probing and backward-shift deletion. */
module Probing {
  import opened HashIndex

  /** Keys are compared by identity; only their hash, contents and GC markers matter here. */
  class ObjString {
    const chars: seq<bv8>
    const hash: uint32
    var markers: nat

    constructor (chars: seq<bv8>, hash: uint32)
      ensures this.chars == chars && this.hash == hash && markers == 0
    {
      this.chars, this.hash, markers := chars, hash, 0;
    }
  }

  datatype Value = Nil | Num(n: int)

  datatype Entry = Entry(key: ObjString?, value: Value)

  type Slots = seq<Entry>

  const EMPTY := Entry(null, Nil)

  // ----- cyclic arithmetic -----

  /** The slot after `i`, wrapping around; `(i + 1) & (cap - 1)` for a power of two. */
  function Next(cap: nat, i: nat): nat {
    if i + 1 == cap then 0 else i + 1
  }

  /** How far `b` lies after `a` when walking forward with wraparound. */
  function Distance(cap: nat, a: nat, b: nat): int {
    if b >= a then b - a else cap + b - a
  }

  // ----- what a well-formed slot array is -----

  ghost predicate Sized(s: Slots, shift: nat) {
    exists lg: nat :: 3 <= lg <= 32 && |s| == Pow2(lg) && shift == 32 - lg
  }

  /** The home slot of a hash always lies in range. */
  lemma HomeInRange(s: Slots, shift: nat, hash: uint32)
    requires Sized(s, shift)
    ensures IndexFor(hash, shift) < |s|
  {
    var lg: nat :| 3 <= lg <= 32 && |s| == Pow2(lg) && shift == 32 - lg;
    IndexInRange(hash, lg);
  }

  ghost predicate DistinctKeys(s: Slots, skip: int) {
    forall i, j :: 0 <= i < j < |s| && i != skip && j != skip && s[i].key != null ==> s[i].key != s[j].key
  }

  /** Walking from `home` to just before `i` meets only occupied slots, none of them `hole`. */
  ghost predicate Unbroken(s: Slots, home: nat, i: nat, hole: int) {
    forall x :: 0 <= x < |s| && Distance(|s|, home, x) < Distance(|s|, home, i) ==>
      s[x].key != null && x != hole
  }

  /** Every key can be reached from its home slot without meeting an empty slot. */
  ghost predicate NoHoles(s: Slots, shift: nat) {
    forall i :: 0 <= i < |s| && s[i].key != null ==> Unbroken(s, IndexFor(s[i].key.hash, shift), i, -1)
  }

  ghost predicate EmptiesAreNil(s: Slots) {
    forall i :: 0 <= i < |s| && s[i].key == null ==> s[i].value == Nil
  }

  /** `s`, with slot `skip` disregarded, holds exactly the bindings of `m`. */
  ghost predicate Holds(s: Slots, m: map<ObjString, Value>, skip: int) {
    && (forall i :: 0 <= i < |s| && i != skip && s[i].key != null ==> s[i].key in m && m[s[i].key] == s[i].value)
    && (forall k :: k in m ==> exists i :: 0 <= i < |s| && i != skip && s[i].key == k)
  }

  function Occupied(s: Slots): (n: nat)
    ensures n <= |s|
  {
    if s == [] then 0 else (if s[0].key != null then 1 else 0) + Occupied(s[1..])
  }

  ghost predicate WellFormed(s: Slots, shift: nat, m: map<ObjString, Value>) {
    && Sized(s, shift)
    && DistinctKeys(s, -1)
    && NoHoles(s, shift)
    && EmptiesAreNil(s)
    && Holds(s, m, -1)
  }

  lemma {:induction false} OccupiedUpdate(s: Slots, i: nat, e: Entry)
    requires i < |s|
    ensures Occupied(s[i := e]) ==
            Occupied(s) - (if s[i].key != null then 1 else 0) + (if e.key != null then 1 else 0)
  {
    if i == 0 {
      assert s[i := e][1..] == s[1..];
    } else {
      OccupiedUpdate(s[1..], i - 1, e);
      assert s[i := e][1..] == s[1..][i - 1 := e];
    }
  }

  lemma {:induction false} SomeSlotIsEmpty(s: Slots) returns (e: nat)
    requires Occupied(s) < |s|
    ensures e < |s| && s[e].key == null
  {
    if s[0].key == null {
      e := 0;
    } else {
      e := SomeSlotIsEmpty(s[1..]);
      e := e + 1;
    }
  }

  lemma {:induction false} AllEmpty(s: Slots)
    requires forall i :: 0 <= i < |s| ==> s[i] == EMPTY
    ensures Occupied(s) == 0
  {
    if s != [] {
      AllEmpty(s[1..]);
    }
  }

  // ----- probing -----

  /** The walk from `home` to just before `i` met only other keys. */
  ghost predicate ProbedTo(s: Slots, home: nat, key: ObjString, i: nat) {
    && home < |s| && i < |s|
    && forall x :: 0 <= x < |s| && Distance(|s|, home, x) < Distance(|s|, home, i) ==>
                     s[x].key != null && s[x].key != key
  }

  /** `i` is where probing for `key` stops: the key itself, or the first empty slot after its home. */
  ghost predicate IsProbeEnd(s: Slots, shift: nat, key: ObjString, i: nat) {
    && ProbedTo(s, IndexFor(key.hash, shift), key, i)
    && (s[i].key == null || s[i].key == key)
  }

  /** Stepping over another key gets closer to any empty slot. */
  lemma ProbeOn(s: Slots, home: nat, key: ObjString, i: nat, e: nat)
    requires ProbedTo(s, home, key, i)
    requires s[i].key != null && s[i].key != key
    requires e < |s| && s[e].key == null
    requires Distance(|s|, home, i) <= Distance(|s|, home, e)
    ensures (i + 1) % |s| == Next(|s|, i)
    ensures ProbedTo(s, home, key, Next(|s|, i))
    ensures Distance(|s|, home, i) < Distance(|s|, home, Next(|s|, i)) <= Distance(|s|, home, e)
  {
    assert i != e;
    DistanceOfNext(|s|, home, i);
  }

  lemma DistanceOfNext(cap: nat, a: nat, b: nat)
    requires a < cap && b < cap && Next(cap, b) != a
    ensures Next(cap, b) < cap && Distance(cap, a, Next(cap, b)) == Distance(cap, a, b) + 1
  {
  }

  lemma ProbeStarts(s: Slots, shift: nat, key: ObjString)
    requires Sized(s, shift)
    ensures ProbedTo(s, IndexFor(key.hash, shift), key, IndexFor(key.hash, shift))
  {
    HomeInRange(s, shift, key.hash);
  }

  lemma StartsInRange(s: Slots, shift: nat, key: ObjString, e: nat)
    requires Sized(s, shift) && e < |s|
    ensures
      var home := IndexFor(key.hash, shift);
      home < |s| && Distance(|s|, home, home) <= Distance(|s|, home, e)
  {
    HomeInRange(s, shift, key.hash);
  }

  /** Probing decides membership: it stops on the key exactly when the table maps the key. */
  lemma ProbeEndDecides(s: Slots, shift: nat, m: map<ObjString, Value>, key: ObjString, i: nat)
    requires WellFormed(s, shift, m)
    requires IsProbeEnd(s, shift, key, i)
    ensures i < |s| && (s[i].key == key <==> key in m)
    ensures if key in m then m[key] == s[i].value else s[i] == EMPTY
  {
    if key in m {
      var j :| 0 <= j < |s| && j != -1 && s[j].key == key;
      var home := IndexFor(key.hash, shift);
      assert Unbroken(s, home, j, -1);
      assert i == j;
    }
  }

  /** Writing at the probe end keeps the table well formed and binds the key. */
  lemma InsertAtProbeEnd(s: Slots, shift: nat, m: map<ObjString, Value>, key: ObjString, i: nat, v: Value)
    requires WellFormed(s, shift, m)
    requires IsProbeEnd(s, shift, key, i)
    ensures WellFormed(s[i := Entry(key, v)], shift, m[key := v])
  {
    ProbeEndDecides(s, shift, m, key, i);
    var t, n := s[i := Entry(key, v)], m[key := v];
    SizedOfUpdate(s, shift, i, Entry(key, v));
    forall j | 0 <= j < |t| && t[j].key != null
      ensures Unbroken(t, IndexFor(t[j].key.hash, shift), j, -1)
    {
      if j != i {
        assert Unbroken(s, IndexFor(s[j].key.hash, shift), j, -1);
      }
    }
    InsertedHolds(s, m, key, i, v);
  }

  lemma InsertedHolds(s: Slots, m: map<ObjString, Value>, key: ObjString, i: nat, v: Value)
    requires Holds(s, m, -1) && DistinctKeys(s, -1)
    requires i < |s|
    requires s[i].key == key || (s[i].key == null && key !in m)
    ensures Holds(s[i := Entry(key, v)], m[key := v], -1)
    ensures DistinctKeys(s[i := Entry(key, v)], -1)
  {
    var t, n := s[i := Entry(key, v)], m[key := v];
    forall k | k in n
      ensures exists j :: 0 <= j < |t| && j != -1 && t[j].key == k
    {
      if k == key {
        assert t[i].key == k;
      } else {
        var j :| 0 <= j < |s| && j != -1 && s[j].key == k;
        assert t[j].key == k;
      }
    }
  }

  // ----- backward-shift deletion -----

  /** Mid-deletion state: slot `hole` holds a stale entry that counts as empty, `next` is examined next.
      Entries whose probe path crosses the hole all lie at `next` or further on. */
  ghost predicate Shifting(s: Slots, shift: nat, m: map<ObjString, Value>, hole: nat, next: nat) {
    && Sized(s, shift)
    && hole < |s| && next < |s| && hole != next && s[hole].key != null
    && DistinctKeys(s, hole)
    && EmptiesAreNil(s)
    && Holds(s, m, hole)
    && (forall x :: 0 <= x < |s| && Distance(|s|, hole, x) < Distance(|s|, hole, next) ==> s[x].key != null)
    && (forall i :: 0 <= i < |s| && i != hole && s[i].key != null ==>
          var home := IndexFor(s[i].key.hash, shift);
          && Unbroken(s, home, i, -1)
          && (Unbroken(s, home, i, hole) || Distance(|s|, hole, i) >= Distance(|s|, hole, next)))
  }

  /** The slots after shifting back from `hole`, with at most `fuel` slots examined from `next` on. */
  function Shifted(s: Slots, shift: nat, hole: nat, next: nat, fuel: nat): (r: Slots)
    requires hole < |s| && next < |s|
    ensures |r| == |s|
    decreases fuel
  {
    if fuel == 0 || s[next].key == null then s[hole := EMPTY]
    else
      var natural := IndexFor(s[next].key.hash, shift);
      if Distance(|s|, natural, hole) < Distance(|s|, natural, next) then
        Shifted(s[hole := s[next]], shift, next, Next(|s|, next), fuel - 1)
      else Shifted(s, shift, hole, Next(|s|, next), fuel - 1)
  }

  /** The slots after deleting the key in slot `i`. */
  function Deleted(s: Slots, shift: nat, i: nat): (r: Slots)
    requires i < |s|
    ensures |r| == |s|
  {
    Shifted(s, shift, i, Next(|s|, i), |s|)
  }

  /** No key has come into the first `i` slots. */
  ghost predicate NoneEntered(s: Slots, t: Slots, i: nat)
    requires |s| == |t|
  {
    forall x :: 0 <= x < i && x < |t| && t[x].key != null ==> exists y :: 0 <= y < i && y < |s| && s[y].key == t[x].key
  }

  /** Deleting a key starts from a state of this kind. */
  lemma ShiftingStarts(s: Slots, shift: nat, m: map<ObjString, Value>, hole: nat)
    requires WellFormed(s, shift, m)
    requires hole < |s| && s[hole].key != null
    ensures s[hole].key in m
    ensures Shifting(s, shift, m - {s[hole].key}, hole, Next(|s|, hole))
  {
    hide IndexFor, Unbroken;
    SlotsAtLeastEight(s, shift);
    HeldWithout(s, m, hole);
  }

  lemma HeldWithout(s: Slots, m: map<ObjString, Value>, hole: nat)
    requires Holds(s, m, -1) && DistinctKeys(s, -1) && hole < |s| && s[hole].key != null
    ensures s[hole].key in m && Holds(s, m - {s[hole].key}, hole)
  {
    var key := s[hole].key;
    forall k | k in m - {key}
      ensures exists i :: 0 <= i < |s| && i != hole && s[i].key == k
    {
      var i :| 0 <= i < |s| && i != -1 && s[i].key == k;
      assert i != hole;
    }
  }

  lemma SlotsAtLeastEight(s: Slots, shift: nat)
    requires Sized(s, shift)
    ensures |s| >= 8
  {
    var lg: nat :| 3 <= lg <= 32 && |s| == Pow2(lg) && shift == 32 - lg;
    Pow2Adds(3, lg - 3);
    assert Pow2(3) == 8;
  }

  /** Once the examined slot is empty, blanking the hole leaves a well-formed table. */
  lemma ShiftingEnds(s: Slots, shift: nat, m: map<ObjString, Value>, hole: nat, next: nat)
    requires Shifting(s, shift, m, hole, next)
    requires s[next].key == null
    ensures WellFormed(s[hole := EMPTY], shift, m)
  {
    hide Unbroken, Holds, DistinctKeys, Sized, IndexFor, Distance;
    var t := s[hole := EMPTY];
    SizedOfUpdate(s, shift, hole, EMPTY);
    forall i | 0 <= i < |t| && t[i].key != null
      ensures Unbroken(t, IndexFor(t[i].key.hash, shift), i, -1)
    {
      PathAvoidsTheHole(s, shift, m, hole, next, i);
    }
    BlankedHolds(s, m, hole);
  }

  lemma PathAvoidsTheHole(s: Slots, shift: nat, m: map<ObjString, Value>, hole: nat, next: nat, i: nat)
    requires Shifting(s, shift, m, hole, next)
    requires s[next].key == null
    requires i < |s| && i != hole && s[i].key != null
    ensures Unbroken(s[hole := EMPTY], IndexFor(s[i].key.hash, shift), i, -1)
  {
    var home := IndexFor(s[i].key.hash, shift);
    HomeInRange(s, shift, s[i].key.hash);
    assert Unbroken(s, home, i, -1);
    assert Unbroken(s, home, i, hole);
  }

  lemma BlankedHolds(s: Slots, m: map<ObjString, Value>, hole: nat)
    requires hole < |s| && DistinctKeys(s, hole) && Holds(s, m, hole)
    ensures DistinctKeys(s[hole := EMPTY], -1) && Holds(s[hole := EMPTY], m, -1)
  {
    var t := s[hole := EMPTY];
    forall k | k in m
      ensures exists i :: 0 <= i < |t| && i != -1 && t[i].key == k
    {
      var i :| 0 <= i < |s| && i != hole && s[i].key == k;
      assert t[i].key == k;
    }
  }

  /** The slot after an occupied `next` is not the hole: some slot on the way is still empty. */
  lemma NextIsNotTheHole(s: Slots, shift: nat, m: map<ObjString, Value>, hole: nat, next: nat, e: nat)
    requires Shifting(s, shift, m, hole, next)
    requires s[next].key != null
    requires e < |s| && s[e].key == null
    ensures Next(|s|, next) != hole
    ensures Distance(|s|, next, e) > 0
    ensures Distance(|s|, Next(|s|, next), e) < Distance(|s|, next, e)
  {
  }

  /** An examined entry stays put when the hole is not on its probe path. */
  lemma KeepInPlace(s: Slots, shift: nat, m: map<ObjString, Value>, hole: nat, next: nat)
    requires Shifting(s, shift, m, hole, next)
    requires s[next].key != null && Next(|s|, next) != hole
    requires
      var home := IndexFor(s[next].key.hash, shift);
      Distance(|s|, home, hole) >= Distance(|s|, home, next)
    ensures Shifting(s, shift, m, hole, Next(|s|, next))
  {
    var after := Next(|s|, next);
    DistanceOfNext(|s|, hole, next);
    forall i | 0 <= i < |s| && i != hole && s[i].key != null
      ensures
        var home := IndexFor(s[i].key.hash, shift);
        && Unbroken(s, home, i, -1)
        && (Unbroken(s, home, i, hole) || Distance(|s|, hole, i) >= Distance(|s|, hole, after))
    {
      KeptPath(s, shift, m, hole, next, i);
    }
  }

  lemma KeptPath(s: Slots, shift: nat, m: map<ObjString, Value>, hole: nat, next: nat, i: nat)
    requires Shifting(s, shift, m, hole, next)
    requires s[next].key != null && Next(|s|, next) != hole
    requires
      var home := IndexFor(s[next].key.hash, shift);
      Distance(|s|, home, hole) >= Distance(|s|, home, next)
    requires i < |s| && i != hole && s[i].key != null
    ensures
      var home := IndexFor(s[i].key.hash, shift);
      && Unbroken(s, home, i, -1)
      && (Unbroken(s, home, i, hole) || Distance(|s|, hole, i) >= Distance(|s|, hole, Next(|s|, next)))
  {
    hide DistinctKeys, EmptiesAreNil, Holds, Sized, IndexFor;
    DistanceOfNext(|s|, hole, next);
    assert Unbroken(s, IndexFor(s[i].key.hash, shift), i, -1);
    if i != next {
      DistancesDiffer(|s|, hole, next, i);
    }
  }

  lemma DistancesDiffer(cap: nat, a: nat, b: nat, i: nat)
    requires a < cap && b < cap && i < cap && i != b
    ensures Distance(cap, a, i) != Distance(cap, a, b)
  {
  }

  lemma MovedPath(s: Slots, shift: nat, m: map<ObjString, Value>, hole: nat, next: nat, i: nat)
    requires Shifting(s, shift, m, hole, next)
    requires s[next].key != null && Next(|s|, next) != next
    requires
      var home := IndexFor(s[next].key.hash, shift);
      Distance(|s|, home, hole) < Distance(|s|, home, next)
    requires i < |s| && i != next && s[hole := s[next]][i].key != null
    ensures
      var t := s[hole := s[next]];
      var home := IndexFor(t[i].key.hash, shift);
      && Unbroken(t, home, i, -1)
      && (Unbroken(t, home, i, next) || Distance(|t|, next, i) >= Distance(|t|, next, Next(|t|, next)))
  {
    HomeInRange(s, shift, s[next].key.hash);
    if i == hole {
      assert Unbroken(s, IndexFor(s[next].key.hash, shift), next, -1);
    } else {
      assert Unbroken(s, IndexFor(s[i].key.hash, shift), i, -1);
    }
  }

  lemma MovedHolds(s: Slots, m: map<ObjString, Value>, hole: nat, next: nat)
    requires hole < |s| && next < |s| && hole != next && s[next].key != null
    requires DistinctKeys(s, hole) && Holds(s, m, hole)
    ensures DistinctKeys(s[hole := s[next]], next) && Holds(s[hole := s[next]], m, next)
  {
    var t := s[hole := s[next]];
    forall k | k in m
      ensures exists i :: 0 <= i < |t| && i != next && t[i].key == k
    {
      var i :| 0 <= i < |s| && i != hole && s[i].key == k;
      if i == next {
        assert t[hole].key == k;
      } else {
        assert t[i].key == k;
      }
    }
  }

  /** An examined entry whose probe path crosses the hole moves into it, and its old slot is the new hole. */
  lemma MoveIntoHole(s: Slots, shift: nat, m: map<ObjString, Value>, hole: nat, next: nat)
    requires Shifting(s, shift, m, hole, next)
    requires s[next].key != null && Next(|s|, next) != next
    requires
      var home := IndexFor(s[next].key.hash, shift);
      Distance(|s|, home, hole) < Distance(|s|, home, next)
    ensures Shifting(s[hole := s[next]], shift, m, next, Next(|s|, next))
  {
    hide Unbroken, Holds, DistinctKeys, Sized, IndexFor;
    var t := s[hole := s[next]];
    SizedOfUpdate(s, shift, hole, s[next]);
    MovedHolds(s, m, hole, next);
    DistanceOfNext(|t|, next, next);
    forall i | 0 <= i < |t| && i != next && t[i].key != null
      ensures
        var home := IndexFor(t[i].key.hash, shift);
        && Unbroken(t, home, i, -1)
        && (Unbroken(t, home, i, next) || Distance(|t|, next, i) >= Distance(|t|, next, Next(|t|, next)))
    {
      MovedPath(s, shift, m, hole, next, i);
    }
  }

  lemma SizedOfUpdate(s: Slots, shift: nat, i: nat, e: Entry)
    requires Sized(s, shift) && i < |s|
    ensures Sized(s[i := e], shift)
  {
    var lg: nat :| 3 <= lg <= 32 && |s| == Pow2(lg) && shift == 32 - lg;
    assert |s[i := e]| == Pow2(lg);
  }

  lemma {:induction false} Pow2Grows(a: nat, b: nat)
    requires a <= b
    ensures Pow2(a) <= Pow2(b)
  {
    if a < b {
      Pow2Grows(a, b - 1);
    }
  }

  /** Growing a table keeps its size a power of two, and the shift in step with it. */
  /** How many slots there are once one more is taken: at most three quarters of them are, and they double. */
  function SizeFor(size: nat, count: nat): nat {
    if 4 * (count + 1) <= 3 * size then size else if size == 0 then 8 else 2 * size
  }

  lemma GrownSize(s: Slots, shift: nat) returns (lg: nat)
    requires s == [] || Sized(s, shift)
    requires |s| < 0x4000_0000
    ensures 3 <= lg <= 32 && GrowCapacity(|s|) == Pow2(lg) && |s| < GrowCapacity(|s|)
    ensures CountTrailingZeros(Pow2(lg)) == lg
  {
    if s == [] {
      lg := 3;
      assert Pow2(3) == 8;
    } else {
      SlotsAtLeastEight(s, shift);
      var lg0: nat :| 3 <= lg0 <= 32 && |s| == Pow2(lg0) && shift == 32 - lg0;
      lg := lg0 + 1;
      if lg0 == 32 {
        Pow2Of32();
      }
    }
    TrailingZerosOfPow2(lg);
  }

  /** The keys already moved are a subset of all keys, so the larger array still has an empty slot. */
  lemma SubmapIsSmaller(sub: map<ObjString, Value>, m: map<ObjString, Value>)
    requires sub.Keys <= m.Keys
    ensures |sub| <= |m|
  {
    CardinalityMonotone(sub.Keys, m.Keys);
    assert |sub| == |sub.Keys| && |m| == |m.Keys|;
  }

  lemma CardinalityMonotone(a: set<ObjString>, b: set<ObjString>)
    requires a <= b
    ensures |a| <= |b|
  {
    assert b == a + (b - a);
  }

  /** The cursor `next` walks on from `index` towards the empty slot `e`, with `hole` behind it. */
  ghost predicate Walking(cap: nat, index: nat, hole: nat, next: nat, e: nat, fuel: nat) {
    && index < cap && hole < cap && next < cap && e < cap
    && Distance(cap, index, hole) < Distance(cap, index, next) <= Distance(cap, index, e)
    && fuel + Distance(cap, index, next) == cap + 1
  }

  lemma WalkStarts(s: Slots, index: nat, e: nat)
    requires index < |s| && e < |s| && s[index].key != null && s[e].key == null
    ensures Walking(|s|, index, index, Next(|s|, index), e, |s|)
  {
  }

  lemma WalkGoesOn(cap: nat, index: nat, hole: nat, next: nat, e: nat, fuel: nat)
    requires Walking(cap, index, hole, next, e, fuel) && next != e
    ensures fuel > 0 && Walking(cap, index, next, Next(cap, next), e, fuel - 1)
    ensures Walking(cap, index, hole, Next(cap, next), e, fuel - 1)
    ensures hole < index ==> hole < next < index
  {
  }

  lemma ShiftedUnfolds(s: Slots, shift: nat, hole: nat, next: nat, fuel: nat)
    requires hole < |s| && next < |s|
    ensures
      if fuel == 0 || s[next].key == null then Shifted(s, shift, hole, next, fuel) == s[hole := EMPTY]
      else
        var natural := IndexFor(s[next].key.hash, shift);
        Shifted(s, shift, hole, next, fuel) ==
          if Distance(|s|, natural, hole) < Distance(|s|, natural, next)
          then Shifted(s[hole := s[next]], shift, next, Next(|s|, next), fuel - 1)
          else Shifted(s, shift, hole, Next(|s|, next), fuel - 1)
  {
    hide IndexFor, Distance;
  }

  /** Everything the loop of a deletion keeps. */
  ghost predicate ShiftState(
    all: Slots, s: Slots, shift: nat, rest: map<ObjString, Value>, index: nat, hole: nat, next: nat, e: nat, fuel: nat
  ) {
    && |s| == |all| && Walking(|s|, index, hole, next, e, fuel) && fuel <= |s|
    && Shifting(s, shift, rest, hole, next) && s[e].key == null && Occupied(s) == Occupied(all)
    && Shifted(s, shift, hole, next, fuel) == Deleted(all, shift, index) && NoneEntered(all, s, index)
  }

  lemma StateInRange(
    all: Slots, s: Slots, shift: nat, rest: map<ObjString, Value>, index: nat, hole: nat, next: nat, e: nat, fuel: nat
  )
    requires ShiftState(all, s, shift, rest, index, hole, next, e, fuel)
    ensures |s| == |all| && hole < |s| && next < |s| && (s[next].key != null ==> fuel > 0)
  {
    hide Shifted, Occupied, NoneEntered, Deleted, Shifting;
    ShiftingFacts(s, shift, rest, hole, next);
    if s[next].key != null {
      WalkGoesOn(|s|, index, hole, next, e, fuel);
    }
  }

  lemma StateStarts(s: Slots, shift: nat, m: map<ObjString, Value>, index: nat, e: nat)
    requires WellFormed(s, shift, m) && index < |s| && s[index].key != null && e < |s| && s[e].key == null
    ensures s[index].key in m
    ensures ShiftState(s, s, shift, m - {s[index].key}, index, index, Next(|s|, index), e, |s|)
  {
    hide WellFormed, Shifting, Occupied, Distance, Next, Shifted, NoneEntered;
    ShiftingStarts(s, shift, m, index);
    WalkStarts(s, index, e);
    NoneEnteredYet(s, index);
  }

  lemma StateMoves(
    all: Slots, s: Slots, shift: nat, rest: map<ObjString, Value>, index: nat, hole: nat, next: nat, e: nat, fuel: nat
  )
    requires ShiftState(all, s, shift, rest, index, hole, next, e, fuel)
    requires hole < |s| && next < |s| && s[next].key != null
    requires
      var natural := IndexFor(s[next].key.hash, shift);
      Distance(|s|, natural, hole) < Distance(|s|, natural, next)
    ensures fuel > 0
    ensures ShiftState(all, s[hole := s[next]], shift, rest, index, next, Next(|s|, next), e, fuel - 1)
  {
    hide Shifting, Occupied, Distance, Next, Shifted, NoneEntered, IndexFor, Walking, Deleted;
    ShiftingFacts(s, shift, rest, hole, next);
    EmptyAhead(|s|, index, hole, next, e, fuel);
    NextIsNotTheHole(s, shift, rest, hole, next, e);
    WalkGoesOn(|s|, index, hole, next, e, fuel);
    ShiftedUnfolds(s, shift, hole, next, fuel);
    MoveIntoHole(s, shift, rest, hole, next);
    OccupiedUpdate(s, hole, s[next]);
    MoveKeepsBefore(all, s, index, hole, next);
  }

  lemma EmptyAhead(cap: nat, index: nat, hole: nat, next: nat, e: nat, fuel: nat)
    requires Walking(cap, index, hole, next, e, fuel)
    ensures e < cap && e != hole
  {
  }

  lemma StateKeeps(
    all: Slots, s: Slots, shift: nat, rest: map<ObjString, Value>, index: nat, hole: nat, next: nat, e: nat, fuel: nat
  )
    requires ShiftState(all, s, shift, rest, index, hole, next, e, fuel)
    requires hole < |s| && next < |s| && s[next].key != null
    requires
      var natural := IndexFor(s[next].key.hash, shift);
      Distance(|s|, natural, hole) >= Distance(|s|, natural, next)
    ensures fuel > 0
    ensures ShiftState(all, s, shift, rest, index, hole, Next(|s|, next), e, fuel - 1)
  {
    hide Shifting, Occupied, Distance, Next, Shifted, NoneEntered, IndexFor, Walking, Deleted;
    EmptyAhead(|s|, index, hole, next, e, fuel);
    NextIsNotTheHole(s, shift, rest, hole, next, e);
    WalkGoesOn(|s|, index, hole, next, e, fuel);
    ShiftedUnfolds(s, shift, hole, next, fuel);
    KeepInPlace(s, shift, rest, hole, next);
  }

  lemma StateEnds(
    all: Slots, s: Slots, shift: nat, rest: map<ObjString, Value>, index: nat, hole: nat, next: nat, e: nat, fuel: nat
  )
    requires ShiftState(all, s, shift, rest, index, hole, next, e, fuel)
    requires hole < |s| && next < |s| && s[next].key == null
    ensures WellFormed(s[hole := EMPTY], shift, rest) && Occupied(s[hole := EMPTY]) == Occupied(all) - 1
    ensures s[hole := EMPTY] == Deleted(all, shift, index) && NoneEntered(all, s[hole := EMPTY], index)
  {
    hide Shifting, Occupied, Distance, Next, Shifted, NoneEntered, IndexFor, WellFormed, Deleted;
    ShiftingFacts(s, shift, rest, hole, next);
    ShiftingEnds(s, shift, rest, hole, next);
    ShiftedUnfolds(s, shift, hole, next, fuel);
    OccupiedUpdate(s, hole, EMPTY);
    BlankKeepsBefore(all, s, index, hole);
  }

  lemma NoneEnteredYet(s: Slots, i: nat)
    ensures NoneEntered(s, s, i)
  {
  }

  lemma MoveKeepsBefore(s: Slots, t: Slots, index: nat, hole: nat, next: nat)
    requires |s| == |t| && hole < |t| && next < |t| && NoneEntered(s, t, index) && (hole < index ==> next < index)
    ensures NoneEntered(s, t[hole := t[next]], index)
  {
    var u := t[hole := t[next]];
    forall x | 0 <= x < index && x < |u| && u[x].key != null
      ensures exists y :: 0 <= y < index && y < |s| && s[y].key == u[x].key
    {
      var z := if x == hole then next else x;
      assert t[z].key == u[x].key;
    }
  }

  lemma BlankKeepsBefore(s: Slots, t: Slots, index: nat, hole: nat)
    requires |s| == |t| && hole < |t| && NoneEntered(s, t, index)
    ensures NoneEntered(s, t[hole := EMPTY], index)
  {
    var u := t[hole := EMPTY];
    forall x | 0 <= x < index && x < |u| && u[x].key != null
      ensures exists y :: 0 <= y < index && y < |s| && s[y].key == u[x].key
    {
      assert t[x].key == u[x].key;
    }
  }

  // ----- facts the methods use without unfolding the definitions above -----

  lemma WellFormedFacts(s: Slots, shift: nat, m: map<ObjString, Value>)
    requires WellFormed(s, shift, m)
    ensures Sized(s, shift) && |s| >= 8
    ensures DistinctKeys(s, -1) && Holds(s, m, -1)
  {
    SlotsAtLeastEight(s, shift);
  }

  lemma ShiftingFacts(s: Slots, shift: nat, m: map<ObjString, Value>, hole: nat, next: nat)
    requires Shifting(s, shift, m, hole, next)
    ensures hole < |s| && next < |s| && hole != next && s[hole].key != null
  {
  }

  lemma FreshIsWellFormed(s: Slots, shift: nat, lg: nat)
    requires 3 <= lg <= 32 && |s| == Pow2(lg) && shift == 32 - lg
    requires forall i :: 0 <= i < |s| ==> s[i] == EMPTY
    ensures WellFormed(s, shift, map[]) && Occupied(s) == 0
  {
    AllEmpty(s);
  }

  /** `done` is the part of `m` whose keys sit in the first `i` slots. */
  ghost predicate MovedSoFar(s: Slots, i: nat, done: map<ObjString, Value>, m: map<ObjString, Value>) {
    && i <= |s|
    && (forall j :: 0 <= j < i && s[j].key != null ==> s[j].key in done)
    && (forall k :: k in done ==> k in m && done[k] == m[k])
    && (forall k :: k in done ==> exists j :: 0 <= j < i && s[j].key == k)
  }

  lemma EntryFacts(s: Slots, m: map<ObjString, Value>, i: nat)
    requires DistinctKeys(s, -1) && Holds(s, m, -1) && i < |s| && s[i].key != null
    ensures s[i].key in m && m[s[i].key] == s[i].value
    ensures forall j :: 0 <= j < i ==> s[j].key != s[i].key
  {
  }

  lemma NoneMoved(s: Slots, m: map<ObjString, Value>)
    ensures MovedSoFar(s, 0, map[], m)
  {
  }

  lemma SkipEmpty(s: Slots, i: nat, done: map<ObjString, Value>, m: map<ObjString, Value>)
    requires MovedSoFar(s, i, done, m) && i < |s| && s[i].key == null
    ensures MovedSoFar(s, i + 1, done, m)
  {
  }

  lemma NextToMove(s: Slots, i: nat, done: map<ObjString, Value>, m: map<ObjString, Value>)
    requires i < |s| && s[i].key != null && s[i].key in m && m[s[i].key] == s[i].value
    requires forall j :: 0 <= j < i ==> s[j].key != s[i].key
    requires MovedSoFar(s, i, done, m)
    ensures s[i].key !in done && |done| <= |m|
    ensures MovedSoFar(s, i + 1, done[s[i].key := s[i].value], m)
  {
    SubmapIsSmaller(done, m);
    var next := done[s[i].key := s[i].value];
    forall k | k in next
      ensures exists j :: 0 <= j < i + 1 && s[j].key == k
    {
      if k == s[i].key {
        assert s[i].key == k;
      } else {
        var j :| 0 <= j < i && s[j].key == k;
      }
    }
  }

  lemma AllMoved(s: Slots, done: map<ObjString, Value>, m: map<ObjString, Value>)
    requires s == [] ==> |m| == 0
    requires s != [] ==> Holds(s, m, -1)
    requires MovedSoFar(s, |s|, done, m)
    ensures done == m
  {
    if s != [] {
      forall k | k in m ensures k in done {
        var i :| 0 <= i < |s| && i != -1 && s[i].key == k;
      }
    }
  }

  lemma KeyIsHeld(s: Slots, shift: nat, m: map<ObjString, Value>, i: nat)
    requires WellFormed(s, shift, m) && i < |s|
    ensures s[i].key != null ==> s[i].key in m
  {
  }
}
