/** The open-addressing hash table keyed by interned strings. */
module OpenTable {
  import opened HashIndex
  import opened Probing
  import opened WeakSweep

  class Table {
    var count: nat
    var shift: nat
    var entries: array<Entry>
    ghost var m: map<ObjString, Value>  // the finite map the table stands for

    ghost predicate Valid()
      reads this, entries
    {
      && count == |m| == Occupied(entries[..])
      && 4 * count <= 3 * entries.Length
      && (entries.Length == 0 || WellFormed(entries[..], shift, m))
    }

    constructor ()
      ensures Valid() && fresh(entries) && m == map[] && entries.Length == 0
    {
      count, shift := 0, 0;
      entries := new Entry[0];
      m := map[];
    }

    /** Probes for `key`; it ends because some slot is empty. */
    static method FindEntry(entries: array<Entry>, shift: nat, key: ObjString) returns (index: nat)
      requires Sized(entries[..], shift)
      requires Occupied(entries[..]) < entries.Length
      ensures index < entries.Length && IsProbeEnd(entries[..], shift, key, index)
    {
      hide Distance, Sized, Occupied, ProbedTo;
      ghost var s := entries[..];
      ghost var home := IndexFor(key.hash, shift);
      ghost var e := SomeSlotIsEmpty(s);
      ProbeStarts(s, shift, key);
      index := IndexFor(key.hash, shift);
      StartsInRange(s, shift, key, e);
      while true
        invariant index < entries.Length && ProbedTo(s, home, key, index)
        invariant Distance(entries.Length, home, index) <= Distance(entries.Length, home, e)
        decreases Distance(entries.Length, home, e) - Distance(entries.Length, home, index)
      {
        if entries[index].key == null || entries[index].key == key {
          return;
        }
        ProbeOn(s, home, key, index, e);
        index := (index + 1) % entries.Length;
      }
    }

    /** The same probe, reporting -1 when the key is absent. */
    static method FindEntryIndex(entries: array<Entry>, shift: nat, key: ObjString) returns (index: int, ghost end: nat)
      requires Sized(entries[..], shift)
      requires Occupied(entries[..]) < entries.Length
      ensures end < entries.Length && IsProbeEnd(entries[..], shift, key, end)
      ensures index == if entries[end].key == null then -1 else end
    {
      hide Distance, Sized, Occupied, ProbedTo;
      ghost var s := entries[..];
      ghost var home := IndexFor(key.hash, shift);
      ghost var e := SomeSlotIsEmpty(s);
      ProbeStarts(s, shift, key);
      StartsInRange(s, shift, key, e);
      var at: nat := IndexFor(key.hash, shift);
      while true
        invariant at < entries.Length && ProbedTo(s, home, key, at)
        invariant Distance(entries.Length, home, at) <= Distance(entries.Length, home, e)
        decreases Distance(entries.Length, home, e) - Distance(entries.Length, home, at)
      {
        if entries[at].key == null {
          return -1, at;
        } else if entries[at].key == key {
          return at, at;
        }
        ProbeOn(s, home, key, at, e);
        at := (at + 1) % entries.Length;
      }
    }

    method Get(key: ObjString) returns (found: bool, value: Value)
      requires Valid()
      ensures found <==> key in m
      ensures found ==> value == m[key]
    {
      if count == 0 {
        return false, Nil;
      }
      var i := FindEntry(entries, shift, key);
      ProbeEndDecides(entries[..], shift, m, key, i);
      if entries[i].key == null {
        return false, Nil;
      }
      return true, entries[i].value;
    }

    static method EmptySlots(capacity: nat) returns (slots: array<Entry>)
      ensures fresh(slots) && slots.Length == capacity
      ensures forall i :: 0 <= i < capacity ==> slots[i] == EMPTY
    {
      slots := new Entry[capacity];
      for i := 0 to capacity
        invariant forall j :: 0 <= j < i ==> slots[j] == EMPTY
      {
        slots[i] := EMPTY;
      }
    }

    /** Copies one entry whose key is not among `slots` yet. */
    static method PlaceNew(slots: array<Entry>, shift: nat, key: ObjString, value: Value, ghost m: map<ObjString,
      Value>)
      requires WellFormed(slots[..], shift, m) && Occupied(slots[..]) < slots.Length && key !in m
      modifies slots
      ensures WellFormed(slots[..], shift, m[key := value])
      ensures Occupied(slots[..]) == old(Occupied(slots[..])) + 1
    {
      hide WellFormed, Occupied, IsProbeEnd, Sized, DistinctKeys, Holds;
      WellFormedFacts(slots[..], shift, m);
      var dest := FindEntry(slots, shift, key);
      ProbeEndDecides(slots[..], shift, m, key, dest);
      InsertAtProbeEnd(slots[..], shift, m, key, dest, value);
      OccupiedUpdate(slots[..], dest, Entry(key, value));
      ghost var before := slots[..];
      slots[dest] := Entry(key, value);
      assert slots[..] == before[dest := Entry(key, value)];
    }

    /** Copies all entries of `source`, a table for `m`, into the empty slots of `target`. */
    static method MoveAll(source: array<Entry>, target: array<Entry>, shift: nat, ghost m: map<ObjString,
      Value>) returns (moved: nat)
      requires source != target && source.Length < target.Length && |m| <= source.Length
      requires if source.Length == 0 then |m| == 0 else DistinctKeys(source[..], -1) && Holds(source[..], m, -1)
      requires WellFormed(target[..], shift, map[]) && Occupied(target[..]) == 0
      modifies target
      ensures WellFormed(target[..], shift, m)
      ensures moved == |m| == Occupied(target[..])
    {
      hide WellFormed, Occupied, DistinctKeys, Holds, MovedSoFar;
      ghost var all := source[..];
      NoneMoved(all, m);
      moved := 0;
      ghost var done: map<ObjString, Value> := map[];
      for i := 0 to source.Length
        invariant WellFormed(target[..], shift, done)
        invariant moved == |done| == Occupied(target[..])
        invariant MovedSoFar(all, i, done, m)
      {
        var entry := source[i];
        if entry.key == null {
          SkipEmpty(all, i, done, m);
        } else {
          EntryFacts(all, m, i);
          NextToMove(all, i, done, m);
          PlaceNew(target, shift, entry.key, entry.value, done);
          done := done[entry.key := entry.value];
          moved := moved + 1;
        }
      }
      AllMoved(all, done, m);
    }

    /** Moves every entry into a fresh array of `newCapacity` slots. */
    method AdjustCapacity(newCapacity: nat)
      requires Valid() && entries.Length < 0x4000_0000
      requires newCapacity == GrowCapacity(entries.Length)
      modifies this
      ensures Valid() && fresh(entries) && entries.Length == newCapacity
      ensures m == old(m) && count == old(count)
    {
      hide WellFormed, Occupied, Sized, DistinctKeys, Holds;
      if entries.Length > 0 {
        WellFormedFacts(entries[..], shift, m);
      }
      ghost var lg := GrownSize(entries[..], shift);
      var newEntries := EmptySlots(newCapacity);
      var newShift := 32 - CountTrailingZeros(newCapacity);
      FreshIsWellFormed(newEntries[..], newShift, lg);
      count := MoveAll(entries, newEntries, newShift, m);
      entries, shift := newEntries, newShift;
    }

    /** Writes a binding to the slot where probing for its key ends. */
    method Write(i: nat, key: ObjString, value: Value)
      requires WellFormed(entries[..], shift, m) && IsProbeEnd(entries[..], shift, key, i)
      requires |m| == Occupied(entries[..]) && count == |m[key := value]| && 4 * count <= 3 * entries.Length
      modifies this`m, entries
      ensures Valid() && m == old(m)[key := value]
    {
      hide WellFormed, Occupied, IsProbeEnd, Sized, DistinctKeys, Holds;
      WellFormedFacts(entries[..], shift, m);
      ProbeEndDecides(entries[..], shift, m, key, i);
      InsertAtProbeEnd(entries[..], shift, m, key, i, value);
      OccupiedUpdate(entries[..], i, Entry(key, value));
      ghost var before := entries[..];
      entries[i] := Entry(key, value);
      assert entries[..] == before[i := Entry(key, value)];
      m := m[key := value];
    }

    /** Room for one more binding. */
    method Reserve()
      requires Valid() && entries.Length < 0x4000_0000
      modifies this
      ensures Valid() && m == old(m) && count == old(count) && (entries == old(entries) || fresh(entries))
      ensures entries.Length > 0 && 4 * (count + 1) <= 3 * entries.Length
      ensures entries.Length == SizeFor(old(entries.Length), count)
    {
      hide WellFormed, Occupied;
      if entries.Length > 0 {
        WellFormedFacts(entries[..], shift, m);
      }
      if 4 * (count + 1) > 3 * entries.Length {
        AdjustCapacity(GrowCapacity(entries.Length));
      }
    }

    /** Binds `key`, growing first when the load would exceed three quarters; says whether the key is new. */
    method Set(key: ObjString, value: Value) returns (isNewKey: bool)
      requires Valid() && entries.Length < 0x4000_0000
      modifies this, entries
      ensures Valid() && (entries == old(entries) || fresh(entries))
      ensures m == old(m)[key := value] && entries.Length == SizeFor(old(entries.Length), old(count))
      ensures isNewKey <==> key !in old(m)
    {
      hide WellFormed, Occupied, IsProbeEnd, Sized, DistinctKeys, Holds;
      Reserve();
      WellFormedFacts(entries[..], shift, m);
      var i := FindEntry(entries, shift, key);
      ProbeEndDecides(entries[..], shift, m, key, i);
      isNewKey := entries[i].key == null;
      if isNewKey && entries[i].value == Nil {
        count := count + 1;
      }
      Write(i, key, value);
    }

    /** Binds `key` only when it is absent, and returns the value bound afterwards. */
    method SetIfMissing(key: ObjString, value: Value) returns (bound: Value)
      requires Valid() && entries.Length < 0x4000_0000
      modifies this, entries
      ensures Valid() && (entries == old(entries) || fresh(entries))
      ensures m == if key in old(m) then old(m) else old(m)[key := value]
      ensures bound == m[key] && entries.Length == SizeFor(old(entries.Length), old(count))
    {
      hide WellFormed, Occupied, IsProbeEnd, Sized, DistinctKeys, Holds;
      Reserve();
      WellFormedFacts(entries[..], shift, m);
      var i := FindEntry(entries, shift, key);
      ProbeEndDecides(entries[..], shift, m, key, i);
      if entries[i].key == null && entries[i].value == Nil {
        count := count + 1;
      } else {
        return entries[i].value;
      }
      Write(i, key, value);
      return value;
    }

    /** Shifts the entries after slot `index` back over it where their probe paths cross it, and blanks the last
        hole. */
    static method ShiftBack(entries: array<Entry>, shift: nat, index: nat, ghost m: map<ObjString, Value>)
      requires WellFormed(entries[..], shift, m) && Occupied(entries[..]) < entries.Length
      requires index < entries.Length && entries[index].key != null
      modifies entries
      ensures old(entries[index].key) in m
      ensures WellFormed(entries[..], shift, m - {old(entries[index].key)})
      ensures Occupied(entries[..]) == old(Occupied(entries[..])) - 1
      ensures entries[..] == Deleted(old(entries[..]), shift, index)
      ensures NoneEntered(old(entries[..]), entries[..], index)
    {
      hide WellFormed, Occupied, Distance, Sized, Next, IndexFor, Deleted, NoneEntered, ShiftState;
      ghost var e := SomeSlotIsEmpty(entries[..]);
      ghost var all, rest := entries[..], m - {entries[index].key};
      var cap := entries.Length;
      var toDelete: nat, next: nat := index, Next(cap, index);
      ghost var fuel: nat := cap;
      StateStarts(all, shift, m, index, e);
      StateInRange(all, all, shift, rest, index, toDelete, next, e, fuel);
      while entries[next].key != null
        invariant next < cap && toDelete < cap
        invariant ShiftState(all, entries[..], shift, rest, index, toDelete, next, e, fuel)
        decreases fuel
      {
        ghost var before := entries[..];
        StateInRange(all, before, shift, rest, index, toDelete, next, e, fuel);
        var natural := IndexFor(entries[next].key.hash, shift);
        if Distance(cap, natural, toDelete) < Distance(cap, natural, next) {
          StateMoves(all, before, shift, rest, index, toDelete, next, e, fuel);
          entries[toDelete] := entries[next];
          assert entries[..] == before[toDelete := before[next]];
          toDelete := next;
        } else {
          StateKeeps(all, before, shift, rest, index, toDelete, next, e, fuel);
        }
        next := Next(cap, next);
        fuel := fuel - 1;
        StateInRange(all, entries[..], shift, rest, index, toDelete, next, e, fuel);
      }
      ghost var before := entries[..];
      StateEnds(all, before, shift, rest, index, toDelete, next, e, fuel);
      entries[toDelete] := EMPTY;
      assert entries[..] == before[toDelete := EMPTY];
    }

    /** Removes `key` by shifting later entries of its cluster back; no other key is lost. */
    method Delete(key: ObjString) returns (deleted: bool)
      requires Valid() && entries.Length > 0
      modifies this, entries
      ensures Valid() && entries == old(entries)
      ensures m == old(m) - {key}
      ensures deleted <==> key in old(m)
      ensures shift == old(shift)
      ensures forall i :: 0 <= i < entries.Length && old(entries[i].key) == key ==>
                entries[..] == Deleted(old(entries[..]), shift, i) && NoneEntered(old(entries[..]), entries[..], i)
    {
      hide WellFormed, Occupied, IsProbeEnd, Sized, Holds, Shifted, NoneEntered, Deleted;
      WellFormedFacts(entries[..], shift, m);
      var index, end := FindEntryIndex(entries, shift, key);
      ProbeEndDecides(entries[..], shift, m, key, end);
      if index < 0 {
        assert m - {key} == m;
        return false;
      }
      ShiftBack(entries, shift, index, m);
      m := m - {key};
      count := count - 1;
      return true;
    }

    /** The keys that the collector has not marked. */
    ghost function Whites(): set<ObjString>
      reads this, m.Keys
    {
      set k | k in m && k.markers == 0
    }

    /** Deletes unmarked keys while walking the slots: every marked key survives with its value. A deletion may refill
        the slot just visited, so unmarked keys can survive as well, but no more than are removed, and none if no slot
        is refilled with one. */
    method RemoveWhite()
      requires Valid()
      modifies this, entries
      ensures Valid() && entries == old(entries)
      ensures m.Keys <= old(m).Keys
      ensures forall k :: k in m ==> m[k] == old(m)[k]
      ensures forall k :: k in old(m) && k.markers != 0 ==> k in m
      ensures entries[..] == Swept(old(entries[..]), shift, old(Whites()), 0)
      ensures |Whites()| <= |old(m)| - |m|
      ensures SweepOutcome(old(entries[..]), shift, old(Whites()), Whites())
    {
      hide WellFormed, Occupied, Deleted, NoneEntered, Swept, WhitesIn, SweepOutcome;
      ghost var white := Whites();
      NoWhitesYet(entries[..], white);
      for i := 0 to entries.Length
        invariant Valid() && entries == old(entries) && shift == old(shift)
        invariant m.Keys <= old(m).Keys
        invariant forall k :: k in m ==> m[k] == old(m)[k]
        invariant forall k :: k in old(m) && k.markers != 0 ==> k in m
        invariant Swept(entries[..], shift, white, i) == Swept(old(entries[..]), shift, white, 0)
        invariant |WhitesIn(entries[..], white, i)| <= |old(m)| - |m|
      {
        var key := entries[i].key;
        ghost var before := entries[..];
        KeyIsHeld(before, shift, m, i);
        SweptUnfolds(before, shift, white, i);
        if key != null && key.markers == 0 {
          var _ := Delete(key);
          WhitesAfterDeletion(before, entries[..], white, i);
        } else {
          WhitesAfterStep(before, white, i);
        }
      }
      SweptUnfolds(entries[..], shift, white, entries.Length);
      AllWhitesIn(entries[..], shift, m, white, Whites());
      if entries.Length > 0 {
        OutcomeHolds(old(entries[..]), shift, old(m), m, white, Whites());
      } else {
        assert SweepOutcome(old(entries[..]), shift, white, Whites()) by {
          NothingSwept(old(entries[..]), shift, white);
        }
      }
    }
  }
}
