/** Deleting the unmarked keys of the table in one walk over its slots, and when that deletes all of them. */
module WeakSweep {
  import opened HashIndex
  import opened Probing

  /** The slots after deleting white keys while walking from slot `i` on; a slot is not visited again after a
      deletion. */
  function Swept(s: Slots, shift: nat, white: set<ObjString>, i: nat): (r: Slots)
    ensures |r| == |s|
    decreases |s| - i
  {
    if i >= |s| then s
    else Swept(if s[i].key != null && s[i].key in white then Deleted(s, shift, i) else s, shift, white, i + 1)
  }

  /** Two white keys with one home slot: the second moves into the slot that has just been visited, and survives. */
  lemma WhiteKeyCanSurvive(a: ObjString, b: ObjString, v: Value)
    requires a != b && a.hash == 0 && b.hash == 0
    ensures
      var s := [Entry(a, v), Entry(b, v)] + seq(6, _ => EMPTY);
      WellFormed(s, 29, map[a := v, b := v]) && Swept(s, 29, {a, b}, 0)[0].key == b
  {
    var s := [Entry(a, v), Entry(b, v)] + seq(6, _ => EMPTY);
    assert Sized(s, 29) by { assert 29 == 32 - 3 && |s| == Pow2(3); }
    assert IndexFor(0, 29) == 0;
    assert s[0].key == a && s[1].key == b && forall i :: 2 <= i < 8 ==> s[i] == EMPTY;
    assert Shifted(s[0 := s[1]], 29, 1, 2, 7) == s[0 := s[1]][1 := EMPTY];
    var t := Deleted(s, 29, 0);
    assert t == s[0 := s[1]][1 := EMPTY];
    NothingToSweep(t, 29, {a, b}, 1);
  }

  lemma {:induction false} NothingToSweep(s: Slots, shift: nat, white: set<ObjString>, i: nat)
    requires forall x :: i <= x < |s| ==> s[x].key == null
    ensures Swept(s, shift, white, i) == s
    decreases |s| - i
  {
    if i < |s| {
      NothingToSweep(s, shift, white, i + 1);
    }
  }

  /** White keys in the first `i` slots. */
  ghost function WhitesIn(s: Slots, white: set<ObjString>, i: nat): (w: set<ObjString>)
    ensures w <= white
  {
    set k | k in white && exists x :: 0 <= x < i && x < |s| && s[x].key == k
  }

  lemma NoWhitesYet(s: Slots, white: set<ObjString>)
    ensures WhitesIn(s, white, 0) == {}
  {
  }

  lemma SweptUnfolds(s: Slots, shift: nat, white: set<ObjString>, i: nat)
    ensures Swept(s, shift, white, i) ==
            if i >= |s| then s
            else Swept(if s[i].key != null && s[i].key in white then Deleted(s, shift, i) else s, shift, white, i + 1)
  {
  }

  lemma WhitesAfterStep(s: Slots, white: set<ObjString>, i: nat)
    requires i < |s| && (s[i].key == null || s[i].key !in white)
    ensures WhitesIn(s, white, i + 1) == WhitesIn(s, white, i)
  {
  }

  lemma WhitesAfterDeletion(s: Slots, t: Slots, white: set<ObjString>, i: nat)
    requires |s| == |t| && i < |s| && NoneEntered(s, t, i)
    ensures |WhitesIn(t, white, i + 1)| <= |WhitesIn(s, white, i)| + 1
  {
    var before, after := WhitesIn(s, white, i), WhitesIn(t, white, i + 1);
    if t[i].key == null {
      assert after <= before;
      SmallerSet(after, before);
    } else {
      assert after <= before + {t[i].key};
      SmallerSet(after, before + {t[i].key});
    }
  }

  lemma SmallerSet(a: set<ObjString>, b: set<ObjString>)
    requires a <= b
    ensures |a| <= |b|
  {
    CardinalityMonotone(a, b);
  }

  lemma AllWhitesIn(s: Slots, shift: nat, m: map<ObjString, Value>, white: set<ObjString>, left: set<ObjString>)
    requires s == [] ==> left == {}
    requires s != [] ==> WellFormed(s, shift, m)
    requires forall k :: k in left ==> k in m && k in white
    ensures |left| <= |WhitesIn(s, white, |s|)|
  {
    forall k | k in left ensures k in WhitesIn(s, white, |s|) {
    }
    SmallerSet(left, WhitesIn(s, white, |s|));
  }

  // ----- when every white key is deleted -----

  predicate IsWhite(e: Entry, white: set<ObjString>) {
    e.key != null && e.key in white
  }

  /** The key in slot `j` was put behind slot `i`, on its way from its home. */
  predicate Crosses(s: Slots, shift: nat, i: nat, j: nat)
    requires j < |s| && s[j].key != null
  {
    var home := IndexFor(s[j].key.hash, shift);
    Distance(|s|, home, i) < Distance(|s|, home, j)
  }

  /** No white key, slot `skip` disregarded, lies on the probe path of another one. */
  ghost predicate PathsClear(s: Slots, shift: nat, white: set<ObjString>, skip: int) {
    forall i, j | 0 <= i < |s| && 0 <= j < |s| && i != j && i != skip && j != skip ::
      IsWhite(s[i], white) && IsWhite(s[j], white) ==> !Crosses(s, shift, i, j)
  }

  ghost predicate NoneWhite(s: Slots, white: set<ObjString>, n: nat) {
    forall x :: 0 <= x < n && x < |s| ==> !IsWhite(s[x], white)
  }

  /** From `next` on, the first entry that was put behind slot `hole` is white. */
  predicate RefillIsWhite(s: Slots, shift: nat, white: set<ObjString>, hole: nat, next: nat, fuel: nat)
    requires hole < |s| && next < |s|
    decreases fuel
  {
    if fuel == 0 || s[next].key == null then false
    else if Crosses(s, shift, hole, next) then s[next].key in white
    else RefillIsWhite(s, shift, white, hole, Next(|s|, next), fuel - 1)
  }

  /** On the walk from slot `i` on, no slot with a white key is refilled with a white key. */
  predicate SweepIsClean(s: Slots, shift: nat, white: set<ObjString>, i: nat)
    decreases |s| - i
  {
    if i >= |s| then true
    else if IsWhite(s[i], white) then
      !RefillIsWhite(s, shift, white, i, Next(|s|, i), |s|) && SweepIsClean(Deleted(s, shift, i), shift, white, i + 1)
    else SweepIsClean(s, shift, white, i + 1)
  }

  /** No run of occupied slots goes on from the last slot to the first. */
  predicate Unwrapped(s: Slots) {
    s == [] || s[0].key == null || s[|s| - 1].key == null
  }

  // ----- one deletion -----

  /** Going on from `hole` with everything that has been established about a deletion. */
  lemma {:induction false} DeletionEnds(all: Slots, s: Slots, shift: nat, rest: map<ObjString, Value>,
                                        index: nat, hole: nat, next: nat, e: nat, fuel: nat)
    requires ShiftState(all, s, shift, rest, index, hole, next, e, fuel)
    ensures
      var t := Deleted(all, shift, index);
      WellFormed(t, shift, rest) && Occupied(t) == Occupied(all) - 1 && NoneEntered(all, t, index) && t[e].key == null
    ensures hole != index ==> Deleted(all, shift, index)[index] == s[index]
    decreases fuel
  {
    hide ShiftState, WellFormed, Occupied, NoneEntered, Deleted, Distance, Next, IndexFor;
    StateInRange(all, s, shift, rest, index, hole, next, e, fuel);
    StateEmpty(all, s, shift, rest, index, hole, next, e, fuel);
    if s[next].key == null {
      StateEnds(all, s, shift, rest, index, hole, next, e, fuel);
    } else if Crosses(s, shift, hole, next) {
      StateMoves(all, s, shift, rest, index, hole, next, e, fuel);
      DeletionEnds(all, s[hole := s[next]], shift, rest, index, next, Next(|s|, next), e, fuel - 1);
    } else {
      StateKeeps(all, s, shift, rest, index, hole, next, e, fuel);
      DeletionEnds(all, s, shift, rest, index, hole, Next(|s|, next), e, fuel - 1);
    }
  }

  lemma StateEmpty(all: Slots, s: Slots, shift: nat, rest: map<ObjString, Value>,
                   index: nat, hole: nat, next: nat, e: nat, fuel: nat)
    requires ShiftState(all, s, shift, rest, index, hole, next, e, fuel)
    ensures e < |s| == |all| && index < |s| && next != index && hole != e && s[e].key == null
  {
    hide Shifting, Shifted, NoneEntered, Occupied, Deleted;
  }

  lemma DeletionStarts(s: Slots, shift: nat, m: map<ObjString, Value>, i: nat) returns (e: nat)
    requires WellFormed(s, shift, m) && Occupied(s) < |s| && i < |s| && s[i].key != null
    ensures e < |s| && s[e].key == null && s[i].key in m
    ensures ShiftState(s, s, shift, m - {s[i].key}, i, i, Next(|s|, i), e, |s|)
  {
    hide WellFormed, Occupied, ShiftState, Next;
    e := SomeSlotIsEmpty(s);
    StateStarts(s, shift, m, i, e);
  }

  lemma DeletedIsWellFormed(s: Slots, shift: nat, m: map<ObjString, Value>, i: nat)
    requires WellFormed(s, shift, m) && Occupied(s) < |s| && i < |s| && s[i].key != null
    ensures
      var t := Deleted(s, shift, i);
      && s[i].key in m && WellFormed(t, shift, m - {s[i].key}) && Occupied(t) < |t|
      && NoneEntered(s, t, i)
  {
    hide WellFormed, Occupied, ShiftState, Deleted, NoneEntered, Next;
    var e := DeletionStarts(s, shift, m, i);
    DeletionEnds(s, s, shift, m - {s[i].key}, i, i, Next(|s|, i), e, |s|);
  }

  /** The slot of the deleted key ends up with a white one exactly when the first entry put behind it is white. */
  lemma DeletedRefill(s: Slots, shift: nat, m: map<ObjString, Value>, white: set<ObjString>, i: nat)
    requires WellFormed(s, shift, m) && Occupied(s) < |s| && i < |s| && s[i].key != null
    ensures IsWhite(Deleted(s, shift, i)[i], white) <==> RefillIsWhite(s, shift, white, i, Next(|s|, i), |s|)
  {
    hide WellFormed, Occupied, ShiftState, Deleted, Next;
    var e := DeletionStarts(s, shift, m, i);
    WalkRefill(s, shift, m - {s[i].key}, white, i, Next(|s|, i), e, |s|);
  }

  lemma {:induction false} WalkRefill(s: Slots, shift: nat, rest: map<ObjString, Value>, white: set<ObjString>,
                                      index: nat, next: nat, e: nat, fuel: nat)
    requires ShiftState(s, s, shift, rest, index, index, next, e, fuel)
    ensures index < |s| && next < |s|
    ensures IsWhite(Deleted(s, shift, index)[index], white) <==> RefillIsWhite(s, shift, white, index, next, fuel)
    decreases fuel
  {
    hide ShiftState, WellFormed, Occupied, NoneEntered, Deleted, Distance, Next, IndexFor;
    StateInRange(s, s, shift, rest, index, index, next, e, fuel);
    StateEmpty(s, s, shift, rest, index, index, next, e, fuel);
    if s[next].key == null {
      StateEnds(s, s, shift, rest, index, index, next, e, fuel);
    } else if Crosses(s, shift, index, next) {
      StateMoves(s, s, shift, rest, index, index, next, e, fuel);
      DeletionEnds(s, s[index := s[next]], shift, rest, index, next, Next(|s|, next), e, fuel - 1);
    } else {
      StateKeeps(s, s, shift, rest, index, index, next, e, fuel);
      WalkRefill(s, shift, rest, white, index, Next(|s|, next), e, fuel - 1);
    }
  }

  // ----- a clean sweep deletes every white key -----

  lemma {:induction false} CleanSweepDeletesAll(
    s: Slots, shift: nat, m: map<ObjString, Value>, white: set<ObjString>, i: nat
  )
    requires WellFormed(s, shift, m) && Occupied(s) < |s| && i <= |s| && NoneWhite(s, white, i)
    requires SweepIsClean(s, shift, white, i)
    ensures NoneWhite(Swept(s, shift, white, i), white, |s|)
    decreases |s| - i
  {
    hide WellFormed, Occupied, Deleted, NoneEntered, Next, RefillIsWhite;
    if i < |s| {
      if IsWhite(s[i], white) {
        DeletedIsWellFormed(s, shift, m, i);
        DeletedRefill(s, shift, m, white, i);
        NoneWhiteAfter(s, Deleted(s, shift, i), white, i);
        CleanSweepDeletesAll(Deleted(s, shift, i), shift, m - {s[i].key}, white, i + 1);
      } else {
        CleanSweepDeletesAll(s, shift, m, white, i + 1);
      }
    }
  }

  lemma NoneWhiteAfter(s: Slots, t: Slots, white: set<ObjString>, i: nat)
    requires |s| == |t| && i < |t| && NoneWhite(s, white, i) && NoneEntered(s, t, i) && !IsWhite(t[i], white)
    ensures NoneWhite(t, white, i + 1)
  {
    forall x | 0 <= x < i + 1 ensures !IsWhite(t[x], white) {
      if x < i && t[x].key != null {
        var y :| 0 <= y < i && y < |s| && s[y].key == t[x].key;
        assert !IsWhite(s[y], white);
      }
    }
  }

  // ----- without wraparound, only a clean sweep does -----

  /** A deletion leaves the slots below as they are. */
  lemma {:induction false} UnwrappedStays(all: Slots, s: Slots, shift: nat, rest: map<ObjString, Value>,
                                          index: nat, hole: nat, next: nat, e: nat, fuel: nat)
    requires ShiftState(all, s, shift, rest, index, hole, next, e, fuel) && (e == 0 || e == |s| - 1)
    requires forall x :: 0 <= x < index && x < |s| ==> s[x] == all[x]
    ensures
      var t := Deleted(all, shift, index);
      e < |t| && t[e].key == null && forall x :: 0 <= x < index ==> t[x] == all[x]
    decreases fuel
  {
    hide ShiftState, WellFormed, Occupied, NoneEntered, Deleted, Next, IndexFor, Distance;
    StateInRange(all, s, shift, rest, index, hole, next, e, fuel);
    StateEmpty(all, s, shift, rest, index, hole, next, e, fuel);
    HoleIsBehind(all, s, shift, rest, index, hole, next, e, fuel);
    if s[next].key == null {
      StateEnds(all, s, shift, rest, index, hole, next, e, fuel);
    } else if Crosses(s, shift, hole, next) {
      StateMoves(all, s, shift, rest, index, hole, next, e, fuel);
      UnwrappedStays(all, s[hole := s[next]], shift, rest, index, next, Next(|s|, next), e, fuel - 1);
    } else {
      StateKeeps(all, s, shift, rest, index, hole, next, e, fuel);
      UnwrappedStays(all, s, shift, rest, index, hole, Next(|s|, next), e, fuel - 1);
    }
  }

  lemma HoleIsBehind(all: Slots, s: Slots, shift: nat, rest: map<ObjString, Value>,
                     index: nat, hole: nat, next: nat, e: nat, fuel: nat)
    requires ShiftState(all, s, shift, rest, index, hole, next, e, fuel) && (e == 0 || e == |s| - 1)
    ensures index <= hole
  {
    hide Shifting, Shifted, NoneEntered, Occupied, Deleted;
  }

  lemma DeletedKeepsBelow(s: Slots, shift: nat, m: map<ObjString, Value>, i: nat)
    requires WellFormed(s, shift, m) && i < |s| && s[i].key != null && Unwrapped(s)
    ensures
      var t := Deleted(s, shift, i);
      Unwrapped(t) && forall x :: 0 <= x < i ==> t[x] == s[x]
  {
    hide WellFormed, ShiftState, Deleted, Next;
    var e := if s[0].key == null then 0 else |s| - 1;
    StateStarts(s, shift, m, i, e);
    UnwrappedStays(s, s, shift, m - {s[i].key}, i, i, Next(|s|, i), e, |s|);
  }

  lemma {:induction false} WhiteStays(
    s: Slots, shift: nat, m: map<ObjString, Value>, white: set<ObjString>, i: nat, x: nat
  )
    requires WellFormed(s, shift, m) && Occupied(s) < |s| && Unwrapped(s) && x < i <= |s|
    ensures Swept(s, shift, white, i)[x] == s[x]
    decreases |s| - i
  {
    hide WellFormed, Occupied, Deleted, NoneEntered, Unwrapped;
    if i < |s| {
      if IsWhite(s[i], white) {
        DeletedIsWellFormed(s, shift, m, i);
        DeletedKeepsBelow(s, shift, m, i);
        WhiteStays(Deleted(s, shift, i), shift, m - {s[i].key}, white, i + 1, x);
      } else {
        WhiteStays(s, shift, m, white, i + 1, x);
      }
    }
  }

  lemma {:induction false} UncleanSweepLeavesOne(
    s: Slots, shift: nat, m: map<ObjString, Value>, white: set<ObjString>, i: nat
  )
    requires WellFormed(s, shift, m) && Occupied(s) < |s| && Unwrapped(s) && i <= |s|
    requires !SweepIsClean(s, shift, white, i)
    ensures !NoneWhite(Swept(s, shift, white, i), white, |s|)
    decreases |s| - i
  {
    hide WellFormed, Occupied, Deleted, NoneEntered, Unwrapped, RefillIsWhite, Next;
    if IsWhite(s[i], white) {
      var t := Deleted(s, shift, i);
      DeletedIsWellFormed(s, shift, m, i);
      DeletedRefill(s, shift, m, white, i);
      DeletedKeepsBelow(s, shift, m, i);
      if IsWhite(t[i], white) {
        WhiteStays(t, shift, m - {s[i].key}, white, i + 1, i);
        assert Swept(s, shift, white, i)[i] == t[i];
      } else {
        UncleanSweepLeavesOne(t, shift, m - {s[i].key}, white, i + 1);
      }
    } else {
      UncleanSweepLeavesOne(s, shift, m, white, i + 1);
    }
  }

  /** When no cluster wraps around, every white key is deleted exactly when no slot is refilled with a white one. */
  lemma SweptIff(s: Slots, shift: nat, m: map<ObjString, Value>, white: set<ObjString>)
    requires WellFormed(s, shift, m) && Occupied(s) < |s| && Unwrapped(s)
    ensures NoneWhite(Swept(s, shift, white, 0), white, |s|) <==> SweepIsClean(s, shift, white, 0)
  {
    hide WellFormed, Occupied, Swept, SweepIsClean, Unwrapped;
    if SweepIsClean(s, shift, white, 0) {
      CleanSweepDeletesAll(s, shift, m, white, 0);
    } else {
      UncleanSweepLeavesOne(s, shift, m, white, 0);
    }
  }

  // ----- a condition on the slots themselves -----

  lemma DistanceAdds(cap: nat, a: nat, b: nat, c: nat)
    requires a < cap && b < cap && c < cap && Distance(cap, a, b) <= Distance(cap, a, c)
    ensures Distance(cap, a, c) == Distance(cap, a, b) + Distance(cap, b, c)
  {
  }

  /** Between two steps of a deletion, an entry behind the hole that was put there past the hole was put past `next` as
      well. */
  lemma CrossesNext(s: Slots, shift: nat, rest: map<ObjString, Value>, hole: nat, next: nat, j: nat)
    requires Shifting(s, shift, rest, hole, next) && j < |s| && j != hole && j != next && s[j].key != null
    requires Crosses(s, shift, hole, j)
    ensures Crosses(s, shift, next, j)
  {
    var home := IndexFor(s[j].key.hash, shift);
    HomeInRange(s, shift, s[j].key.hash);
    assert !Unbroken(s, home, j, hole);
    assert Distance(|s|, hole, j) >= Distance(|s|, hole, next);
    DistanceAdds(|s|, home, hole, j);
    DistanceAdds(|s|, hole, next, j);
    DistanceCloser(|s|, home, hole, next, j);
  }

  lemma DistanceCloser(cap: nat, home: nat, hole: nat, next: nat, j: nat)
    requires home < cap && hole < cap && next < cap && j < cap && j != next
    requires Distance(cap, home, j) == Distance(cap, home, hole) + Distance(cap, hole, j)
    requires Distance(cap, hole, j) == Distance(cap, hole, next) + Distance(cap, next, j)
    ensures Distance(cap, home, next) < Distance(cap, home, j)
  {
  }

  /** Moving an entry into the hole brings no white key onto the path of another. */
  lemma MoveStaysClear(s: Slots, shift: nat, rest: map<ObjString, Value>, white: set<ObjString>, hole: nat, next: nat)
    requires Shifting(s, shift, rest, hole, next) && PathsClear(s, shift, white, hole)
    requires s[next].key != null && Crosses(s, shift, hole, next)
    ensures PathsClear(s[hole := s[next]], shift, white, next)
  {
    hide Shifting, Distance, IndexFor;
    ShiftingFacts(s, shift, rest, hole, next);
    var t := s[hole := s[next]];
    forall i, j | 0 <= i < |t| && 0 <= j < |t| && i != j && i != next && j != next
      ensures IsWhite(t[i], white) && IsWhite(t[j], white) ==> !Crosses(t, shift, i, j)
    {
      if IsWhite(t[i], white) && IsWhite(t[j], white) && Crosses(t, shift, i, j) {
        if i == hole {
          CrossesNext(s, shift, rest, hole, next, j);
        } else if j == hole {
          PathShrinks(s, shift, hole, next, i);
        }
      }
    }
  }

  lemma PathShrinks(s: Slots, shift: nat, hole: nat, next: nat, i: nat)
    requires hole < |s| && next < |s| && s[next].key != null && Crosses(s, shift, hole, next)
    requires Crosses(s[hole := s[next]], shift, i, hole)
    ensures Crosses(s, shift, i, next)
  {
  }

  /** What a deletion keeps while it walks on: nothing white up to `index`, and clear paths. */
  ghost predicate ClearSoFar(all: Slots, s: Slots, shift: nat, white: set<ObjString>, index: nat, hole: nat)
    requires |s| == |all| && index < |s|
  {
    && PathsClear(s, shift, white, hole) && PathsClear(all, shift, white, -1) && IsWhite(all[index], white)
    && (forall x :: 0 <= x <= index && x != hole ==> !IsWhite(s[x], white))
    && (hole == index ==> s == all)
  }

  lemma {:induction false} ClearStays(all: Slots, s: Slots, shift: nat, rest: map<ObjString, Value>,
    white: set<ObjString>,
                                      index: nat, hole: nat, next: nat, e: nat, fuel: nat)
    requires ShiftState(all, s, shift, rest, index, hole, next, e, fuel)
    requires |s| == |all| && index < |s| && ClearSoFar(all, s, shift, white, index, hole)
    ensures
      var t := Deleted(all, shift, index);
      PathsClear(t, shift, white, -1) && NoneWhite(t, white, index + 1)
    decreases fuel
  {
    hide ShiftState, WellFormed, Occupied, NoneEntered, Deleted, Next, IndexFor, Distance, ClearSoFar, PathsClear;
    StateInRange(all, s, shift, rest, index, hole, next, e, fuel);
    if s[next].key == null {
      StateEnds(all, s, shift, rest, index, hole, next, e, fuel);
      ClearEnds(all, s, shift, white, index, hole);
    } else if Crosses(s, shift, hole, next) {
      StateMoves(all, s, shift, rest, index, hole, next, e, fuel);
      ClearMoves(all, s, shift, rest, white, index, hole, next, e, fuel);
      ClearStays(all, s[hole := s[next]], shift, rest, white, index, next, Next(|s|, next), e, fuel - 1);
    } else {
      StateKeeps(all, s, shift, rest, index, hole, next, e, fuel);
      ClearStays(all, s, shift, rest, white, index, hole, Next(|s|, next), e, fuel - 1);
    }
  }

  lemma ClearEnds(all: Slots, s: Slots, shift: nat, white: set<ObjString>, index: nat, hole: nat)
    requires |s| == |all| && index < |s| && hole < |s| && ClearSoFar(all, s, shift, white, index, hole)
    ensures PathsClear(s[hole := EMPTY], shift, white, -1) && NoneWhite(s[hole := EMPTY], white, index + 1)
  {
    hide IndexFor, Distance;
    var t := s[hole := EMPTY];
    forall i, j | 0 <= i < |t| && 0 <= j < |t| && i != j
      ensures IsWhite(t[i], white) && IsWhite(t[j], white) ==> !Crosses(t, shift, i, j)
    {
      if i != hole && j != hole {
        assert IsWhite(s[i], white) && IsWhite(s[j], white) ==> !Crosses(s, shift, i, j);
      }
    }
  }

  lemma ClearMoves(all: Slots, s: Slots, shift: nat, rest: map<ObjString, Value>, white: set<ObjString>,
                   index: nat, hole: nat, next: nat, e: nat, fuel: nat)
    requires ShiftState(all, s, shift, rest, index, hole, next, e, fuel)
    requires |s| == |all| && index < |s| && hole < |s| && next < |s|
    requires ClearSoFar(all, s, shift, white, index, hole)
    requires s[next].key != null && Crosses(s, shift, hole, next)
    ensures ClearSoFar(all, s[hole := s[next]], shift, white, index, next)
  {
    hide Shifting, Occupied, NoneEntered, Deleted, Next, IndexFor, Distance, PathsClear, Shifted;
    MoveStaysClear(s, shift, rest, white, hole, next);
    assert next != index by { StateEmpty(all, s, shift, rest, index, hole, next, e, fuel); }
    WalkGoesOn(|s|, index, hole, next, e, fuel);
    var t := s[hole := s[next]];
    if hole == index {
      ClearPair(all, shift, white, index, next);
    }
    forall x | 0 <= x <= index && x != next ensures !IsWhite(t[x], white) {
      assert x != hole ==> t[x] == s[x];
    }
  }

  lemma ClearPair(s: Slots, shift: nat, white: set<ObjString>, i: nat, j: nat)
    requires PathsClear(s, shift, white, -1) && i < |s| && j < |s| && i != j
    requires IsWhite(s[i], white) && s[j].key != null && Crosses(s, shift, i, j)
    ensures !IsWhite(s[j], white)
  {
  }

  /** If no white key lies on the probe path of another, no slot is refilled with a white key. */
  lemma {:induction false} ClearSweepIsClean(
    s: Slots, shift: nat, m: map<ObjString, Value>, white: set<ObjString>, i: nat
  )
    requires WellFormed(s, shift, m) && Occupied(s) < |s| && i <= |s|
    requires PathsClear(s, shift, white, -1) && NoneWhite(s, white, i)
    ensures SweepIsClean(s, shift, white, i)
    decreases |s| - i
  {
    hide WellFormed, Occupied, Deleted, NoneEntered, PathsClear, RefillIsWhite, Next, ShiftState;
    if i < |s| {
      if IsWhite(s[i], white) {
        DeletedIsWellFormed(s, shift, m, i);
        DeletedRefill(s, shift, m, white, i);
        ClearDeletion(s, shift, m, white, i);
        ClearSweepIsClean(Deleted(s, shift, i), shift, m - {s[i].key}, white, i + 1);
      } else {
        ClearSweepIsClean(s, shift, m, white, i + 1);
      }
    }
  }

  lemma ClearDeletion(s: Slots, shift: nat, m: map<ObjString, Value>, white: set<ObjString>, i: nat)
    requires WellFormed(s, shift, m) && Occupied(s) < |s| && i < |s| && IsWhite(s[i], white)
    requires PathsClear(s, shift, white, -1) && NoneWhite(s, white, i)
    ensures PathsClear(Deleted(s, shift, i), shift, white, -1) && NoneWhite(Deleted(s, shift, i), white, i + 1)
  {
    hide WellFormed, Occupied, Deleted, ShiftState, Next, IndexFor, Distance;
    var e := DeletionStarts(s, shift, m, i);
    assert PathsClear(s, shift, white, i) by {
      forall x, y | 0 <= x < |s| && 0 <= y < |s| && x != y && x != i && y != i
        ensures IsWhite(s[x], white) && IsWhite(s[y], white) ==> !Crosses(s, shift, x, y)
      {
      }
    }
    ClearStays(s, s, shift, m - {s[i].key}, white, i, i, Next(|s|, i), e, |s|);
  }

  /** Every white key is deleted if none lies on the probe path of another. */
  lemma ClearPathsSuffice(s: Slots, shift: nat, m: map<ObjString, Value>, white: set<ObjString>)
    requires WellFormed(s, shift, m) && Occupied(s) < |s| && PathsClear(s, shift, white, -1)
    ensures SweepIsClean(s, shift, white, 0) && NoneWhite(Swept(s, shift, white, 0), white, |s|)
  {
    hide WellFormed, Occupied, Swept, SweepIsClean, PathsClear;
    ClearSweepIsClean(s, shift, m, white, 0);
    CleanSweepDeletesAll(s, shift, m, white, 0);
  }

  /** What the sweep of a whole table comes to, in terms of the map it stands for afterwards. */
  ghost predicate SweepOutcome(s: Slots, shift: nat, white: set<ObjString>, left: set<ObjString>) {
    && (SweepIsClean(s, shift, white, 0) ==> left == {})
    && (Unwrapped(s) ==> (left == {} <==> SweepIsClean(s, shift, white, 0)))
    && (PathsClear(s, shift, white, -1) ==> left == {})
  }

  lemma OutcomeHolds(s: Slots, shift: nat, m: map<ObjString, Value>, m2: map<ObjString, Value>,
                     white: set<ObjString>, left: set<ObjString>)
    requires WellFormed(s, shift, m) && Occupied(s) < |s|
    requires WellFormed(Swept(s, shift, white, 0), shift, m2) && forall k :: k in left <==> k in m2 && k in white
    ensures SweepOutcome(s, shift, white, left)
  {
    hide WellFormed, Occupied, Swept, SweepIsClean, PathsClear, Unwrapped;
    WhitesLeft(Swept(s, shift, white, 0), shift, m2, white, left);
    if PathsClear(s, shift, white, -1) {
      ClearPathsSuffice(s, shift, m, white);
    }
    if SweepIsClean(s, shift, white, 0) {
      CleanSweepDeletesAll(s, shift, m, white, 0);
    }
    if Unwrapped(s) {
      SweptIff(s, shift, m, white);
    }
  }

  lemma NothingSwept(s: Slots, shift: nat, white: set<ObjString>)
    requires s == []
    ensures SweepOutcome(s, shift, white, {})
  {
  }

  lemma WhitesLeft(s: Slots, shift: nat, m: map<ObjString, Value>, white: set<ObjString>, left: set<ObjString>)
    requires WellFormed(s, shift, m) && forall k :: k in left <==> k in m && k in white
    ensures left == {} <==> NoneWhite(s, white, |s|)
  {
    if left != {} {
      var k :| k in left;
      var i :| 0 <= i < |s| && s[i].key == k;
      assert IsWhite(s[i], white);
    }
    if !NoneWhite(s, white, |s|) {
      var x :| 0 <= x < |s| && IsWhite(s[x], white);
      assert s[x].key in left;
    }
  }

  // ----- a white key that is caught after all -----

  lemma HashOfSix()
    ensures IndexFor(3, 29) == 6
  {
    assert Pow2(4) == 16;
    Pow2Adds(4, 4);
    Pow2Adds(8, 8);
    Pow2Adds(8, 5);
    Pow2Adds(16, 13);
    assert Pow2(5) == 32;
    assert Pow2(29) == 536870912;
  }

  lemma SweepSkips(s: Slots, shift: nat, white: set<ObjString>, i: nat)
    requires i < |s| && !IsWhite(s[i], white)
    ensures Swept(s, shift, white, i) == Swept(s, shift, white, i + 1)
  {
  }

  /** In a cluster that wraps around, a white key that has moved into a visited slot can move on to one not yet
      visited. */
  lemma WrappedWhiteIsCaught(a: ObjString, b: ObjString, c: ObjString, d: ObjString, v: Value)
    requires a != b && a != c && a != d && b != c && b != d && c != d
    requires a.hash == 3 && b.hash == 3 && c.hash == 3 && d.hash == 3
    ensures
      var s := [Entry(c, v), Entry(d, v), EMPTY, EMPTY, EMPTY, EMPTY, Entry(a, v), Entry(b, v)];
      && WellFormed(s, 29, map[a := v, b := v, c := v, d := v])
      && !SweepIsClean(s, 29, {a, c, d}, 0) && NoneWhite(Swept(s, 29, {a, c, d}, 0), {a, c, d}, 8)
  {
    var white := {a, c, d};
    var s := [Entry(c, v), Entry(d, v), EMPTY, EMPTY, EMPTY, EMPTY, Entry(a, v), Entry(b, v)];
    var t := [Entry(d, v), EMPTY, EMPTY, EMPTY, EMPTY, EMPTY, Entry(a, v), Entry(b, v)];
    var u := [EMPTY, EMPTY, EMPTY, EMPTY, EMPTY, EMPTY, Entry(b, v), Entry(d, v)];
    var w := [EMPTY, EMPTY, EMPTY, EMPTY, EMPTY, EMPTY, Entry(b, v), EMPTY];
    HashOfSix();
    WrappedIsWellFormed(a, b, c, d, v);
    WrappedDeletions(a, b, c, d, v);
    hide Deleted, WellFormed, IndexFor;
    SweptUnfolds(s, 29, white, 0);
    SweepSkips(t, 29, white, 1);
    SweepSkips(t, 29, white, 2);
    SweepSkips(t, 29, white, 3);
    SweepSkips(t, 29, white, 4);
    SweepSkips(t, 29, white, 5);
    SweptUnfolds(t, 29, white, 6);
    SweptUnfolds(u, 29, white, 7);
    SweptUnfolds(w, 29, white, 8);
  }

  lemma WrappedIsWellFormed(a: ObjString, b: ObjString, c: ObjString, d: ObjString, v: Value)
    requires a != b && a != c && a != d && b != c && b != d && c != d
    requires a.hash == 3 && b.hash == 3 && c.hash == 3 && d.hash == 3
    ensures
      var s := [Entry(c, v), Entry(d, v), EMPTY, EMPTY, EMPTY, EMPTY, Entry(a, v), Entry(b, v)];
      WellFormed(s, 29, map[a := v, b := v, c := v, d := v]) && Crosses(s, 29, 0, 1)
  {
    hide IndexFor;
    HashOfSix();
    var s := [Entry(c, v), Entry(d, v), EMPTY, EMPTY, EMPTY, EMPTY, Entry(a, v), Entry(b, v)];
    assert Sized(s, 29) by { assert 29 == 32 - 3 && |s| == Pow2(3); }
    assert s[0].key == c && s[1].key == d && s[6].key == a && s[7].key == b;
  }

  lemma WrappedDeletions(a: ObjString, b: ObjString, c: ObjString, d: ObjString, v: Value)
    requires a.hash == 3 && b.hash == 3 && c.hash == 3 && d.hash == 3
    ensures
      var s := [Entry(c, v), Entry(d, v), EMPTY, EMPTY, EMPTY, EMPTY, Entry(a, v), Entry(b, v)];
      var t := [Entry(d, v), EMPTY, EMPTY, EMPTY, EMPTY, EMPTY, Entry(a, v), Entry(b, v)];
      var u := [EMPTY, EMPTY, EMPTY, EMPTY, EMPTY, EMPTY, Entry(b, v), Entry(d, v)];
      var w := [EMPTY, EMPTY, EMPTY, EMPTY, EMPTY, EMPTY, Entry(b, v), EMPTY];
      Deleted(s, 29, 0) == t && Deleted(t, 29, 6) == u && Deleted(u, 29, 7) == w
  {
    hide IndexFor;
    HashOfSix();
    var s := [Entry(c, v), Entry(d, v), EMPTY, EMPTY, EMPTY, EMPTY, Entry(a, v), Entry(b, v)];
    var t := [Entry(d, v), EMPTY, EMPTY, EMPTY, EMPTY, EMPTY, Entry(a, v), Entry(b, v)];
    var u := [EMPTY, EMPTY, EMPTY, EMPTY, EMPTY, EMPTY, Entry(b, v), Entry(d, v)];
    var w := [EMPTY, EMPTY, EMPTY, EMPTY, EMPTY, EMPTY, Entry(b, v), EMPTY];
    ShiftedUnfolds(s, 29, 0, 1, 8);
    ShiftedUnfolds(s[0 := s[1]], 29, 1, 2, 7);
    assert s[0 := s[1]][1 := EMPTY] == t;
    ShiftedUnfolds(t, 29, 6, 7, 8);
    var t1 := t[6 := t[7]];
    ShiftedUnfolds(t1, 29, 7, 0, 7);
    var t2 := t1[7 := t1[0]];
    ShiftedUnfolds(t2, 29, 0, 1, 6);
    assert t2[0 := EMPTY] == u;
    ShiftedUnfolds(u, 29, 7, 0, 8);
    assert u[7 := EMPTY] == w;
  }
}
