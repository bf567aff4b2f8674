/** Captured variables: a stack slot shared through the open upvalues until it is popped, and a cell of its own
    after. */
module Closures {
  import opened Upvalues
  import Functions

  datatype Value = Nil | Number(n: int) | Function(closure: Closure)

  /** `location` is a stack slot while the variable lives there, and -1 once `closed` holds the value. */
  class Upvalue {
    var location: int
    var closed: Value
    var next: Upvalue?
    /** The variable this upvalue stands for. */
    ghost const cell: nat

    constructor (slot: nat, ghost variable: nat)
      ensures location == slot && next == null && cell == variable
    {
      location, closed, next, cell := slot, Nil, null, variable;
    }

    /** Leads to, or holds, the value of its variable; variables in the lowest `live` slots are not closed. */
    ghost predicate Agrees(m: Memory, live: nat)
      requires live <= |m.slots|
      reads this`location, this`closed
    {
      && cell in m.store
      && (if location >= 0 then location < |m.slots| && m.slots[location] == cell
          else m.store[cell] == closed && cell !in m.slots[..live])
    }
  }

  class Closure {
    const code: Functions.FunctionCode
    var upvalues: seq<Upvalue>

    constructor (code: Functions.FunctionCode)
      ensures this.code == code && upvalues == []
    {
      this.code, upvalues := code, [];
    }

    /** The variables the closure refers to. */
    ghost function Cells(): (cs: seq<nat>)
      reads this
      ensures |cs| == |upvalues|
      ensures forall i :: 0 <= i < |upvalues| ==> cs[i] == upvalues[i].cell
    {
      seq(|upvalues|, i requires 0 <= i < |upvalues| reads this => upvalues[i].cell)
    }
  }

  /** A call in progress, with the place where it goes on. */
  datatype Frame = Frame(base: nat, closure: Closure, ip: nat)

  /** What the program can observe: the variable in each slot, and the value of every variable there ever was. */
  datatype Memory = Memory(slots: seq<nat>, store: map<nat, Value>)

  /** A variable that does not exist yet. */
  ghost predicate Unused(m: Memory, c: nat) {
    c !in m.store && c !in m.slots
  }

  /** Every slot holds the value of its variable, and no variable is in two slots. */
  ghost predicate SlotsAgree(stack: seq<Value>, m: Memory) {
    && |m.slots| == |stack|
    && (forall i :: 0 <= i < |stack| ==> m.slots[i] in m.store && m.store[m.slots[i]] == stack[i])
    && (forall i, j :: 0 <= i < j < |stack| ==> m.slots[i] != m.slots[j])
  }

  function Written(m: Memory, c: nat, v: Value): Memory {
    m.(store := m.store[c := v])
  }

  function Pushed(m: Memory, c: nat, v: Value): Memory {
    Memory(m.slots + [c], m.store[c := v])
  }

  function Dropped(m: Memory, keep: nat): Memory
    requires keep <= |m.slots|
  {
    m.(slots := m.slots[..keep])
  }

  lemma PushAgrees(stack: seq<Value>, m: Memory, c: nat, v: Value)
    requires SlotsAgree(stack, m) && Unused(m, c)
    ensures SlotsAgree(stack + [v], Pushed(m, c, v))
  {
  }

  lemma SetAgrees(stack: seq<Value>, m: Memory, i: nat, v: Value)
    requires SlotsAgree(stack, m) && i < |stack|
    ensures SlotsAgree(stack[i := v], Written(m, m.slots[i], v))
  {
  }

  /** Writing a variable that is in no slot. */
  lemma SetElsewhere(stack: seq<Value>, m: Memory, c: nat, v: Value)
    requires SlotsAgree(stack, m) && c !in m.slots
    ensures SlotsAgree(stack, Written(m, c, v))
  {
  }

  lemma DropAgrees(stack: seq<Value>, m: Memory, keep: nat)
    requires SlotsAgree(stack, m) && keep <= |stack|
    ensures SlotsAgree(stack[..keep], Dropped(m, keep))
  {
  }

  function At(list: seq<Upvalue>, i: nat): Upvalue? {
    if i < |list| then list[i] else null
  }

  function Inserted(list: seq<Upvalue>, u: Upvalue, k: nat): seq<Upvalue>
    requires k <= |list|
  {
    list[..k] + [u] + list[k..]
  }

  /** `slot` belongs before the `k`th upvalue of the list. */
  ghost predicate Between(list: seq<Upvalue>, k: nat, slot: int)
    requires k <= |list|
    reads list`location
  {
    (forall i :: 0 <= i < k ==> list[i].location > slot) && (forall i :: k <= i < |list| ==> slot > list[i].location)
  }

  ghost predicate Follows(list: seq<Upvalue>, i: nat)
    requires i < |list|
    reads list`next
  {
    list[i].next == At(list, i + 1)
  }

  /** Every variable has at most one upvalue. */
  ghost predicate Unique(known: set<Upvalue>) {
    forall u, w :: u in known && w in known && u.cell == w.cell ==> u == w
  }

  lemma InsertMembers(was: seq<Upvalue>, u: Upvalue, k: nat, now: seq<Upvalue>)
    requires k <= |was| && now == Inserted(was, u, k)
    ensures forall w :: w in now <==> w == u || w in was
  {
    assert was == was[..k] + was[k..];
  }

  /** The open upvalues are among the known ones, and all of those that lead to a slot. */
  ghost predicate Listed(open: seq<Upvalue>, known: set<Upvalue>)
    reads known`location
  {
    (forall u :: u in open ==> u in known) && (forall u :: u in known && u.location >= 0 ==> u in open)
  }

  lemma ListedGrows(was: seq<Upvalue>, known: set<Upvalue>, u: Upvalue, k: nat, now: seq<Upvalue>)
    requires Listed(was, known) && u.location >= 0 && k <= |was| && now == Inserted(was, u, k)
    ensures Listed(now, known + {u})
  {
    InsertMembers(was, u, k, now);
  }

  lemma ClosedAgrees(u: Upvalue, m: Memory, live: nat)
    requires live <= |m.slots| && u.location == -1 && u.cell in m.store
    requires m.store[u.cell] == u.closed && u.cell !in m.slots[..live]
    ensures u.Agrees(m, live)
  {
  }

  lemma NewAgrees(u: Upvalue, m: Memory, live: nat)
    requires live <= |m.slots| && u.cell in m.store && 0 <= u.location < |m.slots| && m.slots[u.location] == u.cell
    ensures u.Agrees(m, live)
  {
  }

  lemma UniqueGrows(known: set<Upvalue>, u: Upvalue)
    requires Unique(known) && forall w :: w in known ==> w.cell != u.cell
    ensures Unique(known + {u})
  {
  }

  /** The descriptors capture the local variable in `slot`. */
  ghost predicate Captures(descriptors: seq<Descriptor>, frame: Frame, slot: int) {
    exists d :: d in descriptors && d.isLocal && frame.base + d.index == slot
  }

  class Fiber {
    var stack: seq<Value>
    var openUpvalues: Upvalue?
    /** The list that starts at `openUpvalues`. */
    ghost var open: seq<Upvalue>
    /** Every upvalue there is. */
    ghost var known: set<Upvalue>
    ghost var memory: Memory
    /** Calls in progress, innermost last. */
    var frames: seq<Frame>
    /** Every closure there is. */
    ghost var closures: set<Closure>

    /** `openUpvalues` is the head of `open`. */
    ghost predicate Linked()
      reads this`openUpvalues, this`open, open`next
    {
      openUpvalues == At(open, 0) && forall i :: 0 <= i < |open| ==> Follows(open, i)
    }

    /** Open upvalues are listed from the top of the stack down, one for each captured slot. */
    ghost predicate Sorted()
      reads this`open, open`location
    {
      && (forall i :: 0 <= i < |open| ==> 0 <= open[i].location)
      && (forall i, j :: 0 <= i < j < |open| ==> open[i].location > open[j].location)
    }

    /** Every variable has at most one upvalue, and that holds or leads to its value. */
    ghost predicate UpvaluesAgree(live: nat)
      requires live <= |memory.slots|
      reads this`known, this`memory, known`location, known`closed
    {
      && (forall u :: u in known ==> u.Agrees(memory, live))
      && Unique(known)
    }

    ghost predicate ValidBelow(live: nat)
      reads this, known, open
    {
      && Linked() && Sorted() && SlotsAgree(stack, memory) && live <= |stack|
      && Listed(open, known)
      && UpvaluesAgree(live)
    }

    ghost predicate Valid()
      reads this, known, open
    {
      ValidBelow(|stack|)
    }

    constructor ()
      ensures Valid() && memory == Memory([], map[]) && known == {} && open == [] && frames == [] && closures == {}
    {
      stack, openUpvalues, open, known, memory := [], null, [], {}, Memory([], map[]);
      frames, closures := [], {};
    }

    /** A new variable on top of the stack. */
    method Push(v: Value, ghost c: nat)
      requires Valid() && Unused(memory, c)
      modifies this`stack, this`memory
      ensures Valid() && memory == Pushed(old(memory), c, v)
      ensures stack == old(stack) + [v] && (old(CallsOk()) ==> CallsOk())
    {
      hide SlotsAgree, Linked, Sorted;
      PushAgrees(stack, memory, c, v);
      AgreementCounts(stack, memory);
      stack := stack + [v];
      memory := Pushed(memory, c, v);
      AgreementCounts(stack, memory);
    }

    /** Is there an open upvalue for `slot`? */
    ghost predicate Captured(slot: nat)
      reads this`open, open`location
    {
      exists i :: 0 <= i < |open| && open[i].location == slot
    }

    /** The slots that open upvalues lead to. */
    ghost function CapturedSlots(): set<int>
      reads this`open, open`location
    {
      set u | u in open :: u.location
    }

    lemma CapturedIsListed(slot: nat)
      ensures Captured(slot) <==> slot in CapturedSlots()
    {
    }

    /** Only slots in use are captured. */
    lemma CapturedIsLive()
      requires Valid()
      ensures forall slot :: slot in CapturedSlots() ==> 0 <= slot < |stack|
    {
      hide SlotsAgree, Linked;
      AgreementCounts(stack, memory);
    }

    lemma Counts()
      requires Valid()
      ensures |memory.slots| == |stack|
    {
    }

    /** Plain pops, for slots nobody captured. */
    method Pop(n: nat)
      requires Valid() && n <= |stack| && forall i :: |stack| - n <= i < |stack| ==> !Captured(i)
      modifies this`stack, this`memory
      ensures Valid() && memory == Dropped(old(memory), |old(stack)| - n) && stack == old(stack)[..|old(stack)| - n]
      ensures old(CallsOk()) && (frames != [] ==> frames[|frames| - 1].base < |stack|) ==> CallsOk()
    {
      hide SlotsAgree, Linked, Sorted;
      AgreementCounts(stack, memory);
      DropAgrees(stack, memory, |stack| - n);
      forall u | u in known && u.location >= 0 ensures u.location < |stack| - n {
        var i :| 0 <= i < |open| && open[i] == u;
        assert Captured(u.location);
      }
      stack := stack[..|stack| - n];
      memory := Dropped(memory, |stack|);
    }

    /** Plain pops are right exactly when no slot they drop is captured. */
    lemma PlainPopsIff(keep: nat)
      requires Valid() && keep <= |stack|
      ensures
        && keep <= |memory.slots|
        && ((forall u :: u in known ==> u.Agrees(Dropped(memory, keep), keep))
            <==> (forall i :: keep <= i < |stack| ==> !Captured(i)))
    {
      hide SlotsAgree, Linked, Sorted;
      Counts();
      forall i | keep <= i < |stack| && Captured(i)
        ensures exists u :: u in known && !u.Agrees(Dropped(memory, keep), keep)
      {
        var k :| 0 <= k < |open| && open[k].location == i;
        assert open[k] in known && !open[k].Agrees(Dropped(memory, keep), keep);
      }
      if forall i :: keep <= i < |stack| ==> !Captured(i) {
        forall u | u in known ensures u.Agrees(Dropped(memory, keep), keep) {
          StaysInAgreement(u, keep);
        }
      }
    }

    lemma StaysInAgreement(u: Upvalue, keep: nat)
      requires Valid() && u in known && keep <= |stack| && forall i :: keep <= i < |stack| ==> !Captured(i)
      ensures keep <= |memory.slots| && u.Agrees(Dropped(memory, keep), keep)
    {
      hide SlotsAgree, Linked, Sorted;
      Counts();
      assert u.Agrees(memory, |stack|);
      if u.location >= 0 {
        var k :| 0 <= k < |open| && open[k] == u;
        assert Captured(u.location);
      }
      assert memory.slots[..keep][..keep] == memory.slots[..keep];
      assert forall i :: 0 <= i < keep ==> memory.slots[..keep][i] == memory.slots[..|stack|][i];
    }

    method SetLocal(slot: nat, v: Value)
      requires Valid() && slot < |stack|
      modifies this`stack, this`memory
      ensures Valid() && memory == Written(old(memory), old(memory).slots[slot], v) && stack == old(stack)[slot := v]
      ensures old(CallsOk()) ==> CallsOk()
    {
      hide SlotsAgree, Linked, Sorted;
      AgreementCounts(stack, memory);
      SetAgrees(stack, memory, slot, v);
      ghost var c := memory.slots[slot];
      assert c in memory.slots[..|stack|];
      stack := stack[slot := v];
      memory := Written(memory, c, v);
    }

    method GetUpvalue(u: Upvalue) returns (v: Value)
      requires Valid() && u in known
      ensures u.cell in memory.store && v == memory.store[u.cell]
    {
      v := if u.location >= 0 then stack[u.location] else u.closed;
    }

    method SetUpvalue(u: Upvalue, v: Value)
      requires Valid() && u in known
      modifies this`stack, this`memory, u`closed
      ensures Valid() && memory == Written(old(memory), u.cell, v) && |stack| == |old(stack)|
    {
      hide SlotsAgree, Linked, Sorted;
      AgreementCounts(stack, memory);
      if u.location >= 0 {
        SetLocal(u.location, v);
      } else {
        assert memory.slots[..|stack|] == memory.slots;
        SetElsewhere(stack, memory, u.cell, v);
        u.closed := v;
        memory := Written(memory, u.cell, v);
      }
    }

    /** The open upvalue of a slot, or a new one put in its place in the list. */
    method CaptureUpvalue(slot: nat) returns (u: Upvalue)
      requires Valid() && slot < |stack|
      modifies this`openUpvalues, this`open, this`known, open`next
      ensures Valid() && u in known && u.cell == memory.slots[slot]
      ensures known == old(known) + {u} && (u in old(known) || fresh(u))
      ensures forall w :: w in open ==> w in old(open) || (fresh(w) && w.location == slot)
      ensures CapturedSlots() <= old(CapturedSlots()) + {slot}
    {
      hide SlotsAgree;
      AgreementCounts(stack, memory);
      var prevUpvalue: Upvalue? := null;
      var upvalue := openUpvalues;
      ghost var k := 0;
      while upvalue != null && upvalue.location > slot
        invariant 0 <= k <= |open|
        invariant upvalue == At(open, k)
        invariant prevUpvalue == (if k == 0 then null else At(open, k - 1))
        invariant forall i :: 0 <= i < k ==> open[i].location > slot
        decreases |open| - k
      {
        assert Follows(open, k);
        prevUpvalue := upvalue;
        upvalue := upvalue.next;
        k := k + 1;
      }
      if upvalue != null && upvalue.location == slot {
        return upvalue;
      }
      u := InsertUpvalue(prevUpvalue, upvalue, slot, k);
    }

    /** A new open upvalue, listed between the two neighbours. */
    method InsertUpvalue(prevUpvalue: Upvalue?, upvalue: Upvalue?, slot: nat, ghost k: nat) returns (u: Upvalue)
      requires Valid() && slot < |stack| && k <= |open|
      requires prevUpvalue == (if k == 0 then null else At(open, k - 1)) && upvalue == At(open, k)
      requires forall i :: 0 <= i < k ==> open[i].location > slot
      requires k < |open| ==> open[k].location < slot
      modifies this`openUpvalues, this`open, this`known, open`next
      ensures Valid() && fresh(u) && u.cell == memory.slots[slot] && u.location == slot
      ensures known == old(known) + {u} && forall w :: w in open <==> w == u || w in old(open)
    {
      hide SlotsAgree, Linked, Sorted, At, UpvaluesAgree, Listed, Inserted, Between;
      NotCaptured(slot, k);
      ListedAllocated();
      u := NewUpvalue(slot, upvalue);
      ListedGrows(open, old(known), u, k, Inserted(open, u, k));
      InsertMembers(open, u, k, Inserted(open, u, k));
      Link(prevUpvalue, u, k);
    }

    method NewUpvalue(slot: nat, upvalue: Upvalue?) returns (u: Upvalue)
      requires SlotsAgree(stack, memory) && slot < |stack| && UpvaluesAgree(|stack|)
      requires forall w :: w in known ==> w.cell != memory.slots[slot]
      modifies this`known
      ensures fresh(u) && u.cell == memory.slots[slot] && u.location == slot && u.next == upvalue
      ensures known == old(known) + {u} && UpvaluesAgree(|stack|)
    {
      hide SlotsAgree, Unique, Upvalue.Agrees;
      AgreementAt(stack, memory, slot);
      u := new Upvalue(slot, memory.slots[slot]);
      u.next := upvalue;
      NewAgrees(u, memory, |stack|);
      UniqueGrows(known, u);
      known := known + {u};
    }

    /** Puts `u` into the list behind `prevUpvalue`. */
    method Link(prevUpvalue: Upvalue?, u: Upvalue, ghost k: nat)
      requires Linked() && Sorted() && k <= |open| && u !in open && u.location >= 0
      requires prevUpvalue == (if k == 0 then null else At(open, k - 1))
      requires u.next == At(open, k)
      requires Between(open, k, u.location)
      modifies this`openUpvalues, this`open, open`next
      ensures Linked() && Sorted() && open == Inserted(old(open), u, k)
    {
      ListDiffers();
      ghost var was := open;
      if prevUpvalue == null {
        openUpvalues := u;
      } else {
        prevUpvalue.next := u;
      }
      open := Inserted(was, u, k);
      forall i | 0 <= i < |open| ensures Follows(open, i) {
        if i < k {
          assert open[i] == was[i] && old(Follows(was, i));
        } else if i > k {
          assert open[i] == was[i - 1] && old(Follows(was, i - 1));
        }
      }
      SortedAfterInsert(was, u, k);
    }

    lemma SortedAfterInsert(was: seq<Upvalue>, u: Upvalue, k: nat)
      requires k <= |was| && open == Inserted(was, u, k) && u.location >= 0
      requires forall i :: 0 <= i < |was| ==> 0 <= was[i].location
      requires forall i, j :: 0 <= i < j < |was| ==> was[i].location > was[j].location
      requires Between(was, k, u.location)
      ensures Sorted()
    {
      forall i, j | 0 <= i < j < |open| ensures open[i].location > open[j].location {
        assert open[i] == if i < k then was[i] else if i == k then u else was[i - 1];
        assert open[j] == if j < k then was[j] else if j == k then u else was[j - 1];
      }
      forall i | 0 <= i < |open| ensures 0 <= open[i].location {
        assert open[i] == if i < k then was[i] else if i == k then u else was[i - 1];
      }
    }

    /** Gives every captured variable from slot `last` up a cell of its own. */
    method CloseUpvalues(last: nat)
      requires Valid() && last <= |stack|
      modifies this`openUpvalues, this`open, open`location, open`closed
      ensures ValidBelow(last) && forall i :: 0 <= i < |open| ==> open[i].location < last
      ensures forall u :: u in open ==> u in old(open) && u.location == old(u.location)
    {
      hide SlotsAgree, UpvaluesAgree, Listed;
      AgreementCounts(stack, memory);
      LessIsLive(last);
      while openUpvalues != null && openUpvalues.location >= last
        invariant Linked() && Sorted() && Listed(open, known) && UpvaluesAgree(last)
        invariant forall u :: u in open ==> u in old(open) && u.location == old(u.location)
        decreases |open|
      {
        LinkedShrinks();
        assert openUpvalues in open;
        CloseFirst(last);
      }
    }

    method CloseFirst(last: nat)
      requires Linked() && Sorted() && Listed(open, known)
      requires SlotsAgree(stack, memory) && last <= |stack| && UpvaluesAgree(last)
      requires openUpvalues != null && openUpvalues.location >= last
      modifies this`openUpvalues, this`open, openUpvalues`location, openUpvalues`closed
      ensures Linked() && Sorted() && Listed(open, known) && UpvaluesAgree(last)
      ensures old(open) != [] && open == old(open)[1..]
    {
      hide SlotsAgree, Upvalue.Agrees, Unique, At;
      AgreementCounts(stack, memory);
      LinkedShrinks();
      var upvalue := openUpvalues;
      OpenLeadsToSlot(upvalue, last);
      upvalue.closed := stack[upvalue.location];
      upvalue.location := -1;
      openUpvalues := upvalue.next;
      open := open[1..];
      ClosedAgrees(upvalue, memory, last);
      forall u | u in known ensures u.Agrees(memory, last) {
        if u != upvalue {
          assert old(u.Agrees(memory, last));
        }
      }
    }

    /** Drops the slots from `keep` up, once their captured variables are closed. */
    method Truncate(keep: nat)
      requires ValidBelow(keep) && forall i :: 0 <= i < |open| ==> open[i].location < keep
      modifies this`stack, this`memory
      ensures Valid() && memory == Dropped(old(memory), keep) && stack == old(stack)[..keep]
    {
      hide SlotsAgree, Linked, Sorted, Unique;
      AgreementCounts(stack, memory);
      DropAgrees(stack, memory, keep);
      forall u | u in known ensures u.Agrees(Dropped(memory, keep), keep) {
        assert u.Agrees(memory, keep);
        if u.location >= 0 {
          var i :| 0 <= i < |open| && open[i] == u;
        }
        assert memory.slots[..keep][..keep] == memory.slots[..keep];
      }
      stack := stack[..keep];
      memory := Dropped(memory, keep);
    }

    /** The end of a captured variable's scope. */
    method CloseTop()
      requires Valid() && stack != []
      modifies this`stack, this`memory, this`openUpvalues, this`open, open`location, open`closed
      ensures Valid() && memory == Dropped(old(memory), |old(stack)| - 1) && stack == old(stack)[..|old(stack)| - 1]
      ensures forall i {:trigger Captured(i)} :: 0 <= i < |stack| && Captured(i) ==> old(Captured(i))
      ensures forall u :: u in open ==> u in old(open) && u.location == old(u.location)
    {
      hide SlotsAgree, Linked, UpvaluesAgree;
      CloseUpvalues(|stack| - 1);
      Truncate(|stack| - 1);
      forall i | 0 <= i < |stack| && Captured(i) ensures old(Captured(i)) {
        var k :| 0 <= k < |open| && open[k].location == i;
        var j :| 0 <= j < |old(open)| && old(open)[j] == open[k];
      }
    }

    lemma LessIsLive(last: nat)
      requires SlotsAgree(stack, memory) && last <= |stack| && UpvaluesAgree(|stack|)
      ensures UpvaluesAgree(last)
    {
      hide SlotsAgree, Unique;
      AgreementCounts(stack, memory);
      forall u | u in known ensures u.Agrees(memory, last) {
        assert u.Agrees(memory, |stack|);
        assert forall i :: 0 <= i < last ==> memory.slots[..last][i] == memory.slots[..|stack|][i];
      }
    }

    /** The value in the slot of an open upvalue is its variable's, and the slot is no lower one. */
    lemma OpenLeadsToSlot(u: Upvalue, last: nat)
      requires SlotsAgree(stack, memory) && last <= |stack| && u.Agrees(memory, last) && u.location >= last
      ensures u.location < |stack| && u.cell in memory.store && memory.store[u.cell] == stack[u.location]
      ensures u.cell !in memory.slots[..last]
    {
      hide SlotsAgree;
      AgreementCounts(stack, memory);
      AgreementAt(stack, memory, u.location);
      forall i | 0 <= i < last ensures memory.slots[..last][i] != u.cell {
        SlotsDiffer(stack, memory, i, u.location);
      }
    }

    /** The list without its head. */
    lemma LinkedShrinks()
      requires Linked() && Sorted() && Listed(open, known) && openUpvalues != null
      ensures open != [] && openUpvalues == open[0] && open[0] in known && open[0] !in open[1..]
      ensures open[0].next == At(open[1..], 0)
      ensures forall i :: 0 <= i < |open[1..]| ==> Follows(open[1..], i)
      ensures forall u :: u in open ==> u == open[0] || u in open[1..]
      ensures forall u :: u in open[1..] ==> u in open
      ensures forall i :: 0 <= i < |open[1..]| ==> 0 <= open[1..][i].location
      ensures forall i, j :: 0 <= i < j < |open[1..]| ==> open[1..][i].location > open[1..][j].location
    {
      assert Follows(open, 0);
      assert open == [open[0]] + open[1..];
      forall i | 0 <= i < |open[1..]| ensures Follows(open[1..], i) {
        assert Follows(open, i + 1);
      }
      forall i | 0 <= i < |open[1..]| ensures open[1..][i] != open[0] {
        assert open[1..][i] == open[i + 1];
      }
    }

    lemma ListDiffers()
      requires Sorted()
      ensures forall i, j :: 0 <= i < j < |open| ==> open[i] != open[j]
    {
    }

    /** Every open upvalue from the `k`th on lies below `slot`. */
    lemma BelowFrom(slot: nat, k: nat)
      requires Sorted() && k <= |open| && (k < |open| ==> open[k].location < slot)
      ensures forall i :: k <= i < |open| ==> slot > open[i].location
    {
    }

    lemma ListedAllocated()
      requires Listed(open, known)
      ensures forall u :: u in open ==> u in known
    {
    }

    lemma NotCaptured(slot: nat, k: nat)
      requires Valid() && slot < |stack| && k <= |open|
      requires forall i :: 0 <= i < k ==> open[i].location > slot
      requires k < |open| ==> open[k].location < slot
      ensures Between(open, k, slot)
      ensures forall u :: u in known ==> u.cell != memory.slots[slot]
    {
      hide SlotsAgree, Linked;
      BelowFrom(slot, k);
      AgreementCounts(stack, memory);
      assert memory.slots[slot] in memory.slots[..|stack|];
      forall u | u in known ensures u.cell != memory.slots[slot] {
        if u.location >= 0 {
          var i :| 0 <= i < |open| && open[i] == u;
          assert u.location != slot;
          SlotsDiffer(stack, memory, u.location, slot);
        }
      }
    }

    // ----- calls and closures -----

    /** Closures refer to existing upvalues, and calls in progress to existing slots and closures. */
    ghost predicate CallsOk()
      reads this`stack, this`frames, this`known, this`closures, closures
    {
      && (forall c, u :: c in closures && u in c.upvalues ==> u in known)
      && (forall i :: 0 <= i < |frames| ==> frames[i].base < |stack| && frames[i].closure in closures)
      && (forall i, j :: 0 <= i < j < |frames| ==> frames[i].base < frames[j].base)
    }

    /** A new closure on top of the stack; a captured local may be the slot of the closure itself. */
    method MakeClosure(code: Functions.FunctionCode, ghost c: nat) returns (closure: Closure)
      requires Valid() && CallsOk() && frames != [] && Unused(memory, c)
      requires forall d :: d in code.scope.upvalues && d.isLocal ==> d.index <= |stack| - frames[|frames| - 1].base
      requires forall d :: d in code.scope.upvalues && !d.isLocal ==> d.index < |frames[|frames| - 1].closure.upvalues|
      modifies this`stack, this`memory, this`openUpvalues, this`open, this`known, this`closures, open`next
      ensures Valid() && CallsOk() && fresh(closure) && closure.code == code
      ensures memory == Pushed(old(memory), c, Function(closure))
      ensures closures == old(closures) + {closure} && forall u :: u in known ==> u in old(known) || fresh(u)
      ensures forall slot :: slot in CapturedSlots() ==>
                slot in old(CapturedSlots()) || Captures(code.scope.upvalues, frames[|frames| - 1], slot)
      ensures
        var frame := frames[|frames| - 1];
        && |closure.upvalues| == |code.scope.upvalues|
        && closure.Cells() == Selected(code.scope.upvalues, memory.slots[frame.base..], old(frame.closure.Cells()))
    {
      hide SlotsAgree, Linked, Sorted, UpvaluesAgree, Listed, Selected, Cell, CallsOk, Captures, Captured, Pushed;
      hide Unused;
      FrameFacts();
      var frame := frames[|frames| - 1];
      closure := new Closure(code);
      AgreementCounts(stack, memory);
      Push(Function(closure), c);
      AgreementCounts(stack, memory);
      Fill(closure, frame, code.scope.upvalues);
      Register(closure);
    }

    /** Fills the upvalues of a new closure: it refers to the variables the descriptors select. */
    method Fill(closure: Closure, frame: Frame, descriptors: seq<Descriptor>)
      requires Valid() && CallsOk() && frame.closure in closures && closure !in closures && closure.upvalues == []
      requires frame.base <= |stack|
      requires forall d :: d in descriptors ==>
                 if d.isLocal then frame.base + d.index < |stack| else d.index < |frame.closure.upvalues|
      modifies this`openUpvalues, this`open, this`known, open`next, closure
      ensures Valid() && CallsOk() && |closure.upvalues| == |descriptors|
      ensures (forall u :: u in closure.upvalues ==> u in known)
      ensures frame.base <= |memory.slots| && |memory.slots| == |stack|
      ensures closure.Cells() == Selected(descriptors, memory.slots[frame.base..], old(frame.closure.Cells()))
      ensures forall u :: u in known ==> u in old(known) || fresh(u)
      ensures
        forall slot :: slot in CapturedSlots() ==> slot in old(CapturedSlots()) || Captures(descriptors, frame, slot)
    {
      hide SlotsAgree, Linked, Sorted, UpvaluesAgree, Listed, Selected, Cell, CallsOk, Captures;
      AgreementCounts(stack, memory);
      ghost var cells := frame.closure.Cells();
      CaptureAll(closure, frame, descriptors);
      SelectedCells(closure, frame, descriptors, cells);
    }

    lemma UpvalueHasValue(i: nat)
      requires Valid() && CallsOk() && frames != [] && i < |frames[|frames| - 1].closure.upvalues|
      ensures frames[|frames| - 1].closure.upvalues[i].cell in memory.store
    {
      hide SlotsAgree, Linked, Sorted;
      FrameFacts();
      Counts();
      var u := frames[|frames| - 1].closure.upvalues[i];
      assert u in known && u.Agrees(memory, |stack|);
    }

    lemma FrameFacts()
      requires CallsOk() && frames != []
      ensures frames[|frames| - 1].base < |stack| && frames[|frames| - 1].closure in closures
    {
    }

    method Register(closure: Closure)
      requires CallsOk() && forall j :: 0 <= j < |closure.upvalues| ==> closure.upvalues[j] in known
      modifies this`closures
      ensures CallsOk() && closures == old(closures) + {closure}
    {
      closures := closures + {closure};
    }

    lemma SelectedCells(closure: Closure, frame: Frame, descriptors: seq<Descriptor>, cells: seq<nat>)
      requires frame.base <= |memory.slots| && |closure.upvalues| == |descriptors|
      requires forall i :: 0 <= i < |descriptors| ==>
                 if descriptors[i].isLocal then frame.base + descriptors[i].index < |memory.slots|
                 else descriptors[i].index < |cells|
      requires forall j :: 0 <= j < |descriptors| ==> closure.upvalues[j].cell == Cell(frame, cells, descriptors[j])
      ensures closure.Cells() == Selected(descriptors, memory.slots[frame.base..], cells)
    {
    }

    /** Fills the upvalues of a new closure one by one. */
    method CaptureAll(closure: Closure, frame: Frame, descriptors: seq<Descriptor>)
      requires Valid() && CallsOk() && frame.closure in closures && closure !in closures && closure.upvalues == []
      requires forall i :: 0 <= i < |descriptors| ==>
                 if descriptors[i].isLocal then frame.base + descriptors[i].index < |memory.slots|
                 else descriptors[i].index < |frame.closure.upvalues|
      modifies this`openUpvalues, this`open, this`known, open`next, closure
      ensures Valid() && CallsOk() && |closure.upvalues| == |descriptors|
      ensures forall u :: u in known ==> u in old(known) || fresh(u)
      ensures
        forall slot :: slot in CapturedSlots() ==> slot in old(CapturedSlots()) || Captures(descriptors, frame, slot)
      ensures forall j :: 0 <= j < |descriptors| ==>
                && closure.upvalues[j] in known
                && closure.upvalues[j].cell == Cell(frame, old(frame.closure.Cells()), descriptors[j])
    {
      hide SlotsAgree, Linked, Sorted, UpvaluesAgree, Listed;
      AgreementCounts(stack, memory);
      ghost var cells := frame.closure.Cells();
      for i := 0 to |descriptors|
        invariant Valid() && CallsOk() && frame.closure.Cells() == cells
        invariant forall u :: u in open ==> u in old(open) || fresh(u)
        invariant forall u :: u in known ==> u in old(known) || fresh(u)
        invariant
          forall slot :: slot in CapturedSlots() ==> slot in old(CapturedSlots()) || Captures(descriptors, frame, slot)
        invariant |closure.upvalues| == i && forall j :: 0 <= j < i ==> closure.upvalues[j] in known
        invariant forall j :: 0 <= j < i ==> closure.upvalues[j].cell == Cell(frame, cells, descriptors[j])
      {
        assert forall j :: 0 <= j < |open| ==> open[j] in old(open) || fresh(open[j]);
        var u := Capture(frame, descriptors[i]);
        closure.upvalues := closure.upvalues + [u];
      }
    }

    /** The variable a descriptor selects. */
    ghost function Cell(frame: Frame, cells: seq<nat>, d: Descriptor): nat
      requires if d.isLocal then frame.base + d.index < |memory.slots| else d.index < |cells|
      reads this`memory
    {
      if d.isLocal then memory.slots[frame.base + d.index] else cells[d.index]
    }

    method Capture(frame: Frame, d: Descriptor) returns (u: Upvalue)
      requires Valid() && CallsOk() && frame.closure in closures
      requires if d.isLocal then frame.base + d.index < |stack| else d.index < |frame.closure.upvalues|
      modifies this`openUpvalues, this`open, this`known, open`next
      ensures Valid() && CallsOk() && u in known && old(known) <= known
      ensures forall w :: w in known ==> w in old(known) || fresh(w)
      ensures forall w :: w in open ==> w in old(open) || fresh(w)
      ensures CapturedSlots() <= old(CapturedSlots()) + if d.isLocal then {frame.base + d.index} else {}
      ensures
        if d.isLocal then u.cell == memory.slots[frame.base + d.index] else u.cell == frame.closure.Cells()[d.index]
    {
      hide SlotsAgree, Linked, Sorted, UpvaluesAgree, Listed;
      AgreementCounts(stack, memory);
      if d.isLocal {
        u := CaptureUpvalue(frame.base + d.index);
      } else {
        u := frame.closure.upvalues[d.index];
      }
    }

    /** Reads a captured variable of the running closure. */
    method ReadUpvalue(i: nat, ghost c: nat)
      requires Valid() && CallsOk() && frames != [] && i < |frames[|frames| - 1].closure.upvalues| && Unused(memory, c)
      modifies this`stack, this`memory
      ensures Valid() && CallsOk()
      ensures
        var cell := frames[|frames| - 1].closure.upvalues[i].cell;
        cell in old(memory).store && memory == Pushed(old(memory), c, old(memory).store[cell])
    {
      hide SlotsAgree, Linked, Sorted, UpvaluesAgree, Listed;
      var v := GetUpvalue(frames[|frames| - 1].closure.upvalues[i]);
      Push(v, c);
    }

    /** Writes the value on top of the stack to a captured variable of the running closure. */
    method WriteUpvalue(i: nat)
      requires Valid() && CallsOk() && frames != [] && i < |frames[|frames| - 1].closure.upvalues| && stack != []
      modifies this`stack, this`memory, known`closed
      ensures Valid() && CallsOk()
      ensures
        memory == Written(old(memory), frames[|frames| - 1].closure.upvalues[i].cell, old(stack)[|old(stack)| - 1])
    {
      hide SlotsAgree, Linked, Sorted, UpvaluesAgree, Listed;
      SetUpvalue(frames[|frames| - 1].closure.upvalues[i], stack[|stack| - 1]);
    }

    /** Calls the closure below `argCount` arguments; as many as its function takes. */
    method Call(argCount: nat)
      requires Valid() && CallsOk() && argCount < |stack|
      requires stack[|stack| - 1 - argCount].Function? && stack[|stack| - 1 - argCount].closure in closures
      requires frames != [] ==> frames[|frames| - 1].base < |stack| - 1 - argCount
      modifies this`frames
      ensures Valid() && CallsOk()
      ensures frames == old(frames) + [Frame(|stack| - 1 - argCount, stack[|stack| - 1 - argCount].closure, 0)]
    {
      frames := frames + [Frame(|stack| - 1 - argCount, stack[|stack| - 1 - argCount].closure, 0)];
    }

    /** The closure of a script, and its call. */
    method Start(script: Functions.FunctionCode) returns (closure: Closure)
      requires Valid() && memory == Memory([], map[]) && known == {} && open == [] && frames == [] && closures == {}
      modifies this`stack, this`memory, this`frames, this`closures
      ensures Valid() && CallsOk() && fresh(closure) && closure.code == script
      ensures closure.upvalues == [] && closures == {closure}
      ensures |stack| == 1 && memory == Pushed(Memory([], map[]), 0, Function(closure))
      ensures frames == [Frame(0, closure, 0)]
    {
      hide SlotsAgree, Linked, Sorted, UpvaluesAgree, Listed;
      AgreementCounts(stack, memory);
      closure := new Closure(script);
      Push(Function(closure), 0);
      Register(closure);
      Call(0);
    }

    /** Takes the slots of the running call off the stack, after closing the upvalues of those that are captured. */
    method LeaveCall()
      requires Valid() && CallsOk() && frames != []
      modifies this`stack, this`memory, this`openUpvalues, this`open, this`frames, open`location, open`closed
      ensures Valid() && CallsOk() && frames == old(frames)[..|old(frames)| - 1]
      ensures
        var base := old(frames)[|old(frames)| - 1].base;
        && base <= |old(memory).slots| && base < |old(stack)|
        && memory == Dropped(old(memory), base)
        && forall slot :: slot in CapturedSlots() ==> slot in old(CapturedSlots()) && slot < base
    {
      hide SlotsAgree, Linked, Sorted, UpvaluesAgree, Listed;
      AgreementCounts(stack, memory);
      var base := frames[|frames| - 1].base;
      CloseUpvalues(base);
      Truncate(base);
      frames := frames[..|frames| - 1];
    }

    /** Leaves the running call: its captured variables live on, its slots are dropped, its result is on top. */
    method Return(ghost c: nat)
      requires Valid() && CallsOk() && frames != [] && Unused(memory, c)
      modifies this`stack, this`memory, this`openUpvalues, this`open, this`frames, open`location, open`closed
      ensures Valid() && CallsOk() && frames == old(frames)[..|old(frames)| - 1]
      ensures
        var base := old(frames)[|old(frames)| - 1].base;
        && base <= |old(memory).slots| && base < |old(stack)|
        && memory == Pushed(Dropped(old(memory), base), c, old(stack)[|old(stack)| - 1])
        && forall slot :: slot in CapturedSlots() ==> slot in old(CapturedSlots()) && slot < base
    {
      hide SlotsAgree, Linked, Sorted, UpvaluesAgree, Listed;
      AgreementCounts(stack, memory);
      var result := stack[|stack| - 1];
      LeaveCall();
      Push(result, c);
    }

    /** The pops at the end of a scope keep every captured variable alive, if the captured ones are marked. */
    method LeaveScope(ops: seq<ExitOp>, ghost captured: seq<bool>)
      requires Valid() && |captured| <= |stack| && ops == ScopeExit(captured, 0)
      requires forall i :: 0 <= i < |captured| && !captured[i] ==> !Captured(|stack| - 1 - i)
      modifies this`stack, this`memory, this`openUpvalues, this`open, open`location, open`closed
      ensures Valid() && memory == Dropped(old(memory), |old(stack)| - |captured|)
      ensures CapturedSlots() <= old(CapturedSlots())
      ensures old(CallsOk()) && (frames != [] ==> frames[|frames| - 1].base < |stack|) ==> CallsOk()
    {
      hide SlotsAgree, Linked, Sorted, UpvaluesAgree, Listed, ScopeExit, Captured;
      AgreementCounts(stack, memory);
      ghost var start, rest := memory, captured;
      var i := 0;
      while i < |ops|
        invariant 0 <= i <= |ops| && ops[i..] == ScopeExit(rest, 0) && |rest| <= |stack|
        invariant Valid() && |start.slots| - |captured| == |stack| - |rest|
        invariant |rest| <= |captured| && memory == Dropped(start, |stack|)
        invariant forall k :: 0 <= k < |rest| && !rest[k] ==> !Captured(|stack| - 1 - k)
        invariant forall u :: u in open ==> u in old(open) && u.location == old(u.location)
      {
        assert forall j :: 0 <= j < |open| ==> open[j] in old(open);
        ExitShape(rest, 0);
        assert ops[i..][1..] == ops[i + 1..];
        ghost var n := match ops[i] case PopSlots(n) => n case CloseSlot => 1;
        ghost var before := |stack|;
        assert Dropped(Dropped(start, before), before - n) == Dropped(start, before - n);
        match ops[i] {
          case PopSlots(n) =>
            forall j | |stack| - n <= j < |stack| ensures !Captured(j) {
              var k := |stack| - 1 - j;
              assert !rest[k] && j == |stack| - 1 - k;
            }
            Pop(n);
          case CloseSlot => CloseTop();
        }
        rest := rest[n..];
        AgreementCounts(stack, memory);
        i := i + 1;
      }
      ExitDone(rest);
    }
  }

  lemma AgreementAt(stack: seq<Value>, m: Memory, i: nat)
    requires SlotsAgree(stack, m) && i < |stack|
    ensures |m.slots| == |stack| && m.slots[i] in m.store && m.store[m.slots[i]] == stack[i]
  {
  }

  lemma AgreementCounts(stack: seq<Value>, m: Memory)
    requires SlotsAgree(stack, m)
    ensures |m.slots| == |stack|
  {
  }

  lemma SlotsDiffer(stack: seq<Value>, m: Memory, i: nat, j: nat)
    requires SlotsAgree(stack, m) && i < |stack| && j < |stack| && i != j
    ensures m.slots[i] != m.slots[j]
  {
  }
}
