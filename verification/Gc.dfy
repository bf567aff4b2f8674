/** The tracing collector: marking with a gray stack that may overflow, then sweeping the object list. */
module Gc {
  import opened HashIndex
  import opened GcHeap

  ghost function Elements(s: seq<Obj>): set<Obj> {
    set o | o in s
  }

  /** `head` starts the chain of `next` links that visits exactly `list`, in order. */
  ghost predicate Linked(head: Obj?, list: seq<Obj>)
    reads Elements(list)`next
  {
    && head == (if list == [] then null else list[0])
    && (list != [] ==> list[|list| - 1].next == null)
    && forall i, j :: 0 <= i < j < |list| && j == i + 1 ==> list[i].next == list[j]
  }

  ghost predicate Distinct(list: seq<Obj>) {
    forall i, j :: 0 <= i < j < |list| ==> list[i] != list[j]
  }

  class Vm {
    var objects: Obj?         // head of the main heap's object list
    var grayStack: seq<Obj>
    var grayCapacity: nat
    var grayOverflow: bool
    ghost var main: seq<Obj>  // the main heap's objects in list order
    ghost var perm: set<Obj>  // the permanent heap: born black, never swept

    ghost function Main(): set<Obj>
      reads this`main
    {
      Elements(main)
    }

    ghost function White(): set<Obj>
      reads this`main, Main()`black
    {
      set o | o in Main() && !o.black
    }

    ghost function Gray(): set<Obj>
      reads this`main, Main()`gray
    {
      set o | o in Main() && o.gray
    }

    /** The heap's shape, which marking never changes. */
    ghost predicate HeapOk(roots: seq<Obj>)
      reads this`main, this`perm, this`objects, Main()`next, Main()`payload, perm`black, perm`gray
    {
      && Distinct(main) && Linked(objects, main)
      && Main() !! perm
      && (forall p :: p in perm ==> p.black && !p.gray)
      && (forall o, r :: o in Main() && r in Edges(o.payload) ==> r in Main() || r in perm)
      && (forall r :: r in roots ==> r in Main() || r in perm)
    }

    /** Between collections no main object carries a mark and the gray stack is idle. */
    ghost predicate Idle()
      reads this, Main()`black, Main()`gray
    {
      && (forall o :: o in Main() ==> !o.black && !o.gray)
      && grayStack == [] && !grayOverflow
    }

    /** The tri-colour invariant: only gray objects, and the one being blackened, may lead to white ones. */
    ghost predicate TriColour(roots: seq<Obj>, busy: Obj?)
      reads this`main, this`perm, this`objects, Main(), perm`black, perm`gray
    {
      && HeapOk(roots)
      && (forall o :: o in Main() && o.gray ==> o.black)
      && (forall o, r :: o in Main() && o.black && !o.gray && o != busy && r in Edges(o.payload) ==> r.black)
      && (forall o :: o in Main() && o.black ==> Reachable(o, roots, Main()))
    }

    /** While nothing has overflowed, the gray stack holds exactly the gray objects. */
    ghost predicate StackOk()
      reads this, Main()`gray
    {
      !grayOverflow ==> Distinct(grayStack) && Elements(grayStack) == Gray()
    }

    ghost predicate Marking(roots: seq<Obj>, busy: Obj?)
      reads this, Main(), perm`black, perm`gray
    {
      TriColour(roots, busy) && StackOk()
    }

    /** Nothing but marks and the gray stack differs from a state with these values. */
    twostate predicate SameHeap()
      reads this, Main()
    {
      && main == old(main) && perm == old(perm) && objects == old(objects)
      && forall o :: o in old(Main()) ==>
           o.next == old(o.next) && o.payload == old(o.payload) && (old(o.black) ==> o.black)
    }

    method Paint(obj: Obj, ghost roots: seq<Obj>, ghost busy: Obj?)
      requires TriColour(roots, busy) && !obj.black
      requires obj in Main() && Reachable(obj, roots, Main())
      modifies Main()`black, Main()`gray
      ensures TriColour(roots, busy) && SameHeap() && obj.black
      ensures White() == old(White()) - {obj} && Gray() == old(Gray()) + {obj}
      ensures obj in old(White()) && obj !in old(Gray())
    {
      hide Reachable, Edges;
      obj.black, obj.gray := true, true;
    }

    /** Marks one object; when the gray stack cannot grow, marking goes on without it. */
    method MarkObject(obj: Obj?, ghost roots: seq<Obj>, ghost busy: Obj?)
      requires Marking(roots, busy)
      requires obj != null ==> obj in Main() || obj in perm
      requires obj != null && obj in Main() ==> Reachable(obj, roots, Main())
      modifies this`grayStack, this`grayCapacity, this`grayOverflow, Main()`black, Main()`gray
      ensures Marking(roots, busy) && SameHeap()
      ensures obj != null ==> obj.black
      ensures White() < old(White()) || (White() == old(White()) && Gray() == old(Gray()))
      ensures old(grayOverflow) ==> grayOverflow
    {
      hide Reachable, Edges, White, Gray, Distinct, Linked, TriColour, HeapOk, Elements;
      if obj == null || obj.black {
        return;
      }
      PermIsBlack(roots, busy, obj);
      Paint(obj, roots, busy);
      if grayOverflow {
        return;
      }
      if grayCapacity < |grayStack| + 1 {
        var grown: bool := *;
        if !grown {
          grayOverflow := true;
          return;
        }
        grayCapacity := GrowCapacity(grayCapacity);
      }
      DistinctPush(grayStack, obj);
      grayStack := grayStack + [obj];
    }

    lemma PermIsBlack(roots: seq<Obj>, busy: Obj?, obj: Obj)
      requires TriColour(roots, busy) && !obj.black && (obj in Main() || obj in perm)
      ensures obj in Main()
    {
    }

    /** Marks everything a gray object refers to; the object itself turns black for good. */
    method Blacken(obj: Obj, ghost roots: seq<Obj>)
      requires TriColour(roots, obj) && StackOk() && obj in Main() && obj.black && !obj.gray
      modifies this`grayStack, this`grayCapacity, this`grayOverflow, Main()`black, Main()`gray
      ensures Marking(roots, null) && SameHeap()
      ensures White() < old(White()) || (White() == old(White()) && Gray() == old(Gray()))
      ensures old(grayOverflow) ==> grayOverflow
    {
      hide Reachable, Edges, White, Gray, Distinct, Linked, StackOk;
      var refs := Edges(obj.payload);
      for i := 0 to |refs|
        invariant Marking(roots, obj) && SameHeap()
        invariant forall j :: 0 <= j < i ==> refs[j].black
        invariant White() < old(White()) || (White() == old(White()) && Gray() == old(Gray()))
        invariant old(grayOverflow) ==> grayOverflow
      {
        RefFacts(obj, refs[i], roots);
        MarkObject(refs[i], roots, obj);
      }
    }

    lemma RefFacts(obj: Obj, r: Obj, roots: seq<Obj>)
      requires TriColour(roots, obj) && obj in Main() && obj.black && r in Edges(obj.payload)
      ensures r in Main() || r in perm
      ensures r in Main() ==> Reachable(r, roots, Main())
    {
      if r in Main() {
        EdgeReachable(obj, r, roots, Main());
      }
    }

    /** Takes the gray mark off an object that is about to be blackened. */
    method Ungray(obj: Obj, ghost roots: seq<Obj>)
      requires TriColour(roots, null) && obj in Main() && obj.gray
      modifies Main()`gray
      ensures TriColour(roots, obj) && SameHeap() && obj.black && !obj.gray
      ensures White() == old(White()) && Gray() == old(Gray()) - {obj}
      ensures obj in old(Gray())
    {
      hide Reachable, Edges;
      obj.gray := false;
    }

    /** Scans the whole object list for gray objects until none is left. */
    method SlowTraceReferences(ghost roots: seq<Obj>)
      requires TriColour(roots, null) && grayOverflow
      modifies this`grayStack, this`grayCapacity, this`grayOverflow, Main()`black, Main()`gray
      ensures TriColour(roots, null) && SameHeap() && grayOverflow
      ensures Gray() == {}
    {
      hide Reachable, Edges, White, Distinct, Linked, TriColour;
      var haveGray := true;
      while haveGray
        invariant TriColour(roots, null) && SameHeap() && grayOverflow
        invariant !haveGray ==> Gray() == {}
        decreases White(), Gray(), haveGray
      {
        haveGray := false;
        haveGray := ScanOnce(roots);
      }
    }

    /** One pass over the object list; reports whether it met a gray object. */
    method ScanOnce(ghost roots: seq<Obj>) returns (haveGray: bool)
      requires TriColour(roots, null) && grayOverflow
      modifies this`grayStack, this`grayCapacity, this`grayOverflow, Main()`black, Main()`gray
      ensures TriColour(roots, null) && SameHeap() && grayOverflow
      ensures if haveGray then White() < old(White()) || (White() == old(White()) && Gray() < old(Gray()))
              else White() == old(White()) && Gray() == old(Gray()) == {}
    {
      hide Reachable, Edges, White, Gray, Distinct, Linked, TriColour, StackOk;
      haveGray := false;
      var obj := objects;
      ghost var i := 0;
      ListStart(roots);
      while obj != null
        invariant TriColour(roots, null) && SameHeap() && grayOverflow
        invariant i <= |main| && obj == (if i < |main| then main[i] else null)
        invariant if haveGray then White() < old(White()) || (White() == old(White()) && Gray() < old(Gray()))
                  else White() == old(White()) && Gray() == old(Gray()) && forall j :: 0 <= j < i ==> !main[j].gray
        decreases |main| - i
      {
        ListNext(roots, i);
        if obj.gray {
          haveGray := true;
          Ungray(obj, roots);
          OverflowIsOk();
          Blacken(obj, roots);
        }
        obj := obj.next;
        i := i + 1;
      }
      if !haveGray {
        NoGray();
      }
    }

    lemma ListStart(roots: seq<Obj>)
      requires TriColour(roots, null)
      ensures objects == if main == [] then null else main[0]
    {
    }

    lemma ListNext(roots: seq<Obj>, i: nat)
      requires TriColour(roots, null) && i < |main|
      ensures main[i].next == if i + 1 < |main| then main[i + 1] else null
      ensures main[i] in Main()
    {
    }

    lemma OverflowIsOk()
      requires grayOverflow
      ensures StackOk()
    {
    }

    lemma NoGray()
      requires forall j :: 0 <= j < |main| ==> !main[j].gray
      ensures Gray() == {}
    {
    }

    /** Takes the top object off the gray stack and off the gray set. */
    method PopGray(ghost roots: seq<Obj>) returns (obj: Obj)
      requires Marking(roots, null) && !grayOverflow && |grayStack| > 0
      modifies this`grayStack, Main()`gray
      ensures TriColour(roots, obj) && StackOk() && SameHeap() && !grayOverflow
      ensures obj in Main() && obj.black && !obj.gray
      ensures White() == old(White()) && Gray() == old(Gray()) - {obj} && obj in old(Gray())
    {
      hide Reachable, Edges, White, Gray, Distinct, Linked, TriColour, Elements;
      obj := grayStack[|grayStack| - 1];
      TopIsGray(roots);
      DistinctPop(grayStack);
      grayStack := grayStack[..|grayStack| - 1];
      Ungray(obj, roots);
    }

    /** Blackens gray objects from the stack until it is empty or has overflowed. */
    method FastTrace(ghost roots: seq<Obj>)
      requires Marking(roots, null) && !grayOverflow
      modifies this`grayStack, this`grayCapacity, this`grayOverflow, Main()`black, Main()`gray
      ensures Marking(roots, null) && SameHeap()
      ensures !grayOverflow ==> Gray() == {}
    {
      hide Reachable, Edges, White, Gray, Distinct, Linked, TriColour, Elements, StackOk;
      while |grayStack| > 0
        invariant Marking(roots, null) && SameHeap() && !grayOverflow
        decreases White(), Gray()
      {
        var obj := PopGray(roots);
        Blacken(obj, roots);
        if grayOverflow {
          return;
        }
      }
      EmptyStackNoGray();
    }

    /** Blackens until no gray object is left, falling back to scanning the heap after an overflow. */
    method TraceReferences(ghost roots: seq<Obj>)
      requires Marking(roots, null)
      modifies this`grayStack, this`grayCapacity, this`grayOverflow, Main()`black, Main()`gray
      ensures TriColour(roots, null) && SameHeap()
      ensures Gray() == {} && grayStack == [] && !grayOverflow
    {
      hide Reachable, Edges, White, Gray, Distinct, Linked, TriColour, Elements, StackOk;
      if !grayOverflow {
        FastTrace(roots);
      }
      if grayOverflow {
        SlowTraceReferences(roots);
      }
      grayStack := [];
      grayOverflow := false;
    }

    lemma TopIsGray(roots: seq<Obj>)
      requires Marking(roots, null) && !grayOverflow && |grayStack| > 0
      ensures grayStack[|grayStack| - 1] in Main() && grayStack[|grayStack| - 1].gray
    {
      assert grayStack[|grayStack| - 1] in Elements(grayStack);
    }

    lemma EmptyStackNoGray()
      requires StackOk() && !grayOverflow && grayStack == []
      ensures Gray() == {}
    {
      assert Elements([]) == {};
    }

    // ----- one whole collection -----

    /** The objects the collector must keep, in list order. */
    ghost function Survivors(roots: seq<Obj>): seq<Obj>
      reads this`main, Main()`payload
    {
      Filter(main, set o | o in Main() && Reachable(o, roots, Main()))
    }

    method MarkRoots(roots: seq<Obj>)
      requires HeapOk(roots) && Idle()
      modifies this`grayStack, this`grayCapacity, this`grayOverflow, Main()`black, Main()`gray
      ensures Marking(roots, null) && SameHeap()
      ensures forall r :: r in roots ==> r.black
    {
      hide Reachable, Edges, White, Gray, Distinct, Linked, StackOk, TriColour, Idle, HeapOk;
      StartMarking(roots);
      for i := 0 to |roots|
        invariant Marking(roots, null) && SameHeap()
        invariant forall j :: 0 <= j < i ==> roots[j].black
      {
        RootFacts(roots, roots[i]);
        MarkObject(roots[i], roots, null);
      }
    }

    lemma StartMarking(roots: seq<Obj>)
      requires HeapOk(roots) && Idle()
      ensures Marking(roots, null)
    {
    }

    lemma RootFacts(roots: seq<Obj>, r: Obj)
      requires TriColour(roots, null) && r in roots
      ensures r in Main() || r in perm
      ensures r in Main() ==> Reachable(r, roots, Main())
    {
      if r in Main() {
        RootReachable(r, roots, Main());
      }
    }

    /** With no gray object left, the marked set is exactly the reachable set. */
    lemma MarkedIsReachable(roots: seq<Obj>)
      requires TriColour(roots, null) && Gray() == {}
      requires forall r :: r in roots ==> r.black
      ensures forall o :: o in Main() ==> (o.black <==> Reachable(o, roots, Main()))
    {
      var C := set o | o in Main() && o.black;
      assert forall o :: o in Main() ==> !o.gray by {
        assert forall o :: o in Main() && o.gray ==> o in Gray();
      }
      forall o | o in Main() && Reachable(o, roots, Main()) ensures o.black {
        var path :| ReachedBy(path, o, roots, Main());
        ClosedHoldsReached(path, o, roots, Main(), C);
      }
    }

    /** Keeps or unlinks one object; `kept` are the objects kept before it. */
    method SweepOne(obj: Obj, previous: Obj?, ghost kept: seq<Obj>) returns (last: Obj?, next: Obj?)
      requires SweptTo(kept, previous, obj) && Distinct(kept) && obj !in kept
      modifies this`objects, obj`black, obj`gray
      modifies (if previous == null then {} else {previous})`next
      ensures next == old(obj.next) && obj.next == old(obj.next)
      ensures
        if old(obj.black || obj.gray) then SweptTo(kept + [obj], last, next) && !obj.black && !obj.gray
        else SweptTo(kept, last, next) && unchanged(obj)
    {
      next := obj.next;
      if obj.black || obj.gray {
        obj.black, obj.gray := false, false;
        last := obj;
      } else {
        last := previous;
        if previous != null {
          previous.next := next;
        } else {
          objects := next;
        }
      }
    }

    /** What holds when the first `i` objects of `all` have been swept and those of them in `marked` kept. */
    ghost predicate Sweeping(all: seq<Obj>, marked: set<Obj>, i: nat, kept: seq<Obj>, previous: Obj?, obj: Obj?)
      reads this`objects, Elements(all), Elements(kept)
    {
      && i <= |all| && obj == (if i < |all| then all[i] else null)
      && kept == Filter(all[..i], marked) && Elements(kept) <= Elements(all[..i]) && Distinct(kept)
      && SweptTo(kept, previous, obj)
      && (forall o :: o in Elements(kept) ==> !o.black && !o.gray)
      && StillToSweep(all, marked, i)
    }

    /** From `i` on, list and marks are as they were. */
    ghost predicate StillToSweep(all: seq<Obj>, marked: set<Obj>, i: nat)
      reads Elements(all)
    {
      forall j :: i <= j < |all| ==>
        && all[j].next == (if j + 1 < |all| then all[j + 1] else null)
        && (all[j].black || all[j].gray <==> all[j] in marked)
    }

    method SweepStep(
      ghost all: seq<Obj>, ghost marked: set<Obj>, ghost i: nat, ghost kept: seq<Obj>, previous: Obj?, obj: Obj
    )
      returns (last: Obj?, next: Obj?, ghost kept': seq<Obj>)
      requires Distinct(all) && Sweeping(all, marked, i, kept, previous, obj)
      modifies this`objects, Elements(all)`black, Elements(all)`gray, Elements(all)`next
      ensures i < |all| && Sweeping(all, marked, i + 1, kept', last, next)
    {
      hide Filter, Distinct;
      NotBefore(all, i);
      FilterStep(all, i, marked);
      LaterObjects(all, i, kept);
      DistinctPush(kept, obj);
      assert previous != null ==> previous in Elements(kept);
      last, next := SweepOne(obj, previous, kept);
      kept' := if obj in marked then kept + [obj] else kept;
      assert forall o :: o in Elements(kept') ==> o in Elements(kept) || o == obj;
      assert all[..i + 1][i] == all[i] == obj;
    }

    /** Unlinks every unmarked object from the list and clears the marks of the others. */
    method Sweep()
      requires Distinct(main) && Linked(objects, main)
      requires forall o :: o in Main() && o.gray ==> o.black
      modifies this`objects, this`main, Main()`black, Main()`gray, Main()`next
      ensures main == Filter(old(main), old(set o | o in Main() && o.black))
      ensures Distinct(main) && Linked(objects, main)
      ensures forall o :: o in Main() ==> !o.black && !o.gray
    {
      hide Filter, Distinct;
      ghost var all := main;
      ghost var marked := set o | o in Main() && o.black;
      ghost var kept: seq<Obj> := [];
      ghost var i: nat := 0;
      var previous: Obj? := null;
      var obj := objects;
      FilterNone(all, marked);
      while obj != null
        invariant main == all && Sweeping(all, marked, i, kept, previous, obj)
        decreases |all| - i
      {
        previous, obj, kept := SweepStep(all, marked, i, kept, previous, obj);
        i := i + 1;
      }
      assert all[..i] == all;
      FilterDistinct(all, marked);
      main := kept;
    }

    /** The objects kept so far are linked up to `previous`, which leads on to `obj`. */
    ghost predicate SweptTo(kept: seq<Obj>, previous: Obj?, obj: Obj?)
      reads this`objects, Elements(kept)`next
    {
      && (if kept == [] then previous == null && objects == obj
          else previous == kept[|kept| - 1] && objects == kept[0] && previous.next == obj)
      && forall j :: 0 <= j < |kept| - 1 ==> kept[j].next == kept[j + 1]
    }

    /** A whole collection: it keeps exactly the objects reachable without passing through a permanent
        object, in list order, and leaves every mark cleared. */
    method CollectGarbage(roots: seq<Obj>)
      requires HeapOk(roots) && Idle()
      modifies this, Main()`black, Main()`gray, Main()`next
      ensures HeapOk(roots) && Idle()
      ensures main == old(Survivors(roots)) && perm == old(perm)
      ensures Main() == old(set o | o in Main() && Reachable(o, roots, Main()))
      ensures forall o :: o in Main() ==> Reachable(o, roots, Main())
      ensures HoldsOnto(roots, Main(), old(Main()))
    {
      hide Reachable, Edges, Holds, White, Distinct, Linked, StackOk, Filter, HoldsOnto;
      ghost var live := set o | o in Main() && Reachable(o, roots, Main());
      MarkRoots(roots);
      TraceReferences(roots);
      MarkedIsReachable(roots);
      assert live == set o | o in Main() && o.black;
      LiveFacts(roots, live);
      KeptIsHeld(roots, live);
      Sweep();
    }

    lemma KeptIsHeld(roots: seq<Obj>, live: set<Obj>)
      requires forall o :: o in live <==> o in Main() && Reachable(o, roots, Main())
      ensures HoldsOnto(roots, live, Main())
    {
      hide Reachable, Holds;
      ReachableIsLeast(roots, Main(), {});
    }

    lemma LiveFacts(roots: seq<Obj>, live: set<Obj>)
      requires TriColour(roots, null)
      requires forall o :: o in live <==> o in Main() && Reachable(o, roots, Main())
      ensures Distinct(main) && Linked(objects, main) && Elements(Filter(main, live)) == live
      ensures forall o, r :: o in live && r in Edges(o.payload) ==> r in live || r in perm
      ensures forall r :: r in roots ==> r in live || r in perm
      ensures forall o :: o in live ==> Reachable(o, roots, live)
    {
      FilterDistinct(main, live);
      assert Main() * live == live;
      forall o, r | o in live && r in Edges(o.payload) ensures r in live || r in perm {
        if r in Main() {
          EdgeReachable(o, r, roots, Main());
        }
      }
      forall r | r in roots ensures r in live || r in perm {
        if r in Main() {
          RootReachable(r, roots, Main());
        }
      }
      forall o | o in live ensures Reachable(o, roots, live) {
        var path :| ReachedBy(path, o, roots, Main());
        ReachedInside(path, o, roots, Main(), live);
      }
    }

    /** Puts a new object at the head of its heap's list; permanent objects are born black. */
    method AllocateObject(payload: Payload, permanent: bool, ghost roots: seq<Obj>) returns (obj: Obj)
      requires HeapOk(roots) && Idle()
      requires !permanent ==> forall r :: r in Edges(payload) ==> r in Main() || r in perm
      modifies this
      ensures HeapOk(roots) && Idle() && fresh(obj) && obj.payload == payload
      ensures if permanent then main == old(main) && perm == old(perm) + {obj}
              else main == [obj] + old(main) && perm == old(perm)
    {
      hide Edges, Linked, Distinct;
      if permanent {
        obj := new Obj(true, payload, null);
        perm := perm + {obj};
      } else {
        obj := new Obj(false, payload, objects);
        assert forall o :: o in main ==> o in Main();
        objects := obj;
        main := [obj] + main;
        assert Elements(main) == old(Main()) + {obj};
        LinkedPush(obj, old(objects), old(main));
      }
    }

    /** A program step that rewrites an object's contents with references it can get hold of. */
    method Store(obj: Obj, payload: Payload, ghost roots: seq<Obj>)
      requires HeapOk(roots) && Idle() && obj in Main()
      requires forall r :: r in Edges(payload) ==> r in Main() || r in perm
      modifies obj`payload
      ensures HeapOk(roots) && Idle() && obj.payload == payload
    {
      hide Edges;
      obj.payload := payload;
    }
  }

  /** Of the objects `all`, `kept` has every root and all that a field of a member holds. */
  ghost predicate HoldsOnto(roots: seq<Obj>, kept: set<Obj>, all: set<Obj>)
    reads kept`payload
  {
    && (forall r :: r in roots && r in all ==> r in kept)
    && (forall o, r :: o in kept && r in all && Holds(o.payload, r) ==> r in kept)
  }

  function Filter(s: seq<Obj>, keep: set<Obj>): seq<Obj> {
    if s == [] then []
    else if s[|s| - 1] in keep then Filter(s[..|s| - 1], keep) + [s[|s| - 1]]
    else Filter(s[..|s| - 1], keep)
  }

  /** A path through reachable objects is a path through the set of them. */
  lemma {:induction false} ReachedInside(path: Path, o: Obj, roots: seq<Obj>, S: set<Obj>, live: set<Obj>)
    requires ReachedBy(path, o, roots, S)
    requires forall x :: x in live <==> x in S && Reachable(x, roots, S)
    ensures ReachedBy(path, o, roots, live)
  {
    assert Reachable(o, roots, S);
    match path
    case Root =>
    case Via(prefix, n) => ReachedInside(prefix, n, roots, S, live);
  }

  lemma LinkedPush(obj: Obj, head: Obj?, list: seq<Obj>)
    requires Linked(head, list) && Distinct(list) && obj.next == head && obj !in list
    ensures Linked(obj, [obj] + list) && Distinct([obj] + list)
  {
    var longer := [obj] + list;
    forall i, j | 0 <= i < j < |longer| && j == i + 1
      ensures longer[i].next == longer[j]
    {
      if i > 0 {
        assert longer[i] == list[i - 1] && longer[j] == list[j - 1];
      }
    }
  }

  lemma NotBefore(s: seq<Obj>, i: nat)
    requires Distinct(s) && i < |s|
    ensures s[i] !in Elements(s[..i]) && Elements(s[..i + 1]) == Elements(s[..i]) + {s[i]}
    ensures Elements(s[..i]) <= Elements(s)
  {
  }

  lemma LaterObjects(s: seq<Obj>, i: nat, kept: seq<Obj>)
    requires Distinct(s) && i < |s| && Elements(kept) <= Elements(s[..i])
    ensures forall j :: i <= j < |s| ==> s[j] !in kept
    ensures forall j :: i < j < |s| ==> s[j] != s[i]
  {
    forall o | o in kept ensures forall j :: i <= j < |s| ==> s[j] != o {
      assert o in Elements(s[..i]);
    }
  }

  lemma FilterNone(s: seq<Obj>, keep: set<Obj>)
    ensures Filter(s[..0], keep) == [] && Distinct([])
  {
  }

  lemma FilterStep(s: seq<Obj>, i: nat, keep: set<Obj>)
    requires i < |s|
    ensures Filter(s[..i + 1], keep) == if s[i] in keep then Filter(s[..i], keep) + [s[i]] else Filter(s[..i], keep)
  {
    assert s[..i + 1][..i] == s[..i];
  }

  /** Filtering keeps exactly the wanted elements, in their original order. */
  lemma {:induction false} FilterDistinct(s: seq<Obj>, keep: set<Obj>)
    requires Distinct(s)
    ensures Distinct(Filter(s, keep))
    ensures Elements(Filter(s, keep)) == Elements(s) * keep
  {
    if s != [] {
      var init, last := s[..|s| - 1], s[|s| - 1];
      FilterDistinct(init, keep);
      assert Elements(s) == Elements(init) + {last};
      assert last !in Elements(init);
      if last in keep {
        DistinctPush(Filter(init, keep), last);
      }
    }
  }

  lemma DistinctPop(s: seq<Obj>)
    requires Distinct(s) && |s| > 0
    ensures Distinct(s[..|s| - 1]) && Elements(s[..|s| - 1]) == Elements(s) - {s[|s| - 1]}
  {
  }

  lemma DistinctPush(s: seq<Obj>, o: Obj)
    ensures Distinct(s) && o !in Elements(s) ==> Distinct(s + [o])
    ensures Elements(s + [o]) == Elements(s) + {o}
  {
  }
}
