/** What a program sees of its variables over a whole run. */
module History {
  import opened Options
  import opened Upvalues
  import opened Closures
  import Syntax

  /** A place in a running program: the scopes around it, and the variables they stand for just now. */
  datatype Site = Site(scopes: seq<FunctionScope>, env: Environment)

  /** What an instruction does to variable `c`; a read or a write is that of the name `x` at some place. */
  datatype Event =
    | New(c: nat, v: Value)
    | Read(site: Site, x: Syntax.Name, c: nat, v: Value)
    | Write(site: Site, x: Syntax.Name, c: nat, v: Value)
    | Drop(keep: nat)

  function Effected(m: Memory, e: Event): Memory {
    match e
    case New(c, v) => Pushed(m, c, v)
    case Read(_, _, _, _) => m
    case Write(_, _, c, v) => Written(m, c, v)
    case Drop(keep) => if keep <= |m.slots| then Dropped(m, keep) else m
  }

  function AfterAll(m: Memory, es: seq<Event>): Memory {
    if es == [] then m else Effected(AfterAll(m, es[..|es| - 1]), es[|es| - 1])
  }

  const NOTHING: Memory := Memory([], map[])

  lemma AfterOne(m: Memory, es: seq<Event>, e: Event)
    ensures AfterAll(m, es + [e]) == Effected(AfterAll(m, es), e)
  {
    assert (es + [e])[..|es|] == es;
  }

  lemma AfterTwo(m: Memory, a: Event, b: Event)
    ensures AfterAll(m, [a]) == Effected(m, a) && AfterAll(m, [a, b]) == Effected(Effected(m, a), b)
  {
    AfterOne(m, [], a);
    AfterOne(m, [a], b);
    assert [] + [a] == [a] && [a] + [b] == [a, b];
  }

  /** The last value written to variable `c`, by its declaration or later. */
  function LastWritten(es: seq<Event>, c: nat): Option<Value> {
    if es == [] then None
    else
      var e := es[|es| - 1];
      if Sets(e, c) then Some(e.v) else LastWritten(es[..|es| - 1], c)
  }

  /** A variable has the value last written to it, also when its slot is gone. */
  lemma {:induction false} LastWriteWins(es: seq<Event>, c: nat)
    ensures LastWritten(es, c) == var m := AfterAll(NOTHING, es); if c in m.store then Some(m.store[c]) else None
  {
    if es != [] {
      LastWriteWins(es[..|es| - 1], c);
    }
  }

  /** At `site`, the name `x` means variable `c`: that of the lexically nearest declaration. */
  ghost predicate Names(site: Site, x: Syntax.Name, c: nat) {
    var p := Lexical(site.scopes, x);
    p.Some? && Covers(site.env, p.value) && site.env[p.value.level][p.value.slot] == c
  }

  /** Event `k` reads or writes the variable its name means; what is read was written last. */
  ghost predicate FaithfulAt(es: seq<Event>, k: nat)
    requires k < |es|
  {
    && (es[k].Read? || es[k].Write? ==> Names(es[k].site, es[k].x, es[k].c))
    && (es[k].Read? ==> LastWritten(es[..k], es[k].c) == Some(es[k].v))
  }

  ghost predicate Faithful(es: seq<Event>) {
    forall k :: 0 <= k < |es| ==> FaithfulAt(es, k)
  }

  predicate Sets(e: Event, c: nat) {
    (e.New? || e.Write?) && e.c == c
  }

  /** A read gives what was written under whatever name by whichever closure, if it means the same variable
      and nothing was written to that since; slots may have been dropped. */
  lemma {:induction false} SharedVariable(es: seq<Event>, i: nat, j: nat)
    requires Faithful(es) && i < j < |es| && es[j].Read? && Sets(es[i], es[j].c)
    requires forall k :: i < k < j ==> !Sets(es[k], es[j].c)
    ensures es[j].v == es[i].v
  {
    assert FaithfulAt(es, j);
    LastWrittenSince(es, i, j, es[j].c);
  }

  lemma {:induction false} LastWrittenSince(es: seq<Event>, i: nat, j: nat, c: nat)
    requires i < j <= |es| && Sets(es[i], c)
    requires forall k :: i < k < j ==> !Sets(es[k], c)
    ensures LastWritten(es[..j], c) == Some(es[i].v)
  {
    assert es[..j][..j - 1] == es[..j - 1];
    if j > i + 1 {
      LastWrittenSince(es, i, j - 1, c);
    }
  }

  lemma FaithfulGrows(es: seq<Event>, e: Event)
    requires Faithful(es) && FaithfulAt(es + [e], |es|)
    ensures Faithful(es + [e])
  {
    forall k | 0 <= k < |es| ensures FaithfulAt(es + [e], k) {
      assert FaithfulAt(es, k);
      assert (es + [e])[..k] == es[..k];
    }
  }

  /** `m` is what `es` made of nothing, with the closures there are; variables are numbered in the order they appear. */
  ghost predicate Told(m: Memory, closures: set<Closure>, es: seq<Event>) {
    && m == AfterAll(NOTHING, es) && Faithful(es)
    && (forall c :: c in m.store ==> c < |es|)
    && (forall c :: c in m.store && m.store[c].Function? ==> m.store[c].closure in closures)
  }

  ghost predicate Known(v: Value, closures: set<Closure>) {
    v.Function? ==> v.closure in closures
  }

  lemma ToldNew(m: Memory, closures: set<Closure>, es: seq<Event>, c: nat, v: Value)
    requires Told(m, closures, es) && c <= |es| && Known(v, closures)
    ensures Told(Pushed(m, c, v), closures, es + [New(c, v)])
  {
    AfterOne(NOTHING, es, New(c, v));
    FaithfulGrows(es, New(c, v));
  }

  lemma ToldRead(m: Memory, closures: set<Closure>, es: seq<Event>, site: Site, x: Syntax.Name, c: nat)
    requires Told(m, closures, es) && Names(site, x, c) && c in m.store
    ensures Told(m, closures, es + [Read(site, x, c, m.store[c])]) && Known(m.store[c], closures)
  {
    var e := Read(site, x, c, m.store[c]);
    AfterOne(NOTHING, es, e);
    assert (es + [e])[..|es|] == es;
    LastWriteWins(es, c);
    FaithfulGrows(es, e);
  }

  lemma ToldWrite(m: Memory, closures: set<Closure>, es: seq<Event>, site: Site, x: Syntax.Name, c: nat, v: Value)
    requires Told(m, closures, es) && Names(site, x, c) && c in m.store && Known(v, closures)
    ensures Told(Written(m, c, v), closures, es + [Write(site, x, c, v)])
  {
    AfterOne(NOTHING, es, Write(site, x, c, v));
    FaithfulGrows(es, Write(site, x, c, v));
  }

  lemma ToldDrop(m: Memory, closures: set<Closure>, es: seq<Event>, keep: nat)
    requires Told(m, closures, es) && keep <= |m.slots|
    ensures Told(Dropped(m, keep), closures, es + [Drop(keep)])
  {
    AfterOne(NOTHING, es, Drop(keep));
    FaithfulGrows(es, Drop(keep));
  }

  /** More closures are no harm. */
  lemma ToldOfMore(m: Memory, closures: set<Closure>, more: set<Closure>, es: seq<Event>)
    requires Told(m, closures, es) && closures <= more
    ensures Told(m, more, es)
  {
  }

  /** What is in a slot is a value there is. */
  lemma TopIsKnown(stack: seq<Value>, m: Memory, closures: set<Closure>, es: seq<Event>, i: nat)
    requires SlotsAgree(stack, m) && Told(m, closures, es) && i < |stack|
    ensures i < |m.slots| && m.slots[i] in m.store && m.store[m.slots[i]] == stack[i] && Known(stack[i], closures)
  {
  }

  /** The number of events so far is the number of no variable yet. */
  lemma NextIsUnused(stack: seq<Value>, m: Memory, closures: set<Closure>, es: seq<Event>)
    requires SlotsAgree(stack, m) && Told(m, closures, es)
    ensures Unused(m, |es|)
  {
  }
}
