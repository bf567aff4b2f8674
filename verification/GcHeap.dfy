/** Heap objects, the references the collector follows, and reachability along them. */
module GcHeap {

  class Obj {
    var black: bool
    var gray: bool
    var next: Obj?
    var payload: Payload

    constructor (black: bool, payload: Payload, next: Obj?)
      ensures this.black == black && !gray && this.payload == payload && this.next == next
    {
      this.black, this.gray, this.payload, this.next := black, false, payload, next;
    }
  }

  datatype Value = Plain | Ref(obj: Obj)

  /** A slot of a hash map's entry array; deleted entries keep their place. */
  datatype MapEntry = Tombstone | Live(key: Value, value: Value)

  /** A slot of an open-addressing table; `key` is null when empty. */
  datatype TableEntry = TableEntry(key: Obj?, value: Value)

  datatype Payload =
    | HashMap(items: seq<MapEntry>)
    | Array(elements: seq<Value>)
    | BoundMethod(receiver: Value, method_: Obj?)
    | Method(clazz: Obj?, callable: Obj?)
    | MethodDesc
    | Interface(name: Obj?, methods: seq<TableEntry>)
    | Class(name: Obj?, fields: seq<TableEntry>, methods: seq<TableEntry>, statics: seq<TableEntry>,
            staticValues: seq<Value>, initializer: Value, superclass: Value)
    | Closure(function_: Obj?, upvalues: seq<Obj?>)
    | NativeClosure(captured: seq<Value>)
    | Function(name: Obj?, parentClass: Obj?, constants: seq<Value>, fileName: Obj?, defaultArgs: seq<Value>)
    | Instance(clazz: Obj?, values: seq<Value>)
    | Upvalue(closed: Value)
    | StringPair(str1: Obj?, str2: Obj?)
    | Native(defaultArgs: seq<Value>)
    | String

  function Opt(o: Obj?): seq<Obj> {
    if o == null then [] else [o]
  }

  function ValueRefs(v: Value): seq<Obj> {
    if v.Ref? then [v.obj] else []
  }

  function AllValueRefs(vs: seq<Value>): seq<Obj> {
    if vs == [] then [] else ValueRefs(vs[0]) + AllValueRefs(vs[1..])
  }

  function AllOpt(os: seq<Obj?>): seq<Obj> {
    if os == [] then [] else Opt(os[0]) + AllOpt(os[1..])
  }

  function MapRefs(es: seq<MapEntry>): seq<Obj> {
    if es == [] then []
    else (if es[0].Live? then ValueRefs(es[0].key) + ValueRefs(es[0].value) else []) + MapRefs(es[1..])
  }

  function TableRefs(es: seq<TableEntry>): seq<Obj> {
    if es == [] then [] else Opt(es[0].key) + ValueRefs(es[0].value) + TableRefs(es[1..])
  }

  /** What blackening an object marks, in order. A class does not lead to its superclass,
      nor an open upvalue to the stack. */
  function Edges(p: Payload): seq<Obj> {
    match p
    case HashMap(items) => MapRefs(items)
    case Array(elements) => AllValueRefs(elements)
    case BoundMethod(receiver, m) => ValueRefs(receiver) + Opt(m)
    case Method(clazz, callable) => Opt(clazz) + Opt(callable)
    case MethodDesc => []
    case Interface(name, methods) => Opt(name) + TableRefs(methods)
    case Class(name, fields, methods, statics, staticValues, initializer, _) =>
      Opt(name) + TableRefs(fields) + TableRefs(methods) + TableRefs(statics)
      + AllValueRefs(staticValues) + ValueRefs(initializer)
    case Closure(f, upvalues) => Opt(f) + AllOpt(upvalues)
    case NativeClosure(captured) => AllValueRefs(captured)
    case Function(name, parentClass, constants, fileName, defaultArgs) =>
      Opt(name) + Opt(parentClass) + AllValueRefs(constants) + Opt(fileName) + AllValueRefs(defaultArgs)
    case Instance(clazz, values) => Opt(clazz) + AllValueRefs(values)
    case Upvalue(closed) => ValueRefs(closed)
    case StringPair(str1, str2) => Opt(str1) + Opt(str2)
    case Native(defaultArgs) => AllValueRefs(defaultArgs)
    case String => []
  }

  // ----- what an object holds, field by field -----

  ghost predicate Among(vs: seq<Value>, o: Obj) {
    exists i :: 0 <= i < |vs| && vs[i] == Ref(o)
  }

  /** Some slot of the table has `o` as its key or its value. */
  ghost predicate InTable(es: seq<TableEntry>, o: Obj) {
    exists i :: 0 <= i < |es| && (es[i].key == o || es[i].value == Ref(o))
  }

  /** Some live entry of the map has `o` as its key or its value. */
  ghost predicate InMap(es: seq<MapEntry>, o: Obj) {
    exists i :: 0 <= i < |es| && es[i].Live? && (es[i].key == Ref(o) || es[i].value == Ref(o))
  }

  /** `o` is in one of the fields of `p` that keep what they refer to alive. */
  ghost predicate Holds(p: Payload, o: Obj) {
    match p
    case HashMap(items) => InMap(items, o)
    case Array(elements) => Among(elements, o)
    case BoundMethod(receiver, m) => receiver == Ref(o) || m == o
    case Method(clazz, callable) => clazz == o || callable == o
    case MethodDesc => false
    case Interface(name, methods) => name == o || InTable(methods, o)
    case Class(name, fields, methods, statics, staticValues, initializer, _) =>
      || name == o || InTable(fields, o) || InTable(methods, o) || InTable(statics, o)
      || Among(staticValues, o) || initializer == Ref(o)
    case Closure(f, upvalues) => f == o || (exists i :: 0 <= i < |upvalues| && upvalues[i] == o)
    case NativeClosure(captured) => Among(captured, o)
    case Function(name, parentClass, constants, fileName, defaultArgs) =>
      name == o || parentClass == o || Among(constants, o) || fileName == o || Among(defaultArgs, o)
    case Instance(clazz, values) => clazz == o || Among(values, o)
    case Upvalue(closed) => closed == Ref(o)
    case StringPair(str1, str2) => str1 == o || str2 == o
    case Native(defaultArgs) => Among(defaultArgs, o)
    case String => false
  }

  lemma {:induction false} ValueRefsAre(vs: seq<Value>, o: Obj)
    ensures o in AllValueRefs(vs) <==> Among(vs, o)
  {
    if vs != [] {
      ValueRefsAre(vs[1..], o);
      if Among(vs[1..], o) {
        var i :| 0 <= i < |vs[1..]| && vs[1..][i] == Ref(o);
        assert vs[i + 1] == Ref(o);
      }
      if Among(vs, o) && vs[0] != Ref(o) {
        var i :| 0 <= i < |vs| && vs[i] == Ref(o);
        assert vs[1..][i - 1] == Ref(o);
      }
    }
  }

  lemma {:induction false} OptsAre(os: seq<Obj?>, o: Obj)
    ensures o in AllOpt(os) <==> exists i :: 0 <= i < |os| && os[i] == o
  {
    if os != [] {
      OptsAre(os[1..], o);
      if exists i :: 0 <= i < |os[1..]| && os[1..][i] == o {
        var i :| 0 <= i < |os[1..]| && os[1..][i] == o;
        assert os[i + 1] == o;
      }
      if os[0] != o && exists i :: 0 <= i < |os| && os[i] == o {
        var i :| 0 <= i < |os| && os[i] == o;
        assert os[1..][i - 1] == o;
      }
    }
  }

  lemma {:induction false} TableRefsAre(es: seq<TableEntry>, o: Obj)
    ensures o in TableRefs(es) <==> InTable(es, o)
  {
    if es != [] {
      TableRefsAre(es[1..], o);
      if InTable(es[1..], o) {
        var i :| 0 <= i < |es[1..]| && (es[1..][i].key == o || es[1..][i].value == Ref(o));
        assert es[i + 1] == es[1..][i];
      }
      if InTable(es, o) && es[0].key != o && es[0].value != Ref(o) {
        var i :| 0 <= i < |es| && (es[i].key == o || es[i].value == Ref(o));
        assert es[1..][i - 1] == es[i];
      }
    }
  }

  lemma {:induction false} MapRefsAre(es: seq<MapEntry>, o: Obj)
    ensures o in MapRefs(es) <==> InMap(es, o)
  {
    if es != [] {
      MapRefsAre(es[1..], o);
      if InMap(es[1..], o) {
        var i :| 0 <= i < |es[1..]| && es[1..][i].Live? && (es[1..][i].key == Ref(o) || es[1..][i].value == Ref(o));
        assert es[i + 1] == es[1..][i];
      }
      if InMap(es, o) && !(es[0].Live? && (es[0].key == Ref(o) || es[0].value == Ref(o))) {
        var i :| 0 <= i < |es| && es[i].Live? && (es[i].key == Ref(o) || es[i].value == Ref(o));
        assert es[1..][i - 1] == es[i];
      }
    }
  }

  /** Blackening marks exactly what the object's fields hold. */
  lemma EdgesAreHeld(p: Payload, o: Obj)
    ensures o in Edges(p) <==> Holds(p, o)
  {
    hide AllValueRefs, AllOpt, TableRefs, MapRefs, Among, InTable, InMap;
    match p
    case HashMap(items) => MapRefsAre(items, o);
    case Array(elements) => ValueRefsAre(elements, o);
    case BoundMethod(_, _) =>
    case Method(_, _) =>
    case MethodDesc =>
    case Interface(_, methods) => TableRefsAre(methods, o);
    case Class(_, fields, methods, statics, staticValues, _, _) =>
      TableRefsAre(fields, o);
      TableRefsAre(methods, o);
      TableRefsAre(statics, o);
      ValueRefsAre(staticValues, o);
    case Closure(_, upvalues) => OptsAre(upvalues, o);
    case NativeClosure(captured) => ValueRefsAre(captured, o);
    case Function(_, _, constants, _, defaultArgs) =>
      ValueRefsAre(constants, o);
      ValueRefsAre(defaultArgs, o);
    case Instance(_, values) => ValueRefsAre(values, o);
    case Upvalue(_) =>
    case StringPair(_, _) =>
    case Native(defaultArgs) => ValueRefsAre(defaultArgs, o);
    case String =>
  }

  /** A class does not keep its superclass alive. */
  lemma SuperclassIsNotHeld(p: Payload, super: Value, o: Obj)
    requires p.Class?
    ensures o in Edges(p) <==> o in Edges(p.(superclass := super))
  {
    hide Edges;
    EdgesAreHeld(p, o);
    EdgesAreHeld(p.(superclass := super), o);
  }

  // ----- reachability -----

  datatype Path = Root | Via(prefix: Path, last: Obj)

  /** `path` leads from a root to `o` through objects of `S` only. */
  ghost predicate ReachedBy(older path: Path, o: Obj, roots: seq<Obj>, S: set<Obj>)
    reads S`payload
    decreases path
  {
    match path
    case Root => o in S && o in roots
    case Via(prefix, n) => o in S && n in S && o in Edges(n.payload) && ReachedBy(prefix, n, roots, S)
  }

  ghost predicate Reachable(o: Obj, roots: seq<Obj>, S: set<Obj>)
    reads S`payload
  {
    exists path :: ReachedBy(path, o, roots, S)
  }

  lemma RootReachable(o: Obj, roots: seq<Obj>, S: set<Obj>)
    requires o in S && o in roots
    ensures Reachable(o, roots, S)
  {
    assert ReachedBy(Path.Root, o, roots, S);
  }

  lemma EdgeReachable(n: Obj, o: Obj, roots: seq<Obj>, S: set<Obj>)
    requires Reachable(n, roots, S) && n in S && o in S && o in Edges(n.payload)
    ensures Reachable(o, roots, S)
  {
    var path :| ReachedBy(path, n, roots, S);
    assert ReachedBy(Via(path, n), o, roots, S);
  }

  /** A set that holds the roots and is closed under references holds everything reachable. */
  lemma {:induction false} ClosedHoldsReached(path: Path, o: Obj, roots: seq<Obj>, S: set<Obj>, C: set<Obj>)
    requires forall r :: r in roots && r in S ==> r in C
    requires forall n, r :: n in C && n in S && r in Edges(n.payload) && r in S ==> r in C
    requires ReachedBy(path, o, roots, S)
    ensures o in C
  {
    match path
    case Root =>
    case Via(prefix, n) => ClosedHoldsReached(prefix, n, roots, S, C);
  }

  /** Reachability, by fields alone: the least set that has the roots and whatever its members hold. */
  lemma ReachableIsLeast(roots: seq<Obj>, S: set<Obj>, C: set<Obj>)
    ensures forall o :: o in roots && o in S ==> Reachable(o, roots, S)
    ensures forall n, o :: Reachable(n, roots, S) && n in S && o in S && Holds(n.payload, o) ==> Reachable(o, roots, S)
    ensures (forall o :: o in roots && o in S ==> o in C)
            && (forall n, o :: n in C && n in S && o in S && Holds(n.payload, o) ==> o in C)
            ==> forall o :: Reachable(o, roots, S) ==> o in C
  {
    hide Edges, Holds;
    forall o | o in roots && o in S ensures Reachable(o, roots, S) {
      RootReachable(o, roots, S);
    }
    forall n, o | Reachable(n, roots, S) && n in S && o in S && Holds(n.payload, o) ensures Reachable(o, roots, S) {
      EdgesAreHeld(n.payload, o);
      EdgeReachable(n, o, roots, S);
    }
    if (forall o :: o in roots && o in S ==> o in C)
      && (forall n, o :: n in C && n in S && o in S && Holds(n.payload, o) ==> o in C)
    {
      forall n, o | n in C && n in S && o in Edges(n.payload) && o in S ensures o in C {
        EdgesAreHeld(n.payload, o);
      }
      forall o | Reachable(o, roots, S) ensures o in C {
        var path :| ReachedBy(path, o, roots, S);
        ClosedHoldsReached(path, o, roots, S, C);
      }
    }
  }

  lemma {:induction false} ReachedInLarger(path: Path, o: Obj, roots: seq<Obj>, S: set<Obj>, T: set<Obj>)
    requires S <= T && ReachedBy(path, o, roots, S)
    ensures ReachedBy(path, o, roots, T)
  {
    match path
    case Root =>
    case Via(prefix, n) => ReachedInLarger(prefix, n, roots, S, T);
  }

  /** Permanent objects are barriers: an object kept alive only through one is not reachable for the collector. */
  lemma BarrierHides(p: Obj, o: Obj)
    requires p != o && o in Edges(p.payload)
    ensures Reachable(o, [p], {p, o})
    ensures !Reachable(o, [p], {o})
  {
    RootReachable(p, [p], {p, o});
    EdgeReachable(p, o, [p], {p, o});
    if Reachable(o, [p], {o}) {
      var path :| ReachedBy(path, o, [p], {o});
      OnlySelf(path, p, o);
    }
  }

  lemma {:induction false} OnlySelf(path: Path, p: Obj, o: Obj)
    requires p != o
    ensures !ReachedBy(path, o, [p], {o})
  {
    match path
    case Root =>
    case Via(prefix, n) =>
      if n == o {
        OnlySelf(prefix, p, o);
      }
  }

  /** Barriers lose nothing exactly when every main object that a reachable permanent object refers to
      is also reachable without passing through a permanent object. */
  lemma BarriersHarmlessIff(roots: seq<Obj>, main: set<Obj>, perm: set<Obj>)
    requires main !! perm
    ensures (forall o :: o in main && Reachable(o, roots, main + perm) ==> Reachable(o, roots, main))
       <==> (forall p, o :: p in perm && Reachable(p, roots, main + perm) && o in Edges(p.payload) && o in main ==>
               Reachable(o, roots, main))
  {
    if forall o :: o in main && Reachable(o, roots, main + perm) ==> Reachable(o, roots, main) {
      forall p, o | p in perm && Reachable(p, roots, main + perm) && o in Edges(p.payload) && o in main
        ensures Reachable(o, roots, main)
      {
        EdgeReachable(p, o, roots, main + perm);
      }
    }
    if forall p, o :: p in perm && Reachable(p, roots, main + perm) && o in Edges(p.payload) && o in main ==>
      Reachable(o, roots, main) {
      forall o | o in main && Reachable(o, roots, main + perm)
        ensures Reachable(o, roots, main)
      {
        var path :| ReachedBy(path, o, roots, main + perm);
        AvoidBarriers(path, o, roots, main, perm);
      }
    }
  }

  lemma {:induction false} AvoidBarriers(path: Path, o: Obj, roots: seq<Obj>, main: set<Obj>, perm: set<Obj>)
    requires main !! perm && o in main && ReachedBy(path, o, roots, main + perm)
    requires forall p, r :: p in perm && Reachable(p, roots, main + perm) && r in Edges(p.payload) && r in main ==>
      Reachable(r, roots, main)
    ensures Reachable(o, roots, main)
  {
    match path
    case Root => RootReachable(o, roots, main);
    case Via(prefix, n) =>
      if n in main {
        AvoidBarriers(prefix, n, roots, main, perm);
        EdgeReachable(n, o, roots, main);
      } else {
        assert Reachable(n, roots, main + perm);
      }
  }
}
