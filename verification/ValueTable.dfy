/** The deterministic hash table: chains of indices into an array of entries kept in insertion order. */
module ValueTable {
  import opened Options
  import opened HashIndex

  /** A slot of the entry array; a deleted entry has lost its key but stays in its chain. */
  datatype Entry<K, V> = Unset | Entry(key: Option<K>, value: V, next: int, hash: uint32)

  function KeyOf<K, V>(e: Entry<K, V>): Option<K> {
    if e.Entry? then e.key else None
  }

  function BucketOf<K, V>(e: Entry<K, V>, shift: nat): nat {
    if e.Entry? then IndexFor(e.hash, shift) else 0
  }

  // ----- contents: the live entries in order -----

  function Cons<T>(first: T, rest: seq<T>): seq<T> {
    [first] + rest
  }

  function LiveOne<K, V>(e: Entry<K, V>): seq<(K, V)> {
    if e.Entry? && e.key.Some? then [(e.key.value, e.value)] else []
  }

  function Live<K, V>(es: seq<Entry<K, V>>): seq<(K, V)> {
    if es == [] then [] else Live(es[..|es| - 1]) + LiveOne(es[|es| - 1])
  }

  lemma {:induction false} LiveConcat<K, V>(a: seq<Entry<K, V>>, b: seq<Entry<K, V>>)
    ensures Live(a + b) == Live(a) + Live(b)
  {
    if b == [] {
      assert a + b == a;
    } else {
      assert (a + b)[..|a + b| - 1] == a + b[..|b| - 1];
      LiveConcat(a, b[..|b| - 1]);
    }
  }

  lemma LiveSingle<K, V>(e: Entry<K, V>)
    ensures Live([e]) == LiveOne(e)
  {
    assert Live([e][..0]) == [];
  }

  lemma SplitAt<T>(s: seq<T>, i: nat)
    requires i < |s|
    ensures s == s[..i] + [s[i]] + s[i + 1..]
  {
  }

  lemma LiveOfThree<K, V>(a: seq<Entry<K, V>>, e: Entry<K, V>, b: seq<Entry<K, V>>)
    ensures Live(a + [e] + b) == Live(a) + LiveOne(e) + Live(b)
  {
    hide Live, LiveOne;
    LiveConcat(a + [e], b);
    LiveConcat(a, [e]);
    LiveSingle(e);
  }

  lemma LiveSplit<K, V>(es: seq<Entry<K, V>>, i: nat)
    requires i < |es|
    ensures Live(es) == Live(es[..i]) + LiveOne(es[i]) + Live(es[i + 1..])
  {
    hide Live, LiveOne;
    SplitAt(es, i);
    LiveOfThree(es[..i], es[i], es[i + 1..]);
  }

  /** Position of key `k`, or -1. */
  function Find<K(==), V>(c: seq<(K, V)>, k: K): (i: int)
    ensures -1 <= i < |c|
    ensures i >= 0 ==> c[i].0 == k
  {
    if c == [] then -1
    else if c[0].0 == k then 0
    else if Find(c[1..], k) < 0 then -1
    else Find(c[1..], k) + 1
  }

  /** An update keeps the position of its key; a new key goes last. */
  function Put<K(==), V>(c: seq<(K, V)>, k: K, v: V): seq<(K, V)> {
    if Find(c, k) >= 0 then c[Find(c, k) := (k, v)] else c + [(k, v)]
  }

  function Without<K(==), V>(c: seq<(K, V)>, k: K): seq<(K, V)> {
    if Find(c, k) >= 0 then c[..Find(c, k)] + c[Find(c, k) + 1..] else c
  }

  lemma {:induction false} FindBehind<K, V>(a: seq<(K, V)>, b: seq<(K, V)>, k: K)
    requires Find(a, k) < 0
    ensures Find(a + b, k) == if Find(b, k) < 0 then -1 else |a| + Find(b, k)
  {
    if a == [] {
      assert a + b == b;
    } else {
      assert (a + b)[1..] == a[1..] + b;
      FindBehind(a[1..], b, k);
    }
  }

  /** Is key `k` in none of the entries? */
  predicate Lacks<K(==), V>(es: seq<Entry<K, V>>, k: K) {
    forall i :: 0 <= i < |es| ==> KeyOf(es[i]) != Some(k)
  }

  lemma {:induction false} LacksFindsNothing<K, V>(es: seq<Entry<K, V>>, k: K)
    requires Lacks(es, k)
    ensures Find(Live(es), k) == -1
  {
    if es != [] {
      LacksFindsNothing(es[..|es| - 1], k);
      FindBehind(Live(es[..|es| - 1]), LiveOne(es[|es| - 1]), k);
    }
  }

  // ----- chains -----

  /** The last of the first `n` entries that is in bucket `b`, or -1. */
  function LastIn<K, V>(es: seq<Entry<K, V>>, n: nat, b: nat, shift: nat): (j: int)
    requires n <= |es|
    ensures -1 <= j < n
    ensures j >= 0 ==> BucketOf(es[j], shift) == b
    ensures forall k :: j < k < n ==> BucketOf(es[k], shift) != b
  {
    if n == 0 then -1
    else if BucketOf(es[n - 1], shift) == b then n - 1
    else LastIn(es, n - 1, b, shift)
  }

  /** Every entry leads to the one before it in its bucket. */
  predicate EntriesLinked<K, V>(es: seq<Entry<K, V>>, shift: nat) {
    forall i :: 0 <= i < |es| ==> es[i].Entry? && es[i].next == LastIn(es, i, BucketOf(es[i], shift), shift)
  }

  /** Every bucket leads to its last entry. */
  predicate BucketsLinked<K, V>(es: seq<Entry<K, V>>, chains: seq<int>, shift: nat) {
    forall b :: 0 <= b < |chains| ==> chains[b] == LastIn(es, |es|, b, shift)
  }

  /** Live keys are stored with their hash, and once. */
  predicate KeysOk<K(==), V>(es: seq<Entry<K, V>>, hash: K -> uint32) {
    && (forall i :: 0 <= i < |es| && KeyOf(es[i]).Some? ==> es[i].hash == hash(KeyOf(es[i]).value))
    && (forall i, j :: 0 <= i < j < |es| && KeyOf(es[i]).Some? ==> KeyOf(es[i]) != KeyOf(es[j]))
  }

  /** Chains depend on hashes and order only. */
  lemma {:induction false} LastInSame<K, V>(a: seq<Entry<K, V>>, b: seq<Entry<K, V>>, n: nat, bucket: nat, shift: nat)
    requires n <= |a| && n <= |b| && forall i :: 0 <= i < n ==> BucketOf(a[i], shift) == BucketOf(b[i], shift)
    ensures LastIn(a, n, bucket, shift) == LastIn(b, n, bucket, shift)
  {
    if n > 0 {
      LastInSame(a, b, n - 1, bucket, shift);
    }
  }

  /** A new entry at the head of its chain. */
  lemma AppendLinks<K, V>(es: seq<Entry<K, V>>, chains: seq<int>, e: Entry<K, V>, shift: nat)
    requires EntriesLinked(es, shift) && BucketsLinked(es, chains, shift) && e.Entry?
    requires BucketOf(e, shift) < |chains| && e.next == chains[BucketOf(e, shift)]
    ensures EntriesLinked(es + [e], shift) && BucketsLinked(es + [e], chains[BucketOf(e, shift) := |es|], shift)
  {
    var all := es + [e];
    forall i | 0 <= i < |all| ensures all[i].Entry? && all[i].next == LastIn(all, i, BucketOf(all[i], shift), shift) {
      LastInSame(es, all, i, BucketOf(all[i], shift), shift);
    }
    forall b | 0 <= b < |chains| ensures chains[BucketOf(e, shift) := |es|][b] == LastIn(all, |all|, b, shift) {
      LastInSame(es, all, |es|, b, shift);
    }
  }

  /** Changing an entry without changing its hash or link. */
  lemma UpdateLinks<K, V>(es: seq<Entry<K, V>>, chains: seq<int>, i: nat, e: Entry<K, V>, shift: nat)
    requires EntriesLinked(es, shift) && BucketsLinked(es, chains, shift) && i < |es| && e.Entry?
    requires e.hash == es[i].hash && e.next == es[i].next
    ensures EntriesLinked(es[i := e], shift) && BucketsLinked(es[i := e], chains, shift)
  {
    var all := es[i := e];
    forall k | 0 <= k < |all| ensures all[k].Entry? && all[k].next == LastIn(all, k, BucketOf(all[k], shift), shift) {
      LastInSame(es, all, k, BucketOf(all[k], shift), shift);
    }
    forall b | 0 <= b < |chains| ensures chains[b] == LastIn(all, |all|, b, shift) {
      LastInSame(es, all, |es|, b, shift);
    }
  }

  // ----- what the operations do to the contents -----

  lemma OthersLack<K, V>(es: seq<Entry<K, V>>, hash: K -> uint32, i: nat)
    requires KeysOk(es, hash) && i < |es| && KeyOf(es[i]).Some?
    ensures Lacks(es[..i], KeyOf(es[i]).value) && Lacks(es[i + 1..], KeyOf(es[i]).value)
  {
  }

  /** Where an entry's key is among the live ones. */
  lemma LiveFinds<K, V>(es: seq<Entry<K, V>>, hash: K -> uint32, i: nat, k: K)
    requires KeysOk(es, hash) && i < |es| && KeyOf(es[i]) == Some(k)
    ensures Find(Live(es), k) == |Live(es[..i])| && Live(es)[Find(Live(es), k)] == (k, es[i].value)
  {
    hide Live, KeysOk, Lacks;
    OthersLack(es, hash, i);
    LiveSplit(es, i);
    LacksFindsNothing(es[..i], k);
    var rest := LiveOne(es[i]) + Live(es[i + 1..]);
    assert Live(es) == Live(es[..i]) + rest;
    FindBehind(Live(es[..i]), rest, k);
  }

  lemma LiveUpdated<K, V>(es: seq<Entry<K, V>>, hash: K -> uint32, i: nat, k: K, v: V)
    requires KeysOk(es, hash) && i < |es| && KeyOf(es[i]) == Some(k)
    ensures
      var after := es[i := es[i].(value := v)];
      Live(after) == Put(Live(es), k, v) && KeysOk(after, hash)
  {
    hide Live;
    var after := es[i := es[i].(value := v)];
    LiveFinds(es, hash, i, k);
    LiveSplit(es, i);
    LiveSplit(after, i);
    assert after[..i] == es[..i] && after[i + 1..] == es[i + 1..];
  }

  lemma LiveDeleted<K, V>(es: seq<Entry<K, V>>, hash: K -> uint32, i: nat, k: K)
    requires KeysOk(es, hash) && i < |es| && KeyOf(es[i]) == Some(k)
    ensures
      var after := es[i := es[i].(key := None)];
      Live(after) == Without(Live(es), k) && |Live(after)| == |Live(es)| - 1 && KeysOk(after, hash)
  {
    hide Live;
    var after := es[i := es[i].(key := None)];
    LiveFinds(es, hash, i, k);
    LiveSplit(es, i);
    LiveSplit(after, i);
    assert after[..i] == es[..i] && after[i + 1..] == es[i + 1..];
  }

  lemma LiveAppended<K, V>(es: seq<Entry<K, V>>, hash: K -> uint32, e: Entry<K, V>, k: K)
    requires KeysOk(es, hash) && Lacks(es, k) && KeyOf(e) == Some(k) && e.hash == hash(k)
    ensures Live(es + [e]) == Put(Live(es), k, e.value) && KeysOk(es + [e], hash)
  {
    LacksFindsNothing(es, k);
    assert (es + [e])[..|es|] == es;
  }

  lemma {:induction false} LiveIsShorter<K, V>(es: seq<Entry<K, V>>)
    ensures |Live(es)| <= |es|
  {
    if es != [] {
      LiveIsShorter(es[..|es| - 1]);
    }
  }

  /** A key that is not among the live ones is in no entry. */
  lemma NotLiveLacks<K, V>(es: seq<Entry<K, V>>, hash: K -> uint32, k: K)
    requires KeysOk(es, hash) && Find(Live(es), k) < 0
    ensures Lacks(es, k)
  {
    hide KeysOk, Live;
    forall i | 0 <= i < |es| ensures KeyOf(es[i]) != Some(k) {
      if KeyOf(es[i]) == Some(k) {
        LiveFinds(es, hash, i, k);
        assert false;
      }
    }
  }

  /** The entries and chains of a table belong together. */
  ghost predicate WellLinked<K, V>(es: seq<Entry<K, V>>, chains: seq<int>, shift: nat, hash: K -> uint32) {
    && EntriesLinked(es, shift) && BucketsLinked(es, chains, shift) && KeysOk(es, hash)
    && InRange(|chains|, shift)
  }

  /** Every hash has a bucket. */
  ghost predicate InRange(count: nat, shift: nat) {
    count > 0 ==> forall h: uint32 :: IndexFor(h, shift) < count
  }

  lemma SizedInRange(lg: nat)
    requires lg <= 32
    ensures InRange(Pow2(lg), 32 - lg)
  {
    var shift := 32 - lg;
    forall h: uint32 ensures IndexFor(h, shift) < Pow2(lg) {
      IndexInRange(h, lg);
    }
  }

  /** The chain of a key's bucket starts at its last entry. */
  lemma BucketInRange<K, V>(es: seq<Entry<K, V>>, chains: seq<int>, shift: nat, hash: K -> uint32, key: K)
    requires WellLinked(es, chains, shift, hash) && |chains| > 0
    ensures
      var b := IndexFor(hash(key), shift);
      b < |chains| && chains[b] == LastIn(es, |es|, b, shift)
  {
    hide KeysOk, EntriesLinked, IndexFor;
  }

  /** Entries between two links of a key's chain have other keys. */
  lemma ChainEnd<K, V>(es: seq<Entry<K, V>>, chains: seq<int>, shift: nat, hash: K -> uint32, key: K, n: nat)
    requires WellLinked(es, chains, shift, hash) && n <= |es|
    ensures
      var idx := LastIn(es, n, IndexFor(hash(key), shift), shift);
      forall i :: idx < i < n ==> KeyOf(es[i]) != Some(key)
  {
    hide IndexFor, EntriesLinked, BucketsLinked;
  }

  lemma ChainStep<K, V>(es: seq<Entry<K, V>>, chains: seq<int>, shift: nat, hash: K -> uint32, key: K, n: nat)
    requires WellLinked(es, chains, shift, hash) && n <= |es| && LastIn(es, n, IndexFor(hash(key), shift), shift) >= 0
    ensures
      var idx := LastIn(es, n, IndexFor(hash(key), shift), shift);
      && es[idx].Entry? && es[idx].next == LastIn(es, idx, IndexFor(hash(key), shift), shift)
      && forall i :: idx < i < n ==> KeyOf(es[i]) != Some(key)
  {
    hide IndexFor, KeysOk, BucketsLinked;
    ChainEnd(es, chains, shift, hash, key, n);
  }

  lemma EmptyIsWellLinked<K, V>(chains: seq<int>, shift: nat, hash: K -> uint32)
    requires InRange(|chains|, shift) && forall b :: 0 <= b < |chains| ==> chains[b] == -1
    ensures
      var none: seq<Entry<K, V>> := [];
      WellLinked(none, chains, shift, hash)
  {
  }

  lemma UpdateWellLinked<K, V>(
    es: seq<Entry<K, V>>, chains: seq<int>, i: nat, e: Entry<K, V>, shift: nat, hash: K -> uint32
  )
    requires WellLinked(es, chains, shift, hash) && i < |es| && e.Entry? && es[i].Entry?
    requires e.hash == es[i].hash && e.next == es[i].next && KeysOk(es[i := e], hash)
    ensures WellLinked(es[i := e], chains, shift, hash)
  {
    hide KeysOk, EntriesLinked, BucketsLinked;
    UpdateLinks(es, chains, i, e, shift);
  }

  /** The next entry: `e`, at the head of its chain. */
  function Placed<K, V>(e: Entry<K, V>, chains: seq<int>, shift: nat): Entry<K, V>
    requires e.Entry? && IndexFor(e.hash, shift) < |chains|
  {
    e.(next := chains[IndexFor(e.hash, shift)])
  }

  lemma PlacedIsWellLinked<K, V>(
    es: seq<Entry<K, V>>, chains: seq<int>, shift: nat, hash: K -> uint32, e: Entry<K, V>, k: K
  )
    requires WellLinked(es, chains, shift, hash) && |chains| > 0 && Lacks(es, k)
    requires KeyOf(e) == Some(k) && e.hash == hash(k)
    ensures
      var p := Placed(e, chains, shift);
      var all := es + [p];
      && WellLinked(all, chains[IndexFor(e.hash, shift) := |es|], shift, hash)
      && Live(all) == Live(es) + [(k, e.value)] && Live(all) == Put(Live(es), k, e.value)
  {
    hide EntriesLinked, BucketsLinked, KeysOk, Lacks, Live;
    var p := Placed(e, chains, shift);
    AppendLinks(es, chains, p, shift);
    LiveAppended(es, hash, p, k);
    LacksFindsNothing(es, k);
  }

  class ValueTable<K(==), V> {
    const hash: K -> uint32
    var chains: array<int>
    var entries: array<Entry<K, V>>
    var indexShift: nat
    var fullCount: nat
    var liveCount: nat
    var modCount: uint32
    /** The table has `2^lg` buckets, if it has any. */
    ghost var lg: nat
    /** How often a key was added or removed. */
    ghost var changes: nat

    ghost predicate Sized()
      reads this`chains, this`entries, this`indexShift, this`lg
    {
      if chains.Length == 0 then entries.Length == 0
      else
        && 3 <= lg <= 30 && chains.Length == Pow2(lg)
        && entries.Length == chains.Length * 3 / 4 && indexShift == 32 - lg
    }

    ghost predicate Valid()
      reads this, chains, entries
    {
      && Sized() && fullCount <= entries.Length
      && WellLinked(entries[..fullCount], chains[..], indexShift, hash)
      && liveCount == |Contents()| && modCount as int == changes % WORD
    }

    /** The pairs of the table, in the order in which their keys were added. */
    ghost function Contents(): seq<(K, V)>
      requires fullCount <= entries.Length
      reads this`entries, this`fullCount, entries
    {
      Live(entries[..fullCount])
    }

    constructor (hash: K -> uint32)
      ensures Valid() && Contents() == [] && this.hash == hash && changes == 0
    {
      this.hash := hash;
      chains, entries := new int[0], new Entry<K, V>[0](_ => Unset);
      indexShift, fullCount, liveCount, modCount, lg, changes := 0, 0, 0, 0, 0, 0;
    }

    /** The index of the live entry with this key, or -1. */
    method Lookup(key: K) returns (idx: int)
      requires Valid() && chains.Length > 0
      ensures -1 <= idx < fullCount
      ensures if idx < 0 then Lacks(entries[..fullCount], key) else KeyOf(entries[idx]) == Some(key)
    {
      hide Live, WellLinked, IndexFor, Sized;
      ghost var es := entries[..fullCount];
      BucketInRange(es, chains[..], indexShift, hash, key);
      var bucket := IndexFor(hash(key), indexShift);
      idx := chains[bucket];
      ghost var n: nat := fullCount;
      while idx >= 0
        invariant 0 <= n <= fullCount && idx == LastIn(es, n, bucket, indexShift)
        invariant forall i :: n <= i < fullCount ==> KeyOf(es[i]) != Some(key)
        decreases idx
      {
        assert es[idx] == entries[idx];
        ChainStep(es, chains[..], indexShift, hash, key, n);
        if entries[idx].key == Some(key) {
          return;
        }
        n := idx;
        idx := entries[idx].next;
      }
      ChainEnd(es, chains[..], indexShift, hash, key, n);
    }

    method Get(key: K) returns (value: Option<V>)
      requires Valid()
      ensures value == if Find(Contents(), key) < 0 then None else Some(Contents()[Find(Contents(), key)].1)
    {
      if liveCount == 0 {
        return None;
      }
      var idx := Lookup(key);
      ghost var es := entries[..fullCount];
      if idx >= 0 {
        LiveFinds(es, hash, idx, key);
        return Some(entries[idx].value);
      }
      LacksFindsNothing(es, key);
      return None;
    }

    method Contains(key: K) returns (found: bool)
      requires Valid()
      ensures found <==> Find(Contents(), key) >= 0
    {
      var v := Get(key);
      found := v.Some?;
    }

    /** The pairs from entry `from` on. */
    ghost function ContentsFrom(from: nat): seq<(K, V)>
      requires fullCount <= entries.Length
      reads this`entries, this`fullCount, entries
    {
      if from <= fullCount then Live(entries[from..fullCount]) else []
    }

    /** The first live entry from `start` on, and where to look for the one after it. */
    method GetNext(start: int) returns (next: int, entry: Option<(K, V)>)
      requires Valid()
      ensures if entry.None? then next == -1 && (start < 0 || ContentsFrom(start) == [])
              else 0 <= start < next && ContentsFrom(start) == Cons(entry.value, ContentsFrom(next))
    {
      hide Live, LiveOne, WellLinked, Sized, ContentsFrom, Cons;
      if start < 0 {
        return -1, None;
      }
      var i: nat := start;
      while i < fullCount
        invariant start <= i && (i <= fullCount || i == start)
        invariant ContentsFrom(i) == ContentsFrom(start)
      {
        FromNext(i);
        if KeyOf(entries[i]).Some? {
          return i + 1, Some((entries[i].key.value, entries[i].value));
        }
        i := i + 1;
      }
      NoneFrom(i);
      return -1, None;
    }

    lemma FromNext(i: nat)
      requires i < fullCount <= entries.Length
      ensures ContentsFrom(i) ==
              if KeyOf(entries[i]).Some? then Cons((entries[i].key.value, entries[i].value), ContentsFrom(i + 1))
              else ContentsFrom(i + 1)
    {
      hide Live, LiveOne;
      LiveOneIs(entries[i]);
      FirstFrom(entries[..], i, fullCount);
      assert entries[..][i..fullCount] == entries[i..fullCount];
      assert entries[..][i + 1..fullCount] == entries[i + 1..fullCount];
    }

    lemma NoneFrom(i: nat)
      requires i >= fullCount && fullCount <= entries.Length
      ensures ContentsFrom(i) == []
    {
    }

    /** Writes live entry `e` to slot `j` of `target`, at the head of its chain. */
    static method Place(target: array<Entry<K, V>>, newChains: array<int>, shift: nat, j: nat, e: Entry<K, V>,
      ghost hash: K -> uint32)
      requires j < target.Length && newChains.Length > 0 && KeyOf(e).Some? && e.hash == hash(KeyOf(e).value)
      requires WellLinked(target[..j], newChains[..], shift, hash) && Lacks(target[..j], KeyOf(e).value)
      modifies target, newChains
      ensures WellLinked(target[..j + 1], newChains[..], shift, hash)
      ensures Live(target[..j + 1]) == Live(old(target[..j])) + LiveOne(e)
      ensures Live(target[..j + 1]) == Put(Live(old(target[..j])), KeyOf(e).value, e.value)
      ensures target[j + 1..] == old(target[j + 1..])
    {
      hide WellLinked, Lacks, Live, IndexFor, Put;
      ghost var es, cs := target[..j], newChains[..];
      BucketInRange(es, cs, shift, hash, KeyOf(e).value);
      PlacedIsWellLinked(es, cs, shift, hash, e, KeyOf(e).value);
      var bucket := IndexFor(e.hash, shift);
      target[j] := e.(next := newChains[bucket]);
      newChains[bucket] := j;
      assert target[..j + 1] == es + [Placed(e, cs, shift)];
      assert newChains[..] == cs[bucket := j];
    }

    method ClearChains()
      modifies chains
      ensures forall b :: 0 <= b < chains.Length ==> chains[b] == -1
    {
      var b := 0;
      while b < chains.Length
        invariant 0 <= b <= chains.Length && forall k :: 0 <= k < b ==> chains[k] == -1
      {
        chains[b] := -1;
        b := b + 1;
      }
    }

    /** Squeezes the deleted entries out of a full table. */
    method RehashInPlace()
      requires Valid() && chains.Length > 0 && fullCount == entries.Length
      modifies this`fullCount, chains, entries
      ensures Valid() && Contents() == old(Contents()) && fullCount == liveCount
    {
      hide WellLinked, Live, IndexFor, Sized, LiveOne, Lacks, KeysOk;
      ghost var was := entries[..];
      assert entries[..fullCount] == was;
      StaysInRange(was, chains[..], indexShift, hash);
      ClearChains();
      EmptyIsWellLinked<K, V>(chains[..], indexShift, hash);
      NothingLive<K, V>();
      assert entries[..0] == [];
      assert was[..0] == [];
      var j := 0;
      var i := 0;
      while i < entries.Length
        invariant 0 <= j <= i <= entries.Length && entries[i..] == was[i..]
        invariant WellLinked(entries[..j], chains[..], indexShift, hash)
        invariant Live(entries[..j]) == Live(was[..i]) && |Live(was[..i])| == j
        modifies chains, entries
      {
        var entry := entries[i];
        assert entry == was[i];
        LiveOneMore(was, i);
        LiveOneIs(entry);
        if KeyOf(entry).Some? {
          NotYetMoved(was, entries[..j], hash, i, chains[..], indexShift);
          ghost var before := entries[..];
          Place(entries, chains, indexShift, j, entry, hash);
          TailStays(before, entries[..], was, i, j);
          j := j + 1;
        } else {
          TailShortens(entries[..], was, i);
        }
        i := i + 1;
      }
      assert was[..entries.Length] == was;
      fullCount := liveCount;
    }

    /** Moves the live entries to new arrays for `newSize` buckets. */
    method Grow(newSize: nat, ghost newLg: nat)
      requires Valid() && 3 <= newLg <= 30 && newSize == Pow2(newLg) && liveCount <= newSize * 3 / 4
      modifies this`chains, this`entries, this`indexShift, this`fullCount, this`lg
      ensures Valid() && Contents() == old(Contents()) && fullCount == liveCount
      ensures fresh(chains) && fresh(entries) && chains.Length == newSize && entries.Length == newSize * 3 / 4
    {
      hide WellLinked, Live, IndexFor, LiveOne, Lacks, KeysOk;
      ghost var was := entries[..fullCount];
      StaysInRange(was, chains[..], indexShift, hash);
      var newChains, newEntries := new int[newSize](_ => -1), new Entry<K, V>[newSize * 3 / 4](_ => Unset);
      TrailingZerosOfPow2(newLg);
      var newShift := 32 - CountTrailingZeros(newSize);
      SizedInRange(newLg);
      EmptyIsWellLinked<K, V>(newChains[..], newShift, hash);
      NothingLive<K, V>();
      assert newEntries[..0] == [];
      assert was[..0] == [];
      var q := 0;
      var p := 0;
      while p < fullCount
        invariant 0 <= p <= fullCount && q == |Live(was[..p])| && q <= newEntries.Length
        invariant WellLinked(newEntries[..q], newChains[..], newShift, hash) && Live(newEntries[..q]) == Live(was[..p])
        modifies newChains, newEntries
      {
        LiveOneMore(was, p);
        LivePrefix(was, p + 1);
        assert was[p] == entries[p];
        LiveOneIs(entries[p]);
        if KeyOf(entries[p]).Some? {
          NotYetMoved(was, newEntries[..q], hash, p, newChains[..], newShift);
          Place(newEntries, newChains, newShift, q, entries[p], hash);
          q := q + 1;
        }
        p := p + 1;
      }
      assert was[..fullCount] == was;
      chains, entries, indexShift, fullCount := newChains, newEntries, newShift, liveCount;
      lg := newLg;
    }

    /** Makes room for one more entry: a larger table if it is mostly live, otherwise just without the deleted
        entries. */
    method Rehash()
      requires Valid() && fullCount == entries.Length && chains.Length < 0x4000_0000
      modifies this, chains, entries
      ensures Valid() && Contents() == old(Contents()) && fullCount == liveCount < entries.Length && chains.Length > 0
      ensures liveCount == old(liveCount) && changes == old(changes) && modCount == old(modCount)
      ensures (chains == old(chains) && entries == old(entries)) || (fresh(chains) && fresh(entries))
      ensures
        chains.Length ==
          if 4 * old(liveCount) + 3 < 3 * old(entries.Length) then old(chains.Length)
          else if old(chains.Length) == 0 then 8 else 2 * old(chains.Length)
    {
      hide WellLinked, Live;
      LiveIsShorter(entries[..fullCount]);
      if liveCount >= entries.Length * 3 / 4 {
        if chains.Length == 0 {
          assert Pow2(3) == 8;
          Grow(8, 3);
        } else {
          Pow2Below(lg);
          Grow(2 * chains.Length, lg + 1);
        }
      } else {
        RehashInPlace();
      }
    }

    /** Binds `key`; says whether it is new. */
    method Set(key: K, value: V) returns (isNew: bool)
      requires Valid() && chains.Length < 0x4000_0000
      modifies this, chains, entries
      ensures Valid() && Contents() == Put(old(Contents()), key, value)
      ensures isNew <==> Find(old(Contents()), key) < 0
      ensures changes == old(changes) + (if isNew then 1 else 0)
      ensures !isNew ==> fullCount == old(fullCount) && chains == old(chains) && entries == old(entries)
      ensures (chains == old(chains) && entries == old(entries)) || (fresh(chains) && fresh(entries))
    {
      hide WellLinked, Live, IndexFor, Put, Find, Sized;
      if liveCount > 0 {
        SomeBuckets();
        var idx := Lookup(key);
        if idx >= 0 {
          SetValue(idx, key, value);
          return false;
        }
        LacksFindsNothing(entries[..fullCount], key);
      } else {
        NothingFound(Contents(), key);
      }
      modCount := (modCount + 1) % WORD;
      changes := changes + 1;
      if fullCount == entries.Length {
        Rehash();
      }
      SomeBuckets();
      Append(key, value);
      return true;
    }

    lemma SomeBuckets()
      requires Valid() && (liveCount > 0 || fullCount < entries.Length)
      ensures chains.Length > 0
    {
      LiveIsShorter(entries[..fullCount]);
    }

    method SetValue(idx: nat, key: K, value: V)
      requires Valid() && idx < fullCount && KeyOf(entries[idx]) == Some(key)
      modifies entries
      ensures Valid() && Contents() == Put(old(Contents()), key, value)
      ensures Find(old(Contents()), key) >= 0
    {
      hide KeysOk, Live, IndexFor, Put, Find, EntriesLinked, BucketsLinked;
      ghost var es := entries[..fullCount];
      LiveFinds(es, hash, idx, key);
      LiveUpdated(es, hash, idx, key, value);
      entries[idx] := entries[idx].(value := value);
      UpdateLinks(es, chains[..], idx, entries[idx], indexShift);
      assert entries[..fullCount] == es[idx := entries[idx]];
      PutCounts(Live(es), key, value);
    }

    method Append(key: K, value: V)
      requires Valid() && chains.Length > 0 && fullCount < entries.Length && Find(Contents(), key) < 0
      modifies this`liveCount, this`fullCount, chains, entries
      ensures Valid() && Contents() == Put(old(Contents()), key, value)
    {
      hide WellLinked, Live, IndexFor, Put, Find, KeysOk;
      StaysInRange(entries[..fullCount], chains[..], indexShift, hash);
      NotLiveLacks(entries[..fullCount], hash, key);
      PutCounts(Contents(), key, value);
      liveCount := liveCount + 1;
      Place(entries, chains, indexShift, fullCount, Entry(Some(key), value, -1, hash(key)), hash);
      fullCount := fullCount + 1;
    }

    /** Unbinds `key`, leaving its entry behind; says whether it was bound. */
    method Delete(key: K) returns (deleted: bool)
      requires Valid()
      modifies this`modCount, this`changes, this`liveCount, entries
      ensures Valid() && Contents() == Without(old(Contents()), key)
      ensures deleted <==> Find(old(Contents()), key) >= 0
      ensures changes == old(changes) + (if deleted then 1 else 0)
    {
      hide Live, IndexFor, Without, Find, WellLinked, Sized;
      WithoutMissing(Contents(), key);
      if liveCount == 0 {
        NothingFound(Contents(), key);
        return false;
      }
      SomeBuckets();
      var idx := Lookup(key);
      ghost var es := entries[..fullCount];
      if idx < 0 {
        LacksFindsNothing(es, key);
        return false;
      }
      modCount := (modCount + 1) % WORD;
      changes := changes + 1;
      StaysInRange(es, chains[..], indexShift, hash);
      LiveFinds(es, hash, idx, key);
      LiveDeleted(es, hash, idx, key);
      UpdateWellLinked(es, chains[..], idx, entries[idx].(key := None), indexShift, hash);
      entries[idx] := entries[idx].(key := None);
      assert entries[..fullCount] == es[idx := entries[idx]];
      liveCount := liveCount - 1;
      return true;
    }
  }

  lemma LiveOneIs<K, V>(e: Entry<K, V>)
    ensures LiveOne(e) == if KeyOf(e).Some? then [(e.key.value, e.value)] else []
  {
  }

  lemma TailShortens<T>(a: seq<T>, b: seq<T>, i: nat)
    requires |a| == |b| && i < |a| && a[i..] == b[i..]
    ensures a[i + 1..] == b[i + 1..]
  {
    assert a[i + 1..] == a[i..][1..] && b[i + 1..] == b[i..][1..];
  }

  lemma TailStays<T>(before: seq<T>, after: seq<T>, was: seq<T>, i: nat, j: nat)
    requires |before| == |after| == |was| && j <= i < |was|
    requires before[i..] == was[i..] && after[j + 1..] == before[j + 1..]
    ensures after[i + 1..] == was[i + 1..]
  {
    assert after[i + 1..] == after[j + 1..][i - j..];
    assert before[i + 1..] == before[j + 1..][i - j..];
    assert before[i + 1..] == before[i..][1..] && was[i + 1..] == was[i..][1..];
  }

  lemma PutCounts<K, V>(c: seq<(K, V)>, k: K, v: V)
    ensures |Put(c, k, v)| == |c| + (if Find(c, k) < 0 then 1 else 0)
  {
  }

  lemma NothingFound<K, V>(c: seq<(K, V)>, k: K)
    ensures c == [] ==> Find(c, k) == -1
  {
  }

  lemma WithoutMissing<K, V>(c: seq<(K, V)>, k: K)
    ensures Find(c, k) < 0 ==> Without(c, k) == c
  {
  }

  lemma {:induction false} LivePrefix<K, V>(es: seq<Entry<K, V>>, n: nat)
    requires n <= |es|
    ensures |Live(es[..n])| <= |Live(es)|
  {
    LiveConcat(es[..n], es[n..]);
    assert es[..n] + es[n..] == es;
  }

  lemma Pow2Below(lg: nat)
    requires lg <= 30 && Pow2(lg) < 0x4000_0000
    ensures lg < 30 && Pow2(lg + 1) == 2 * Pow2(lg)
  {
    Pow2Of32();
    assert Pow2(31) == 2 * Pow2(30);
  }

  lemma NothingLive<K, V>()
    ensures
      var none: seq<Entry<K, V>> := [];
      Live(none) == []
  {
  }

  lemma LiveOneMore<K, V>(es: seq<Entry<K, V>>, i: nat)
    requires i < |es|
    ensures Live(es[..i + 1]) == Live(es[..i]) + LiveOne(es[i])
  {
    assert es[..i + 1][..i] == es[..i];
  }

  lemma FirstFrom<K, V>(es: seq<Entry<K, V>>, i: nat, n: nat)
    requires i < n <= |es|
    ensures Live(es[i..n]) == LiveOne(es[i]) + Live(es[i + 1..n])
  {
    hide LiveOne;
    assert es[i..n] == [es[i]] + es[i + 1..n];
    LiveConcat([es[i]], es[i + 1..n]);
    LiveSingle(es[i]);
  }

  lemma StaysInRange<K, V>(es: seq<Entry<K, V>>, chains: seq<int>, shift: nat, hash: K -> uint32)
    requires WellLinked(es, chains, shift, hash)
    ensures InRange(|chains|, shift) && KeysOk(es, hash)
  {
  }

  /** The key of the entry to be moved next has not been moved before. */
  lemma NotYetMoved<K, V>(
    was: seq<Entry<K, V>>, moved: seq<Entry<K, V>>, hash: K -> uint32, i: nat, chains: seq<int>, shift: nat
  )
    requires KeysOk(was, hash) && i < |was| && KeyOf(was[i]).Some?
    requires WellLinked(moved, chains, shift, hash) && Live(moved) == Live(was[..i])
    ensures Lacks(moved, KeyOf(was[i]).value) && was[i].hash == hash(KeyOf(was[i]).value)
  {
    hide EntriesLinked, BucketsLinked, Live, InRange;
    var k := KeyOf(was[i]).value;
    OthersLack(was, hash, i);
    LacksFindsNothing(was[..i], k);
    NotLiveLacks(moved, hash, k);
  }

  // ----- the order of the contents -----

  predicate DistinctKeys<K(==), V>(c: seq<(K, V)>) {
    forall i, j :: 0 <= i < j < |c| ==> c[i].0 != c[j].0
  }

  lemma {:induction false} FindIsFirst<K, V>(c: seq<(K, V)>, k: K)
    ensures forall i :: 0 <= i < (if Find(c, k) < 0 then |c| else Find(c, k)) ==> c[i].0 != k
  {
    if c != [] {
      FindIsFirst(c[1..], k);
      assert forall i :: 1 <= i < |c| ==> c[i] == c[1..][i - 1];
    }
  }

  lemma FindIs<K, V>(c: seq<(K, V)>, k: K, i: nat)
    requires DistinctKeys(c) && i < |c| && c[i].0 == k
    ensures Find(c, k) == i
  {
    FindIsFirst(c, k);
  }

  lemma WithoutLacks<K, V>(c: seq<(K, V)>, k: K)
    requires DistinctKeys(c)
    ensures Find(Without(c, k), k) < 0
  {
    FindIsFirst(c, k);
    var w := Without(c, k);
    forall i | 0 <= i < |w| ensures w[i].0 != k {
      assert w[i] == if Find(c, k) < 0 || i < Find(c, k) then c[i] else c[i + 1];
    }
  }

  /** Binding a key changes its value and nothing else, or adds the pair at the end. */
  lemma UpdateKeepsPosition<K, V>(c: seq<(K, V)>, k: K, v: V)
    requires DistinctKeys(c)
    ensures DistinctKeys(Put(c, k, v))
    ensures if Find(c, k) >= 0 then |Put(c, k, v)| == |c| && Find(Put(c, k, v), k) == Find(c, k)
            else Put(c, k, v) == c + [(k, v)]
    ensures forall i :: 0 <= i < |c| && c[i].0 != k ==> Put(c, k, v)[i] == c[i]
    ensures (k, v) in Put(c, k, v)
  {
    FindIsFirst(c, k);
    if Find(c, k) >= 0 {
      FindIs(Put(c, k, v), k, Find(c, k));
      assert Put(c, k, v)[Find(c, k)] == (k, v);
    } else {
      assert Put(c, k, v)[|c|] == (k, v);
    }
  }

  /** Where the pairs behind a removed one move up to. */
  function MovedUp(i: nat, removed: nat): nat {
    if i > removed then i - 1 else i
  }

  /** Removing a key takes its pair away and no other, and keeps their order. */
  lemma RemovalKeepsOthers<K, V>(c: seq<(K, V)>, k: K)
    requires DistinctKeys(c)
    ensures (forall i :: 0 <= i < |c| ==> c[i].0 != k) ==> Without(c, k) == c
    ensures forall r :: 0 <= r < |c| && c[r].0 == k ==>
              && |Without(c, k)| == |c| - 1
              && forall i :: 0 <= i < |c| && i != r ==> Without(c, k)[MovedUp(i, r)] == c[i]
  {
    FindIsFirst(c, k);
    forall r | 0 <= r < |c| && c[r].0 == k
      ensures |Without(c, k)| == |c| - 1
      ensures forall i :: 0 <= i < |c| && i != r ==> Without(c, k)[MovedUp(i, r)] == c[i]
    {
      FindIs(c, k, r);
      CutOut(c, r);
    }
  }

  lemma CutOut<T>(c: seq<T>, r: nat)
    requires r < |c|
    ensures
      var w := c[..r] + c[r + 1..];
      |w| == |c| - 1 && forall i :: 0 <= i < |c| && i != r ==> w[MovedUp(i, r)] == c[i]
  {
  }

  /** A key that is removed and bound again goes last. */
  lemma ReinsertedGoesLast<K, V>(c: seq<(K, V)>, k: K, v: V)
    requires DistinctKeys(c)
    ensures DistinctKeys(Without(c, k)) && Find(Without(c, k), k) < 0
    ensures Put(Without(c, k), k, v) == Without(c, k) + [(k, v)]
  {
    WithoutLacks(c, k);
  }

  /** The contents of a table never list a key twice. */
  lemma {:induction false} LiveKeysDistinct<K, V>(es: seq<Entry<K, V>>, hash: K -> uint32)
    requires KeysOk(es, hash)
    ensures DistinctKeys(Live(es))
  {
    if es != [] {
      var n := |es| - 1;
      LiveKeysDistinct(es[..n], hash);
      if KeyOf(es[n]).Some? {
        OthersLack(es, hash, n);
        LacksFindsNothing(es[..n], KeyOf(es[n]).value);
        FindIsFirst(Live(es[..n]), KeyOf(es[n]).value);
      }
    }
  }

  // ----- iteration -----

  class HashMapIterator<K(==), V> {
    const items: ValueTable<K, V>
    var current: int
    const modCount: uint32
    /** Number of structural changes when iteration began. */
    ghost const started: nat

    /** The pairs still to come, if the map is not changed. */
    ghost function Remaining(): seq<(K, V)>
      requires items.fullCount <= items.entries.Length
      reads this, items, items.entries
    {
      if current < 0 then [] else items.ContentsFrom(current)
    }

    ghost predicate Valid()
      reads this, items, items.chains, items.entries
    {
      items.Valid() && modCount as int == started % WORD
    }

    constructor (items: ValueTable<K, V>)
      requires items.Valid()
      ensures this.items == items && Valid() && started == items.changes && Remaining() == items.Contents()
    {
      this.items, current, modCount, started := items, 0, items.modCount, items.changes;
      new;
      assert items.entries[0..items.fullCount] == items.entries[..items.fullCount];
    }

    method HasNext() returns (more: bool)
      requires Valid()
      ensures more <==> Remaining() != []
    {
      var next, entry := items.GetNext(current);
      more := next >= 0;
    }

    /** The next pair; fails if keys have been added or removed since iteration began, whether or not a pair is left. */
    method Next() returns (pair: Option<(K, V)>)
      requires Valid() && (Remaining() != [] || (items.changes - started) % WORD != 0)
      modifies this`current
      ensures Valid()
      ensures pair.None? <==> (items.changes - started) % WORD != 0
      ensures if pair.None? then Remaining() == old(Remaining()) else old(Remaining()) == Cons(pair.value, Remaining())
    {
      hide Live, WellLinked, Cons, ValueTable.Sized, ValueTable.ContentsFrom;
      SameChanges(items.changes, started);
      if modCount != items.modCount {
        return None;
      }
      var next, entry := items.GetNext(current);
      current := next;
      pair := entry;
    }
  }

  lemma SameChanges(a: nat, b: nat)
    ensures (a - b) % WORD == 0 <==> a % WORD == b % WORD
  {
  }

  lemma ConsMoves<T>(done: seq<T>, first: T, rest: seq<T>)
    ensures done + Cons(first, rest) == done + [first] + rest
    ensures |Cons(first, rest)| == |rest| + 1
  {
  }

  lemma NothingLeft<T>(done: seq<T>, rest: seq<T>)
    ensures rest == [] ==> done + rest == done
    ensures done == [] ==> done + rest == rest
  {
  }

  /** Iterating with `hasNext` and `next` over an unchanged map yields every live pair once, in insertion order. */
  method Pairs<K(==), V>(items: ValueTable<K, V>) returns (pairs: seq<(K, V)>)
    requires items.Valid()
    ensures pairs == items.Contents()
  {
    hide Live, WellLinked, Cons, ValueTable.Sized, ValueTable.ContentsFrom, ValueTable.Contents;
    hide HashMapIterator.Remaining;
    var it := new HashMapIterator(items);
    pairs := [];
    NothingLeft(pairs, it.Remaining());
    var more := it.HasNext();
    while more
      invariant it.items == items && it.Valid() && it.started == items.changes && (more <==> it.Remaining() != [])
      invariant pairs + it.Remaining() == items.Contents()
      decreases |it.Remaining()|
    {
      var pair := it.Next();
      ConsMoves(pairs, pair.value, it.Remaining());
      pairs := pairs + [pair.value];
      more := it.HasNext();
    }
    NothingLeft(pairs, it.Remaining());
  }
}
