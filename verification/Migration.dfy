/** What a dying cache sends away, and what the survivors keep of it. */
module Migration {
  import opened Collections
  import opened Options
  import opened Wire
  import opened Recency

  type Store = Recent<string, string>

  ghost predicate CleanKeys(s: Store) {
    forall i :: 0 <= i < |s| ==> Clean(s[i].key)
  }

  /** The value `get` returns: empty when the key is missing. */
  function ValueOf(s: Store, key: string): string {
    match Lookup(s, key)
    case Some(v) => v
    case None => ""
  }

  /** A survivor takes one message in: it slices it and puts the pair. None stands
      for the exception a message without '#' causes. */
  function TakeIn(s: Store, capacity: int, message: string): Option<Store> {
    match Slice(message)
    case None => None
    case Some(parts) => Some(Put(s, capacity, parts.0, parts.1))
  }

  /** The dying cache reads every key of `order` through its own LRU list and sends
      it, as text, to the address computed for it. */
  function SendAll(dying: Store, stores: map<Addr, Store>, capacity: int, order: seq<string>, target: string -> Addr): Option<map<Addr, Store>>
    requires forall i :: 0 <= i < |order| ==> target(order[i]) in stores
    decreases |order|
  {
    if order == [] then Some(stores)
    else
      var k := order[0];
      var a := target(k);
      match TakeIn(stores[a], capacity, Sep(k, ValueOf(dying, k)))
      case None => None
      case Some(s) => SendAll(Recency.Get(dying, k), stores[a := s], capacity, order[1..], target)
  }

  /** What one survivor sees of it: a put for each key sent its way. */
  function PutsFor(dying: Store, order: seq<string>, target: string -> Addr, a: Addr): seq<Op<string, string>>
    decreases |order|
  {
    if order == [] then []
    else
      (if target(order[0]) == a then [PutOp(order[0], ValueOf(dying, order[0]))] else [])
      + PutsFor(dying, order[1..], target, a)
  }

  // ---------- the sends at one survivor are a run of its cache ----------

  lemma {:induction false} RunCons(s: Store, capacity: int, op: Op<string, string>, ops: seq<Op<string, string>>)
    ensures Recency.Run(s, capacity, [op] + ops) == Recency.Run(Apply(s, capacity, op), capacity, ops)
    decreases |ops|
  {
    hide Apply;
    if ops == [] {
      assert [op] + [] == [op] && [op][..0] == [];
    } else {
      var n := |ops| - 1;
      RunCons(s, capacity, op, ops[..n]);
      assert ([op] + ops)[..n + 1] == [op] + ops[..n];
    }
  }

  /** Reading through the LRU list does not change what is read later. */
  lemma GetKeepsValues(s: Store, k: string, q: string)
    ensures Lookup(Recency.Get(s, k), q) == Lookup(s, q)
  {
    LookupWithout(s, k, q);
  }

  lemma GetKeepsValueOf(s: Store, k: string, q: string)
    ensures ValueOf(Recency.Get(s, k), q) == ValueOf(s, q)
  {
    GetKeepsValues(s, k, q);
  }

  lemma {:induction false} PutsIgnoreReads(dying: Store, k: string, order: seq<string>, target: string -> Addr, a: Addr)
    ensures PutsFor(Recency.Get(dying, k), order, target, a) == PutsFor(dying, order, target, a)
    decreases |order|
  {
    if order == [] {
    } else {
      GetKeepsValues(dying, k, order[0]);
      PutsIgnoreReads(dying, k, order[1..], target, a);
    }
  }

  lemma {:induction false} SendAllRunsEveryStore(dying: Store, stores: map<Addr, Store>, capacity: int, order: seq<string>, target: string -> Addr, a: Addr)
    requires forall i :: 0 <= i < |order| ==> target(order[i]) in stores && Clean(order[i])
    requires a in stores
    ensures SendAll(dying, stores, capacity, order, target).Some?
    ensures a in SendAll(dying, stores, capacity, order, target).value
    ensures SendAll(dying, stores, capacity, order, target).value[a]
            == Recency.Run(stores[a], capacity, PutsFor(dying, order, target, a))
    decreases |order|
  {
    hide Clean, Sep, Put;
    if order == [] {
    } else {
      var k := order[0];
      var v, b := ValueOf(dying, k), target(k);
      SliceInvertsIff(k, v);
      var stores' := stores[b := Put(stores[b], capacity, k, v)];
      var dying' := Recency.Get(dying, k);
      assert forall i :: 0 <= i < |order[1..]| ==> order[1..][i] == order[i + 1];
      SendAllRunsEveryStore(dying', stores', capacity, order[1..], target, a);
      PutsIgnoreReads(dying, k, order[1..], target, a);
      if b == a {
        RunCons(stores[a], capacity, PutOp(k, v), PutsFor(dying, order[1..], target, a));
      } else {
        assert [] + PutsFor(dying, order[1..], target, a) == PutsFor(dying, order[1..], target, a);
      }
    }
  }

  // ---------- which sent keys stay ----------

  function KeySet(order: seq<string>): set<string> {
    set i | 0 <= i < |order| :: order[i]
  }

  /** The keys of `order` that go to one survivor. */
  function SentTo(order: seq<string>, target: string -> Addr, a: Addr): set<string> {
    set i | 0 <= i < |order| && target(order[i]) == a :: order[i]
  }

  lemma {:induction false} KeySetIsNoLarger(order: seq<string>)
    ensures |KeySet(order)| <= |order|
    decreases |order|
  {
    if order == [] {
      assert KeySet(order) == {};
    } else {
      KeySetIsNoLarger(order[1..]);
      assert KeySet(order) == {order[0]} + KeySet(order[1..]);
    }
  }

  lemma SentToCons(order: seq<string>, target: string -> Addr, a: Addr)
    requires order != []
    ensures SentTo(order, target, a) == (if target(order[0]) == a then {order[0]} else {}) + SentTo(order[1..], target, a)
  {
    assert forall i :: 0 < i < |order| ==> order[i] == order[1..][i - 1];
  }

  lemma OtherKeysCons(op: Op<string, string>, ops: seq<Op<string, string>>, k: string)
    requires op.key != k
    ensures OtherKeys([op] + ops, k) == {op.key} + OtherKeys(ops, k)
  {
    var all := [op] + ops;
    assert all[0] == op;
    assert forall i :: 0 <= i < |ops| ==> all[i + 1] == ops[i];
    assert forall i :: 0 < i < |all| ==> all[i] == ops[i - 1];
  }

  /** The puts at one survivor name exactly the keys that go to it. */
  lemma {:induction false} PutsNameSentKeys(dying: Store, order: seq<string>, target: string -> Addr, a: Addr, k: string)
    requires k !in order
    ensures PutsOthers(PutsFor(dying, order, target, a), k)
    ensures OtherKeys(PutsFor(dying, order, target, a), k) == SentTo(order, target, a)
    decreases |order|
  {
    if order == [] {
      assert SentTo(order, target, a) == {};
    } else {
      var rest := PutsFor(dying, order[1..], target, a);
      PutsNameSentKeys(dying, order[1..], target, a, k);
      SentToCons(order, target, a);
      assert order[0] in order;
      if target(order[0]) == a {
        OtherKeysCons(PutOp(order[0], ValueOf(dying, order[0])), rest, k);
      } else {
        assert [] + rest == rest;
      }
    }
  }

  lemma PutIsFirst(s: Store, capacity: int, k: string, v: string)
    requires capacity > 0
    ensures Put(s, capacity, k, v) != [] && Put(s, capacity, k, v)[0] == Entry(k, v)
  {
  }

  /** A key just sent stays, with its value, through the rest of the sends if and
      only if fewer other keys than the capacity go the same way. */
  lemma FirstKeyStaysIff(s: Store, capacity: int, dying: Store, k: string, order: seq<string>, target: string -> Addr, a: Addr)
    requires Fits(s, capacity) && k !in order
    ensures Lookup(Recency.Run(Put(s, capacity, k, ValueOf(dying, k)), capacity, PutsFor(dying, order, target, a)), k)
            == if |SentTo(order, target, a)| < capacity then Some(ValueOf(dying, k)) else None
  {
    var ops, v := PutsFor(dying, order, target, a), ValueOf(dying, k);
    var s' := Put(s, capacity, k, v);
    ApplyKeepsFits(s, capacity, PutOp(k, v));
    assert Apply(s, capacity, PutOp(k, v)) == s';
    RunKeepsFits(s', capacity, ops);
    PutsNameSentKeys(dying, order, target, a, k);
    hide Recency.Run, Put, PutsFor, OtherKeys, ValueOf;
    if capacity > 0 {
      PutIsFirst(s, capacity, k, v);
      StaysIffFewOthersArePut(s', capacity, ops);
      if |SentTo(order, target, a)| < capacity {
        JustUsedKeySurvives(s', capacity, ops);
      }
    }
  }

  /** What becomes of every key sent, in any order, to caches of any size: it is
      resident at its target at the end, with its value, if and only if fewer
      keys than that cache has room for were sent the same way after it. */
  lemma {:induction false} SentKeyStaysIff(dying: Store, stores: map<Addr, Store>, capacity: int, order: seq<string>, target: string -> Addr, i: nat)
    requires forall j :: 0 <= j < |order| ==> target(order[j]) in stores && Clean(order[j])
    requires forall a :: a in stores ==> Fits(stores[a], capacity)
    requires forall j, l :: 0 <= j < l < |order| ==> order[j] != order[l]
    requires i < |order|
    ensures SendAll(dying, stores, capacity, order, target).Some?
    ensures target(order[i]) in SendAll(dying, stores, capacity, order, target).value
    ensures Lookup(SendAll(dying, stores, capacity, order, target).value[target(order[i])], order[i])
            == if |SentTo(order[i + 1..], target, target(order[i]))| < capacity then Some(ValueOf(dying, order[i])) else None
    decreases |order|
  {
    var k, first, rest := order[i], order[0], order[1..];
    var a := target(k);
    SendAllRunsEveryStore(dying, stores, capacity, order, target, a);
    if i == 0 {
      FirstKeyStaysIff(stores[a], capacity, dying, k, rest, target, a);
      RunCons(stores[a], capacity, PutOp(k, ValueOf(dying, k)), PutsFor(dying, rest, target, a));
    } else {
      var v, b := ValueOf(dying, first), target(first);
      var stores' := stores[b := Put(stores[b], capacity, first, v)];
      ApplyKeepsFits(stores[b], capacity, PutOp(first, v));
      assert Apply(stores[b], capacity, PutOp(first, v)) == stores'[b];
      assert rest[i - 1] == k && rest[i..] == order[i + 1..];
      SentKeyStaysIff(Recency.Get(dying, first), stores', capacity, rest, target, i - 1);
      SliceInvertsIff(first, v);
      GetKeepsValueOf(dying, first, k);
    }
  }

  /** So every key sent stays when no more are sent than a cache has room for. */
  lemma SentKeysAreResident(dying: Store, stores: map<Addr, Store>, capacity: int, order: seq<string>, target: string -> Addr, k: string)
    requires forall i :: 0 <= i < |order| ==> target(order[i]) in stores && Clean(order[i])
    requires forall a :: a in stores ==> Fits(stores[a], capacity)
    requires forall i, j :: 0 <= i < j < |order| ==> order[i] != order[j]
    requires |order| <= capacity && k in order
    ensures SendAll(dying, stores, capacity, order, target).Some?
    ensures target(k) in stores && target(k) in SendAll(dying, stores, capacity, order, target).value
    ensures Lookup(SendAll(dying, stores, capacity, order, target).value[target(k)], k) == Some(ValueOf(dying, k))
  {
    var i: nat :| i < |order| && order[i] == k;
    SentKeyStaysIff(dying, stores, capacity, order, target, i);
    var later := order[i + 1..];
    assert SentTo(later, target, target(k)) <= KeySet(later);
    SubsetIsNoLarger(SentTo(later, target, target(k)), KeySet(later));
    KeySetIsNoLarger(later);
  }

  /** `order` lists the resident keys of s, each once, in any order. */
  ghost predicate Enumerates(order: seq<string>, s: Store) {
    && (forall i, j :: 0 <= i < j < |order| ==> order[i] != order[j])
    && (forall k :: k in order <==> Lookup(s, k).Some?)
  }

  lemma {:induction false} DistinctKeySet(order: seq<string>)
    requires forall i, j :: 0 <= i < j < |order| ==> order[i] != order[j]
    ensures |KeySet(order)| == |order|
    decreases |order|
  {
    if order == [] {
      assert KeySet(order) == {};
    } else {
      DistinctKeySet(order[1..]);
      assert KeySet(order) == {order[0]} + KeySet(order[1..]);
      assert order[0] !in KeySet(order[1..]);
    }
  }

  lemma EnumerationFits(order: seq<string>, s: Store, capacity: int)
    requires Enumerates(order, s) && Fits(s, capacity)
    ensures |order| <= |s| && (order != [] ==> |order| <= capacity)
  {
    forall k | k in KeySet(order)
      ensures k in KeysBefore(s, |s|)
    {
      assert k in order;
      LookupMeansHas(s, k);
    }
    SubsetIsNoLarger(KeySet(order), KeysBefore(s, |s|));
    CountKeysBefore(s, |s|);
    DistinctKeySet(order);
  }

  lemma LookupIsClean(s: Store, k: string)
    requires CleanKeys(s) && Lookup(s, k).Some?
    ensures Clean(k)
  {
    LookupMeansHas(s, k);
  }

  /** No data is lost on a shrink: with equal capacities and no client traffic,
      every key the dying cache held ends up at its target with its value. */
  lemma NothingIsLost(dying: Store, stores: map<Addr, Store>, capacity: int, order: seq<string>, target: string -> Addr, k: string)
    requires Fits(dying, capacity) && CleanKeys(dying) && Enumerates(order, dying)
    requires forall a :: a in stores ==> Fits(stores[a], capacity)
    requires forall i :: 0 <= i < |order| ==> target(order[i]) in stores
    requires Lookup(dying, k).Some?
    ensures SendAll(dying, stores, capacity, order, target).Some?
    ensures target(k) in stores && target(k) in SendAll(dying, stores, capacity, order, target).value
    ensures Lookup(SendAll(dying, stores, capacity, order, target).value[target(k)], k) == Lookup(dying, k)
  {
    EnumerationFits(order, dying, capacity);
    forall i | 0 <= i < |order|
      ensures Clean(order[i])
    {
      assert order[i] in order;
      LookupIsClean(dying, order[i]);
    }
    SentKeysAreResident(dying, stores, capacity, order, target, k);
  }
}
