/** The client's cache: a list of nodes, most recent first, and a map from keys to
    list nodes. `Erase` drops the map entry and leaves the node in the list, so
    stale nodes build up; this file says what still holds with them around. */
module ClientModel {
  import opened Collections
  import opened Options

  /** A list node. The id is its identity: what a list iterator points at. */
  datatype Node<K, V> = Node(id: nat, key: K, val: V)

  datatype State<K, V> = State(items: seq<Node<K, V>>, index: map<K, nat>, maxSize: nat, nextId: nat)

  /** The list without the node an iterator points at. */
  function Unlink<K, V>(items: seq<Node<K, V>>, id: nat): seq<Node<K, V>> {
    if items == [] then []
    else if items[0].id == id then items[1..]
    else [items[0]] + Unlink(items[1..], id)
  }

  /** The node an iterator points at. */
  function Find<K, V>(items: seq<Node<K, V>>, id: nat): Option<Node<K, V>> {
    if items == [] then None
    else if items[0].id == id then Some(items[0])
    else Find(items[1..], id)
  }

  /** No two nodes are the same node. */
  ghost predicate Unique<K, V>(items: seq<Node<K, V>>) {
    items == [] || (Find(items[1..], items[0].id).None? && Unique(items[1..]))
  }

  ghost predicate Below<K, V>(items: seq<Node<K, V>>, bound: nat) {
    forall i :: 0 <= i < |items| ==> items[i].id < bound
  }

  ghost predicate PointsAt<K, V>(items: seq<Node<K, V>>, id: nat, k: K) {
    Find(items, id).Some? && Find(items, id).value.key == k
  }

  /** Every map entry points at a list node that has its key, and no two nodes
      are the same node. */
  ghost predicate Valid<K, V>(s: State<K, V>) {
    && Unique(s.items) && Below(s.items, s.nextId)
    && (forall k :: k in s.index ==> PointsAt(s.items, s.index[k], k))
  }

  function Lookup<K(==), V>(s: State<K, V>, k: K): Option<V> {
    if k !in s.index then None
    else match Find(s.items, s.index[k])
      case Some(node) => Some(node.val)
      case None => None
  }

  // ---------- the operations ----------

  /** The list a put leaves, before any eviction. */
  function Pushed<K(==), V>(s: State<K, V>, k: K, v: V): seq<Node<K, V>> {
    [Node(s.nextId, k, v)] + if k in s.index then Unlink(s.items, s.index[k]) else s.items
  }

  /** The state a put passes through before any eviction. */
  function Push<K(==), V>(s: State<K, V>, k: K, v: V): State<K, V> {
    State(Pushed(s, k, v), s.index[k := s.nextId], s.maxSize, s.nextId + 1)
  }

  /** Evicting the last node and the map entry of its key. */
  function DropLast<K(==), V>(s: State<K, V>): State<K, V>
    requires s.items != []
  {
    var last := |s.items| - 1;
    s.(items := s.items[..last], index := s.index - {s.items[last].key})
  }

  function Put<K(==), V>(s: State<K, V>, k: K, v: V): State<K, V> {
    var pushed := Push(s, k, v);
    if |pushed.index| > s.maxSize then DropLast(pushed) else pushed
  }

  function Erase<K(==), V>(s: State<K, V>, k: K): State<K, V> {
    s.(index := s.index - {k})
  }

  /** A present key's node moves to the front; a missing key throws. */
  function Get<K(==), V>(s: State<K, V>, k: K): State<K, V> {
    if k !in s.index then s
    else match Find(s.items, s.index[k])
      case Some(node) => s.(items := [node] + Unlink(s.items, node.id))
      case None => s
  }

  datatype Op<K, V> = PutOp(key: K, val: V) | EraseOp(key: K) | GetOp(key: K)

  function Apply<K(==), V>(s: State<K, V>, op: Op<K, V>): State<K, V> {
    match op
    case PutOp(k, v) => Put(s, k, v)
    case EraseOp(k) => Erase(s, k)
    case GetOp(k) => Get(s, k)
  }

  function Run<K(==), V>(maxSize: nat, ops: seq<Op<K, V>>): State<K, V> {
    if ops == [] then State([], map[], maxSize, 0)
    else Apply(Run(maxSize, ops[..|ops| - 1]), ops[|ops| - 1])
  }

  // ---------- finding nodes ----------

  lemma {:induction false} FindBelow<K, V>(items: seq<Node<K, V>>, bound: nat, id: nat)
    requires Below(items, bound)
    ensures Find(items, id).Some? ==> id < bound && Find(items, id).value.id == id && Find(items, id).value in items
  {
    if items == [] {
    } else if items[0].id != id {
      assert forall i :: 0 <= i < |items[1..]| ==> items[1..][i] == items[i + 1];
      FindBelow(items[1..], bound, id);
    }
  }

  lemma {:induction false} FindMember<K, V>(items: seq<Node<K, V>>, i: nat)
    requires Unique(items) && i < |items|
    ensures Find(items, items[i].id) == Some(items[i])
  {
    if i == 0 {
    } else {
      FindMember(items[1..], i - 1);
    }
  }

  /** Unlinking takes out one node and leaves the others where they can be found. */
  lemma {:induction false} UnlinkFinds<K, V>(items: seq<Node<K, V>>, id: nat, q: nat)
    requires Unique(items)
    ensures Find(Unlink(items, id), q) == if q == id then None else Find(items, q)
    ensures |Unlink(items, id)| == if Find(items, id).Some? then |items| - 1 else |items|
  {
    if items == [] {
    } else if items[0].id != id {
      UnlinkFinds(items[1..], id, q);
    }
  }

  lemma {:induction false} UnlinkKeepsUnique<K, V>(items: seq<Node<K, V>>, id: nat, bound: nat)
    requires Unique(items) && Below(items, bound)
    ensures Unique(Unlink(items, id)) && Below(Unlink(items, id), bound)
  {
    if items == [] {
    } else {
      assert forall i :: 0 <= i < |items[1..]| ==> items[1..][i] == items[i + 1];
      if items[0].id != id {
        UnlinkKeepsUnique(items[1..], id, bound);
        UnlinkFinds(items[1..], id, items[0].id);
      }
    }
  }

  /** Dropping the last node takes out that node only. */
  lemma {:induction false} InitFinds<K, V>(items: seq<Node<K, V>>, q: nat)
    requires items != [] && Unique(items)
    ensures Unique(items[..|items| - 1])
    ensures Find(items[..|items| - 1], q) == if q == items[|items| - 1].id then None else Find(items, q)
  {
    if |items| == 1 {
    } else {
      var init := items[..|items| - 1];
      InitFinds(items[1..], q);
      InitFinds(items[1..], items[0].id);
      assert init[1..] == items[1..][..|items| - 2];
      FindMember(items[1..], |items| - 2);
    }
  }

  // ---------- every run stays sound ----------

  lemma PushFinds<K, V>(s: State<K, V>, k: K, v: V, id: nat)
    requires Valid(s)
    ensures Unique(Pushed(s, k, v)) && Below(Pushed(s, k, v), s.nextId + 1)
    ensures Find(Pushed(s, k, v), id) ==
            if id == s.nextId then Some(Node(s.nextId, k, v))
            else if k in s.index && id == s.index[k] then None else Find(s.items, id)
  {
    var items := Pushed(s, k, v);
    assert items[1..] == if k in s.index then Unlink(s.items, s.index[k]) else s.items;
    FindBelow(s.items, s.nextId, s.nextId);
    if k in s.index {
      UnlinkKeepsUnique(s.items, s.index[k], s.nextId);
      UnlinkFinds(s.items, s.index[k], id);
      UnlinkFinds(s.items, s.index[k], s.nextId);
    }
  }

  /** Pushing first and unlinking the old node after, as the source does, gives
      the same list. */
  lemma PushThenUnlink<K, V>(s: State<K, V>, k: K, v: V)
    requires Valid(s) && k in s.index
    ensures Unlink([Node(s.nextId, k, v)] + s.items, s.index[k]) == Pushed(s, k, v)
    ensures s.index - {k} + map[k := s.nextId] == s.index[k := s.nextId]
  {
    assert PointsAt(s.items, s.index[k], k);
    FindBelow(s.items, s.nextId, s.index[k]);
    assert ([Node(s.nextId, k, v)] + s.items)[1..] == s.items;
  }

  lemma PushIsSound<K, V>(s: State<K, V>, k: K, v: V, q: K)
    requires Valid(s)
    ensures Valid(Push(s, k, v))
    ensures Lookup(Push(s, k, v), q) == if q == k then Some(v) else Lookup(s, q)
  {
    var s' := Push(s, k, v);
    PushFinds(s, k, v, s.nextId);
    forall p | p in s'.index
      ensures PointsAt(s'.items, s'.index[p], p)
      ensures Lookup(s', p) == if p == k then Some(v) else Lookup(s, p)
    {
      if p != k {
        PushFinds(s, k, v, s.index[p]);
        FindBelow(s.items, s.nextId, s.index[p]);
        assert k in s.index ==> PointsAt(s.items, s.index[k], k);
      }
    }
  }

  lemma DropLastIsSound<K, V>(s: State<K, V>, q: K)
    requires s.items != [] && Valid(s)
    ensures Valid(DropLast(s))
    ensures q in DropLast(s).index ==> Lookup(DropLast(s), q) == Lookup(s, q)
  {
    var s', last := DropLast(s), s.items[|s.items| - 1];
    InitFinds(s.items, last.id);
    FindMember(s.items, |s.items| - 1);
    forall p | p in s'.index
      ensures PointsAt(s'.items, s'.index[p], p)
      ensures Lookup(s', p) == Lookup(s, p)
    {
      InitFinds(s.items, s.index[p]);
      assert PointsAt(s.items, s.index[p], p);
    }
  }

  /** What a put leaves behind: every other key that survives keeps its value,
      and k, if it survives, has the new one. */
  lemma PutIsSound<K, V>(s: State<K, V>, k: K, v: V, q: K)
    requires Valid(s)
    ensures Valid(Put(s, k, v))
    ensures q in Put(s, k, v).index ==>
            (q == k || q in s.index) && Lookup(Put(s, k, v), q) == if q == k then Some(v) else Lookup(s, q)
  {
    var mid := Push(s, k, v);
    PushIsSound(s, k, v, q);
    if |mid.index| > s.maxSize {
      DropLastIsSound(mid, q);
    }
  }

  lemma GetIsSound<K, V>(s: State<K, V>, k: K, q: K)
    requires Valid(s)
    ensures Valid(Get(s, k)) && Get(s, k).index == s.index
    ensures Lookup(Get(s, k), q) == Lookup(s, q)
    ensures |Get(s, k).items| == |s.items|
  {
    if k in s.index {
      assert PointsAt(s.items, s.index[k], k);
      var s', id := Get(s, k), s.index[k];
      FindBelow(s.items, s.nextId, id);
      UnlinkKeepsUnique(s.items, id, s.nextId);
      UnlinkFinds(s.items, id, id);
      assert s'.items[1..] == Unlink(s.items, id);
      forall p | p in s.index
        ensures PointsAt(s'.items, s'.index[p], p)
        ensures Lookup(s', p) == Lookup(s, p)
      {
        UnlinkFinds(s.items, id, s.index[p]);
        assert PointsAt(s.items, s.index[p], p);
      }
    }
  }

  /** What the operations say about a key: the value of its last put, unless it
      was erased since. */
  function Latest<K(==), V>(ops: seq<Op<K, V>>, k: K): Option<V> {
    if ops == [] then None
    else match ops[|ops| - 1]
      case PutOp(key, v) => if key == k then Some(v) else Latest(ops[..|ops| - 1], k)
      case EraseOp(key) => if key == k then None else Latest(ops[..|ops| - 1], k)
      case GetOp(_) => Latest(ops[..|ops| - 1], k)
  }

  /** On every run the map points at live nodes, and a present key reads as its
      latest put, stale nodes or not. */
  lemma {:induction false} EveryRunIsSound<K, V>(maxSize: nat, ops: seq<Op<K, V>>, k: K)
    ensures Valid(Run(maxSize, ops))
    ensures k in Run(maxSize, ops).index ==>
            Latest(ops, k).Some? && Lookup(Run(maxSize, ops), k) == Latest(ops, k)
    decreases |ops|
  {
    if ops == [] {
    } else {
      var n := |ops| - 1;
      EveryRunIsSound(maxSize, ops[..n], k);
      var s := Run(maxSize, ops[..n]);
      match ops[n]
      case PutOp(key, v) => PutIsSound(s, key, v, k);
      case EraseOp(key) =>
      case GetOp(key) => GetIsSound(s, key, k);
    }
  }

  // ---------- how big it gets ----------

  /** How many erases of the run found their key. */
  function Erased<K(==), V>(maxSize: nat, ops: seq<Op<K, V>>): nat {
    if ops == [] then 0
    else
      var n := |ops| - 1;
      Erased(maxSize, ops[..n])
      + if ops[n].EraseOp? && ops[n].key in Run(maxSize, ops[..n]).index then 1 else 0
  }

  lemma RemoveKeySize<K, V>(m: map<K, V>, k: K)
    ensures |m - {k}| == if k in m then |m| - 1 else |m|
  {
    if k in m {
      assert m.Keys == (m - {k}).Keys + {k};
    } else {
      assert m - {k} == m;
    }
  }

  lemma AddKeySize<K, V>(m: map<K, V>, k: K, v: V)
    ensures |m[k := v]| == if k in m then |m| else |m| + 1
  {
    assert m[k := v].Keys == m.Keys + {k};
  }

  /** Nodes minus map entries: the stale nodes. */
  function Stale<K, V>(s: State<K, V>): int {
    |s.items| - |s.index|
  }

  lemma PutSizes<K, V>(s: State<K, V>, k: K, v: V)
    requires Valid(s)
    ensures Stale(Put(s, k, v)) <= Stale(s)
    ensures |Put(s, k, v).items| <= |s.items| || |Put(s, k, v).items| <= s.maxSize + Stale(s)
  {
    AddKeySize(s.index, k, s.nextId);
    if k in s.index {
      assert PointsAt(s.items, s.index[k], k);
      UnlinkFinds(s.items, s.index[k], 0);
    }
    var items := Pushed(s, k, v);
    RemoveKeySize(s.index[k := s.nextId], items[|items| - 1].key);
  }

  lemma {:induction false} MaxSizeIsConstant<K, V>(maxSize: nat, ops: seq<Op<K, V>>)
    ensures Run(maxSize, ops).maxSize == maxSize
    decreases |ops|
  {
    if ops == [] {
    } else {
      MaxSizeIsConstant(maxSize, ops[..|ops| - 1]);
    }
  }

  /** The list, hence the map, outgrows the maximum by no more than the erases
      that found their key. */
  lemma {:induction false} SizeIsBounded<K, V>(maxSize: nat, ops: seq<Op<K, V>>)
    ensures Stale(Run(maxSize, ops)) <= Erased(maxSize, ops)
    ensures |Run(maxSize, ops).items| <= maxSize + Erased(maxSize, ops)
    decreases |ops|
  {
    if ops == [] {
    } else {
      var n := |ops| - 1;
      var s := Run(maxSize, ops[..n]);
      SizeIsBounded(maxSize, ops[..n]);
      MaxSizeIsConstant(maxSize, ops[..n]);
      EveryRunIsSound(maxSize, ops[..n], ops[n].key);
      match ops[n]
      case PutOp(k, v) => PutSizes(s, k, v);
      case EraseOp(k) => RemoveKeySize(s.index, k);
      case GetOp(k) => GetIsSound(s, k, k);
    }
  }

  function Ids<K, V>(items: seq<Node<K, V>>): set<nat> {
    if items == [] then {} else {items[0].id} + Ids(items[1..])
  }

  lemma {:induction false} FoundIdsAreIds<K, V>(items: seq<Node<K, V>>, id: nat)
    ensures Find(items, id).Some? ==> id in Ids(items)
    ensures |Ids(items)| <= |items|
  {
    if items == [] {
    } else {
      FoundIdsAreIds(items[1..], id);
    }
  }

  lemma {:induction false} CountPointers<K>(index: map<K, nat>, keys: set<K>)
    requires keys <= index.Keys
    requires forall k, q :: k in index && q in index && k != q ==> index[k] != index[q]
    ensures |set k | k in keys :: index[k]| == |keys|
    decreases |keys|
  {
    if keys == {} {
    } else {
      var q :| q in keys;
      CountPointers(index, keys - {q});
      assert (set k | k in keys :: index[k]) == (set k | k in keys - {q} :: index[k]) + {index[q]};
    }
  }

  /** Distinct keys point at distinct nodes, so the map never has more entries
      than the list has nodes. */
  lemma MapFitsList<K, V>(s: State<K, V>)
    requires Valid(s)
    ensures |s.index| <= |s.items|
    ensures forall k, q :: k in s.index && q in s.index && k != q ==> s.index[k] != s.index[q]
  {
    forall k, q | k in s.index && q in s.index && k != q
      ensures s.index[k] != s.index[q]
    {
      assert PointsAt(s.items, s.index[k], k) && PointsAt(s.items, s.index[q], q);
    }
    CountPointers(s.index, s.index.Keys);
    FoundIdsAreIds(s.items, 0);
    var pointed := set k | k in s.index.Keys :: s.index[k];
    forall id | id in pointed
      ensures id in Ids(s.items)
    {
      var k :| k in s.index && s.index[k] == id;
      assert PointsAt(s.items, id, k);
      FoundIdsAreIds(s.items, id);
    }
    SubsetIsNoLarger(pointed, Ids(s.items));
  }

  // ---------- without erases ----------

  /** No stale node: every list node is the one its key's map entry points at. */
  ghost predicate Tight<K, V>(s: State<K, V>) {
    forall id :: Find(s.items, id).Some? ==>
      Find(s.items, id).value.key in s.index && s.index[Find(s.items, id).value.key] == id
  }

  lemma PushKeepsTight<K, V>(s: State<K, V>, k: K, v: V)
    requires Valid(s) && Tight(s)
    ensures Tight(Push(s, k, v))
  {
    var mid := Push(s, k, v);
    forall id | Find(mid.items, id).Some?
      ensures Find(mid.items, id).value.key in mid.index && mid.index[Find(mid.items, id).value.key] == id
    {
      PushFinds(s, k, v, id);
    }
  }

  lemma DropLastKeepsTight<K, V>(s: State<K, V>)
    requires s.items != [] && Valid(s) && Tight(s)
    ensures Tight(DropLast(s))
  {
    var s', last := DropLast(s), s.items[|s.items| - 1];
    FindMember(s.items, |s.items| - 1);
    forall id | Find(s'.items, id).Some?
      ensures Find(s'.items, id).value.key in s'.index && s'.index[Find(s'.items, id).value.key] == id
    {
      InitFinds(s.items, id);
    }
  }

  lemma PutKeepsTight<K, V>(s: State<K, V>, k: K, v: V)
    requires Valid(s) && Tight(s)
    ensures Tight(Put(s, k, v))
  {
    var mid := Push(s, k, v);
    PushIsSound(s, k, v, k);
    PushKeepsTight(s, k, v);
    if |mid.index| > s.maxSize {
      DropLastKeepsTight(mid);
    }
  }

  lemma GetKeepsTight<K, V>(s: State<K, V>, k: K)
    requires Valid(s) && Tight(s)
    ensures Tight(Get(s, k))
  {
    if k in s.index {
      assert PointsAt(s.items, s.index[k], k);
      var s', id := Get(s, k), s.index[k];
      FindBelow(s.items, s.nextId, id);
      assert s'.items[1..] == Unlink(s.items, id);
      forall q | Find(s'.items, q).Some?
        ensures Find(s'.items, q).value.key in s'.index && s'.index[Find(s'.items, q).value.key] == q
      {
        UnlinkFinds(s.items, id, q);
      }
    }
  }

  lemma TightHasSameKeys<K, V>(s: State<K, V>, k: K)
    requires Valid(s) && Tight(s)
    ensures k in s.index <==> exists node :: node in s.items && node.key == k
  {
    if k in s.index {
      assert PointsAt(s.items, s.index[k], k);
      FindBelow(s.items, s.nextId, s.index[k]);
    }
    if i: nat :| i < |s.items| && s.items[i].key == k {
      FindMember(s.items, i);
    }
  }

  /** Without erases, map and list hold the same keys and stay within the maximum. */
  lemma {:induction false} WithoutErasesItIsExact<K, V>(maxSize: nat, ops: seq<Op<K, V>>, k: K)
    requires forall i :: 0 <= i < |ops| ==> !ops[i].EraseOp?
    ensures Tight(Run(maxSize, ops)) && Erased(maxSize, ops) == 0
    ensures k in Run(maxSize, ops).index <==> exists node :: node in Run(maxSize, ops).items && node.key == k
    ensures |Run(maxSize, ops).index| == |Run(maxSize, ops).items| <= maxSize
    decreases |ops|
  {
    var s' := Run(maxSize, ops);
    if ops == [] {
    } else {
      var n := |ops| - 1;
      var s := Run(maxSize, ops[..n]);
      WithoutErasesItIsExact(maxSize, ops[..n], k);
      EveryRunIsSound(maxSize, ops[..n], k);
      match ops[n]
      case PutOp(key, v) => PutKeepsTight(s, key, v);
      case GetOp(key) => GetKeepsTight(s, key);
    }
    SizeIsBounded(maxSize, ops);
    EveryRunIsSound(maxSize, ops, k);
    MapFitsList(s');
    TightHasSameKeys(s', k);
  }

  // ---------- a put that throws itself out ----------

  /** The put overflows the map and the last node of the list, besides the one
      it replaces, is a leftover of the same key. */
  predicate PutThrowsItselfOut<K(==), V>(s: State<K, V>, k: K) {
    var others := if k in s.index then Unlink(s.items, s.index[k]) else s.items;
    |s.index.Keys + {k}| > s.maxSize && (others == [] || others[|others| - 1].key == k)
  }

  /** A key just put is present exactly when that did not happen. */
  lemma PutIsVisibleIff<K, V>(s: State<K, V>, k: K, v: V)
    ensures k in Put(s, k, v).index <==> !PutThrowsItselfOut(s, k)
  {
    assert s.index[k := s.nextId].Keys == s.index.Keys + {k};
  }

  /** It does happen: with room for one entry, put a, erase a, put b, put a
      leaves a absent. */
  lemma PutCanBeLost(a: int, b: int)
    requires a != b
    ensures a !in Put(Put(Erase(Put(State([], map[], 1, 0), a, 0), a), b, 1), a, 2).index
  {
  }

  /** Without erases and with room for at least one entry, a put is always visible. */
  lemma WithoutErasesPutIsVisible<K, V>(maxSize: nat, ops: seq<Op<K, V>>, k: K, v: V)
    requires maxSize > 0 && forall i :: 0 <= i < |ops| ==> !ops[i].EraseOp?
    ensures k in Put(Run(maxSize, ops), k, v).index
  {
    var s := Run(maxSize, ops);
    WithoutErasesItIsExact(maxSize, ops, k);
    EveryRunIsSound(maxSize, ops, k);
    MaxSizeIsConstant(maxSize, ops);
    PutIsVisibleIff(s, k, v);
    if k in s.index {
      assert s.index.Keys + {k} == s.index.Keys;
    } else if s.items != [] {
      assert s.items[|s.items| - 1] in s.items;
    } else {
      assert s.index.Keys == {};
    }
  }

  // ---------- the order is the order of last use ----------

  /** The last operation that names k, or -1. */
  function LastUse<K(==), V>(ops: seq<Op<K, V>>, k: K): int {
    if ops == [] then -1
    else if ops[|ops| - 1].key == k then |ops| - 1
    else LastUse(ops[..|ops| - 1], k)
  }

  lemma {:induction false} LastUseIsBelow<K, V>(ops: seq<Op<K, V>>, k: K)
    ensures -1 <= LastUse(ops, k) < |ops|
    decreases |ops|
  {
    if ops == [] {
    } else {
      LastUseIsBelow(ops[..|ops| - 1], k);
    }
  }

  /** The node its key's map entry points at: not a leftover. */
  predicate IsLive<K(==), V>(s: State<K, V>, i: nat)
    requires i < |s.items|
  {
    s.items[i].key in s.index && s.index[s.items[i].key] == s.items[i].id
  }

  /** Among the nodes that are not leftovers, each was used later than the ones
      behind it. */
  ghost predicate ByLastUse<K, V>(s: State<K, V>, ops: seq<Op<K, V>>) {
    forall i, j :: 0 <= i < j < |s.items| && IsLive(s, i) && IsLive(s, j) ==>
      LastUse(ops, s.items[i].key) > LastUse(ops, s.items[j].key)
  }

  lemma {:induction false} UnlinkOneAt<K, V>(items: seq<Node<K, V>>, id: nat, j: nat) returns (j': nat)
    requires j < |Unlink(items, id)|
    ensures j' < |items| && items[j'] == Unlink(items, id)[j]
  {
    if items[0].id == id {
      j' := j + 1;
    } else if j == 0 {
      j' := 0;
    } else {
      j' := UnlinkOneAt(items[1..], id, j - 1);
      j' := j' + 1;
    }
  }

  /** Where a node was before another one was unlinked. */
  lemma {:induction false} UnlinkAt<K, V>(items: seq<Node<K, V>>, id: nat, i: nat, j: nat) returns (i': nat, j': nat)
    requires i < j < |Unlink(items, id)|
    ensures i' < j' < |items| && items[i'] == Unlink(items, id)[i] && items[j'] == Unlink(items, id)[j]
  {
    if items[0].id == id {
      i', j' := i + 1, j + 1;
    } else if i == 0 {
      j' := UnlinkOneAt(items[1..], id, j - 1);
      i', j' := 0, j' + 1;
    } else {
      i', j' := UnlinkAt(items[1..], id, i - 1, j - 1);
      i', j' := i' + 1, j' + 1;
    }
  }

  /** A node behind the one just pushed is an old one, and live only if it was
      live before and is of another key. */
  lemma OldNodeBehind<K, V>(s: State<K, V>, k: K, v: V, m: nat)
    requires Valid(s) && 0 < m < |Pushed(s, k, v)|
    ensures IsLive(Push(s, k, v), m) ==>
            var node := Pushed(s, k, v)[m];
            node.key != k && node.key in s.index && s.index[node.key] == node.id
  {
    var rest := if k in s.index then Unlink(s.items, s.index[k]) else s.items;
    if k in s.index {
      UnlinkKeepsUnique(s.items, s.index[k], s.nextId);
    }
    assert Below(rest, s.nextId);
    assert Pushed(s, k, v)[m] == rest[m - 1];
    hide Unlink, Unique;
  }

  /** Behind the node just pushed, the nodes are in the order they were in. */
  lemma BehindNewNode<K, V>(s: State<K, V>, k: K, v: V, i: nat, j: nat) returns (i': nat, j': nat)
    requires 0 < i < j < |Pushed(s, k, v)|
    ensures i' < j' < |s.items| && Pushed(s, k, v)[i] == s.items[i'] && Pushed(s, k, v)[j] == s.items[j']
  {
    if k in s.index {
      i', j' := UnlinkAt(s.items, s.index[k], i - 1, j - 1);
    } else {
      i', j' := i - 1, j - 1;
    }
  }

  lemma PushIsByLastUse<K, V>(s: State<K, V>, ops: seq<Op<K, V>>, k: K, v: V)
    requires Valid(s) && ByLastUse(s, ops)
    ensures ByLastUse(Push(s, k, v), ops + [PutOp(k, v)])
  {
    var s', ops' := Push(s, k, v), ops + [PutOp(k, v)];
    assert ops'[..|ops|] == ops;
    forall i, j | 0 <= i < j < |s'.items| && IsLive(s', i) && IsLive(s', j)
      ensures LastUse(ops', s'.items[i].key) > LastUse(ops', s'.items[j].key)
    {
      LastUseIsBelow(ops, s'.items[j].key);
      OldNodeBehind(s, k, v, j);
      if i > 0 {
        OldNodeBehind(s, k, v, i);
        var i', j' := BehindNewNode(s, k, v, i, j);
        assert IsLive(s, i') && IsLive(s, j');
      }
    }
  }

  lemma BehindUsedNode<K, V>(s: State<K, V>, k: K, i: nat, j: nat) returns (i': nat, j': nat)
    requires Valid(s) && k in s.index && i < j < |Get(s, k).items|
    ensures var s' := Get(s, k);
            && (IsLive(s', j) ==> s'.items[j].key != k)
            && (i == 0 ==> s'.items[i].key == k)
            && (i > 0 ==> i' < j' < |s.items| && s'.items[i] == s.items[i'] && s'.items[j] == s.items[j'])
            && (i > 0 && IsLive(s', i) ==> s'.items[i].key != k && IsLive(s, i'))
            && (i > 0 && IsLive(s', j) ==> IsLive(s, j'))
  {
    i', j' := 0, 0;
    assert PointsAt(s.items, s.index[k], k);
    var id := s.index[k];
    FindBelow(s.items, s.nextId, id);
    UnlinkKeepsUnique(s.items, id, s.nextId);
    var rest := Unlink(s.items, id);
    assert Get(s, k).items == [Find(s.items, id).value] + rest;
    UnlinkFinds(s.items, id, id);
    FindMember(rest, j - 1);
    if i > 0 {
      FindMember(rest, i - 1);
      i', j' := UnlinkAt(s.items, id, i - 1, j - 1);
    }
  }

  lemma GetIsByLastUse<K, V>(s: State<K, V>, ops: seq<Op<K, V>>, k: K)
    requires Valid(s) && ByLastUse(s, ops)
    ensures ByLastUse(Get(s, k), ops + [GetOp(k)])
  {
    var s', ops' := Get(s, k), ops + [GetOp(k)];
    assert ops'[..|ops|] == ops;
    forall i, j | 0 <= i < j < |s'.items| && IsLive(s', i) && IsLive(s', j)
      ensures LastUse(ops', s'.items[i].key) > LastUse(ops', s'.items[j].key)
    {
      LastUseIsBelow(ops, s'.items[j].key);
      if k in s.index {
        var i', j' := BehindUsedNode(s, k, i, j);
      }
    }
  }

  lemma DropLastIsByLastUse<K, V>(s: State<K, V>, ops: seq<Op<K, V>>)
    requires s.items != [] && ByLastUse(s, ops)
    ensures ByLastUse(DropLast(s), ops)
  {
    var s' := DropLast(s);
    forall i, j | 0 <= i < j < |s'.items| && IsLive(s', i) && IsLive(s', j)
      ensures LastUse(ops, s'.items[i].key) > LastUse(ops, s'.items[j].key)
    {
      assert IsLive(s, i) && IsLive(s, j);
    }
  }

  lemma EraseIsByLastUse<K, V>(s: State<K, V>, ops: seq<Op<K, V>>, k: K)
    requires ByLastUse(s, ops)
    ensures ByLastUse(Erase(s, k), ops + [EraseOp(k)])
  {
    var s', ops' := Erase(s, k), ops + [EraseOp(k)];
    assert ops'[..|ops|] == ops;
    forall i, j | 0 <= i < j < |s'.items| && IsLive(s', i) && IsLive(s', j)
      ensures LastUse(ops', s'.items[i].key) > LastUse(ops', s'.items[j].key)
    {
      assert IsLive(s, i) && IsLive(s, j);
    }
  }

  lemma PutIsByLastUse<K, V>(s: State<K, V>, ops: seq<Op<K, V>>, k: K, v: V)
    requires Valid(s) && ByLastUse(s, ops)
    ensures ByLastUse(Put(s, k, v), ops + [PutOp(k, v)])
  {
    PushIsByLastUse(s, ops, k, v);
    hide ByLastUse, Valid;
    if |Push(s, k, v).index| > s.maxSize {
      DropLastIsByLastUse(Push(s, k, v), ops + [PutOp(k, v)]);
    }
  }

  lemma RunIsValid<K, V>(maxSize: nat, ops: seq<Op<K, V>>, k: K)
    ensures Valid(Run(maxSize, ops))
  {
    hide *;
    EveryRunIsSound(maxSize, ops, k);
  }

  lemma ApplyIsByLastUse<K, V>(s: State<K, V>, ops: seq<Op<K, V>>, op: Op<K, V>)
    requires Valid(s) && ByLastUse(s, ops)
    ensures ByLastUse(Apply(s, op), ops + [op])
  {
    hide ByLastUse, Valid, Put, Get, Erase;
    match op
    case PutOp(k, v) => PutIsByLastUse(s, ops, k, v);
    case EraseOp(k) => EraseIsByLastUse(s, ops, k);
    case GetOp(k) => GetIsByLastUse(s, ops, k);
  }

  lemma LastIsByLastUse<K, V>(s: State<K, V>, ops: seq<Op<K, V>>)
    requires ops != [] && Valid(s) && ByLastUse(s, ops[..|ops| - 1])
    ensures ByLastUse(Apply(s, ops[|ops| - 1]), ops)
  {
    hide *;
    ApplyIsByLastUse(s, ops[..|ops| - 1], ops[|ops| - 1]);
    assert ops[..|ops| - 1] + [ops[|ops| - 1]] == ops;
  }

  /** On every run, leftovers aside, the list is in the order of last use: a put or
      a get of a present key moves it to the front and leaves the others as they
      were. */
  lemma {:induction false} EveryRunIsByLastUse<K, V>(maxSize: nat, ops: seq<Op<K, V>>)
    ensures ByLastUse(Run(maxSize, ops), ops)
    decreases |ops|
  {
    if ops == [] {
    } else {
      var before, op := ops[..|ops| - 1], ops[|ops| - 1];
      hide Valid, Apply, ByLastUse, LastUse;
      EveryRunIsByLastUse(maxSize, before);
      RunIsValid(maxSize, before, op.key);
      LastIsByLastUse(Run(maxSize, before), ops);
      assert Run(maxSize, ops) == Apply(Run(maxSize, before), op);
    }
  }

  /** A key that is there has a node that is not a leftover. */
  lemma LiveNodeOf<K, V>(s: State<K, V>, k: K) returns (i: nat)
    requires Valid(s) && k in s.index
    ensures i < |s.items| && s.items[i].key == k && IsLive(s, i)
  {
    assert PointsAt(s.items, s.index[k], k);
    FindBelow(s.items, s.nextId, s.index[k]);
    i :| 0 <= i < |s.items| && s.items[i] == Find(s.items, s.index[k]).value;
  }

  lemma LastIsLive<K, V>(s: State<K, V>)
    requires Valid(s) && Tight(s) && s.items != []
    ensures IsLive(s, |s.items| - 1)
  {
    FindMember(s.items, |s.items| - 1);
  }

  lemma LastUseSnoc<K, V>(ops: seq<Op<K, V>>, op: Op<K, V>, k: K)
    requires op.key != k
    ensures LastUse(ops + [op], k) == LastUse(ops, k)
  {
    assert (ops + [op])[..|ops|] == ops;
  }

  /** When a put throws a key out, that key had the last node of the list. */
  lemma GoneWasLast<K, V>(s: State<K, V>, k: K, v: V, gone: K)
    requires gone in s.index && gone != k && gone !in Put(s, k, v).index
    ensures var items := Push(s, k, v).items; items != [] && items[|items| - 1].key == gone
  {
  }

  lemma OverflowDropsTheOldest<K, V>(s: State<K, V>, ops: seq<Op<K, V>>, k: K, v: V, gone: K, q: K)
    requires Valid(s) && Tight(s) && ByLastUse(s, ops)
    requires gone in s.index && gone != k && gone !in Put(s, k, v).index && q in s.index && q != k && q != gone
    ensures LastUse(ops, gone) < LastUse(ops, q)
  {
    var pushed, ops' := Push(s, k, v), ops + [PutOp(k, v)];
    var last := |pushed.items| - 1;
    GoneWasLast(s, k, v, gone);
    PushKeepsTight(s, k, v);
    PushIsSound(s, k, v, gone);
    PushIsByLastUse(s, ops, k, v);
    LastUseSnoc(ops, PutOp(k, v), gone);
    LastUseSnoc(ops, PutOp(k, v), q);
    assert q in pushed.index;
    hide Valid, Tight, Push, Put, IsLive, LastUse;
    LastIsLive(pushed);
    var i := LiveNodeOf(pushed, q);
    assert LastUse(ops', q) > LastUse(ops', gone);
  }

  /** Without erases, the key a put throws out is, of the keys that were there, the
      one whose last use is longest ago. */
  lemma WithoutErasesTheOldestGoes<K, V>(maxSize: nat, ops: seq<Op<K, V>>, k: K, v: V, gone: K, q: K)
    requires forall i :: 0 <= i < |ops| ==> !ops[i].EraseOp?
    requires var s := Run(maxSize, ops);
             gone in s.index && gone != k && gone !in Put(s, k, v).index && q in s.index && q != k && q != gone
    ensures LastUse(ops, gone) < LastUse(ops, q)
  {
    WithoutErasesItIsExact(maxSize, ops, gone);
    EveryRunIsByLastUse(maxSize, ops);
    EveryRunIsSound(maxSize, ops, gone);
    hide Valid, Tight, Put, Run, LastUse, ByLastUse;
    OverflowDropsTheOldest(Run(maxSize, ops), ops, k, v, gone, q);
  }
}
