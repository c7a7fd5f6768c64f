/** What a least-recently-used cache is: its entries in order of last use, most
    recent first. The pointer structure of `ServerCache` is proved against the
    two operations defined here. */
module Recency {
  import opened Collections
  import opened Options

  datatype Entry<K, V> = Entry(key: K, val: V)

  /** Most recently used first. */
  type Recent<K, V> = seq<Entry<K, V>>

  predicate Has<K(==), V>(s: Recent<K, V>, k: K) {
    exists i :: 0 <= i < |s| && s[i].key == k
  }

  ghost predicate Distinct<K, V>(s: Recent<K, V>) {
    forall i, j :: 0 <= i < j < |s| ==> s[i].key != s[j].key
  }

  /** The entries whose key is not k. */
  function Without<K(==), V>(s: Recent<K, V>, k: K): Recent<K, V> {
    if s == [] then []
    else if s[0].key == k then Without(s[1..], k)
    else [s[0]] + Without(s[1..], k)
  }

  function Lookup<K(==), V>(s: Recent<K, V>, k: K): Option<V> {
    if s == [] then None
    else if s[0].key == k then Some(s[0].val)
    else Lookup(s[1..], k)
  }

  // ---------- the two operations ----------

  /** A hit moves the entry to the front; a miss changes nothing. */
  function Get<K(==), V>(s: Recent<K, V>, k: K): Recent<K, V> {
    match Lookup(s, k)
    case Some(v) => [Entry(k, v)] + Without(s, k)
    case None => s
  }

  /** Drops the last entry when there are more than `capacity`. */
  function Trim<K, V>(s: Recent<K, V>, capacity: int): Recent<K, V> {
    if s != [] && |s| > capacity then s[..|s| - 1] else s
  }

  function Put<K(==), V>(s: Recent<K, V>, capacity: int, k: K, v: V): Recent<K, V> {
    if Lookup(s, k).Some? then [Entry(k, v)] + Without(s, k)
    else Trim([Entry(k, v)] + s, capacity)
  }

  /** The key a put throws out. */
  function Evicted<K(==), V>(s: Recent<K, V>, capacity: int, k: K): Option<K> {
    if Lookup(s, k).Some? || |s| + 1 <= capacity then None
    else if s == [] then Some(k)
    else Some(s[|s| - 1].key)
  }

  datatype Op<K, V> = GetOp(key: K) | PutOp(key: K, val: V)

  function Apply<K(==), V>(s: Recent<K, V>, capacity: int, op: Op<K, V>): Recent<K, V> {
    match op
    case GetOp(k) => Get(s, k)
    case PutOp(k, v) => Put(s, capacity, k, v)
  }

  function Run<K(==), V>(s: Recent<K, V>, capacity: int, ops: seq<Op<K, V>>): Recent<K, V> {
    if ops == [] then s
    else Apply(Run(s, capacity, ops[..|ops| - 1]), capacity, ops[|ops| - 1])
  }

  /** Room for entries: a negative capacity is no better than zero. */
  function Room(capacity: int): nat {
    if capacity < 0 then 0 else capacity
  }

  /** The invariant of a cache of the given capacity. */
  ghost predicate Fits<K, V>(s: Recent<K, V>, capacity: int) {
    Distinct(s) && |s| <= Room(capacity)
  }

  // ---------- basic facts ----------

  lemma {:induction false} LookupMeansHas<K, V>(s: Recent<K, V>, k: K)
    ensures Lookup(s, k).Some? <==> Has(s, k)
  {
    if s == [] {
    } else if s[0].key != k {
      LookupMeansHas(s[1..], k);
      assert forall i :: 1 <= i < |s| ==> s[i] == s[1..][i - 1];
      if Has(s[1..], k) {
        var i :| 0 <= i < |s[1..]| && s[1..][i].key == k;
        assert s[i + 1].key == k;
      }
    }
  }

  lemma {:induction false} LookupAt<K, V>(s: Recent<K, V>, i: nat)
    requires i < |s| && Distinct(s)
    ensures Lookup(s, s[i].key) == Some(s[i].val)
  {
    if i == 0 {
    } else {
      LookupAt(s[1..], i - 1);
    }
  }

  lemma {:induction false} WithoutAbsent<K, V>(s: Recent<K, V>, k: K)
    requires Lookup(s, k).None?
    ensures Without(s, k) == s
  {
    if s == [] {
    } else {
      WithoutAbsent(s[1..], k);
    }
  }

  lemma {:induction false} WithoutAt<K, V>(s: Recent<K, V>, i: nat)
    requires i < |s| && Distinct(s)
    ensures Without(s, s[i].key) == s[..i] + s[i + 1..]
  {
    if i == 0 {
      LookupMeansHas(s[1..], s[0].key);
      WithoutAbsent(s[1..], s[0].key);
    } else {
      WithoutAt(s[1..], i - 1);
      assert s[..i] + s[i + 1..] == [s[0]] + (s[1..][..i - 1] + s[1..][i..]);
    }
  }

  /** Where a key sits, for distinct keys. */
  lemma IndexOf<K, V>(s: Recent<K, V>, k: K) returns (i: nat)
    requires Distinct(s) && Lookup(s, k).Some?
    ensures i < |s| && s[i] == Entry(k, Lookup(s, k).value)
    ensures Without(s, k) == s[..i] + s[i + 1..]
  {
    LookupMeansHas(s, k);
    i :| 0 <= i < |s| && s[i].key == k;
    LookupAt(s, i);
    WithoutAt(s, i);
  }

  /** Where every entry goes when the one at i moves to the front. */
  lemma MovedToFront<K, V>(s: Recent<K, V>, i: nat, e: Entry<K, V>, m: nat)
    requires i < |s| && m < |s|
    ensures |[e] + (s[..i] + s[i + 1..])| == |s|
    ensures ([e] + (s[..i] + s[i + 1..]))[m] == if m == 0 then e else if m <= i then s[m - 1] else s[m]
  {
  }

  lemma MoveKeepsDistinct<K, V>(s: Recent<K, V>, i: nat, v: V)
    requires i < |s| && Distinct(s)
    ensures Distinct([Entry(s[i].key, v)] + (s[..i] + s[i + 1..]))
  {
    var e := Entry(s[i].key, v);
    var t := [e] + (s[..i] + s[i + 1..]);
    forall a, b | 0 <= a < b < |t|
      ensures t[a].key != t[b].key
    {
      MovedToFront(s, i, e, a);
      MovedToFront(s, i, e, b);
    }
  }

  /** Every operation keeps keys distinct and the size within capacity. */
  lemma ApplyKeepsFits<K, V>(s: Recent<K, V>, capacity: int, op: Op<K, V>)
    requires Fits(s, capacity)
    ensures Fits(Apply(s, capacity, op), capacity)
  {
    if Lookup(s, op.key).Some? {
      var i := IndexOf(s, op.key);
      MoveKeepsDistinct(s, i, Apply(s, capacity, op)[0].val);
    } else {
      LookupMeansHas(s, op.key);
    }
  }

  lemma {:induction false} RunKeepsFits<K, V>(s: Recent<K, V>, capacity: int, ops: seq<Op<K, V>>)
    requires Fits(s, capacity)
    ensures Fits(Run(s, capacity, ops), capacity)
  {
    if ops == [] {
    } else {
      RunKeepsFits(s, capacity, ops[..|ops| - 1]);
      ApplyKeepsFits(Run(s, capacity, ops[..|ops| - 1]), capacity, ops[|ops| - 1]);
    }
  }

  lemma {:induction false} LookupWithout<K, V>(s: Recent<K, V>, k: K, q: K)
    ensures Lookup(Without(s, k), q) == if q == k then None else Lookup(s, q)
  {
    if s == [] {
    } else {
      LookupWithout(s[1..], k, q);
    }
  }

  lemma {:induction false} LookupInit<K, V>(s: Recent<K, V>, q: K)
    requires s != [] && Distinct(s)
    ensures Lookup(s[..|s| - 1], q) == if q == s[|s| - 1].key then None else Lookup(s, q)
  {
    if |s| == 1 {
    } else {
      LookupInit(s[1..], q);
      assert s[..|s| - 1][1..] == s[1..][..|s| - 2];
    }
  }

  /** Exactly the keys that were there, plus k, minus the evicted one. */
  lemma PutContents<K, V>(s: Recent<K, V>, capacity: int, k: K, v: V, q: K)
    requires Fits(s, capacity)
    ensures Lookup(Put(s, capacity, k, v), q) ==
            if Evicted(s, capacity, k) == Some(q) then None
            else if q == k then Some(v) else Lookup(s, q)
  {
    LookupMeansHas(s, k);
    if Lookup(s, k).Some? {
      LookupWithout(s, k, q);
    } else if |s| + 1 > capacity && s != [] {
      LookupInit(s, q);
      var e := Entry(k, v);
      assert ([e] + s)[..|s|] == [e] + s[..|s| - 1];
    }
  }

  // ---------- inclusion: a larger cache never loses a hit ----------

  /** a is b with some entries left out. */
  ghost predicate Subsequence<T>(a: seq<T>, b: seq<T>) {
    || a == []
    || (b != [] && a[0] == b[0] && Subsequence(a[1..], b[1..]))
    || (b != [] && Subsequence(a, b[1..]))
  }

  lemma {:induction false} SubsequenceOfSelf<T>(a: seq<T>)
    ensures Subsequence(a, a)
  {
    if a == [] {
    } else {
      SubsequenceOfSelf(a[1..]);
    }
  }

  lemma SubsequenceCons<T>(e: T, a: seq<T>, b: seq<T>)
    requires Subsequence(a, b)
    ensures Subsequence([e] + a, [e] + b)
  {
    assert ([e] + a)[1..] == a && ([e] + b)[1..] == b;
  }

  lemma SubsequenceSkip<T>(e: T, a: seq<T>, b: seq<T>)
    requires Subsequence(a, b)
    ensures Subsequence(a, [e] + b)
  {
    assert ([e] + b)[1..] == b;
  }

  lemma {:induction false} SubsequenceWithout<K, V>(a: Recent<K, V>, b: Recent<K, V>, k: K)
    requires Subsequence(a, b)
    ensures Subsequence(Without(a, k), Without(b, k))
    decreases |b|
  {
    if a == [] {
    } else {
      var b' := Without(b[1..], k);
      if a[0] == b[0] && Subsequence(a[1..], b[1..]) {
        SubsequenceWithout(a[1..], b[1..], k);
        if a[0].key != k {
          SubsequenceCons(a[0], Without(a[1..], k), b');
        }
      } else {
        SubsequenceWithout(a, b[1..], k);
        SubsequenceSkip(b[0], Without(a, k), b');
      }
    }
  }

  lemma {:induction false} SubsequenceLonger<T>(a: seq<T>, b: seq<T>)
    requires b != [] && Subsequence(a, b[..|b| - 1])
    ensures Subsequence(a, b)
    decreases |b|
  {
    if a == [] {
    } else {
      var b' := b[..|b| - 1];
      assert b'[1..] == b[1..][..|b| - 2];
      if a[0] == b'[0] && Subsequence(a[1..], b'[1..]) {
        SubsequenceLonger(a[1..], b[1..]);
      } else {
        SubsequenceLonger(a, b[1..]);
      }
    }
  }

  lemma {:induction false} SubsequenceInit<T>(a: seq<T>, b: seq<T>)
    requires a != [] && Subsequence(a, b)
    ensures b != [] && Subsequence(a[..|a| - 1], b[..|b| - 1])
    decreases |b|
  {
    var a', b' := a[..|a| - 1], b[..|b| - 1];
    if |a| == 1 {
    } else {
      if a[0] == b[0] && Subsequence(a[1..], b[1..]) {
        SubsequenceInit(a[1..], b[1..]);
        assert a'[1..] == a[1..][..|a| - 2] && b'[1..] == b[1..][..|b| - 2];
      } else {
        SubsequenceInit(a, b[1..]);
        assert b'[1..] == b[1..][..|b| - 2];
      }
    }
  }

  lemma {:induction false} SubsequenceLookup<K, V>(a: Recent<K, V>, b: Recent<K, V>, k: K)
    requires Subsequence(a, b) && Distinct(b) && Lookup(a, k).Some?
    ensures Lookup(b, k) == Lookup(a, k)
    decreases |b|
  {
    if a[0] == b[0] && Subsequence(a[1..], b[1..]) {
      if a[0].key != k {
        SubsequenceLookup(a[1..], b[1..], k);
      }
    } else {
      SubsequenceLookup(a, b[1..], k);
      LookupMeansHas(b[1..], k);
      var i :| 0 <= i < |b[1..]| && b[1..][i].key == k;
      assert b[i + 1].key == k;
    }
  }

  /** What ties a cache of capacity c to one of capacity d >= c: the smaller
      holds a subsequence, and until it is full they are equal. */
  ghost predicate Included<K, V>(small: Recent<K, V>, c: int, large: Recent<K, V>, d: int) {
    && Fits(small, c) && Fits(large, d)
    && Subsequence(small, large)
    && (|small| < Room(c) ==> small == large)
  }

  lemma WithoutOrSame<K, V>(s: Recent<K, V>, k: K)
    ensures Lookup(s, k).None? ==> Without(s, k) == s
  {
    if Lookup(s, k).None? {
      WithoutAbsent(s, k);
    }
  }

  lemma PutMissKeepsIncluded<K, V>(small: Recent<K, V>, c: int, large: Recent<K, V>, d: int, k: K, v: V)
    requires c <= d && Included(small, c, large, d)
    requires Lookup(small, k).None? && Subsequence(small, Without(large, k))
    ensures Subsequence(Put(small, c, k, v), Put(large, d, k, v))
    ensures |Put(small, c, k, v)| < Room(c) ==> Put(small, c, k, v) == Put(large, d, k, v)
  {
    var e := Entry(k, v);
    if |small| < Room(c) {
      assert Put(small, c, k, v) == [e] + small == Put(large, d, k, v);
      SubsequenceOfSelf([e] + small);
    } else {
      WithoutOrSame(large, k);
      var wide := [e] + Without(large, k);
      SubsequenceCons(e, small, Without(large, k));
      SubsequenceInit([e] + small, wide);
      if Put(large, d, k, v) == wide {
        SubsequenceLonger(Put(small, c, k, v), wide);
      }
    }
  }

  lemma ApplyKeepsIncluded<K, V>(small: Recent<K, V>, c: int, large: Recent<K, V>, d: int, op: Op<K, V>)
    requires c <= d && Included(small, c, large, d)
    ensures Included(Apply(small, c, op), c, Apply(large, d, op), d)
  {
    ApplyKeepsFits(small, c, op);
    ApplyKeepsFits(large, d, op);
    var k := op.key;
    SubsequenceWithout(small, large, k);
    if Lookup(small, k).Some? {
      SubsequenceLookup(small, large, k);
      var i := IndexOf(small, k);
      var e := Apply(small, c, op)[0];
      SubsequenceCons(e, Without(small, k), Without(large, k));
    } else {
      WithoutAbsent(small, k);
      if op.PutOp? {
        PutMissKeepsIncluded(small, c, large, d, k, op.val);
      } else if Lookup(large, k).Some? {
        SubsequenceSkip(Entry(k, Lookup(large, k).value), small, Without(large, k));
      }
    }
  }

  /** LRU inclusion over every sequence of operations: the smaller cache holds a
      subsequence of the larger one, so every hit of the smaller is a hit of the
      larger with the same value. */
  lemma {:induction false} LargerCacheNeverLosesAHit<K, V>(c: int, d: int, ops: seq<Op<K, V>>, k: K)
    requires c <= d
    ensures Included(Run([], c, ops), c, Run([], d, ops), d)
    ensures Lookup(Run([], c, ops), k).Some? ==> Lookup(Run([], d, ops), k) == Lookup(Run([], c, ops), k)
    decreases |ops|
  {
    var small, large := Run([], c, ops), Run([], d, ops);
    if ops == [] {
    } else {
      var before := ops[..|ops| - 1];
      LargerCacheNeverLosesAHit(c, d, before, k);
      ApplyKeepsIncluded(Run([], c, before), c, Run([], d, before), d, ops[|ops| - 1]);
    }
    if Lookup(small, k).Some? {
      SubsequenceLookup(small, large, k);
    }
  }

  // ---------- which keys are resident ----------

  /** The keys in front of position i. */
  ghost function KeysBefore<K, V>(s: Recent<K, V>, i: nat): set<K>
    requires i <= |s|
  {
    set j | 0 <= j < i :: s[j].key
  }

  /** The keys other than k that a sequence of operations names. */
  function OtherKeys<K(==), V>(ops: seq<Op<K, V>>, k: K): set<K> {
    set i | 0 <= i < |ops| && ops[i].key != k :: ops[i].key
  }

  lemma {:induction false} CountKeysBefore<K, V>(s: Recent<K, V>, i: nat)
    requires i <= |s| && Distinct(s)
    ensures |KeysBefore(s, i)| == i
  {
    if i == 0 {
    } else {
      CountKeysBefore(s, i - 1);
      assert KeysBefore(s, i) == KeysBefore(s, i - 1) + {s[i - 1].key};
    }
  }

  ghost function UpTo<K, V>(s: Recent<K, V>, i: nat, op: Op<K, V>): set<K>
    requires i < |s|
  {
    KeysBefore(s, i) + (if op.key != s[i].key then {op.key} else {})
  }

  lemma HitPushesBack<K, V>(s: Recent<K, V>, capacity: int, op: Op<K, V>, i: nat) returns (i': nat)
    requires Distinct(s) && i < |s| && Lookup(s, op.key).Some?
    requires op.PutOp? ==> op.key != s[i].key
    ensures i' < |Apply(s, capacity, op)| && Apply(s, capacity, op)[i'] == s[i]
    ensures KeysBefore(Apply(s, capacity, op), i') <= UpTo(s, i, op)
  {
    var s' := Apply(s, capacity, op);
    var j := IndexOf(s, op.key);
    MovedToFront(s, j, s'[0], 0);
    forall m: nat | m < |s'|
      ensures s'[m] == if m == 0 then s'[0] else if m <= j then s[m - 1] else s[m]
    {
      MovedToFront(s, j, s'[0], m);
    }
    i' := if i == j then 0 else if i < j then i + 1 else i;
  }

  lemma MissPushesBack<K, V>(s: Recent<K, V>, capacity: int, op: Op<K, V>, i: nat) returns (i': nat)
    requires Fits(s, capacity) && i < |s| && Lookup(s, op.key).None?
    requires |UpTo(s, i, op)| < capacity
    ensures i' < |Apply(s, capacity, op)| && Apply(s, capacity, op)[i'] == s[i]
    ensures KeysBefore(Apply(s, capacity, op), i') <= UpTo(s, i, op)
  {
    var s' := Apply(s, capacity, op);
    LookupMeansHas(s, op.key);
    if op.GetOp? {
      i' := i;
    } else {
      CountKeysBefore(s, i);
      assert op.key !in KeysBefore(s, i);
      assert |UpTo(s, i, op)| == i + 1;
      assert forall m :: 0 < m < |s'| ==> s'[m] == s[m - 1];
      i' := i + 1;
    }
  }

  /** One operation pushes an entry back by the key it names at most. */
  lemma OneStepBack<K, V>(s: Recent<K, V>, capacity: int, op: Op<K, V>, i: nat) returns (i': nat)
    requires Fits(s, capacity) && i < |s|
    requires op.PutOp? ==> op.key != s[i].key
    requires |UpTo(s, i, op)| < capacity
    ensures i' < |Apply(s, capacity, op)| && Apply(s, capacity, op)[i'] == s[i]
    ensures KeysBefore(Apply(s, capacity, op), i') <= UpTo(s, i, op)
  {
    if Lookup(s, op.key).Some? {
      i' := HitPushesBack(s, capacity, op, i);
    } else {
      i' := MissPushesBack(s, capacity, op, i);
    }
  }

  /** A resident key survives, with its value, any operations that name fewer
      other keys than the capacity, counting the keys used more recently. */
  lemma {:induction false} KeySurvives<K, V>(s: Recent<K, V>, capacity: int, ops: seq<Op<K, V>>, i: nat) returns (i': nat)
    requires Fits(s, capacity) && i < |s|
    requires forall j :: 0 <= j < |ops| && ops[j].PutOp? ==> ops[j].key != s[i].key
    requires |KeysBefore(s, i) + OtherKeys(ops, s[i].key)| < capacity
    ensures i' < |Run(s, capacity, ops)| && Run(s, capacity, ops)[i'] == s[i]
    ensures KeysBefore(Run(s, capacity, ops), i') <= KeysBefore(s, i) + OtherKeys(ops, s[i].key)
    decreases |ops|
  {
    var k := s[i].key;
    if ops == [] {
      i' := i;
    } else {
      var n := |ops| - 1;
      var before, last := ops[..n], ops[n];
      var all := KeysBefore(s, i) + OtherKeys(ops, k);
      assert OtherKeys(before, k) <= OtherKeys(ops, k);
      SubsetIsNoLarger(KeysBefore(s, i) + OtherKeys(before, k), all);
      var j := KeySurvives(s, capacity, before, i);
      var mid := Run(s, capacity, before);
      RunKeepsFits(s, capacity, before);
      assert last.key != k ==> last.key in OtherKeys(ops, k);
      SubsetIsNoLarger(UpTo(mid, j, last), all);
      i' := OneStepBack(mid, capacity, last, j);
    }
  }

  /** A key just used survives, with its value, any operations that name fewer
      than `capacity` other keys and do not overwrite it. */
  lemma JustUsedKeySurvives<K, V>(s: Recent<K, V>, capacity: int, ops: seq<Op<K, V>>)
    requires Fits(s, capacity) && s != []
    requires forall j :: 0 <= j < |ops| && ops[j].PutOp? ==> ops[j].key != s[0].key
    requires |OtherKeys(ops, s[0].key)| < capacity
    ensures Lookup(Run(s, capacity, ops), s[0].key) == Some(s[0].val)
  {
    assert KeysBefore(s, 0) + OtherKeys(ops, s[0].key) == OtherKeys(ops, s[0].key);
    var i := KeySurvives(s, capacity, ops, 0);
    RunKeepsFits(s, capacity, ops);
    LookupAt(Run(s, capacity, ops), i);
  }

  /** A put of another key moves that key in front of the one at j, which stays
      behind what was in front of it. */
  lemma HitMovesAhead<K, V>(s: Recent<K, V>, capacity: int, q: K, v: V, j: nat) returns (i: nat)
    requires Distinct(s) && j < |s| && q != s[j].key && Lookup(s, q).Some?
    ensures i < |Put(s, capacity, q, v)| && Put(s, capacity, q, v)[i].key == s[j].key
    ensures KeysBefore(s, j) + {q} <= KeysBefore(Put(s, capacity, q, v), i)
  {
    var p := IndexOf(s, q);
    var e := Entry(q, v);
    var s' := [e] + (s[..p] + s[p + 1..]);
    assert s' == Put(s, capacity, q, v);
    hide Lookup, Put, Without, Distinct;
    MovedToFront(s, p, e, 0);
    i := if p < j then j else j + 1;
    MovedToFront(s, p, e, i);
    forall m: nat | m < j
      ensures s[m].key in KeysBefore(s', i)
    {
      var m' := if m == p then 0 else if m < p then m + 1 else m;
      MovedToFront(s, p, e, m');
      assert s'[m'].key == s[m].key;
    }
    assert s'[0].key in KeysBefore(s', i);
  }

  lemma MissMovesAhead<K, V>(s: Recent<K, V>, capacity: int, q: K, v: V, j: nat)
    requires Distinct(s) && j < |s| && Lookup(s, q).None?
    requires Lookup(Put(s, capacity, q, v), s[j].key).Some?
    ensures j + 1 < |Put(s, capacity, q, v)| && Put(s, capacity, q, v)[j + 1] == s[j]
    ensures KeysBefore(s, j) + {q} <= KeysBefore(Put(s, capacity, q, v), j + 1)
  {
    var s' := Put(s, capacity, q, v);
    assert s' == Trim([Entry(q, v)] + s, capacity);
    LookupMeansHas(s, q);
    LookupMeansHas(s', s[j].key);
    hide Lookup, Put;
    var i :| 0 <= i < |s'| && s'[i].key == s[j].key;
    assert forall m :: 0 < m < |s'| ==> s'[m] == s[m - 1];
    assert i == j + 1;
    assert s'[0].key == q;
    assert forall m :: 0 <= m < j ==> s'[m + 1].key == s[m].key;
  }

  lemma PutMovesAhead<K, V>(s: Recent<K, V>, capacity: int, op: Op<K, V>, j: nat) returns (i: nat)
    requires Fits(s, capacity) && j < |s| && op.PutOp? && op.key != s[j].key
    requires Lookup(Apply(s, capacity, op), s[j].key).Some?
    ensures i < |Apply(s, capacity, op)| && Apply(s, capacity, op)[i].key == s[j].key
    ensures KeysBefore(s, j) + {op.key} <= KeysBefore(Apply(s, capacity, op), i)
  {
    if Lookup(s, op.key).Some? {
      i := HitMovesAhead(s, capacity, op.key, op.val, j);
    } else {
      MissMovesAhead(s, capacity, op.key, op.val, j);
      i := j + 1;
    }
  }

  lemma OtherKeysSnoc<K, V>(ops: seq<Op<K, V>>, k: K)
    requires ops != [] && ops[|ops| - 1].key != k
    ensures OtherKeys(ops, k) == OtherKeys(ops[..|ops| - 1], k) + {ops[|ops| - 1].key}
  {
  }

  /** A key that is there after a put of another key was there before it. */
  lemma WasThereBefore<K, V>(s: Recent<K, V>, capacity: int, op: Op<K, V>, k: K)
    requires Fits(s, capacity) && op.PutOp? && op.key != k
    requires Lookup(Apply(s, capacity, op), k).Some?
    ensures Lookup(s, k).Some?
  {
    PutContents(s, capacity, op.key, op.val, k);
  }

  predicate PutsOthers<K(==), V>(ops: seq<Op<K, V>>, k: K) {
    forall j :: 0 <= j < |ops| ==> ops[j].PutOp? && ops[j].key != k
  }

  /** As long as a key stays, every other key put since its last use is in front
      of it. */
  lemma {:induction false} LaterPutsStayAhead<K, V>(s: Recent<K, V>, capacity: int, ops: seq<Op<K, V>>, k: K) returns (i: nat)
    requires Fits(s, capacity) && s != [] && s[0].key == k && PutsOthers(ops, k)
    requires Lookup(Run(s, capacity, ops), k).Some?
    ensures i < |Run(s, capacity, ops)| && Run(s, capacity, ops)[i].key == k
    ensures OtherKeys(ops, k) <= KeysBefore(Run(s, capacity, ops), i)
    decreases |ops|
  {
    if ops == [] {
      i := 0;
    } else {
      var before, last := ops[..|ops| - 1], ops[|ops| - 1];
      var mid := Run(s, capacity, before);
      assert PutsOthers(before, k) && last.PutOp? && last.key != k;
      OtherKeysSnoc(ops, k);
      RunKeepsFits(s, capacity, before);
      assert Run(s, capacity, ops) == Apply(mid, capacity, last);
      hide Run, Apply, Fits, KeysBefore, OtherKeys, Lookup, PutsOthers;
      WasThereBefore(mid, capacity, last, k);
      var j := LaterPutsStayAhead(s, capacity, before, k);
      i := PutMovesAhead(mid, capacity, last, j);
    }
  }

  /** What least recently used means: a key just used is thrown out by later puts
      of other keys exactly when they name `capacity` different keys or more. */
  lemma StaysIffFewOthersArePut<K, V>(s: Recent<K, V>, capacity: int, ops: seq<Op<K, V>>)
    requires Fits(s, capacity) && s != []
    requires PutsOthers(ops, s[0].key)
    ensures Lookup(Run(s, capacity, ops), s[0].key).Some? <==> |OtherKeys(ops, s[0].key)| < capacity
  {
    var s' := Run(s, capacity, ops);
    if |OtherKeys(ops, s[0].key)| < capacity {
      JustUsedKeySurvives(s, capacity, ops);
    }
    if Lookup(s', s[0].key).Some? {
      var i := LaterPutsStayAhead(s, capacity, ops, s[0].key);
      RunKeepsFits(s, capacity, ops);
      CountKeysBefore(s', i);
      SubsetIsNoLarger(OtherKeys(ops, s[0].key), KeysBefore(s', i));
    }
  }

  // ---------- the order is the order of last use ----------

  /** The last operation that names k, or -1. */
  function LastUse<K(==), V>(ops: seq<Op<K, V>>, k: K): int {
    if ops == [] then -1
    else if ops[|ops| - 1].key == k then |ops| - 1
    else LastUse(ops[..|ops| - 1], k)
  }

  lemma {:induction false} LastUseIsLast<K, V>(ops: seq<Op<K, V>>, k: K)
    ensures -1 <= LastUse(ops, k) < |ops|
    ensures LastUse(ops, k) >= 0 ==> ops[LastUse(ops, k)].key == k
    ensures forall i :: LastUse(ops, k) < i < |ops| ==> ops[i].key != k
    decreases |ops|
  {
    if ops == [] {
    } else {
      LastUseIsLast(ops[..|ops| - 1], k);
    }
  }

  /** Each entry was used later than the ones behind it. */
  ghost predicate ByLastUse<K, V>(s: Recent<K, V>, ops: seq<Op<K, V>>) {
    forall i, j :: 0 <= i < j < |s| ==> LastUse(ops, s[i].key) > LastUse(ops, s[j].key)
  }

  /** After one operation the key it names is in front, if it is there at all,
      and the others are in the order they were in. */
  lemma UseMovesOnTop<K, V>(s: Recent<K, V>, capacity: int, op: Op<K, V>, i: nat, j: nat) returns (i': nat, j': nat)
    requires Distinct(s) && i < j < |Apply(s, capacity, op)|
    ensures i' < |s| && j' < |s| && Apply(s, capacity, op)[j].key == s[j'].key != op.key
    ensures Apply(s, capacity, op)[i].key == op.key || (i' < j' && Apply(s, capacity, op)[i].key == s[i'].key != op.key)
  {
    var s', k := Apply(s, capacity, op), op.key;
    LookupMeansHas(s, k);
    if Lookup(s, k).Some? {
      var p := IndexOf(s, k);
      MovedToFront(s, p, s'[0], i);
      MovedToFront(s, p, s'[0], j);
      MovedToFront(s, p, s'[0], 0);
      i', j' := if 0 < i <= p then i - 1 else i, if j <= p then j - 1 else j;
    } else if op.GetOp? {
      i', j' := i, j;
    } else {
      i', j' := if i == 0 then 0 else i - 1, j - 1;
    }
  }

  lemma {:induction false} RunIsByLastUse<K, V>(s: Recent<K, V>, capacity: int, ops: seq<Op<K, V>>)
    requires Fits(s, capacity) && |s| == 0
    ensures ByLastUse(Run(s, capacity, ops), ops)
    decreases |ops|
  {
    if ops == [] {
    } else {
      var before, op := ops[..|ops| - 1], ops[|ops| - 1];
      var mid, done := Run(s, capacity, before), Run(s, capacity, ops);
      RunIsByLastUse(s, capacity, before);
      RunKeepsFits(s, capacity, before);
      forall i, j | 0 <= i < j < |done|
        ensures LastUse(ops, done[i].key) > LastUse(ops, done[j].key)
      {
        var i', j' := UseMovesOnTop(mid, capacity, op, i, j);
        LastUseIsLast(before, done[j].key);
      }
    }
  }

  lemma {:induction false} ResidentWasUsed<K, V>(s: Recent<K, V>, capacity: int, ops: seq<Op<K, V>>, q: K)
    requires s == [] && Lookup(Run(s, capacity, ops), q).Some?
    ensures LastUse(ops, q) >= 0
    decreases |ops|
  {
    if ops == [] {
    } else {
      var before, op := ops[..|ops| - 1], ops[|ops| - 1];
      if op.key != q {
        RunKeepsFits(s, capacity, before);
        if op.PutOp? {
          PutContents(Run(s, capacity, before), capacity, op.key, op.val, q);
        } else {
          LookupWithout(Run(s, capacity, before), op.key, q);
        }
        ResidentWasUsed(s, capacity, before, q);
      }
    }
  }

  /** Least recently used, on every run: each resident key was used later, by a get
      or a put, than the ones behind it; so the key a put throws out is, of all
      the resident ones, the one whose last use is longest ago. */
  lemma EvictsTheOldest<K, V>(capacity: int, ops: seq<Op<K, V>>, k: K, q: K)
    ensures ByLastUse(Run([], capacity, ops), ops)
    ensures Lookup(Run([], capacity, ops), q).Some? ==> LastUse(ops, q) >= 0
    ensures var s := Run([], capacity, ops);
            match Evicted(s, capacity, k)
            case None => true
            case Some(gone) =>
              (s == [] && gone == k) ||
              (Lookup(s, gone).Some? && (Lookup(s, q).Some? && q != gone ==> LastUse(ops, gone) < LastUse(ops, q)))
  {
    var s := Run([], capacity, ops);
    RunIsByLastUse([], capacity, ops);
    RunKeepsFits([], capacity, ops);
    if Lookup(s, q).Some? {
      ResidentWasUsed([], capacity, ops, q);
    }
    if s != [] {
      LookupAt(s, |s| - 1);
      if Lookup(s, q).Some? {
        var i := IndexOf(s, q);
      }
    }
  }
}
