/** What the consistent-hash ring is: a map from points of the 32-bit circle to
    shard indices. Everything here holds however the points of the shards are
    placed on the circle; `HashedShards` is the placement the program uses. */
module Ring {
  import opened Murmur
  import opened Options

  type Points = map<Word, nat>

  /** The points of every shard. */
  type Shards = nat -> set<Word>

  predicate Shared(shards: Shards, i: nat, j: nat) {
    shards(i) * shards(j) != {}
  }

  /** No two different shards below `limit` share a point. */
  predicate ShardsApart(shards: Shards, limit: nat) {
    forall i: nat, j: nat :: i < j < limit ==> !Shared(shards, i, j)
  }

  /** The ring of n shards built from nothing: it holds exactly the points of the
      shards below n, each under the lowest shard it belongs to. */
  ghost predicate IsFresh(ring: Points, shards: Shards, n: nat) {
    && (forall i: nat, x: Word :: i < n && x in shards(i) ==> x in ring)
    && (forall x :: x in ring ==> ring[x] < n && x in shards(ring[x]))
    && (forall x, i: nat :: x in ring && i < ring[x] ==> x !in shards(i))
  }

  /** `IsFresh` pins down one ring. */
  lemma FreshIsUnique(a: Points, b: Points, shards: Shards, n: nat)
    requires IsFresh(a, shards, n) && IsFresh(b, shards, n)
    ensures a == b
  {
    forall x: Word
      ensures x in a <==> x in b
      ensures x in a ==> a[x] == b[x]
    {
      assert x in a ==> x in shards(a[x]);
      assert x in b ==> x in shards(b[x]);
    }
  }

  // ---------- the three updates ----------

  /** `insert`: points already present keep their shard. */
  function InsertPoints(ring: Points, points: set<Word>, shard: nat): Points {
    (map x | x in points :: shard) + ring
  }

  /** Assignment: points already present change shard. */
  function AssignPoints(ring: Points, points: set<Word>, shard: nat): Points {
    ring + (map x | x in points :: shard)
  }

  function InsertShard(ring: Points, shards: Shards, shard: nat): Points {
    InsertPoints(ring, shards(shard), shard)
  }

  function AssignShard(ring: Points, shards: Shards, shard: nat): Points {
    AssignPoints(ring, shards(shard), shard)
  }

  /** Assignment of the shards lo, lo + 1, ..., hi - 1 in that order. */
  function AssignShards(ring: Points, shards: Shards, lo: nat, hi: nat): Points {
    if hi <= lo then ring
    else AssignShard(AssignShards(ring, shards, lo, hi - 1), shards, hi - 1)
  }

  /** The ring after `deleteNode(index)` on a ring of n shards. */
  function AfterDelete(ring: Points, shards: Shards, n: nat, index: nat): Points
    requires n > 0
  {
    AssignShards(ring - shards(n - 1), shards, index, n - 1)
  }

  lemma EmptyIsFresh(shards: Shards)
    ensures IsFresh(map[], shards, 0)
  {
  }

  /** Growing by one shard is the same as building the larger ring from nothing,
      whether or not points collide. */
  lemma AddKeepsFresh(ring: Points, shards: Shards, n: nat)
    requires IsFresh(ring, shards, n)
    ensures IsFresh(InsertShard(ring, shards, n), shards, n + 1)
  {
    var ring' := InsertShard(ring, shards, n);
    forall i: nat, x: Word | i < n + 1 && x in shards(i)
      ensures x in ring'
    {
      if i < n {
        assert x in ring;
      }
    }
  }

  /** The highest shard in lo..hi - 1 that has x, or -1. */
  function LastOwner(shards: Shards, lo: nat, hi: nat, x: Word): int {
    if hi <= lo then -1
    else if x in shards(hi - 1) then hi - 1
    else LastOwner(shards, lo, hi - 1, x)
  }

  lemma {:induction false} LastOwnerIsLast(shards: Shards, lo: nat, hi: nat, x: Word)
    ensures LastOwner(shards, lo, hi, x) != -1 ==>
            lo <= LastOwner(shards, lo, hi, x) < hi && x in shards(LastOwner(shards, lo, hi, x))
    ensures forall i: nat :: lo <= i < hi && LastOwner(shards, lo, hi, x) < i ==> x !in shards(i)
    decreases hi
  {
    if hi <= lo {
    } else if x !in shards(hi - 1) {
      LastOwnerIsLast(shards, lo, hi - 1, x);
    }
  }

  /** Assigning files x under its last owner, and leaves x alone when it has none. */
  lemma {:induction false} AssignShardsMeaning(ring: Points, shards: Shards, lo: nat, hi: nat, x: Word)
    ensures var owner := LastOwner(shards, lo, hi, x);
            var ring' := AssignShards(ring, shards, lo, hi);
            && (x in ring' <==> x in ring || owner != -1)
            && (x in ring' ==> ring'[x] == if owner != -1 then owner else ring[x])
    decreases hi
  {
    if hi <= lo {
    } else {
      AssignShardsMeaning(ring, shards, lo, hi - 1, x);
    }
  }

  /** Insertion of the shards 0, 1, ..., n - 1 in that order. */
  function InsertShards(ring: Points, shards: Shards, n: nat): Points {
    if n == 0 then ring else InsertShard(InsertShards(ring, shards, n - 1), shards, n - 1)
  }

  /** The ring of n shards, shard by shard. */
  function Build(shards: Shards, n: nat): Points {
    InsertShards(map[], shards, n)
  }

  lemma {:induction false} BuildIsFresh(shards: Shards, n: nat)
    ensures IsFresh(Build(shards, n), shards, n)
    decreases n
  {
    hide IsFresh, InsertShard;
    EmptyIsFresh(shards);
    if n == 0 {
    } else {
      BuildIsFresh(shards, n - 1);
      AddKeepsFresh(Build(shards, n - 1), shards, n - 1);
    }
  }

  /** The guard under which deleting is clean: the shards that are re-assigned
      share no point with another surviving shard, and the deleted highest shard
      shares no point with a shard that is not re-assigned. */
  predicate DeletionIsClean(shards: Shards, n: nat, index: nat)
    requires n > 0
  {
    var highest: nat := n - 1;
    && (forall i: nat, j: nat :: index <= i < highest && j < highest && j != i ==> !Shared(shards, i, j))
    && (forall j: nat :: j < index ==> !Shared(shards, highest, j))
  }

  lemma NotShared(shards: Shards, i: nat, j: nat, x: Word)
    requires !Shared(shards, i, j)
    ensures x !in shards(i) || x !in shards(j)
  {
    assert x in shards(i) && x in shards(j)
           ==> x in shards(i) * shards(j);
  }

  /** Where a deletion files a point: under its last owner from `index` on among
      the survivors; without one, where it was, unless the dropped shard had it. */
  lemma DeletionFiles(ring: Points, shards: Shards, n: nat, index: nat, x: Word) returns (owner: int)
    requires n > 0
    ensures owner == -1 || (index <= owner < n - 1 && x in shards(owner))
    ensures forall i: nat :: index <= i < n - 1 && owner < i ==> x !in shards(i)
    ensures owner != -1 ==> x in AfterDelete(ring, shards, n, index) && AfterDelete(ring, shards, n, index)[x] == owner
    ensures owner == -1 ==>
              && (x in AfterDelete(ring, shards, n, index) <==> x in ring && x !in shards(n - 1))
              && (x in AfterDelete(ring, shards, n, index) ==> AfterDelete(ring, shards, n, index)[x] == ring[x])
  {
    AssignShardsMeaning(ring - shards(n - 1), shards, index, n - 1, x);
    LastOwnerIsLast(shards, index, n - 1, x);
    owner := LastOwner(shards, index, n - 1, x);
    hide AssignShards, LastOwner;
  }

  lemma CleanDeleteKeepsPoint(ring: Points, shards: Shards, n: nat, index: nat, i: nat, x: Word)
    requires index < n && IsFresh(ring, shards, n)
    requires DeletionIsClean(shards, n, index)
    requires i < n - 1 && x in shards(i)
    ensures x in AfterDelete(ring, shards, n, index)
  {
    var owner := DeletionFiles(ring, shards, n, index, x);
    hide AfterDelete;
    if i < index {
      NotShared(shards, n - 1, i, x);
    }
  }

  lemma CleanDeleteKeepsLowestOwner(ring: Points, shards: Shards, n: nat, index: nat, x: Word)
    requires index < n && IsFresh(ring, shards, n)
    requires DeletionIsClean(shards, n, index)
    requires x in AfterDelete(ring, shards, n, index)
    ensures var owner := AfterDelete(ring, shards, n, index)[x];
            owner < n - 1 && x in shards(owner) && forall i: nat :: i < owner ==> x !in shards(i)
  {
    var owner := DeletionFiles(ring, shards, n, index, x);
    hide AfterDelete;
    forall i: nat | i < AfterDelete(ring, shards, n, index)[x]
      ensures x !in shards(i)
    {
      if owner != -1 {
        NotShared(shards, owner, i, x);
      }
    }
  }

  lemma CleanDeleteIsFresh(ring: Points, shards: Shards, n: nat, index: nat)
    requires index < n && IsFresh(ring, shards, n)
    requires DeletionIsClean(shards, n, index)
    ensures IsFresh(AfterDelete(ring, shards, n, index), shards, n - 1)
  {
    var ring' := AfterDelete(ring, shards, n, index);
    forall i: nat, x: Word | i < n - 1 && x in shards(i)
      ensures x in ring'
    {
      CleanDeleteKeepsPoint(ring, shards, n, index, i, x);
    }
    forall x | x in ring'
      ensures ring'[x] < n - 1 && x in shards(ring'[x])
      ensures forall i: nat :: i < ring'[x] ==> x !in shards(i)
    {
      CleanDeleteKeepsLowestOwner(ring, shards, n, index, x);
    }
  }

  lemma FreshDeleteSeparates(ring: Points, shards: Shards, n: nat, index: nat, i: nat, j: nat, x: Word)
    requires index < n
    requires IsFresh(AfterDelete(ring, shards, n, index), shards, n - 1)
    requires index <= i < n - 1 && j < n - 1 && j != i
    requires x in shards(i)
    ensures x !in shards(j)
  {
    var owner := DeletionFiles(ring, shards, n, index, x);
    hide AfterDelete;
  }

  lemma FreshDeleteSeparatesHighest(ring: Points, shards: Shards, n: nat, index: nat, j: nat, x: Word)
    requires j < index < n
    requires IsFresh(AfterDelete(ring, shards, n, index), shards, n - 1)
    requires x in shards(n - 1)
    ensures x !in shards(j)
  {
    var owner := DeletionFiles(ring, shards, n, index, x);
    hide AfterDelete;
  }

  lemma FreshDeleteIsClean(ring: Points, shards: Shards, n: nat, index: nat)
    requires index < n
    requires IsFresh(AfterDelete(ring, shards, n, index), shards, n - 1)
    ensures DeletionIsClean(shards, n, index)
  {
    var highest: nat := n - 1;
    forall i: nat, j: nat, x | index <= i < highest && j < highest && j != i && x in shards(i)
      ensures x !in shards(j)
    {
      FreshDeleteSeparates(ring, shards, n, index, i, j, x);
    }
    forall j: nat, x | j < index && x in shards(highest)
      ensures x !in shards(j)
    {
      FreshDeleteSeparatesHighest(ring, shards, n, index, j, x);
    }
  }

  /** Deleting equals building the smaller ring from nothing exactly when the
      deletion is clean. */
  lemma DeleteIsFreshIffClean(ring: Points, shards: Shards, n: nat, index: nat)
    requires index < n && IsFresh(ring, shards, n)
    ensures IsFresh(AfterDelete(ring, shards, n, index), shards, n - 1)
            <==> DeletionIsClean(shards, n, index)
  {
    if DeletionIsClean(shards, n, index) {
      CleanDeleteIsFresh(ring, shards, n, index);
    }
    if IsFresh(AfterDelete(ring, shards, n, index), shards, n - 1) {
      FreshDeleteIsClean(ring, shards, n, index);
    }
  }

  /** When no two shards share a point every deletion is clean. */
  lemma ApartIsClean(shards: Shards, n: nat, index: nat, limit: nat)
    requires index < n <= limit && ShardsApart(shards, limit)
    ensures DeletionIsClean(shards, n, index)
  {
    forall i: nat, j: nat | i < limit && j < limit && i != j
      ensures !Shared(shards, i, j)
    {
      if j < i {
        assert !Shared(shards, j, i);
        assert shards(i) * shards(j)
            == shards(j) * shards(i);
      }
    }
  }

  // ---------- runs of additions and deletions ----------

  datatype Change = Add | Delete(index: nat)

  /** The number of shards after a run of changes, each legal for the number before it. */
  predicate LegalRun(n: nat, run: seq<Change>, limit: nat)
    decreases |run|
  {
    n <= limit &&
    (run != [] ==>
       match run[0]
       case Add => LegalRun(n + 1, run[1..], limit)
       case Delete(index) => index < n && LegalRun(n - 1, run[1..], limit))
  }

  function RunChanges(ring: Points, n: nat, run: seq<Change>, shards: Shards): (Points, nat)
    decreases |run|
  {
    if run == [] then (ring, n)
    else match run[0]
      case Add => RunChanges(InsertShard(ring, shards, n), n + 1, run[1..], shards)
      case Delete(index) =>
        if n == 0 then (ring, n)
        else RunChanges(AfterDelete(ring, shards, n, index), n - 1, run[1..], shards)
  }

  /** Whatever was added and deleted, the ring is the fresh ring of the shards
      that are left. */
  lemma {:induction false} EveryRunIsFresh(ring: Points, n: nat, run: seq<Change>, shards: Shards, limit: nat)
    requires IsFresh(ring, shards, n)
    requires LegalRun(n, run, limit) && ShardsApart(shards, limit)
    ensures IsFresh(RunChanges(ring, n, run, shards).0, shards, RunChanges(ring, n, run, shards).1)
    decreases |run|
  {
    if run == [] {
    } else {
      match run[0]
      case Add =>
        AddKeepsFresh(ring, shards, n);
        EveryRunIsFresh(InsertShard(ring, shards, n), n + 1, run[1..], shards, limit);
      case Delete(index) =>
        ApartIsClean(shards, n, index, limit);
        DeleteIsFreshIffClean(ring, shards, n, index);
        EveryRunIsFresh(AfterDelete(ring, shards, n, index), n - 1, run[1..], shards, limit);
    }
  }

  // ---------- what holds even when points collide ----------

  /** Every point belongs to the shard it is filed under, and every shard index
      is below n. */
  ghost predicate IsSound(ring: Points, shards: Shards, n: nat) {
    forall x :: x in ring ==> ring[x] < n && x in shards(ring[x])
  }

  lemma AddKeepsSound(ring: Points, shards: Shards, n: nat)
    requires IsSound(ring, shards, n)
    ensures IsSound(InsertShard(ring, shards, n), shards, n + 1)
  {
  }

  lemma DeleteKeepsSound(ring: Points, shards: Shards, n: nat, index: nat)
    requires n > 0 && IsSound(ring, shards, n)
    ensures IsSound(AfterDelete(ring, shards, n, index), shards, n - 1)
  {
    hide AfterDelete;
    forall x | x in AfterDelete(ring, shards, n, index)
      ensures AfterDelete(ring, shards, n, index)[x] < n - 1
      ensures x in shards(AfterDelete(ring, shards, n, index)[x])
    {
      var owner := DeletionFiles(ring, shards, n, index, x);
    }
  }

  // ---------- lookup ----------

  lemma {:induction false} HasLeast(s: set<Word>) returns (least: Word)
    requires s != {}
    ensures least in s && forall y :: y in s ==> least <= y
    decreases |s|
  {
    least :| least in s;
    var rest := s - {least};
    if rest != {} {
      var z := HasLeast(rest);
      assert forall y :: y in s ==> y == least || y in rest;
      least := if least <= z then least else z;
    } else {
      assert forall y :: y in s ==> y == least || y in rest;
    }
  }

  /** The first point of an ordered map. */
  function First(s: set<Word>): (x: Word)
    requires s != {}
    ensures x in s && forall y :: y in s ==> x <= y
  {
    assert exists x :: x in s && forall y :: y in s ==> x <= y by {
      var least := HasLeast(s);
    }
    var x :| x in s && forall y :: y in s ==> x <= y;
    x
  }

  /** `lower_bound`: the first point not below h. */
  function LowerBound(s: set<Word>, h: Word): (r: Option<Word>)
    ensures r.None? ==> forall y :: y in s ==> y < h
    ensures r.Some? ==> r.value in s && h <= r.value && forall y :: y in s && h <= y ==> r.value <= y
  {
    var above := set x | x in s && h <= x;
    assert forall y :: y in s && h <= y ==> y in above;
    if above == {} then None else Some(First(above))
  }

  function Successor(s: set<Word>, h: Word): Word
    requires s != {}
  {
    match LowerBound(s, h)
    case None => First(s)
    case Some(x) => x
  }

  /** The way from h to x going clockwise, (x - h) mod 2^32. */
  function Clockwise(h: Word, x: Word): Word {
    (x - h) % WORD
  }

  lemma ClockwiseCases(h: Word, x: Word)
    ensures Clockwise(h, x) == if h <= x then x - h else x - h + WORD
  {
  }

  /** Lookup picks the clockwise nearest point and nothing else. */
  lemma SuccessorIsNearest(s: set<Word>, h: Word, x: Word)
    requires s != {}
    ensures Successor(s, h) in s
    ensures x == Successor(s, h) <==>
            x in s && forall y :: y in s && y != x ==> Clockwise(h, x) < Clockwise(h, y)
  {
    var best := Successor(s, h);
    ClockwiseCases(h, best);
    forall y | y in s && y != best
      ensures Clockwise(h, best) < Clockwise(h, y)
    {
      ClockwiseCases(h, y);
    }
  }

  lemma NonEmptyKeys(ring: Points)
    requires ring != map[]
    ensures ring.Keys != {}
  {
    var x :| x in ring;
    assert x in ring.Keys;
  }

  /** The shard a hash value is routed to. */
  function ShardOf(ring: Points, h: Word): nat
    requires ring != map[]
  {
    NonEmptyKeys(ring);
    SuccessorIsNearest(ring.Keys, h, 0);
    ring[Successor(ring.Keys, h)]
  }

  /** A hash value that is a point of the ring is routed to that point. */
  lemma PointFindsItself(ring: Points, x: Word)
    requires x in ring
    ensures ring != map[] && ShardOf(ring, x) == ring[x]
  {
    NonEmptyKeys(ring);
    SuccessorIsNearest(ring.Keys, x, x);
    assert Clockwise(x, x) == 0;
    forall y | y in ring.Keys && y != x
      ensures 0 < Clockwise(x, y)
    {
      ClockwiseCases(x, y);
    }
  }

  /** `bigger` adds points of one shard to `ring` and changes nothing else. */
  ghost predicate Extends(ring: Points, bigger: Points, shard: nat) {
    && ring.Keys <= bigger.Keys
    && (forall x :: x in ring ==> bigger[x] == ring[x])
    && (forall x :: x in bigger && x !in ring ==> bigger[x] == shard)
  }

  /** Adding a shard moves a key only onto that shard. */
  lemma ExtendingMovesKeysOntoNewShard(ring: Points, bigger: Points, shard: nat, h: Word)
    requires ring != map[] && bigger != map[] && Extends(ring, bigger, shard)
    ensures ShardOf(bigger, h) == shard || ShardOf(bigger, h) == ShardOf(ring, h)
  {
    var p, q := Successor(ring.Keys, h), Successor(bigger.Keys, h);
    SuccessorIsNearest(ring.Keys, h, p);
    SuccessorIsNearest(bigger.Keys, h, q);
    assert q in ring && q != p ==> Clockwise(h, p) < Clockwise(h, q);
  }

  lemma FreshRingsExtend(ring: Points, bigger: Points, shards: Shards, n: nat)
    requires IsFresh(ring, shards, n) && IsFresh(bigger, shards, n + 1)
    ensures Extends(ring, bigger, n)
  {
    AddKeepsFresh(ring, shards, n);
    FreshIsUnique(bigger, InsertShard(ring, shards, n), shards, n + 1);
  }

  lemma FreshIsNonEmpty(ring: Points, shards: Shards, n: nat)
    requires n > 0 && shards(0) != {} && IsFresh(ring, shards, n)
    ensures ring != map[]
  {
    var x :| x in shards(0);
    assert x in ring;
  }

  /** Minimal disruption when a shard is added: a key keeps its shard or moves
      to the new one. No assumption on collisions. */
  lemma AddDisruptsLittle(ring: Points, shards: Shards, n: nat, h: Word)
    requires n > 0 && shards(0) != {} && IsFresh(ring, shards, n)
    ensures ring != map[] && InsertShard(ring, shards, n) != map[]
    ensures ShardOf(InsertShard(ring, shards, n), h) in {n, ShardOf(ring, h)}
  {
    var bigger := InsertShard(ring, shards, n);
    AddKeepsFresh(ring, shards, n);
    FreshIsNonEmpty(ring, shards, n);
    FreshIsNonEmpty(bigger, shards, n + 1);
    ExtendingMovesKeysOntoNewShard(ring, bigger, n, h);
  }

  /** Minimal disruption when a shard is deleted: only keys of the highest shard
      change shard, whichever index was asked for. */
  lemma DeleteDisruptsLittle(ring: Points, shards: Shards, n: nat, index: nat, h: Word)
    requires 1 < n && index < n && shards(0) != {} && IsFresh(ring, shards, n)
    requires DeletionIsClean(shards, n, index)
    ensures ring != map[] && AfterDelete(ring, shards, n, index) != map[]
    ensures ShardOf(ring, h) != n - 1 ==>
            ShardOf(AfterDelete(ring, shards, n, index), h) == ShardOf(ring, h)
  {
    var smaller := AfterDelete(ring, shards, n, index);
    CleanDeleteIsFresh(ring, shards, n, index);
    FreshIsNonEmpty(ring, shards, n);
    FreshIsNonEmpty(smaller, shards, n - 1);
    FreshRingsExtend(smaller, ring, shards, n - 1);
    ExtendingMovesKeysOntoNewShard(smaller, ring, n - 1, h);
  }

  // ---------- how many points a shard really has ----------

  /** The points of one shard with v virtual nodes. */
  function ShardPoints(shard: nat, v: nat): set<Word> {
    set j: nat | j < v :: Place(shard, j)
  }

  /** The placement with v virtual nodes a shard. */
  function HashedShards(v: nat): Shards {
    (shard: nat) => ShardPoints(shard, v)
  }

  lemma OneMoreNode(shard: nat, v: nat)
    ensures ShardPoints(shard, v + 1) == ShardPoints(shard, v) + {Place(shard, v)}
  {
  }

  lemma NoNodes(shard: nat, ring: Points)
    ensures InsertPoints(ring, ShardPoints(shard, 0), shard) == ring
    ensures AssignPoints(ring, ShardPoints(shard, 0), shard) == ring
    ensures ring - ShardPoints(shard, 0) == ring
  {
  }

  lemma InsertOneMore(ring: Points, points: set<Word>, p: Word, shard: nat)
    ensures var ring' := InsertPoints(ring, points, shard);
            InsertPoints(ring, points + {p}, shard) == if p in ring' then ring' else ring'[p := shard]
  {
  }

  lemma AssignOneMore(ring: Points, points: set<Word>, p: Word, shard: nat)
    ensures AssignPoints(ring, points + {p}, shard) == AssignPoints(ring, points, shard)[p := shard]
  {
  }

  lemma EraseOneMore(ring: Points, points: set<Word>, p: Word)
    ensures ring - (points + {p}) == (ring - points) - {p}
  {
  }

  lemma {:induction false} CountFirstNodes(shard: nat, k: nat)
    requires k <= 10
    ensures |ShardPoints(shard, k)| == k
    decreases k
  {
    if k == 0 {
    } else {
      CountFirstNodes(shard, k - 1);
      forall j: nat | j < k - 1
        ensures Place(shard, j) != Place(shard, k - 1)
      {
        TenNodesNeverCollide(shard, j, k - 1);
      }
      OneMoreNode(shard, k - 1);
      assert Place(shard, k - 1) !in ShardPoints(shard, k - 1);
    }
  }

  /** With at least ten virtual nodes, a shard occupies at least ten points of
      the real ring. */
  lemma ShardHasTenPoints(shard: nat, v: nat)
    requires v >= 10
    ensures |HashedShards(v)(shard)| >= 10
  {
    CountFirstNodes(shard, 10);
    var few, all := ShardPoints(shard, 10), ShardPoints(shard, v);
    assert few <= all;
    assert all == few + (all - few);
  }
}
