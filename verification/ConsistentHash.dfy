/** The ring object: both the master and a dying cache keep one of these. */
module ConsistentHash {
  import opened Murmur
  import opened Ring

  class ConsistentHash {
    var key2Index: Points
    var nodes: nat
    var vNodes: nat

    constructor ()
      ensures key2Index == map[] && nodes == 0 && vNodes == 0
    {
      key2Index, nodes, vNodes := map[], 0, 0;
    }

    /** The ring of `nodes` shards as it would be built from nothing. */
    ghost predicate Fresh()
      reads this
    {
      IsFresh(key2Index, HashedShards(vNodes), nodes)
    }

    /** Inserts the points of one shard; a point already taken stays where it is. */
    method InsertNodes(shard: nat)
      modifies this`key2Index
      ensures key2Index == InsertShard(old(key2Index), HashedShards(vNodes), shard)
    {
      ghost var before := key2Index;
      NoNodes(shard, before);
      var j := 0;
      while j < vNodes
        invariant 0 <= j <= vNodes
        invariant key2Index == InsertPoints(before, ShardPoints(shard, j), shard)
      {
        var key := Murmur32(NodeName(shard, j));
        OneMoreNode(shard, j);
        InsertOneMore(before, ShardPoints(shard, j), key, shard);
        if key !in key2Index {
          key2Index := key2Index[key := shard];
        }
        j := j + 1;
      }
    }

    /** Erases the points of one shard, whatever shard they are filed under. */
    method EraseNodes(shard: nat)
      modifies this`key2Index
      ensures key2Index == old(key2Index) - HashedShards(vNodes)(shard)
    {
      ghost var before := key2Index;
      NoNodes(shard, before);
      var i := 0;
      while i < vNodes
        invariant 0 <= i <= vNodes
        invariant key2Index == before - ShardPoints(shard, i)
      {
        var key := Murmur32(NodeName(shard, i));
        OneMoreNode(shard, i);
        EraseOneMore(before, ShardPoints(shard, i), key);
        if key in key2Index {
          key2Index := key2Index - {key};
        }
        i := i + 1;
      }
    }

    /** Files the points of one shard under it, whatever they were filed under. */
    method AssignNodes(shard: nat)
      modifies this`key2Index
      ensures key2Index == AssignShard(old(key2Index), HashedShards(vNodes), shard)
    {
      ghost var before := key2Index;
      NoNodes(shard, before);
      var j := 0;
      while j < vNodes
        invariant 0 <= j <= vNodes
        invariant key2Index == AssignPoints(before, ShardPoints(shard, j), shard)
      {
        var key1 := Murmur32(NodeName(shard, j));
        OneMoreNode(shard, j);
        AssignOneMore(before, ShardPoints(shard, j), key1, shard);
        key2Index := key2Index[key1 := shard];
        j := j + 1;
      }
    }

    /** Files the shards from `index` on under themselves, in order. */
    method AssignFrom(index: nat)
      requires index <= nodes
      modifies this`key2Index
      ensures key2Index == AssignShards(old(key2Index), HashedShards(vNodes), index, nodes)
    {
      hide AssignShard, HashedShards;
      ghost var before := key2Index;
      var i := index;
      while i < nodes
        invariant index <= i <= nodes
        invariant key2Index == AssignShards(before, HashedShards(vNodes), index, i)
      {
        AssignNodes(i);
        i := i + 1;
      }
    }

    /** Inserts the points of n shards into whatever is there; into nothing, this
        builds the fresh ring. */
    method Initialize(n: nat, v: nat)
      modifies this
      ensures nodes == n && vNodes == v
      ensures key2Index == InsertShards(old(key2Index), HashedShards(v), n)
      ensures old(key2Index) == map[] ==> Fresh()
    {
      hide InsertShard, IsFresh;
      nodes, vNodes := n, v;
      var i := 0;
      while i < n
        invariant 0 <= i <= n
        invariant nodes == n && vNodes == v
        invariant key2Index == InsertShards(old(key2Index), HashedShards(v), i)
      {
        InsertNodes(i);
        i := i + 1;
      }
      BuildIsFresh(HashedShards(v), n);
    }

    /** Adds the points of shard `index`. On a fresh ring, adding the next shard
        gives the fresh ring of one shard more. */
    method AddNode(index: nat)
      modifies this
      ensures nodes == old(nodes) + 1 && vNodes == old(vNodes)
      ensures key2Index == InsertShard(old(key2Index), HashedShards(vNodes), index)
      ensures old(Fresh()) && index == old(nodes) ==> Fresh()
    {
      if Fresh() && index == nodes {
        AddKeepsFresh(key2Index, HashedShards(vNodes), index);
      }
      InsertNodes(index);
      nodes := nodes + 1;
    }

    /** Drops the highest shard and re-assigns the shards from `index` on. On a
        fresh ring the result is the fresh ring of one shard less exactly when
        the deletion is clean. */
    method DeleteNode(index: nat)
      requires index < nodes
      modifies this
      ensures nodes == old(nodes) - 1 && vNodes == old(vNodes)
      ensures key2Index == AfterDelete(old(key2Index), HashedShards(vNodes), old(nodes), index)
      ensures old(Fresh()) ==> (Fresh() <==> DeletionIsClean(HashedShards(vNodes), old(nodes), index))
    {
      hide ShardPoints;
      ghost var start, n := key2Index, nodes;
      EraseNodes(nodes - 1);
      nodes := nodes - 1;
      AssignFrom(index);
      assert key2Index == AfterDelete(start, HashedShards(vNodes), n, index);
      assert IsFresh(start, HashedShards(vNodes), n) ==>
        (IsFresh(key2Index, HashedShards(vNodes), nodes) <==> DeletionIsClean(HashedShards(vNodes), n, index)) by {
        if IsFresh(start, HashedShards(vNodes), n) {
          DeleteIsFreshIffClean(start, HashedShards(vNodes), n, index);
        }
      }
    }

    /** The ring point a key belongs to: the nearest one clockwise. */
    method GetServer(key: string) returns (point: Word)
      requires key2Index != map[]
      ensures point in key2Index && key2Index[point] == ShardOf(key2Index, Hash(key))
      ensures forall x :: x in key2Index && x != point ==> Clockwise(Hash(key), point) < Clockwise(Hash(key), x)
    {
      var key1 := Murmur32(key);
      NonEmptyKeys(key2Index);
      SuccessorIsNearest(key2Index.Keys, key1, Successor(key2Index.Keys, key1));
      var it := LowerBound(key2Index.Keys, key1);
      if it.None? {
        point := First(key2Index.Keys);
      } else {
        point := it.value;
      }
    }
  }
}
