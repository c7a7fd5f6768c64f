/** The server's cache: a doubly linked list between two sentinels, plus a map
    from keys to list nodes. */
module ServerCache {
  import opened Options
  import opened Recency

  const DEFAULT_CAPACITY := 10

  class DNode {
    var prev: DNode?
    var next: DNode?
    const key: string
    var val: string

    constructor (k: string, v: string)
      ensures prev == null && next == null && key == k && val == v
    {
      prev, next, key, val := null, null, k, v;
    }
  }

  /** A walk along `next`, from the head sentinel to the tail sentinel. */
  type Chain = seq<DNode>

  /** Walking `next` visits the chain, walking `prev` visits it backwards, and
      no node is visited twice. */
  ghost predicate Linked(chain: Chain, head: DNode, tail: DNode)
    reads chain`prev, chain`next
  {
    && 2 <= |chain| && chain[0] == head && chain[|chain| - 1] == tail
    && (forall i, j :: 0 <= i < j < |chain| ==> chain[i] != chain[j])
    && (forall i {:trigger chain[i].next} :: 0 <= i < |chain| - 1 ==> chain[i].next == chain[i + 1])
    && (forall i {:trigger chain[i].prev} :: 0 < i < |chain| ==> chain[i].prev == chain[i - 1])
  }

  ghost predicate IsMapped(node: DNode, table: map<string, DNode>) {
    node.key in table && table[node.key] == node
  }

  ghost predicate IsListed(node: DNode, chain: Chain) {
    exists i :: 0 < i < |chain| - 1 && chain[i] == node
  }

  /** Every list node is mapped under its key and every mapped node is listed. */
  ghost predicate Mapped(chain: Chain, table: map<string, DNode>) {
    && (forall i :: 0 < i < |chain| - 1 ==> IsMapped(chain[i], table))
    && (forall k :: k in table ==> table[k].key == k && IsListed(table[k], chain))
  }

  ghost function SpellFrom(chain: Chain, i: nat): (s: Recent<string, string>)
    requires i < |chain|
    reads chain`val
    ensures |s| == |chain| - 1 - i
    ensures forall j :: 0 <= j < |s| ==> s[j] == Entry(chain[i + j].key, chain[i + j].val)
    decreases |chain| - i
  {
    if i == |chain| - 1 then [] else [Entry(chain[i].key, chain[i].val)] + SpellFrom(chain, i + 1)
  }

  /** The recency sequence that a chain spells out. */
  ghost function Spell(chain: Chain): (s: Recent<string, string>)
    requires 2 <= |chain|
    reads chain`val
    ensures |s| == |chain| - 2
    ensures forall i :: 0 <= i < |s| ==> s[i] == Entry(chain[i + 1].key, chain[i + 1].val)
  {
    SpellFrom(chain, 1)
  }

  // ---------- the chain after each kind of surgery ----------

  function Unlinked<T>(chain: seq<T>, i: nat): seq<T>
    requires 0 < i < |chain| - 1
  {
    chain[..i] + chain[i + 1..]
  }

  function LinkedFirst<T>(chain: seq<T>, node: T): seq<T>
    requires 0 < |chain|
  {
    [chain[0], node] + chain[1..]
  }

  function MovedFirst<T>(chain: seq<T>, i: nat): seq<T>
    requires 0 < i < |chain| - 1
  {
    LinkedFirst(Unlinked(chain, i), chain[i])
  }

  lemma MovedFirstAt<T>(chain: seq<T>, i: nat, m: nat)
    requires 0 < i < |chain| - 1 && m < |chain|
    ensures |MovedFirst(chain, i)| == |chain|
    ensures MovedFirst(chain, i)[m] ==
            if m == 0 then chain[0] else if m == 1 then chain[i] else if m <= i then chain[m - 1] else chain[m]
  {
  }

  /** Moving a node to the front keeps map and list in agreement. */
  lemma MoveKeepsMapped(chain: Chain, table: map<string, DNode>, i: nat)
    requires 0 < i < |chain| - 1 && Mapped(chain, table)
    ensures Mapped(MovedFirst(chain, i), table)
  {
    var chain' := MovedFirst(chain, i);
    MovedFirstAt(chain, i, 0);
    forall m: nat | 0 < m < |chain'| - 1
      ensures IsMapped(chain'[m], table)
    {
      MovedFirstAt(chain, i, m);
    }
    forall k | k in table
      ensures IsListed(table[k], chain')
    {
      var j :| 0 < j < |chain| - 1 && chain[j] == table[k];
      var j' := if j == i then 1 else if j < i then j + 1 else j;
      MovedFirstAt(chain, i, j');
      assert chain'[j'] == table[k];
    }
  }

  lemma MoveSpells(chain: Chain, i: nat)
    requires 0 < i < |chain| - 1
    ensures |MovedFirst(chain, i)| == |chain|
    ensures Spell(MovedFirst(chain, i)) ==
            [Spell(chain)[i - 1]] + (Spell(chain)[..i - 1] + Spell(chain)[i..])
  {
    var s, s' := Spell(chain), Spell(MovedFirst(chain, i));
    MovedFirstAt(chain, i, 0);
    forall m: nat | m < |s|
      ensures s'[m] == ([s[i - 1]] + (s[..i - 1] + s[i..]))[m]
    {
      MovedFirstAt(chain, i, m + 1);
      MovedToFront(s, i - 1, s[i - 1], m);
    }
  }

  lemma LinkKeepsMapped(chain: Chain, table: map<string, DNode>, node: DNode)
    requires 2 <= |chain| && Mapped(chain, table) && node.key !in table
    ensures Mapped(LinkedFirst(chain, node), table[node.key := node])
  {
    var chain', table' := LinkedFirst(chain, node), table[node.key := node];
    assert chain'[1] == node;
    forall m: nat | 0 < m < |chain'| - 1
      ensures IsMapped(chain'[m], table')
    {
      assert m > 1 ==> chain'[m] == chain[m - 1];
    }
    forall k | k in table'
      ensures table'[k].key == k && IsListed(table'[k], chain')
    {
      if k != node.key {
        var j :| 0 < j < |chain| - 1 && chain[j] == table[k];
        assert chain'[j + 1] == table[k];
      }
    }
  }

  lemma LinkSpells(chain: Chain, node: DNode)
    requires 2 <= |chain|
    ensures Spell(LinkedFirst(chain, node)) == [Entry(node.key, node.val)] + Spell(chain)
  {
    assert forall m :: 1 < m < |chain| + 1 ==> LinkedFirst(chain, node)[m] == chain[m - 1];
  }

  lemma UnlinkLastKeepsMapped(chain: Chain, table: map<string, DNode>, head: DNode, tail: DNode)
    requires |chain| > 2 && Linked(chain, head, tail) && Mapped(chain, table)
    ensures Mapped(Unlinked(chain, |chain| - 2), table - {chain[|chain| - 2].key})
  {
    var last := |chain| - 2;
    var chain', table' := Unlinked(chain, last), table - {chain[last].key};
    assert IsMapped(chain[last], table);
    forall m: nat | 0 < m < |chain'| - 1
      ensures IsMapped(chain'[m], table')
    {
      assert chain'[m] == chain[m] && IsMapped(chain[m], table);
    }
    forall k | k in table'
      ensures IsListed(table'[k], chain')
    {
      var j :| 0 < j < |chain| - 1 && chain[j] == table[k];
      assert chain'[j] == table[k];
    }
  }

  lemma UnlinkLastSpells(chain: Chain)
    requires |chain| > 2
    ensures Spell(Unlinked(chain, |chain| - 2)) == Spell(chain)[..|chain| - 3]
  {
    assert forall m :: 0 <= m < |chain| - 2 ==> Unlinked(chain, |chain| - 2)[m] == chain[m];
  }

  // ---------- the map and the recency sequence agree ----------

  lemma MappedIsDistinct(chain: Chain, table: map<string, DNode>)
    requires 2 <= |chain| && Mapped(chain, table)
    requires forall i, j :: 0 <= i < j < |chain| ==> chain[i] != chain[j]
    ensures Distinct(Spell(chain))
  {
    var s := Spell(chain);
    forall i, j | 0 <= i < j < |s|
      ensures s[i].key != s[j].key
    {
      assert IsMapped(chain[i + 1], table) && IsMapped(chain[j + 1], table);
    }
  }

  lemma MapAgreesWithList(chain: Chain, table: map<string, DNode>, k: string)
    requires 2 <= |chain| && Mapped(chain, table)
    ensures k in table <==> Lookup(Spell(chain), k).Some?
  {
    LookupMeansHas(Spell(chain), k);
    if k in table {
      var i :| 0 < i < |chain| - 1 && chain[i] == table[k];
      assert Spell(chain)[i - 1].key == k;
    }
    if Has(Spell(chain), k) {
      var i :| 0 <= i < |Spell(chain)| && Spell(chain)[i].key == k;
      assert IsMapped(chain[i + 1], table);
    }
  }

  /** The map has one key per list node. */
  lemma MapSizeIsListSize(chain: Chain, table: map<string, DNode>)
    requires 2 <= |chain| && Mapped(chain, table)
    requires forall i, j :: 0 <= i < j < |chain| ==> chain[i] != chain[j]
    ensures |table| == |chain| - 2
  {
    var s := Spell(chain);
    MappedIsDistinct(chain, table);
    CountKeysBefore(s, |s|);
    forall k
      ensures k in table.Keys <==> k in KeysBefore(s, |s|)
    {
      MapAgreesWithList(chain, table, k);
      LookupMeansHas(s, k);
    }
    assert table.Keys == KeysBefore(s, |s|);
  }

  /** Where the map finds a key is where the recency sequence has it. */
  lemma Locate(chain: Chain, table: map<string, DNode>, head: DNode, tail: DNode, k: string) returns (i: nat)
    requires 2 <= |chain| && Linked(chain, head, tail) && Mapped(chain, table) && k in table
    ensures 0 < i < |chain| - 1 && chain[i] == table[k] && chain[i].key == k
    ensures Lookup(Spell(chain), k) == Some(chain[i].val)
    ensures Without(Spell(chain), k) == Spell(chain)[..i - 1] + Spell(chain)[i..]
  {
    i :| 0 < i < |chain| - 1 && chain[i] == table[k];
    MappedIsDistinct(chain, table);
    LookupAt(Spell(chain), i - 1);
    WithoutAt(Spell(chain), i - 1);
  }

  lemma SetFirstValue(s: Recent<string, string>, t: Recent<string, string>, rest: Recent<string, string>, v: string)
    requires s != [] && s == [s[0]] + rest
    requires |t| == |s| && t[0] == Entry(s[0].key, v) && forall i :: 0 < i < |s| ==> t[i] == s[i]
    ensures t == [Entry(s[0].key, v)] + rest
  {
  }

  class LRUCache {
    var table: map<string, DNode>
    const head: DNode
    const tail: DNode
    var size: int
    const capacity: int
    ghost var chain: Chain

    ghost predicate Valid()
      reads this, chain
    {
      && 2 <= |chain| && Linked(chain, head, tail)
      && Mapped(chain, table)
      && size == |chain| - 2 && size <= Room(capacity)
    }

    ghost function Contents(): Recent<string, string>
      requires 2 <= |chain|
      reads this, chain
    {
      Spell(chain)
    }

    constructor (capacity: int)
      ensures Valid() && Contents() == [] && this.capacity == capacity
      ensures fresh(chain)
    {
      var h := new DNode("", "");
      var t := new DNode("", "");
      h.next := t;
      t.prev := h;
      this.capacity, size, table := capacity, 0, map[];
      head, tail, chain := h, t, [h, t];
    }

    constructor Default()
      ensures Valid() && Contents() == [] && capacity == 10
      ensures fresh(chain)
    {
      var h := new DNode("", "");
      var t := new DNode("", "");
      h.next := t;
      t.prev := h;
      capacity, size, table := DEFAULT_CAPACITY, 0, map[];
      head, tail, chain := h, t, [h, t];
    }

    // ---------- list surgery ----------

    /** Unlinks the node at position i. The node keeps its own pointers. */
    method Remove(node: DNode, ghost i: nat)
      requires Linked(chain, head, tail) && 0 < i < |chain| - 1 && chain[i] == node
      modifies this`chain, node.prev`next, node.next`prev
      ensures chain == Unlinked(old(chain), i) && Linked(chain, head, tail)
    {
      node.prev.next := node.next;
      node.next.prev := node.prev;
      chain := Unlinked(chain, i);
    }

    /** Links a node in right behind the head sentinel. */
    method Add2Head(node: DNode)
      requires Linked(chain, head, tail) && node !in chain
      modifies this`chain, node`prev, node`next, head`next, head.next`prev
      ensures chain == LinkedFirst(old(chain), node) && Linked(chain, head, tail)
    {
      node.prev := head;
      node.next := head.next;
      head.next.prev := node;
      head.next := node;
      chain := LinkedFirst(chain, node);
    }

    method Move2Head(node: DNode, ghost i: nat)
      requires Linked(chain, head, tail) && 0 < i < |chain| - 1 && chain[i] == node
      modifies this`chain, node.prev`next, node.next`prev, node`prev, node`next, head`next, head.next`prev
      ensures chain == MovedFirst(old(chain), i) && Linked(chain, head, tail)
    {
      Remove(node, i);
      Add2Head(node);
    }

    /** Unlinks the least recently used node. */
    method RemoveTail() returns (node: DNode)
      requires Linked(chain, head, tail) && |chain| > 2
      modifies this`chain, tail`prev, tail.prev.prev`next
      ensures node == old(chain[|chain| - 2])
      ensures chain == Unlinked(old(chain), old(|chain|) - 2) && Linked(chain, head, tail)
    {
      node := tail.prev;
      assert node == chain[|chain| - 2] && node.prev == chain[|chain| - 3] && node.next == tail;
      Remove(node, |chain| - 2);
    }

    // ---------- operations ----------

    method Check(key: string) returns (present: bool)
      requires Valid()
      ensures present <==> Lookup(Contents(), key).Some?
    {
      MapAgreesWithList(chain, table, key);
      present := key in table;
    }

    /** Moves the node of a resident key to the front; its value stays. */
    method Touch(key: string) returns (node: DNode)
      requires Valid() && key in table
      modifies this`chain, chain`prev, chain`next
      ensures Valid() && node == table[key] && chain[1] == node
      ensures forall n :: n in chain ==> n in old(chain)
      ensures Lookup(old(Contents()), key) == Some(node.val)
      ensures Contents() == [Entry(key, node.val)] + Without(old(Contents()), key)
    {
      hide Mapped;
      node := table[key];
      ghost var i := Locate(chain, table, head, tail, key);
      MoveKeepsMapped(chain, table, i);
      MoveSpells(chain, i);
      MovedFirstAt(chain, i, 1);
      Move2Head(node, i);
    }

    /** A hit returns the value and makes the key the most recent; a miss
        returns the empty value and changes nothing. */
    method Get(key: string) returns (val: string)
      requires Valid()
      modifies this, chain
      ensures Valid() && forall n :: n in chain ==> n in old(chain)
      ensures Contents() == Recency.Get(old(Contents()), key)
      ensures val == match Lookup(old(Contents()), key) case Some(v) => v case None => ""
    {
      MapAgreesWithList(chain, table, key);
      if key in table {
        var node := Touch(key);
        val := node.val;
      } else {
        val := "";
      }
    }

    /** Gives a resident key a new value and makes it the most recent. */
    method Overwrite(key: string, val: string)
      requires Valid() && key in table
      modifies this`chain, chain
      ensures Valid() && forall n :: n in chain ==> n in old(chain)
      ensures Contents() == [Entry(key, val)] + Without(old(Contents()), key)
    {
      ghost var rest := Without(Contents(), key);
      var node := Touch(key);
      assert forall i :: 1 < i < |chain| ==> chain[i] != node;
      hide Mapped, Linked;
      ghost var moved := Contents();
      assert node in chain;
      node.val := val;
      SetFirstValue(moved, Contents(), rest, val);
    }

    /** Drops the least recently used node from list and map. */
    method EvictTail() returns (removedKey: string)
      requires |chain| > 2 && Linked(chain, head, tail) && Mapped(chain, table) && size == |chain| - 2
      modifies this`chain, this`table, this`size, chain`prev, chain`next
      ensures |chain| == old(|chain|) - 1 && Linked(chain, head, tail) && Mapped(chain, table) && size == |chain| - 2
      ensures forall n :: n in chain ==> n in old(chain)
      ensures Contents() == old(Contents())[..old(|chain|) - 3]
      ensures removedKey == old(Contents())[old(|chain|) - 3].key
    {
      hide Mapped;
      UnlinkLastKeepsMapped(chain, table, head, tail);
      UnlinkLastSpells(chain);
      var removed := RemoveTail();
      table := table - {removed.key};
      removedKey := removed.key;
      size := size - 1;
    }

    /** Links a new node in at the front of list and map. */
    method Insert(key: string, val: string)
      requires Valid() && key !in table
      modifies this`chain, this`table, this`size, chain`prev, chain`next
      ensures |chain| == old(|chain|) + 1 && Linked(chain, head, tail) && Mapped(chain, table) && size == |chain| - 2
      ensures forall n :: n in chain ==> n in old(chain) || fresh(n)
      ensures Contents() == [Entry(key, val)] + old(Contents())
    {
      hide Mapped;
      var node := new DNode(key, val);
      LinkKeepsMapped(chain, table, node);
      LinkSpells(chain, node);
      table := table[key := node];
      Add2Head(node);
      size := size + 1;
    }

    /** Updates or inserts. An insertion beyond the capacity throws out the least
        recently used key and returns it; otherwise the empty key is returned. */
    method Put(key: string, val: string) returns (removedKey: string)
      requires Valid()
      modifies this, chain
      ensures Valid() && forall n :: n in chain ==> n in old(chain) || fresh(n)
      ensures Contents() == Recency.Put(old(Contents()), capacity, key, val)
      ensures removedKey == match Evicted(old(Contents()), capacity, key) case Some(k) => k case None => ""
    {
      hide Mapped, Linked, Spell;
      MapAgreesWithList(chain, table, key);
      removedKey := "";
      if key in table {
        Overwrite(key, val);
      } else {
        Insert(key, val);
        assert forall i :: 0 <= i < |chain| ==> chain[i] in chain;
        if size > capacity {
          removedKey := EvictTail();
        }
      }
    }

    /** The resident keys, each once, in the map's own order. */
    method AllKey() returns (res: seq<string>)
      requires Valid()
      ensures forall k :: k in res <==> Lookup(Contents(), k).Some?
      ensures forall i, j :: 0 <= i < j < |res| ==> res[i] != res[j]
    {
      res := [];
      var left := table.Keys;
      while left != {}
        invariant left <= table.Keys
        invariant forall k :: k in res <==> k in table && k !in left
        invariant forall i, j :: 0 <= i < j < |res| ==> res[i] != res[j]
        decreases left
      {
        var k :| k in left;
        res := res + [k];
        left := left - {k};
      }
      forall k
        ensures k in res <==> Lookup(Contents(), k).Some?
      {
        MapAgreesWithList(chain, table, k);
      }
    }
  }
}
