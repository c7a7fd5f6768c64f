/** The client's cache object, proved against `ClientModel`. */
module ClientCache {
  import opened Options
  import opened ClientModel

  class LruCache<K(==), V> {
    var items: seq<Node<K, V>>
    var index: map<K, nat>
    const maxSize: nat
    /** Makes every new list node a node of its own. */
    var nextId: nat

    ghost function Model(): State<K, V>
      reads this
    {
      State(items, index, maxSize, nextId)
    }

    constructor (maxSize: nat := 1000)
      ensures Valid(Model()) && items == [] && index == map[] && this.maxSize == maxSize && nextId == 0
    {
      items, index, this.maxSize, nextId := [], map[], maxSize, 0;
    }

    method Put(key: K, value: V)
      requires Valid(Model())
      modifies this
      ensures Model() == ClientModel.Put(old(Model()), key, value) && Valid(Model())
    {
      PutIsSound(Model(), key, value, key);
      PushFront(key, value);
      if |index| > maxSize {
        PopBack();
      }
    }

    /** Links a new node in at the front, unlinks the key's old node, and points
        the key at the new one. */
    method PushFront(key: K, value: V)
      requires Valid(Model())
      modifies this
      ensures Model() == Push(old(Model()), key, value)
    {
      hide Valid, Find, Unlink;
      ghost var before := Model();
      items := [Node(nextId, key, value)] + items;
      if key in index {
        PushThenUnlink(before, key, value);
        items := Unlink(items, index[key]);
        index := index - {key};
      }
      index := index[key := nextId];
      assert index == before.index[key := before.nextId];
      nextId := nextId + 1;
    }

    /** Drops the last list node and the map entry of its key. */
    method PopBack()
      requires items != []
      modifies this`items, this`index
      ensures Model() == DropLast(old(Model()))
    {
      var last := items[|items| - 1];
      index := index - {last.key};
      items := items[..|items| - 1];
    }

    method Erase(key: K)
      modifies this
      ensures Model() == ClientModel.Erase(old(Model()), key)
    {
      if key in index {
        index := index - {key};
      }
    }

    /** None stands for the range_error the source throws. */
    method Get(key: K) returns (value: Option<V>)
      requires Valid(Model())
      modifies this
      ensures Model() == ClientModel.Get(old(Model()), key) && Valid(Model())
      ensures value == Lookup(old(Model()), key)
      ensures value.None? <==> key !in index
    {
      GetIsSound(Model(), key, key);
      if key !in index {
        return None;
      }
      assert PointsAt(items, index[key], key);
      FindBelow(items, nextId, index[key]);
      var node := Find(items, index[key]);
      items := [node.value] + Unlink(items, index[key]);
      return Some(node.value.val);
    }

    method Exists(key: K) returns (found: bool)
      requires Valid(Model())
      ensures found <==> Lookup(Model(), key).Some?
    {
      if key in index {
        assert PointsAt(items, index[key], key);
      }
      found := key in index;
    }

    method Size() returns (n: nat)
      requires Valid(Model())
      ensures n == |index| <= |items|
    {
      MapFitsList(Model());
      n := |index|;
    }
  }
}
