/** The cache server object: what its threads do with messages from the master,
    from clients and from a dying cache. */
module CacheServer {
  import opened Murmur
  import opened Ring
  import opened Wire
  import opened Recency
  import opened CacheView
  import opened Migration
  import opened Requests
  import C = ConsistentHash
  import S = ServerCache

  class CacheServer {
    var cacheList: seq<Addr>
    var initialFlag: bool
    var status: string
    var prStatus: string
    const self: Addr
    var dying: Addr
    var target: Addr

    function View(): View
      reads this
    {
      CacheView.View(initialFlag, cacheList, status, prStatus, self, dying, target)
    }

    constructor (role: string, localIp: string, portForCache: string)
      ensures View() == CacheView.Fresh(Addr(localIp, portForCache), role)
      ensures self == Addr(localIp, portForCache) && cacheList == [] && status == role && prStatus == role
      ensures initialFlag <==> role == "R"
      ensures dying == Addr("", "") && target == Addr("None", "None")
    {
      cacheList, status, prStatus := [], role, role;
      self, dying, target := Addr(localIp, portForCache), Addr("", ""), NOBODY;
      initialFlag := role == "R";
    }

    /** Erases the first entry equal to a. When there is none the source erases a
        past-the-end iterator; that is reported as false. */
    method EraseEntry(a: Addr) returns (found: bool)
      modifies this`cacheList
      ensures found <==> Erase(old(cacheList), a).Some?
      ensures found ==> cacheList == Erase(old(cacheList), a).value
      ensures !found ==> cacheList == old(cacheList)
    {
      EraseFindsIff(cacheList, a);
      var it := 0;
      while it < |cacheList| && cacheList[it] != a
        invariant 0 <= it <= |cacheList| && a !in cacheList[..it]
      {
        it := it + 1;
      }
      if it == |cacheList| {
        assert cacheList[..it] == cacheList;
        return false;
      }
      EraseFirst(cacheList, a, it);
      cacheList := cacheList[..it] + cacheList[it + 1..];
      return true;
    }

    method UpdateCache(a: Addr, change: char) returns (ok: bool)
      requires change == 'N' || change == 'K'
      modifies this`cacheList, this`dying
      ensures change == 'N' ==> ok && View() == OnNew(old(View()), a)
      ensures change == 'K' ==> (ok <==> OnKill(old(View()), a).Some?)
      ensures change == 'K' && ok ==> View() == OnKill(old(View()), a).value.(status := status)
    {
      ok := true;
      if change == 'N' {
        if a != self {
          cacheList := cacheList + [a];
        }
      } else {
        dying := a;
        ok := EraseEntry(a);
      }
    }

    /** One message of an initialised cache. False stands for a message on which
        the source throws or is undefined. */
    method ReadFromMaster(message: string) returns (ok: bool)
      modifies this
      ensures ok <==> CacheView.ReadFromMaster(old(View()), message).Some?
      ensures ok ==> View() == CacheView.ReadFromMaster(old(View()), message).value
    {
      if message == "" {
        return true;
      }
      if |message| == 1 {
        return false;
      }
      if status == "K" {
        return true;
      }
      var head := message[0];
      if (head == 'P' || head == 'R') && message[2..] == "None" {
        Pair(head, NOBODY);
        return true;
      }
      if head !in "KNPRCD" {
        return true;
      }
      if head == 'C' {
        return false;
      }
      var parts := SliceMessage(message[2..]);
      if parts.None? {
        return false;
      }
      var a := Addr(parts.value.0, parts.value.1);
      if head == 'K' {
        ok := UpdateCache(a, 'K');
        if ok && a == self {
          status := "K";
        }
      } else if head == 'N' {
        ok := UpdateCache(a, 'N');
      } else if head == 'D' {
        ok := EraseEntry(a);
      } else {
        Pair(head, a);
        ok := true;
      }
    }

    method Pair(head: char, a: Addr)
      requires head == 'P' || head == 'R'
      modifies this`status, this`prStatus, this`target
      ensures View() == if head == 'P' then OnPrimary(old(View()), a) else OnReplica(old(View()), a)
    {
      status := [head];
      if head == 'P' {
        prStatus := "P";
      }
      target := a;
    }

    /** The heartbeat thread's dispatch. */
    method OnMessage(message: string) returns (ok: bool)
      modifies this
      ensures ok <==> Receive(old(View()), message).Some?
      ensures ok ==> View() == Receive(old(View()), message).value
    {
      if initialFlag {
        ok := ReadFromMaster(message);
      } else {
        var addrs := Initial(message);
        if addrs.None? {
          return false;
        }
        cacheList := cacheList + addrs.value;
        initialFlag := true;
        return true;
      }
    }

    /** The list as texts, the form the ring indexes. */
    method CacheTexts() returns (caches: seq<string>)
      ensures |caches| == |cacheList|
      ensures forall i :: 0 <= i < |caches| ==> caches[i] == AddrText(cacheList[i])
    {
      caches := [];
      var j := 0;
      while j < |cacheList|
        invariant 0 <= j <= |cacheList| && |caches| == j
        invariant forall i :: 0 <= i < j ==> caches[i] == AddrText(cacheList[i])
      {
        caches := caches + [cacheList[j].ip + "#" + cacheList[j].port];
        j := j + 1;
      }
    }

    /** One lookup on the ring built from nothing. */
    method TargetOf(cacheHash: C.ConsistentHash, caches: seq<string>, key: string) returns (ip: string, port: string)
      requires cacheList != [] && forall i :: 0 <= i < |cacheList| ==> Clean(cacheList[i].ip)
      requires |caches| == |cacheList| && forall i :: 0 <= i < |caches| ==> caches[i] == AddrText(cacheList[i])
      requires cacheHash.Fresh() && cacheHash.nodes == |cacheList| && cacheHash.vNodes == V_NODES
      ensures Addr(ip, port) == Target(cacheList, key)
    {
      hide Build, Hash, ShardOf, Slice;
      BuiltRing(cacheHash, |cacheList|);
      var point := cacheHash.GetServer(key);
      var idx := cacheHash.key2Index[point];
      SliceInvertsIff(cacheList[idx].ip, cacheList[idx].port);
      var parts := SliceMessage(caches[idx]);
      ip, port := parts.value.0, parts.value.1;
    }

    /** Where every key goes: the ring of the remaining list is built from nothing
        and every key is looked up on it. */
    method CalHashKey(keys: seq<string>) returns (otherIp: seq<string>, otherPort: seq<string>)
      requires cacheList != [] && forall i :: 0 <= i < |cacheList| ==> Clean(cacheList[i].ip)
      ensures |otherIp| == |otherPort| == |keys|
      ensures forall i :: 0 <= i < |keys| ==> Addr(otherIp[i], otherPort[i]) == Target(cacheList, keys[i])
    {
      hide Target;
      var caches := CacheTexts();
      var cacheHash := new C.ConsistentHash();
      cacheHash.Initialize(|caches|, V_NODES);
      otherIp, otherPort := [], [];
      var k := 0;
      while k < |keys|
        invariant 0 <= k <= |keys| && |otherIp| == |otherPort| == k
        invariant cacheHash.Fresh() && cacheHash.nodes == |cacheList| && cacheHash.vNodes == V_NODES
        invariant forall i :: 0 <= i < k ==> Addr(otherIp[i], otherPort[i]) == Target(cacheList, keys[i])
      {
        var ip, port := TargetOf(cacheHash, caches, keys[k]);
        otherIp, otherPort := otherIp + [ip], otherPort + [port];
        k := k + 1;
      }
    }

    lemma BuiltRing(ring: C.ConsistentHash, n: nat)
      requires ring.Fresh() && ring.nodes == n > 0 && ring.vNodes == V_NODES
      ensures ring.key2Index == Build(HashedShards(V_NODES), n) && ring.key2Index != map[]
      ensures forall h: Word :: ShardOf(ring.key2Index, h) < n
    {
      BuildIsFresh(HashedShards(V_NODES), n);
      FreshIsUnique(ring.key2Index, Build(HashedShards(V_NODES), n), HashedShards(V_NODES), n);
      RealRingIsNonEmpty(ring.key2Index, n, V_NODES);
      forall h: Word
        ensures ShardOf(ring.key2Index, h) < n
      {
        ShardIsBelow(ring.key2Index, HashedShards(V_NODES), n, h);
      }
    }

    /** The text a dying cache sends for one of its keys. */
    method ToSingleCache(cache: S.LRUCache, key: string) returns (message: string)
      requires cache.Valid()
      modifies cache, cache.chain
      ensures cache.Valid() && forall n :: n in cache.chain ==> n in old(cache.chain)
      ensures message == Sep(key, ValueOf(old(cache.Contents()), key))
      ensures cache.Contents() == Get(old(cache.Contents()), key)
    {
      var val := cache.Get(key);
      message := key + "#" + val;
    }

    /** The texts a killed cache sends, read through its own LRU list one by one. */
    method Messages(cache: S.LRUCache, keys: seq<string>) returns (messages: seq<string>)
      requires cache.Valid()
      modifies cache, cache.chain
      ensures cache.Valid() && |messages| == |keys|
      ensures forall i :: 0 <= i < |keys| ==> messages[i] == Sep(keys[i], ValueOf(old(cache.Contents()), keys[i]))
    {
      hide Sep, ValueOf, Recency.Get, S.Linked, S.Mapped, S.Spell;
      ghost var held := cache.Contents();
      messages := [];
      var i := 0;
      while i < |keys|
        invariant 0 <= i <= |keys| && |messages| == i && cache.Valid()
        invariant forall n :: n in cache.chain ==> n in old(cache.chain)
        invariant forall k :: ValueOf(cache.Contents(), k) == ValueOf(held, k)
        invariant forall j :: 0 <= j < i ==> messages[j] == Sep(keys[j], ValueOf(held, keys[j]))
      {
        ghost var before := cache.Contents();
        assert forall j :: 0 <= j < |cache.chain| ==> cache.chain[j] in cache.chain;
        var message := ToSingleCache(cache, keys[i]);
        forall k
          ensures ValueOf(cache.Contents(), k) == ValueOf(held, k)
        {
          GetKeepsValueOf(before, keys[i], k);
        }
        messages := messages + [message];
        i := i + 1;
      }
    }

    /** A killed cache works out a target for every key it holds and sends every
        entry, each once, to the target of its key. With nobody left on its list
        it sends nothing and touches nothing. */
    method CachePass(cache: S.LRUCache) returns (keys: seq<string>, targets: seq<Addr>, messages: seq<string>)
      requires cache.Valid() && status == "K"
      requires forall i :: 0 <= i < |cacheList| ==> Clean(cacheList[i].ip)
      modifies cache, cache.chain
      ensures cache.Valid() && |targets| == |messages| == |keys|
      ensures cacheList == [] ==> keys == [] && cache.Contents() == old(cache.Contents())
      ensures cacheList != [] ==> Enumerates(keys, old(cache.Contents()))
      ensures forall i :: 0 <= i < |keys| ==>
                && cacheList != [] && targets[i] == Target(old(cacheList), keys[i])
                && messages[i] == Sep(keys[i], ValueOf(old(cache.Contents()), keys[i]))
    {
      hide Target, Sep;
      if |cacheList| == 0 {
        return [], [], [];
      }
      keys := cache.AllKey();
      var otherIp, otherPort := CalHashKey(keys);
      targets := seq(|keys|, i requires 0 <= i < |keys| => Addr(otherIp[i], otherPort[i]));
      messages := Messages(cache, keys);
    }

    /** A survivor takes one entry in. False stands for the exception a message
        without '#' causes. A killed cache does not look. */
    method FromSingleCache(cache: S.LRUCache, message: string) returns (ok: bool)
      requires cache.Valid()
      modifies cache, cache.chain
      ensures cache.Valid()
      ensures status == "K" ==> ok && cache.Contents() == old(cache.Contents())
      ensures status != "K" ==> (ok <==> TakeIn(old(cache.Contents()), cache.capacity, message).Some?)
      ensures status != "K" && ok ==> cache.Contents() == TakeIn(old(cache.Contents()), cache.capacity, message).value
    {
      if status == "K" {
        return true;
      }
      var parts := SliceMessage(message);
      if parts.None? {
        return false;
      }
      var removed := cache.Put(parts.value.0, parts.value.1);
      return true;
    }

    /** One client request. */
    method HandleTask(cache: S.LRUCache, message: string, address: string) returns (reply: string)
      requires cache.Valid()
      modifies cache, cache.chain
      ensures cache.Valid()
      ensures reply == Answer(old(cache.Contents()), message, address)
      ensures cache.Contents() == Serve(old(cache.Contents()), cache.capacity, message)
    {
      var parts := SliceMessage(message);
      if parts.None? {
        var present := cache.Check(message);
        if present {
          var res := cache.Get(message);
          reply := "SUCCESS#" + message + "#" + address + "#" + res;
        } else {
          reply := "FAILED#" + message + "#" + address;
        }
      } else {
        var removed := cache.Put(parts.value.0, parts.value.1);
        reply := "SUCCESS#" + parts.value.0 + "#" + address;
      }
    }
  }
}
