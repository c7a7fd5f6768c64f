/** The master object: its tables, updated in place, and the texts it sends. Every
    method is proved to do to the tables what `MasterModel` says. */
module Master {
  import opened Murmur
  import opened Ring
  import opened Wire
  import opened CacheView
  import opened MasterModel
  import C = ConsistentHash

  /** What the master knows about one descriptor. */
  class FdMap {
    var status: char
    const fd: int
    var pairFd: int
    var ipPort: string
    var ipCache: string

    constructor (fd: int)
      ensures this.fd == fd && AsRec() == UNKNOWN
    {
      this.fd, status, pairFd, ipPort, ipCache := fd, 'n', -1, "0", "0";
    }

    function AsRec(): Rec
      reads this
    {
      Rec(status, pairFd, ipPort, ipCache)
    }
  }

  lemma AddrTokens(text: string) returns (ip: string, port: string)
    requires IsAddr(text)
    ensures Solid(ip) && Solid(port) && text == Sep(ip, port) && Tokens(text, "#") == [ip, port]
  {
    var parts := Slice(text).value;
    ip, port := parts.0, parts.1;
    var n := FirstHash(text);
    assert text == text[..n] + [text[n]] + text[n + 1..];
    TokensAfterSep(ip, port);
    TokensOfSolid(port);
  }

  /** Every text with a '#' in front. */
  function Prefixed(texts: seq<string>): string {
    if texts == [] then "" else "#" + texts[0] + Prefixed(texts[1..])
  }

  lemma {:induction false} PrefixedSnoc(texts: seq<string>, text: string)
    ensures Prefixed(texts + [text]) == Prefixed(texts) + "#" + text
    decreases |texts|
  {
    if texts == [] {
      assert ([] + [text])[1..] == [];
    } else {
      assert (texts + [text])[1..] == texts[1..] + [text];
      PrefixedSnoc(texts[1..], text);
      var a, b, c := "#" + texts[0], Prefixed(texts[1..]), "#" + text;
      assert a + (b + c) == (a + b) + c;
    }
  }

  lemma {:induction false} PrefixedIsJoin(texts: seq<string>)
    requires texts != []
    ensures Prefixed(texts) == "#" + Join(texts)
    decreases |texts|
  {
    if |texts| == 1 {
      assert Prefixed(texts[1..]) == "";
    } else {
      PrefixedIsJoin(texts[1..]);
    }
  }

  lemma TextsSnoc(recs: map<int, Rec>, fds: seq<int>, i: nat)
    requires i < |fds| && forall j :: 0 <= j < |fds| ==> fds[j] in recs
    ensures Texts(recs, fds[..i + 1]) == Texts(recs, fds[..i]) + [recs[fds[i]].ipCache]
    decreases |fds|
  {
    if i == 0 {
      assert fds[..1] == [fds[0]] && fds[..0] == [];
      assert [fds[0]][1..] == [];
    } else {
      TextsSnoc(recs, fds[1..], i - 1);
      assert fds[..i + 1][1..] == fds[1..][..i] && fds[..i][1..] == fds[1..][..i - 1];
    }
  }

  lemma PostSnoc(wire: map<int, seq<string>>, fds: seq<int>, i: nat, text: string)
    requires NoDuplicates(fds) && i < |fds| && fds[i] in wire
    ensures Post(wire, fds[..i + 1], text)
            == Post(wire, fds[..i], text)[fds[i] := Post(wire, fds[..i], text)[fds[i]] + [text]]
  {
    assert fds[..i + 1] == fds[..i] + [fds[i]];
    assert fds[i] !in fds[..i];
  }

  class Master {
    const cacheAddrHash: C.ConsistentHash
    var cachesList: map<int, FdMap>
    var fdNode: seq<int>
    var pcache: seq<int>
    var rcache: seq<int>
    /** What was sent on each descriptor and not yet received. */
    var sent: map<int, seq<string>>

    /** A record knows its descriptor, so different descriptors have different records. */
    ghost predicate Valid()
      reads this, cacheAddrHash
    {
      && cacheAddrHash.vNodes == V_NODES
      && (forall fd :: fd in cachesList ==> cachesList[fd].fd == fd)
    }

    ghost function Recs(): (recs: map<int, Rec>)
      reads this`cachesList, cachesList.Values
      ensures recs.Keys == cachesList.Keys
      ensures forall fd :: fd in cachesList ==> recs[fd] == cachesList[fd].AsRec()
    {
      map fd | fd in cachesList :: cachesList[fd].AsRec()
    }

    ghost function Tables(): Table
      reads this, cachesList.Values, cacheAddrHash
    {
      Table(Recs(), fdNode, pcache, rcache, cacheAddrHash.key2Index, cacheAddrHash.nodes, sent)
    }

    constructor ()
      ensures Valid() && Tables() == EMPTY && fresh(cacheAddrHash) && cacheAddrHash.vNodes == 100
    {
      var ring := new C.ConsistentHash();
      ring.Initialize(0, V_NODES);
      FreshIsUnique(ring.key2Index, map[], HashedShards(V_NODES), 0);
      cacheAddrHash := ring;
      cachesList, fdNode, pcache, rcache, sent := map[], [], [], [], map[];
    }

    // ---------- sending ----------

    method Send(fd: int, text: string)
      requires fd in sent
      modifies this`sent
      ensures sent == Post(old(sent), [fd], text)
    {
      sent := sent[fd := sent[fd] + [text]];
    }

    /** One text to every descriptor of a list without repetitions. */
    method Broadcast(fds: seq<int>, text: string)
      requires NoDuplicates(fds) && forall i :: 0 <= i < |fds| ==> fds[i] in sent
      modifies this`sent
      ensures sent == Post(old(sent), fds, text) && Recs() == old(Recs())
    {
      ghost var before := sent;
      assert fds[..0] == [];
      assert Post(before, [], text) == before;
      hide Post, NoDuplicates;
      var i := 0;
      while i < |fds|
        invariant 0 <= i <= |fds|
        invariant sent == Post(before, fds[..i], text)
      {
        PostSnoc(before, fds, i, text);
        sent := sent[fds[i] := sent[fds[i]] + [text]];
        i := i + 1;
      }
      assert fds[..|fds|] == fds;
    }

    /** The whole list as one text: every address with a '#' in front, the first
        '#' cut off. */
    method AllCaches() returns (allcache: string)
      requires fdNode != [] && forall i :: 0 <= i < |fdNode| ==> fdNode[i] in cachesList
      ensures forall i :: 0 <= i < |fdNode| ==> fdNode[i] in Recs()
      ensures allcache == Join(Texts(Recs(), fdNode))
    {
      allcache := "";
      var i := 0;
      while i < |fdNode|
        invariant 0 <= i <= |fdNode|
        invariant allcache == Prefixed(Texts(Recs(), fdNode[..i]))
      {
        TextsSnoc(Recs(), fdNode, i);
        assert Recs()[fdNode[i]].ipCache == cachesList[fdNode[i]].ipCache;
        assert allcache + "#" + cachesList[fdNode[i]].ipCache == Prefixed(Texts(Recs(), fdNode[..i])) + "#" + cachesList[fdNode[i]].ipCache;
        PrefixedSnoc(Texts(Recs(), fdNode[..i]), cachesList[fdNode[i]].ipCache);
        allcache := allcache + "#" + cachesList[fdNode[i]].ipCache;
        i := i + 1;
      }
      assert fdNode[..|fdNode|] == fdNode;
      PrefixedIsJoin(Texts(Recs(), fdNode));
      allcache := allcache[1..];
    }

    // ---------- connections and heartbeats ----------

    method Accept(fd: int)
      requires Valid()
      modifies this`cachesList, this`sent
      ensures Valid() && Tables() == MasterModel.Accept(old(Tables()), fd)
      ensures forall x :: x in cachesList && x != fd ==> x in old(cachesList) && cachesList[x] == old(cachesList)[x]
    {
      var tmp := new FdMap(fd);
      cachesList := cachesList[fd := tmp];
      sent := sent[fd := []];
    }

    method SetPair(fd: int, pair: int)
      requires Valid() && fd in cachesList
      modifies cachesList[fd]
      ensures Recs() == MasterModel.SetPair(old(Recs()), fd, pair)
    {
      cachesList[fd].pairFd := pair;
      RecsChangedAt(fd, old(Recs()));
    }

    /** Only the record of fd differs from what it was. */
    lemma RecsChangedAt(fd: int, before: map<int, Rec>)
      requires fd in cachesList && before.Keys == cachesList.Keys
      requires forall x :: x in cachesList && x != fd ==> cachesList[x].AsRec() == before[x]
      ensures Recs() == before[fd := cachesList[fd].AsRec()]
    {
    }

    /** Makes two caches a pair. */
    method Couple(fd: int, partner: int)
      requires Valid() && fd in cachesList && partner in cachesList
      modifies cachesList[fd], cachesList[partner]
      ensures Recs() == MasterModel.SetPair(MasterModel.SetPair(old(Recs()), fd, partner), partner, fd)
    {
      SetPair(fd, partner);
      SetPair(partner, fd);
    }

    /** Writes down what a first heartbeat says. */
    method Enroll(fd: int, role: char, ip: string, clientPort: string, cachePort: string)
      requires Valid() && fd in cachesList
      modifies cachesList[fd]
      ensures Tables() == MasterModel.Enroll(old(Tables()), fd, role, ip, clientPort, cachePort)
    {
      var it := cachesList[fd];
      it.ipPort := ip + "#" + clientPort;
      it.ipCache := ip + "#" + cachePort;
      it.status := role;
      RecsChangedAt(fd, old(Recs()));
    }

    /** Pairs a new primary with the waiting replica on top, or lets it wait. */
    method PairPrimary(fd: int)
      requires Valid() && fd in cachesList && (rcache != [] ==> Top(rcache) in cachesList)
      modifies this`pcache, this`rcache, cachesList.Values
      ensures old(rcache) == [] ==> Recs() == old(Recs()) && pcache == old(pcache) + [fd] && rcache == []
      ensures old(rcache) != [] ==>
                && Recs() == MasterModel.SetPair(MasterModel.SetPair(old(Recs()), fd, Top(old(rcache))), Top(old(rcache)), fd)
                && pcache == old(pcache) && rcache == Pop(old(rcache))
    {
      if rcache != [] {
        var r := rcache[|rcache| - 1];
        Couple(fd, r);
        rcache := rcache[..|rcache| - 1];
      } else {
        pcache := pcache + [fd];
      }
    }

    /** A new primary enters the table and is paired, or waits. */
    method BeginPrimary(fd: int, ip: string, clientPort: string, cachePort: string)
      requires Valid() && fd in cachesList && (rcache != [] ==> Top(rcache) in cachesList)
      modifies this`fdNode, this`pcache, this`rcache, cachesList.Values
      ensures Tables() == MasterModel.BeginPrimary(old(Tables()), fd, ip, clientPort, cachePort)
    {
      hide Sep;
      Enroll(fd, 'P', ip, clientPort, cachePort);
      fdNode := fdNode + [fd];
      PairPrimary(fd);
    }

    /** The newcomer gets the whole list, then everybody gets the newcomer. */
    method Announce()
      requires Valid() && fdNode != [] && NoDuplicates(fdNode)
      requires forall i :: 0 <= i < |fdNode| ==> fdNode[i] in cachesList && fdNode[i] in sent
      modifies this`sent
      ensures forall i :: 0 <= i < |fdNode| ==> fdNode[i] in Recs()
      ensures sent == Post(Post(old(sent), [Top(fdNode)], Join(Texts(Recs(), fdNode))), fdNode, "N#" + Recs()[Top(fdNode)].ipCache)
    {
      hide Texts, Join, Post;
      var fd := fdNode[|fdNode| - 1];
      var cacheServerAddr := cachesList[fd].ipCache;
      var allcache := AllCaches();
      Send(fd, allcache);
      Broadcast(fdNode, "N#" + cacheServerAddr);
    }

    /** The newcomer's shard goes on the ring. */
    method GrowRing()
      requires Valid() && fdNode != []
      modifies cacheAddrHash
      ensures Valid() && Recs() == old(Recs()) && cacheAddrHash.nodes == old(cacheAddrHash.nodes) + 1
      ensures cacheAddrHash.key2Index == InsertShard(old(cacheAddrHash.key2Index), HashedShards(V_NODES), |fdNode| - 1)
    {
      hide InsertShard, IsFresh, HashedShards;
      cacheAddrHash.AddNode(|fdNode| - 1);
    }

    /** The ring grows and the texts go out. */
    method EndPrimary()
      requires Valid() && fdNode != [] && NoDuplicates(fdNode)
      requires forall i :: 0 <= i < |fdNode| ==> fdNode[i] in cachesList && fdNode[i] in sent
      modifies this`sent, cacheAddrHash
      ensures Valid() && forall i :: 0 <= i < |fdNode| ==> fdNode[i] in old(Recs())
      ensures Tables() == MasterModel.EndPrimary(old(Tables()), HashedShards(V_NODES))
    {
      hide Texts, Join, InsertShard, Post, HashedShards, NoDuplicates;
      GrowRing();
      Announce();
    }

    method JoinReplica(fd: int, ip: string, clientPort: string, cachePort: string)
      requires Valid() && fd in cachesList && (pcache != [] ==> Top(pcache) in cachesList)
      modifies this`pcache, this`rcache, cachesList.Values
      ensures Tables() == MasterModel.JoinReplica(old(Tables()), fd, ip, clientPort, cachePort)
    {
      hide Sep;
      Enroll(fd, 'R', ip, clientPort, cachePort);
      if pcache != [] {
        var p := pcache[|pcache| - 1];
        Couple(fd, p);
        pcache := pcache[..|pcache| - 1];
      } else {
        rcache := rcache + [fd];
      }
    }

    method Reply(fd: int)
      requires Valid() && fd in cachesList && fd in sent
      requires cachesList[fd].pairFd > UNPAIRED ==> cachesList[fd].pairFd in cachesList
      modifies this`sent
      ensures Tables() == Beat(old(Tables()), fd)
    {
      var it := cachesList[fd];
      var pair := "None";
      if it.pairFd > -1 {
        pair := cachesList[it.pairFd].ipCache;
      }
      assert Recs()[fd] == it.AsRec();
      Send(fd, [it.status] + "#" + pair);
    }

    /** A first heartbeat enrolls the cache. */
    method OnFirstHeartbeat(fd: int, fields: seq<string>)
      requires Valid() && HeartbeatOk(Tables(), HashedShards(V_NODES), fd, fields) && cachesList[fd].status == 'n'
      modifies this`fdNode, this`pcache, this`rcache, this`sent, cachesList.Values, cacheAddrHash
      ensures Valid() && Tables() == OnHeartbeat(old(Tables()), HashedShards(V_NODES), fd, fields)
    {
      hide TableOk, RingOk;
      if fields[4] == "P" {
        BeginPrimaryIsDefined(Tables(), HashedShards(V_NODES), fd, fields);
        BeginPrimary(fd, fields[1], fields[2], fields[3]);
        EndPrimary();
      } else if fields[4] == "R" {
        JoinReplica(fd, fields[1], fields[2], fields[3]);
      } else {
        Enroll(fd, fields[4][0], fields[1], fields[2], fields[3]);
      }
    }

    /** A heartbeat of a cache that is not known yet enrolls it. */
    method EnrollIfNew(fd: int, fields: seq<string>)
      requires Valid() && HeartbeatOk(Tables(), HashedShards(V_NODES), fd, fields)
      modifies this`fdNode, this`pcache, this`rcache, this`sent, cachesList.Values, cacheAddrHash
      ensures Valid() && Tables() == OnHeartbeat(old(Tables()), HashedShards(V_NODES), fd, fields)
    {
      KnownByAddress(Tables(), fd);
      if cachesList[fd].ipPort == "0" {
        OnFirstHeartbeat(fd, fields);
      }
    }

    /** A heartbeat text: the first one enrolls the cache, every one is answered. */
    method Heartbeat(fd: int, message: string)
      requires Valid() && fd in cachesList && HeartbeatOk(Tables(), HashedShards(V_NODES), fd, Tokens(message, "#"))
      modifies this`fdNode, this`pcache, this`rcache, this`sent, cachesList.Values, cacheAddrHash
      ensures Valid() && fd in cachesList && (cachesList[fd].pairFd > UNPAIRED ==> cachesList[fd].pairFd in cachesList)
      ensures var t := OnHeartbeat(old(Tables()), HashedShards(V_NODES), fd, Tokens(message, "#"));
              && fd in t.recs && (t.recs[fd].pair > UNPAIRED ==> t.recs[fd].pair in t.recs)
              && Tables() == Beat(t, fd)
    {
      var vtmsg := Split(message, "#");
      HeartbeatCanBeAnswered(Tables(), HashedShards(V_NODES), fd, vtmsg);
      hide HeartbeatOk, OnHeartbeat, Tokens, HashedShards;
      EnrollIfNew(fd, vtmsg);
      Reply(fd);
    }

    // ---------- a cache is declared dead ----------

    method Forget(fd: int)
      requires Valid()
      modifies this`cachesList
      ensures Valid() && Recs() == old(Recs()) - {fd} && cachesList == old(cachesList) - {fd}
    {
      cachesList := cachesList - {fd};
    }

    method LoseReplica(fd: int)
      requires Valid() && fd in cachesList && cachesList[fd].pairFd in cachesList && cachesList[fd].pairFd != fd
      modifies this`pcache, this`cachesList, cachesList.Values
      ensures Valid() && Tables() == MasterModel.LoseReplica(old(Tables()), fd)
    {
      var pair := cachesList[fd].pairFd;
      SetPair(pair, -1);
      pcache := pcache + [pair];
      Forget(fd);
    }

    /** The place of fd in the table. */
    method PlaceOf(fd: int) returns (index: nat)
      requires fd in fdNode
      ensures index == IndexOf(fdNode, fd)
    {
      index := 0;
      while fdNode[index] != fd
        invariant 0 <= index < |fdNode| && fd in fdNode[index..]
        invariant IndexOf(fdNode, fd) == index + IndexOf(fdNode[index..], fd)
        decreases |fdNode| - index
      {
        index := index + 1;
      }
    }

    /** The replica takes the place of a lost primary and everybody is told. */
    method Replace(fd: int, backup: int)
      requires Valid() && fd in fdNode && fd in cachesList && backup in cachesList
      requires FirstHash(cachesList[fd].ipCache) < |cachesList[fd].ipCache|
      requires FirstHash(cachesList[backup].ipCache) < |cachesList[backup].ipCache|
      requires var fds := fdNode[IndexOf(fdNode, fd) := backup];
               NoDuplicates(fds) && forall i :: 0 <= i < |fds| ==> fds[i] in sent
      modifies this`fdNode, this`sent
      ensures fdNode == old(fdNode[IndexOf(fdNode, fd) := backup]) && Recs() == old(Recs())
      ensures sent == Post(old(sent), fdNode, "C#" + Sep(WithColon(cachesList[fd].ipCache), WithColon(cachesList[backup].ipCache)))
    {
      hide Sep, Post, WithColon, NoDuplicates;
      var index := PlaceOf(fd);
      fdNode := fdNode[index := backup];
      var str1 := WithColon(cachesList[fd].ipCache);
      var str2 := WithColon(cachesList[backup].ipCache);
      Broadcast(fdNode, "C#" + Sep(str1, str2));
    }

    /** A lost primary with a replica. */
    method Failover(fd: int)
      requires Valid() && FailoverIsPossible(Tables(), fd)
      requires var fds := fdNode[IndexOf(fdNode, fd) := cachesList[fd].pairFd];
               NoDuplicates(fds) && forall i :: 0 <= i < |fds| ==> fds[i] in sent
      modifies this`fdNode, this`sent, this`pcache, this`cachesList, cachesList.Values
      ensures Valid() && Tables() == MasterModel.Failover(old(Tables()), fd)
    {
      hide Sep, NoDuplicates, Post, WithColon, FirstHash, IndexOf;
      var pair := cachesList[fd].pairFd;
      Replace(fd, pair);
      pcache := pcache + [pair];
      Retire(fd, pair);
    }

    /** The records when a replica takes over. */
    method Retire(fd: int, backup: int)
      requires Valid() && fd in cachesList && backup in cachesList
      modifies this`cachesList, cachesList[backup]
      ensures Valid() && backup in old(Recs())
      ensures Recs() == old(Recs())[backup := old(Recs())[backup].(pair := UNPAIRED, status := 'P')] - {fd}
    {
      Promote(backup);
      Forget(fd);
    }

    method Promote(fd: int)
      requires Valid() && fd in cachesList
      modifies cachesList[fd]
      ensures Recs() == old(Recs())[fd := old(Recs())[fd].(pair := UNPAIRED, status := 'P')]
    {
      cachesList[fd].pairFd := -1;
      cachesList[fd].status := 'P';
      RecsChangedAt(fd, old(Recs()));
    }

    /** A primary leaves the table and the ring. */
    method Drop(fd: int)
      requires cacheAddrHash.vNodes == V_NODES && fd in fdNode && cacheAddrHash.nodes == |fdNode|
      modifies this`fdNode, cacheAddrHash
      ensures fdNode == Removed(old(fdNode), IndexOf(old(fdNode), fd)) && Recs() == old(Recs())
      ensures cacheAddrHash.vNodes == V_NODES && cacheAddrHash.nodes == old(cacheAddrHash.nodes) - 1
      ensures cacheAddrHash.key2Index
              == AfterDelete(old(cacheAddrHash.key2Index), HashedShards(V_NODES), old(cacheAddrHash.nodes), IndexOf(old(fdNode), fd))
    {
      hide AfterDelete, IsFresh, DeletionIsClean, HashedShards;
      var index := PlaceOf(fd);
      fdNode := fdNode[..index] + fdNode[index + 1..];
      cacheAddrHash.DeleteNode(index);
    }

    /** The primaries that are left are told of a death, and the dead one's record
        is dropped. */
    method AnnounceDead(fd: int)
      requires Valid() && fd in cachesList
      requires NoDuplicates(fdNode) && forall i :: 0 <= i < |fdNode| ==> fdNode[i] in sent
      modifies this`sent, this`cachesList
      ensures Valid() && fd in old(Recs()) && Recs() == old(Recs()) - {fd}
      ensures sent == Post(old(sent), fdNode, "D#" + old(Recs())[fd].ipCache)
    {
      hide NoDuplicates, Post;
      Broadcast(fdNode, "D#" + cachesList[fd].ipCache);
      Forget(fd);
    }

    /** A lost primary without a replica leaves the table and the ring, and
        everybody is told. */
    method LosePrimary(fd: int)
      requires Valid() && fd in cachesList && fd in fdNode
      requires cacheAddrHash.nodes == |fdNode| && NoDuplicates(fdNode)
      requires forall i :: 0 <= i < |fdNode| ==> fdNode[i] in sent
      modifies this`fdNode, this`sent, this`cachesList, cacheAddrHash
      ensures Valid() && Tables() == MasterModel.LosePrimary(old(Tables()), fd, HashedShards(V_NODES))
    {
      RemovedCanBeSent(fdNode, IndexOf(fdNode, fd), sent);
      hide AfterDelete, HashedShards, IndexOf, NoDuplicates, Post, Removed;
      Drop(fd);
      AnnounceDead(fd);
    }

    lemma RemovedCanBeSent(fds: seq<int>, i: nat, wire: map<int, seq<string>>)
      requires i < |fds| && NoDuplicates(fds) && forall j :: 0 <= j < |fds| ==> fds[j] in wire
      ensures NoDuplicates(Removed(fds, i))
      ensures forall j :: 0 <= j < |Removed(fds, i)| ==> Removed(fds, i)[j] in wire
    {
      RemovedMembers(fds, i, 0);
    }

    /** What the detector does once it has found a cache dead. */
    method OnDead(fd: int)
      requires Valid() && TableOk(Tables()) && RingOk(Tables(), HashedShards(V_NODES))
      requires fd in cachesList && cacheAddrHash.nodes == |fdNode|
      requires cachesList[fd].status == 'R' ==> cachesList[fd].pairFd != UNPAIRED
      modifies this`fdNode, this`sent, this`pcache, this`cachesList, cachesList.Values, cacheAddrHash
      ensures Valid()
      ensures var t := old(Tables());
              var r := t.recs[fd];
              && (r.status == 'R' ==> r.pair in t.recs && Tables() == MasterModel.LoseReplica(t, fd))
              && (r.status == 'P' && r.pair > 0 ==> FailoverIsPossible(t, fd) && Tables() == MasterModel.Failover(t, fd))
              && (r.status == 'P' && r.pair <= 0 ==>
                    fd in t.fdNode && t.nodes > 0 && r.pair == UNPAIRED
                    && Tables() == MasterModel.LosePrimary(t, fd, HashedShards(V_NODES)))
              && (r.status == 'n' ==> Tables() == LoseUnknown(t, fd))
    {
      DeathIsDefined(Tables(), fd);
      hide NoDuplicates;
      if cachesList[fd].status == 'R' {
        LoseReplica(fd);
      } else if cachesList[fd].status == 'P' {
        if cachesList[fd].pairFd > 0 {
          FailoverIsSendable(Tables(), fd);
          Failover(fd);
        } else {
          LosePrimary(fd);
        }
      } else {
        Forget(fd);
      }
    }

    // ---------- shrinking ----------

    method BeginShrink()
      requires Valid() && fdNode != [] && NoDuplicates(fdNode) && cacheAddrHash.nodes == |fdNode|
      requires forall i :: 0 <= i < |fdNode| ==> fdNode[i] in cachesList && fdNode[i] in sent
      modifies this`sent, cacheAddrHash
      ensures Valid() && Top(fdNode) in old(Recs())
      ensures Tables() == MasterModel.BeginShrink(old(Tables()), HashedShards(V_NODES))
    {
      hide AfterDelete, IsFresh, DeletionIsClean, Post, HashedShards;
      var index := |fdNode| - 1;
      cacheAddrHash.DeleteNode(index);
      var fd := fdNode[index];
      Broadcast(fdNode, "K#" + cachesList[fd].ipCache);
    }

    /** fd and its replica, if it has one, are forgotten. */
    method ForgetBoth(fd: int)
      requires Valid() && fd in cachesList && cachesList[fd].pairFd != fd
      modifies this`cachesList
      ensures Valid() && fd in old(Recs())
      ensures Recs() == (if old(Recs())[fd].pair > 0 then old(Recs()) - {old(Recs())[fd].pair} else old(Recs())) - {fd}
    {
      ForgetPair(fd);
      Forget(fd);
    }

    method EndShrink()
      requires Valid() && fdNode != [] && Top(fdNode) in cachesList && cachesList[Top(fdNode)].pairFd != Top(fdNode)
      modifies this`fdNode, this`cachesList
      ensures Valid() && Top(old(fdNode)) in old(Recs())
      ensures Tables() == MasterModel.EndShrink(old(Tables()))
    {
      var fd := fdNode[|fdNode| - 1];
      ForgetBoth(fd);
      fdNode := fdNode[..|fdNode| - 1];
    }

    /** The replica of fd, if it has one, is forgotten. */
    method ForgetPair(fd: int)
      requires Valid() && fd in cachesList && cachesList[fd].pairFd != fd
      modifies this`cachesList
      ensures Valid() && fd in old(Recs()) && fd in cachesList
      ensures Recs() == if old(Recs())[fd].pair > 0 then old(Recs()) - {old(Recs())[fd].pair} else old(Recs())
    {
      if cachesList[fd].pairFd > 0 {
        Forget(cachesList[fd].pairFd);
      }
    }

    // ---------- routing ----------

    /** The client address of the server of a key, as ip:port. */
    method HandleClientMessage(key: string) returns (address: string)
      requires Valid() && TableOk(Tables()) && RingOk(Tables(), HashedShards(V_NODES))
      requires cacheAddrHash.key2Index != map[]
      ensures IsAnswer(Tables(), key, address)
    {
      LookupIsSafe(Tables(), HashedShards(V_NODES), key);
      hide TableOk, RingOk, Hash, ShardOf, Tokens;
      var virNode := cacheAddrHash.GetServer(key);
      var index := cacheAddrHash.key2Index[virNode];
      var fd := fdNode[index];
      assert fd == Route(Tables(), key);
      var vtstr := Split(cachesList[fd].ipPort, "#");
      var ip, port := AddrTokens(cachesList[fd].ipPort);
      address := vtstr[0] + ":" + vtstr[1];
    }
  }
}
