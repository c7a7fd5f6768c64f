/** The master's tables as values, and what each membership event does to them. */
module MasterModel {
  import opened Collections
  import opened Options
  import opened Murmur
  import opened Ring
  import opened Wire
  import opened CacheView

  const UNPAIRED: int := -1

  /** What the master knows about one connected cache. Status 'n' is a cache whose
      first heartbeat has not come yet. */
  datatype Rec = Rec(status: char, pair: int, ipPort: string, ipCache: string)

  const UNKNOWN: Rec := Rec('n', UNPAIRED, "0", "0")

  datatype Table = Table(
    recs: map<int, Rec>,         // caches_list
    fdNode: seq<int>,            // primaries in shard order
    pcache: seq<int>,            // unpaired primaries, top of the stack last
    rcache: seq<int>,            // unpaired replicas, top of the stack last
    ring: Points, nodes: nat,    // the hash ring
    wire: map<int, seq<string>>) // per descriptor, what was sent and not yet received

  const EMPTY: Table := Table(map[], [], [], [], map[], 0, map[])

  // ---------- small updates ----------

  function SetPair(recs: map<int, Rec>, fd: int, pair: int): map<int, Rec>
    requires fd in recs
  {
    recs[fd := recs[fd].(pair := pair)]
  }

  function Top(stack: seq<int>): int
    requires stack != []
  {
    stack[|stack| - 1]
  }

  function Pop<T>(s: seq<T>): seq<T>
    requires s != []
  {
    s[..|s| - 1]
  }

  /** The text sent once to each of fds. */
  function Post(wire: map<int, seq<string>>, fds: seq<int>, text: string): (r: map<int, seq<string>>)
    ensures r.Keys == wire.Keys
  {
    map fd | fd in wire :: if fd in fds then wire[fd] + [text] else wire[fd]
  }

  function Texts(recs: map<int, Rec>, fds: seq<int>): seq<string>
    requires forall i :: 0 <= i < |fds| ==> fds[i] in recs
  {
    if fds == [] then [] else [recs[fds[0]].ipCache] + Texts(recs, fds[1..])
  }

  function Enroll(t: Table, fd: int, role: char, ip: string, clientPort: string, cachePort: string): Table
    requires fd in t.recs
  {
    t.(recs := t.recs[fd := t.recs[fd].(status := role, ipPort := Sep(ip, clientPort), ipCache := Sep(ip, cachePort))])
  }

  // ---------- membership events ----------

  function Accept(t: Table, fd: int): Table {
    t.(recs := t.recs[fd := UNKNOWN], wire := t.wire[fd := []])
  }

  /** The first half of a primary's join: it enters the table and is paired with
      a waiting replica, or waits for one. */
  function BeginPrimary(t: Table, fd: int, ip: string, clientPort: string, cachePort: string): Table
    requires fd in t.recs && (t.rcache != [] ==> Top(t.rcache) in t.recs)
  {
    var e := Enroll(t, fd, 'P', ip, clientPort, cachePort).(fdNode := t.fdNode + [fd]);
    if t.rcache != [] then
      e.(recs := SetPair(SetPair(e.recs, fd, Top(t.rcache)), Top(t.rcache), fd), rcache := Pop(t.rcache))
    else
      e.(pcache := t.pcache + [fd])
  }

  /** The second half: the ring grows, the newcomer gets the whole list, and
      everybody gets the newcomer. */
  function EndPrimary(t: Table, shards: Shards): Table
    requires t.fdNode != [] && forall i :: 0 <= i < |t.fdNode| ==> t.fdNode[i] in t.recs
  {
    var fd := Top(t.fdNode);
    t.(ring := InsertShard(t.ring, shards, |t.fdNode| - 1),
       nodes := t.nodes + 1,
       wire := Post(Post(t.wire, [fd], Join(Texts(t.recs, t.fdNode))), t.fdNode, "N#" + t.recs[fd].ipCache))
  }

  function JoinReplica(t: Table, fd: int, ip: string, clientPort: string, cachePort: string): Table
    requires fd in t.recs && (t.pcache != [] ==> Top(t.pcache) in t.recs)
  {
    var e := Enroll(t, fd, 'R', ip, clientPort, cachePort);
    if t.pcache != [] then
      e.(recs := SetPair(SetPair(e.recs, fd, Top(t.pcache)), Top(t.pcache), fd), pcache := Pop(t.pcache))
    else
      e.(rcache := t.rcache + [fd])
  }

  /** The answer to a heartbeat. */
  function ReplyText(recs: map<int, Rec>, fd: int): string
    requires fd in recs && (recs[fd].pair > UNPAIRED ==> recs[fd].pair in recs)
  {
    [recs[fd].status] + "#" + if recs[fd].pair > UNPAIRED then recs[recs[fd].pair].ipCache else "None"
  }

  function Beat(t: Table, fd: int): Table
    requires fd in t.recs && (t.recs[fd].pair > UNPAIRED ==> t.recs[fd].pair in t.recs)
  {
    t.(wire := Post(t.wire, [fd], ReplyText(t.recs, fd)))
  }

  function LoseReplica(t: Table, fd: int): Table
    requires fd in t.recs && t.recs[fd].pair in t.recs
  {
    var pair := t.recs[fd].pair;
    t.(recs := SetPair(t.recs, pair, UNPAIRED) - {fd}, pcache := t.pcache + [pair])
  }

  function IndexOf(fds: seq<int>, fd: int): (i: nat)
    requires fd in fds
    ensures i < |fds| && fds[i] == fd
  {
    if fds[0] == fd then 0 else 1 + IndexOf(fds[1..], fd)
  }

  function WithColon(text: string): string
    requires FirstHash(text) < |text|
  {
    text[FirstHash(text) := ':']
  }

  predicate FailoverIsPossible(t: Table, fd: int) {
    && fd in t.fdNode && fd in t.recs && t.recs[fd].pair in t.recs
    && FirstHash(t.recs[fd].ipCache) < |t.recs[fd].ipCache|
    && FirstHash(t.recs[t.recs[fd].pair].ipCache) < |t.recs[t.recs[fd].pair].ipCache|
  }

  /** A lost primary with a replica: the replica takes its place in the table. */
  function Failover(t: Table, fd: int): Table
    requires FailoverIsPossible(t, fd)
  {
    var backup := t.recs[fd].pair;
    var fdNode := t.fdNode[IndexOf(t.fdNode, fd) := backup];
    var text := "C#" + Sep(WithColon(t.recs[fd].ipCache), WithColon(t.recs[backup].ipCache));
    t.(fdNode := fdNode,
       wire := Post(t.wire, fdNode, text),
       recs := t.recs[backup := t.recs[backup].(pair := UNPAIRED, status := 'P')] - {fd},
       pcache := t.pcache + [backup])
  }

  function Removed<T>(s: seq<T>, i: nat): seq<T>
    requires i < |s|
  {
    s[..i] + s[i + 1..]
  }

  /** A lost primary without a replica leaves the table and the ring. */
  function LosePrimary(t: Table, fd: int, shards: Shards): Table
    requires fd in t.fdNode && fd in t.recs && t.nodes > 0
  {
    var index := IndexOf(t.fdNode, fd);
    var fdNode := Removed(t.fdNode, index);
    t.(fdNode := fdNode,
       ring := AfterDelete(t.ring, shards, t.nodes, index), nodes := t.nodes - 1,
       wire := Post(t.wire, fdNode, "D#" + t.recs[fd].ipCache),
       recs := t.recs - {fd})
  }

  function LoseUnknown(t: Table, fd: int): Table {
    t.(recs := t.recs - {fd})
  }

  /** The first half of a shrink: the last shard leaves the ring and everybody,
      the last primary included, is told. */
  function BeginShrink(t: Table, shards: Shards): Table
    requires t.fdNode != [] && Top(t.fdNode) in t.recs && t.nodes > 0
  {
    t.(ring := AfterDelete(t.ring, shards, t.nodes, |t.fdNode| - 1), nodes := t.nodes - 1,
       wire := Post(t.wire, t.fdNode, "K#" + t.recs[Top(t.fdNode)].ipCache))
  }

  /** The second half: once its heartbeat stops, the last primary and its replica
      leave the table. */
  function EndShrink(t: Table): Table
    requires t.fdNode != [] && Top(t.fdNode) in t.recs
  {
    var fd := Top(t.fdNode);
    var recs := if t.recs[fd].pair > 0 then t.recs - {t.recs[fd].pair} else t.recs;
    t.(recs := recs - {fd}, fdNode := Pop(t.fdNode))
  }

  // ---------- the table invariant ----------

  predicate IsAddr(text: string) {
    match Slice(text)
    case None => false
    case Some(parts) => Solid(parts.0) && Solid(parts.1)
  }

  predicate UnpairedAs(r: Rec, role: char) {
    r.status == role && r.pair == UNPAIRED
  }

  /** fd_node lists the primaries, each once. */
  ghost predicate NodesArePrimaries(t: Table) {
    && NoDuplicates(t.fdNode)
    && (forall fd :: fd in t.fdNode <==> fd in t.recs && t.recs[fd].status == 'P')
  }

  ghost predicate RecOk(t: Table, fd: int)
    requires fd in t.recs
  {
    var r := t.recs[fd];
    && fd > 0 && fd in t.wire
    && r.status in {'n', 'P', 'R'}
    && (r.status == 'n' ==> r == UNKNOWN)
    && (r.status != 'n' ==> IsAddr(r.ipPort) && IsAddr(r.ipCache))
  }

  /** Pairing is symmetric and joins one primary to one replica. */
  ghost predicate PairOk(t: Table, fd: int)
    requires fd in t.recs
  {
    var r := t.recs[fd];
    r.pair != UNPAIRED ==>
      && r.pair in t.recs && t.recs[r.pair].pair == fd
      && (r.status == 'P' || r.status == 'R')
      && t.recs[r.pair].status == if r.status == 'P' then 'R' else 'P'
  }

  /** A live unpaired cache waits on its stack exactly once; no other live cache
      waits on any. */
  ghost predicate WaitsOnce(t: Table, fd: int)
    requires fd in t.recs
  {
    && multiset(t.pcache)[fd] == (if UnpairedAs(t.recs[fd], 'P') then 1 else 0)
    && multiset(t.rcache)[fd] == (if UnpairedAs(t.recs[fd], 'R') then 1 else 0)
  }

  ghost predicate CacheOk(t: Table, fd: int)
    requires fd in t.recs
  {
    RecOk(t, fd) && PairOk(t, fd) && WaitsOnce(t, fd)
  }

  ghost predicate StacksOk(t: Table) {
    && (forall fd :: fd in t.rcache ==> fd in t.recs)
    && (forall fd :: fd in t.pcache ==> fd in t.wire)
  }

  /** Everything but the ring. */
  ghost predicate TableOk(t: Table) {
    && NodesArePrimaries(t)
    && (forall fd :: fd in t.recs ==> CacheOk(t, fd))
    && StacksOk(t)
  }

  /** Every shard index on the ring has a primary. */
  ghost predicate RingOk(t: Table, shards: Shards) {
    t.nodes <= |t.fdNode| && IsSound(t.ring, shards, t.nodes)
  }

  lemma EmptyIsOk(shards: Shards)
    ensures TableOk(EMPTY) && RingOk(EMPTY, shards)
  {
  }

  // ---------- every event keeps the invariant ----------

  lemma CountPop(s: seq<int>, y: int)
    requires s != []
    ensures multiset(s)[y] == multiset(Pop(s))[y] + if Top(s) == y then 1 else 0
  {
    CountSnoc(Pop(s), Top(s), y);
    assert Pop(s) + [Top(s)] == s;
  }

  lemma CountPositive(s: seq<int>, x: int)
    ensures x in s <==> multiset(s)[x] > 0
  {
    assert x in s <==> x in multiset(s);
  }

  lemma AddrTextIsAddr(ip: string, port: string)
    requires Solid(ip) && Solid(port)
    ensures IsAddr(Sep(ip, port)) && Slice(Sep(ip, port)) == Some((ip, port))
  {
    SliceInvertsIff(ip, port);
  }

  lemma AcceptKeepsOk(t: Table, fd: int)
    requires TableOk(t) && fd > 0 && fd !in t.wire
    ensures TableOk(Accept(t, fd))
  {
    var t' := Accept(t, fd);
    assert fd !in t.recs;
    CountPositive(t.pcache, fd);
    CountPositive(t.rcache, fd);
    forall x | x in t'.recs
      ensures CacheOk(t', x)
    {
      assert x != fd ==> CacheOk(t, x);
    }
  }

  /** A waiting replica is live, so popping it is safe. */
  lemma TopReplicaIsLive(t: Table)
    requires TableOk(t) && t.rcache != []
    ensures Top(t.rcache) in t.recs && UnpairedAs(t.recs[Top(t.rcache)], 'R')
  {
    var r := Top(t.rcache);
    assert r in t.rcache;
    CountPositive(t.rcache, r);
    assert CacheOk(t, r);
  }

  lemma TopPrimaryIsWaiting(t: Table)
    requires TableOk(t) && t.pcache != [] && Top(t.pcache) in t.recs
    ensures UnpairedAs(t.recs[Top(t.pcache)], 'P')
  {
    var p := Top(t.pcache);
    assert p in t.pcache;
    CountPositive(t.pcache, p);
    assert CacheOk(t, p);
  }

  predicate SolidJoin(ip: string, clientPort: string, cachePort: string) {
    Solid(ip) && Solid(clientPort) && Solid(cachePort)
  }

  /** t' has fd enrolled in the given role, with the given pair. */
  ghost predicate Enrolled(t: Table, t': Table, fd: int, role: char, pair: int)
    requires fd in t.recs
  {
    && t'.recs.Keys == t.recs.Keys && t'.wire == t.wire
    && t'.recs[fd].status == role && t'.recs[fd].pair == pair
    && IsAddr(t'.recs[fd].ipPort) && IsAddr(t'.recs[fd].ipCache)
  }

  /** A join that finds a partner couples the two and takes the partner off its
      stack. */
  lemma CoupleKeepsCacheOk(t: Table, t': Table, fd: int, role: char, partner: int, x: int)
    requires fd in t.recs && partner in t.recs && x in t.recs && fd != partner
    requires CacheOk(t, fd) && CacheOk(t, partner) && CacheOk(t, x)
    requires (role == 'P' && UnpairedAs(t.recs[partner], 'R')) || (role == 'R' && UnpairedAs(t.recs[partner], 'P'))
    requires t.recs[fd] == UNKNOWN && Enrolled(t, t', fd, role, partner)
    requires t'.recs[partner] == t.recs[partner].(pair := fd)
    requires forall y :: y in t.recs && y != fd && y != partner ==> t'.recs[y] == t.recs[y]
    requires multiset(t'.pcache)[x] == multiset(t.pcache)[x] - if x == partner && role == 'R' then 1 else 0
    requires multiset(t'.rcache)[x] == multiset(t.rcache)[x] - if x == partner && role == 'P' then 1 else 0
    ensures CacheOk(t', x)
  {
    hide IsAddr;
  }

  /** A join that finds nobody waits on its own stack. */
  lemma WaitKeepsCacheOk(t: Table, t': Table, fd: int, role: char, x: int)
    requires fd in t.recs && x in t.recs && CacheOk(t, fd) && CacheOk(t, x)
    requires role == 'P' || role == 'R'
    requires t.recs[fd] == UNKNOWN && Enrolled(t, t', fd, role, UNPAIRED)
    requires forall y :: y in t.recs && y != fd ==> t'.recs[y] == t.recs[y]
    requires multiset(t'.pcache)[x] == multiset(t.pcache)[x] + if x == fd && role == 'P' then 1 else 0
    requires multiset(t'.rcache)[x] == multiset(t.rcache)[x] + if x == fd && role == 'R' then 1 else 0
    ensures CacheOk(t', x)
  {
    hide IsAddr;
  }

  lemma BeginPrimaryKeepsCaches(t: Table, fd: int, ip: string, clientPort: string, cachePort: string, x: int)
    requires TableOk(t) && fd in t.recs && t.recs[fd].status == 'n' && SolidJoin(ip, clientPort, cachePort)
    requires x in t.recs && (t.rcache != [] ==> Top(t.rcache) in t.recs)
    ensures CacheOk(BeginPrimary(t, fd, ip, clientPort, cachePort), x)
  {
    AddrTextIsAddr(ip, clientPort);
    AddrTextIsAddr(ip, cachePort);
    hide IsAddr, Sep, Solid;
    assert CacheOk(t, fd) && CacheOk(t, x);
    var t' := BeginPrimary(t, fd, ip, clientPort, cachePort);
    if t.rcache != [] {
      TopReplicaIsLive(t);
      assert CacheOk(t, Top(t.rcache));
      CountPop(t.rcache, x);
      CoupleKeepsCacheOk(t, t', fd, 'P', Top(t.rcache), x);
    } else {
      CountSnoc(t.pcache, fd, x);
      WaitKeepsCacheOk(t, t', fd, 'P', x);
    }
  }

  lemma BeginPrimaryKeepsOk(t: Table, fd: int, ip: string, clientPort: string, cachePort: string)
    requires TableOk(t) && fd in t.recs && t.recs[fd].status == 'n' && SolidJoin(ip, clientPort, cachePort)
    ensures t.rcache != [] ==> Top(t.rcache) in t.recs
    ensures TableOk(BeginPrimary(t, fd, ip, clientPort, cachePort))
  {
    if t.rcache != [] {
      TopReplicaIsLive(t);
    }
    assert CacheOk(t, fd) && fd !in t.fdNode;
    hide CacheOk, IsAddr, Sep, Solid;
    var t' := BeginPrimary(t, fd, ip, clientPort, cachePort);
    forall x | x in t'.recs
      ensures CacheOk(t', x)
    {
      BeginPrimaryKeepsCaches(t, fd, ip, clientPort, cachePort, x);
    }
  }

  /** Sending changes nothing but the wire. */
  lemma WireKeepsOk(t: Table, t': Table)
    requires TableOk(t) && t.wire.Keys <= t'.wire.Keys
    requires t'.recs == t.recs && t'.fdNode == t.fdNode && t'.pcache == t.pcache && t'.rcache == t.rcache
    ensures TableOk(t')
  {
    forall x | x in t'.recs
      ensures CacheOk(t', x)
    {
      assert CacheOk(t, x);
    }
  }

  lemma PrimaryIsListed(t: Table, fd: int)
    requires TableOk(t)
    ensures fd in t.fdNode ==> fd in t.recs && fd in t.wire && t.recs[fd].status == 'P' && fd > 0 && IsAddr(t.recs[fd].ipCache)
  {
    if fd in t.fdNode {
      assert CacheOk(t, fd);
    }
  }

  lemma EndPrimaryKeepsOk(t: Table, shards: Shards)
    requires TableOk(t) && t.fdNode != [] && RingOk(t, shards) && t.nodes == |t.fdNode| - 1
    ensures forall i :: 0 <= i < |t.fdNode| ==> t.fdNode[i] in t.recs
    ensures TableOk(EndPrimary(t, shards)) && RingOk(EndPrimary(t, shards), shards)
  {
    forall i | 0 <= i < |t.fdNode|
      ensures t.fdNode[i] in t.recs
    {
      PrimaryIsListed(t, t.fdNode[i]);
    }
    var t' := EndPrimary(t, shards);
    AddKeepsSound(t.ring, shards, t.nodes);
    WireKeepsOk(t, t');
  }

  lemma JoinReplicaKeepsCaches(t: Table, fd: int, ip: string, clientPort: string, cachePort: string, x: int)
    requires TableOk(t) && fd in t.recs && t.recs[fd].status == 'n' && SolidJoin(ip, clientPort, cachePort)
    requires x in t.recs && (t.pcache != [] ==> Top(t.pcache) in t.recs)
    ensures CacheOk(JoinReplica(t, fd, ip, clientPort, cachePort), x)
  {
    AddrTextIsAddr(ip, clientPort);
    AddrTextIsAddr(ip, cachePort);
    hide IsAddr, Sep, Solid;
    assert CacheOk(t, fd) && CacheOk(t, x);
    var t' := JoinReplica(t, fd, ip, clientPort, cachePort);
    if t.pcache != [] {
      TopPrimaryIsWaiting(t);
      assert CacheOk(t, Top(t.pcache));
      CountPop(t.pcache, x);
      CoupleKeepsCacheOk(t, t', fd, 'R', Top(t.pcache), x);
    } else {
      CountSnoc(t.rcache, fd, x);
      WaitKeepsCacheOk(t, t', fd, 'R', x);
    }
  }

  lemma JoinReplicaKeepsOk(t: Table, fd: int, ip: string, clientPort: string, cachePort: string)
    requires TableOk(t) && fd in t.recs && t.recs[fd].status == 'n' && SolidJoin(ip, clientPort, cachePort)
    requires t.pcache != [] ==> Top(t.pcache) in t.recs
    ensures TableOk(JoinReplica(t, fd, ip, clientPort, cachePort))
  {
    if t.pcache != [] {
      TopPrimaryIsWaiting(t);
    }
    assert CacheOk(t, fd);
    hide CacheOk, IsAddr, Sep, Solid;
    var t' := JoinReplica(t, fd, ip, clientPort, cachePort);
    forall x | x in t'.recs
      ensures CacheOk(t', x)
    {
      JoinReplicaKeepsCaches(t, fd, ip, clientPort, cachePort, x);
    }
  }

  lemma BeatKeepsOk(t: Table, fd: int)
    requires TableOk(t) && fd in t.recs
    ensures t.recs[fd].pair > UNPAIRED ==> t.recs[fd].pair in t.recs
    ensures TableOk(Beat(t, fd))
  {
    assert CacheOk(t, fd);
    WireKeepsOk(t, Beat(t, fd));
  }

  /** A heartbeat the master can handle: its fields are all there, and a replica
      finds no dead primary on top of the stack. */
  ghost predicate HeartbeatOk(t: Table, shards: Shards, fd: int, fields: seq<string>) {
    && TableOk(t) && RingOk(t, shards) && t.nodes == |t.fdNode| && fd in t.recs
    && |fields| >= 5 && SolidJoin(fields[1], fields[2], fields[3]) && fields[4] != ""
    && (t.recs[fd].status == 'n' && fields[4] == "R" && t.pcache != [] ==> Top(t.pcache) in t.recs)
  }

  lemma BeginPrimaryIsDefined(t: Table, shards: Shards, fd: int, fields: seq<string>)
    requires HeartbeatOk(t, shards, fd, fields) && t.recs[fd].status == 'n'
    ensures t.rcache != [] ==> Top(t.rcache) in t.recs
    ensures var t1 := BeginPrimary(t, fd, fields[1], fields[2], fields[3]);
            && TableOk(t1) && RingOk(t1, shards) && t1.fdNode != [] && NoDuplicates(t1.fdNode)
            && t1.nodes == |t1.fdNode| - 1
            && forall i :: 0 <= i < |t1.fdNode| ==> t1.fdNode[i] in t1.recs && t1.fdNode[i] in t1.wire
  {
    BeginPrimaryKeepsOk(t, fd, fields[1], fields[2], fields[3]);
    var t1 := BeginPrimary(t, fd, fields[1], fields[2], fields[3]);
    forall i | 0 <= i < |t1.fdNode|
      ensures t1.fdNode[i] in t1.recs && t1.fdNode[i] in t1.wire
    {
      PrimaryIsListed(t1, t1.fdNode[i]);
    }
  }

  /** What a heartbeat does to the tables, its answer aside. A role that is neither
      "P" nor "R" is written down, and that is all. */
  ghost function OnHeartbeat(t: Table, shards: Shards, fd: int, fields: seq<string>): Table
    requires HeartbeatOk(t, shards, fd, fields)
  {
    if t.recs[fd].status != 'n' then t
    else if fields[4] == "P" then
      BeginPrimaryIsDefined(t, shards, fd, fields);
      EndPrimary(BeginPrimary(t, fd, fields[1], fields[2], fields[3]), shards)
    else if fields[4] == "R" then JoinReplica(t, fd, fields[1], fields[2], fields[3])
    else Enroll(t, fd, fields[4][0], fields[1], fields[2], fields[3])
  }

  lemma OnHeartbeatKeepsOk(t: Table, shards: Shards, fd: int, fields: seq<string>)
    requires HeartbeatOk(t, shards, fd, fields)
    requires t.recs[fd].status == 'n' ==> fields[4] in {"P", "R"}
    ensures var t' := OnHeartbeat(t, shards, fd, fields);
            TableOk(t') && RingOk(t', shards) && t'.nodes == |t'.fdNode| && fd in t'.recs
  {
    if t.recs[fd].status == 'n' {
      if fields[4] == "P" {
        BeginPrimaryIsDefined(t, shards, fd, fields);
        EndPrimaryKeepsOk(BeginPrimary(t, fd, fields[1], fields[2], fields[3]), shards);
      } else {
        JoinReplicaKeepsOk(t, fd, fields[1], fields[2], fields[3]);
      }
    }
  }

  /** Whatever the role, the answer finds the records it names. */
  lemma HeartbeatCanBeAnswered(t: Table, shards: Shards, fd: int, fields: seq<string>)
    requires HeartbeatOk(t, shards, fd, fields)
    ensures var t' := OnHeartbeat(t, shards, fd, fields);
            fd in t'.recs && fd in t'.wire && (t'.recs[fd].pair > UNPAIRED ==> t'.recs[fd].pair in t'.recs)
  {
    assert CacheOk(t, fd);
    if t.recs[fd].status != 'n' || fields[4] in {"P", "R"} {
      OnHeartbeatKeepsOk(t, shards, fd, fields);
      assert CacheOk(OnHeartbeat(t, shards, fd, fields), fd);
    }
  }

  /** The source tells a first heartbeat by the address still being "0". */
  lemma KnownByAddress(t: Table, fd: int)
    requires TableOk(t) && fd in t.recs
    ensures t.recs[fd].ipPort == "0" <==> t.recs[fd].status == 'n'
  {
    assert CacheOk(t, fd);
    assert FirstHash("0") == 1;
  }

  lemma LoseReplicaKeepsOk(t: Table, fd: int)
    requires TableOk(t) && fd in t.recs && t.recs[fd].status == 'R' && t.recs[fd].pair != UNPAIRED
    ensures t.recs[fd].pair in t.recs && TableOk(LoseReplica(t, fd))
  {
    assert CacheOk(t, fd);
    var t', pair := LoseReplica(t, fd), t.recs[fd].pair;
    assert CacheOk(t, pair);
    CountPositive(t.rcache, fd);
    forall x | x in t'.recs
      ensures CacheOk(t', x)
    {
      assert CacheOk(t, x);
      CountSnoc(t.pcache, pair, x);
    }
  }

  lemma AddrHasHash(text: string)
    requires IsAddr(text)
    ensures FirstHash(text) < |text|
  {
  }

  lemma FailoverIsDefined(t: Table, fd: int)
    requires TableOk(t) && fd in t.recs && t.recs[fd].status == 'P' && t.recs[fd].pair != UNPAIRED
    ensures FailoverIsPossible(t, fd)
  {
    assert CacheOk(t, fd);
    assert CacheOk(t, t.recs[fd].pair);
    AddrHasHash(t.recs[fd].ipCache);
  }

  lemma FailoverKeepsNodes(t: Table, fd: int)
    requires FailoverIsPossible(t, fd) && NodesArePrimaries(t) && t.recs[fd].pair !in t.fdNode
    ensures NodesArePrimaries(Failover(t, fd))
  {
    var t', backup, i := Failover(t, fd), t.recs[fd].pair, IndexOf(t.fdNode, fd);
    forall x
      ensures x in t'.fdNode <==> x in t'.recs && t'.recs[x].status == 'P'
    {
      if x in t.fdNode && x != fd {
        var j :| 0 <= j < |t.fdNode| && t.fdNode[j] == x;
        assert t'.fdNode[j] == x;
      }
      assert t'.fdNode[i] == backup;
    }
  }

  lemma FailoverKeepsOk(t: Table, fd: int)
    requires TableOk(t) && fd in t.recs && t.recs[fd].status == 'P' && t.recs[fd].pair != UNPAIRED
    requires FailoverIsPossible(t, fd)
    ensures TableOk(Failover(t, fd))
  {
    assert CacheOk(t, fd);
    var t', backup := Failover(t, fd), t.recs[fd].pair;
    assert CacheOk(t, backup) && backup !in t.fdNode;
    FailoverKeepsNodes(t, fd);
    CountPositive(t.rcache, fd);
    forall x | x in t'.recs
      ensures CacheOk(t', x)
    {
      assert CacheOk(t, x);
      CountSnoc(t.pcache, backup, x);
    }
  }

  /** Everybody a promotion is announced to can be written to. */
  lemma FailoverIsSendable(t: Table, fd: int)
    requires TableOk(t) && fd in t.recs && t.recs[fd].status == 'P' && t.recs[fd].pair != UNPAIRED
    requires FailoverIsPossible(t, fd)
    ensures var fdNode := t.fdNode[IndexOf(t.fdNode, fd) := t.recs[fd].pair];
            NoDuplicates(fdNode) && forall i :: 0 <= i < |fdNode| ==> fdNode[i] in t.wire
    ensures t.recs[fd].pair != fd
  {
    FailoverKeepsOk(t, fd);
    assert CacheOk(t, fd);
    var t' := Failover(t, fd);
    forall i | 0 <= i < |t'.fdNode|
      ensures t'.fdNode[i] in t.wire
    {
      PrimaryIsListed(t', t'.fdNode[i]);
    }
  }

  /** Whatever a dead cache was, the detector finds the records it needs. */
  lemma DeathIsDefined(t: Table, fd: int)
    requires TableOk(t) && fd in t.recs
    ensures t.recs[fd].status in {'n', 'P', 'R'} && t.recs[fd].pair != fd
    ensures NoDuplicates(t.fdNode) && forall i :: 0 <= i < |t.fdNode| ==> t.fdNode[i] in t.wire
    ensures t.recs[fd].status == 'P' ==> fd in t.fdNode
    ensures t.recs[fd].pair != UNPAIRED ==> t.recs[fd].pair in t.recs && t.recs[fd].pair > 0
    ensures t.recs[fd].status == 'P' && t.recs[fd].pair != UNPAIRED ==> FailoverIsPossible(t, fd)
  {
    assert CacheOk(t, fd);
    if t.recs[fd].pair != UNPAIRED {
      assert CacheOk(t, t.recs[fd].pair);
    }
    if t.recs[fd].status == 'P' && t.recs[fd].pair != UNPAIRED {
      FailoverIsDefined(t, fd);
    }
    forall i | 0 <= i < |t.fdNode|
      ensures t.fdNode[i] in t.wire
    {
      PrimaryIsListed(t, t.fdNode[i]);
    }
  }

  lemma RemovedMembers<T>(s: seq<T>, i: nat, x: T)
    requires i < |s| && NoDuplicates(s)
    ensures x in Removed(s, i) <==> x in s && x != s[i]
    ensures NoDuplicates(Removed(s, i))
  {
    var r := Removed(s, i);
    assert forall j :: 0 <= j < |r| ==> r[j] == if j < i then s[j] else s[j + 1];
    if x in s && x != s[i] {
      var j :| 0 <= j < |s| && s[j] == x;
      assert r[if j < i then j else j - 1] == x;
    }
  }

  lemma LosePrimaryKeepsOk(t: Table, fd: int, shards: Shards)
    requires TableOk(t) && RingOk(t, shards) && t.nodes == |t.fdNode|
    requires fd in t.fdNode && fd in t.recs && t.recs[fd].pair == UNPAIRED
    ensures TableOk(LosePrimary(t, fd, shards)) && RingOk(LosePrimary(t, fd, shards), shards)
  {
    var index := IndexOf(t.fdNode, fd);
    var t' := LosePrimary(t, fd, shards);
    DeleteKeepsSound(t.ring, shards, t.nodes, index);
    forall x
      ensures x in t'.fdNode <==> x in t'.recs && t'.recs[x].status == 'P'
      ensures NoDuplicates(t'.fdNode)
    {
      RemovedMembers(t.fdNode, index, x);
    }
    assert CacheOk(t, fd);
    CountPositive(t.rcache, fd);
    forall x | x in t'.recs
      ensures CacheOk(t', x)
    {
      assert CacheOk(t, x);
    }
  }

  /** The stack of waiting primaries is not cleaned up: a lost one stays on it,
      and the next replica to join is only safe when it is not on top. */
  lemma LostPrimaryStaysOnStack(t: Table, fd: int, shards: Shards)
    requires TableOk(t) && t.nodes == |t.fdNode|
    requires fd in t.fdNode && fd in t.recs && t.recs[fd].pair == UNPAIRED
    ensures var t' := LosePrimary(t, fd, shards);
            fd in t'.pcache && fd !in t'.recs
            && (Top(t'.pcache) in t'.recs <==> Top(t.pcache) in t.recs && Top(t.pcache) != fd)
  {
    assert CacheOk(t, fd);
    CountPositive(t.pcache, fd);
  }

  /** A shrunk primary stays on the stack too, when it has no replica. */
  lemma ShrunkPrimaryStaysOnStack(t: Table)
    requires TableOk(t) && t.fdNode != [] && Top(t.fdNode) in t.recs && t.recs[Top(t.fdNode)].pair == UNPAIRED
    ensures var t', fd := EndShrink(t), Top(t.fdNode);
            fd in t'.pcache && fd !in t'.recs
            && (Top(t'.pcache) in t'.recs <==> Top(t.pcache) in t.recs && Top(t.pcache) != fd)
  {
    var fd := Top(t.fdNode);
    assert fd in t.fdNode;
    assert CacheOk(t, fd);
    CountPositive(t.pcache, fd);
  }

  lemma LoseUnknownKeepsOk(t: Table, fd: int)
    requires TableOk(t) && fd in t.recs && t.recs[fd].status == 'n'
    ensures TableOk(LoseUnknown(t, fd))
  {
    assert CacheOk(t, fd);
    CountPositive(t.rcache, fd);
    forall x | x in LoseUnknown(t, fd).recs
      ensures CacheOk(LoseUnknown(t, fd), x)
    {
      assert CacheOk(t, x);
    }
  }

  lemma BeginShrinkKeepsOk(t: Table, shards: Shards)
    requires TableOk(t) && RingOk(t, shards) && t.nodes == |t.fdNode| > 0
    ensures Top(t.fdNode) in t.recs
    ensures TableOk(BeginShrink(t, shards)) && RingOk(BeginShrink(t, shards), shards)
  {
    PrimaryIsListed(t, Top(t.fdNode));
    DeleteKeepsSound(t.ring, shards, t.nodes, |t.fdNode| - 1);
    WireKeepsOk(t, BeginShrink(t, shards));
  }

  lemma EndShrinkKeepsOk(t: Table, shards: Shards)
    requires TableOk(t) && RingOk(t, shards) && t.fdNode != [] && t.nodes == |t.fdNode| - 1
    ensures Top(t.fdNode) in t.recs
    ensures TableOk(EndShrink(t)) && RingOk(EndShrink(t), shards)
  {
    var fd := Top(t.fdNode);
    PrimaryIsListed(t, fd);
    assert CacheOk(t, fd);
    var t', pair := EndShrink(t), t.recs[fd].pair;
    assert Pop(t.fdNode) == Removed(t.fdNode, |t.fdNode| - 1);
    forall x
      ensures x in t'.fdNode <==> x in t'.recs && t'.recs[x].status == 'P'
      ensures NoDuplicates(t'.fdNode)
    {
      RemovedMembers(t.fdNode, |t.fdNode| - 1, x);
    }
    CountPositive(t.rcache, fd);
    CountPositive(t.rcache, pair);
    if pair != UNPAIRED {
      assert CacheOk(t, pair);
    }
    forall x | x in t'.recs
      ensures CacheOk(t', x)
    {
      assert CacheOk(t, x);
    }
  }

  // ---------- routing ----------

  /** The primary that serves a key. */
  function Route(t: Table, key: string): int
    requires t.ring != map[] && ShardOf(t.ring, Hash(key)) < |t.fdNode|
  {
    t.fdNode[ShardOf(t.ring, Hash(key))]
  }

  /** Lookups stay inside the table and reach a live primary, even in the middle
      of a join or a shrink, when the table has one primary more than the ring
      has shards. */
  lemma LookupIsSafe(t: Table, shards: Shards, key: string)
    requires TableOk(t) && RingOk(t, shards) && t.ring != map[]
    ensures ShardOf(t.ring, Hash(key)) < t.nodes <= |t.fdNode|
    ensures Route(t, key) in t.recs && t.recs[Route(t, key)].status == 'P' && IsAddr(t.recs[Route(t, key)].ipPort)
  {
    ShardIsBelow(t.ring, shards, t.nodes, Hash(key));
    assert CacheOk(t, Route(t, key));
  }

  /** What a client that asks for a key is told: the client address of the primary
      the key is routed to, with a colon. */
  ghost predicate IsAnswer(t: Table, key: string, address: string) {
    && t.ring != map[] && ShardOf(t.ring, Hash(key)) < |t.fdNode| && Route(t, key) in t.recs
    && exists ip, port :: Solid(ip) && Solid(port)
         && t.recs[Route(t, key)].ipPort == Sep(ip, port) && address == ip + ":" + port
  }

  /** Failover preserves routing: the keys of the lost primary go to its replica,
      every other key keeps its server. */
  lemma FailoverPreservesRouting(t: Table, fd: int, shards: Shards, key: string)
    requires TableOk(t) && RingOk(t, shards) && t.ring != map[]
    requires fd in t.recs && t.recs[fd].status == 'P' && t.recs[fd].pair != UNPAIRED
    ensures FailoverIsPossible(t, fd) && Failover(t, fd).ring == t.ring
    ensures ShardOf(t.ring, Hash(key)) < |t.fdNode| == |Failover(t, fd).fdNode|
    ensures Route(Failover(t, fd), key) == if Route(t, key) == fd then t.recs[fd].pair else Route(t, key)
  {
    FailoverIsDefined(t, fd);
    LookupIsSafe(t, shards, key);
  }

  /** Minimal disruption of a join: a key keeps its server or moves to the new one. */
  lemma JoinDisruptsLittle(t: Table, shards: Shards, key: string)
    requires TableOk(t) && t.fdNode != [] && t.nodes == |t.fdNode| - 1 > 0 && shards(0) != {}
    requires IsFresh(t.ring, shards, t.nodes)
    requires forall i :: 0 <= i < |t.fdNode| ==> t.fdNode[i] in t.recs
    ensures t.ring != map[] && EndPrimary(t, shards).ring != map[]
    ensures ShardOf(t.ring, Hash(key)) < |t.fdNode| && ShardOf(EndPrimary(t, shards).ring, Hash(key)) < |t.fdNode|
    ensures Route(EndPrimary(t, shards), key) in {Top(t.fdNode), Route(t, key)}
  {
    AddDisruptsLittle(t.ring, shards, t.nodes, Hash(key));
    AddKeepsFresh(t.ring, shards, t.nodes);
    ShardIsBelow(t.ring, shards, t.nodes, Hash(key));
    ShardIsBelow(EndPrimary(t, shards).ring, shards, t.nodes + 1, Hash(key));
  }

  lemma FreshShardIsBelow(ring: Points, shards: Shards, n: nat, h: Word)
    requires ring != map[] && IsFresh(ring, shards, n)
    ensures ShardOf(ring, h) < n
  {
    ShardIsBelow(ring, shards, n, h);
  }

  /** Minimal disruption when the primary at position p is removed: a key that is
      not on the highest shard keeps its shard, so it keeps its server exactly
      when its shard is below p, and otherwise moves to the next server. */
  lemma RemovalDisruptsLittle(t: Table, fd: int, shards: Shards, key: string)
    requires TableOk(t) && fd in t.fdNode && fd in t.recs
    requires t.nodes == |t.fdNode| > 1 && shards(0) != {}
    requires IsFresh(t.ring, shards, t.nodes)
    requires DeletionIsClean(shards, t.nodes, IndexOf(t.fdNode, fd))
    ensures t.ring != map[] && LosePrimary(t, fd, shards).ring != map[]
    ensures ShardOf(t.ring, Hash(key)) < |t.fdNode|
    ensures ShardOf(LosePrimary(t, fd, shards).ring, Hash(key)) < |t.fdNode| - 1
    ensures var shard, p := ShardOf(t.ring, Hash(key)), IndexOf(t.fdNode, fd);
            shard != t.nodes - 1 ==>
              && Route(LosePrimary(t, fd, shards), key) == t.fdNode[if shard < p then shard else shard + 1]
              && (Route(LosePrimary(t, fd, shards), key) == Route(t, key) <==> shard < p)
  {
    hide CacheOk, StacksOk, IsFresh, IsSound, AfterDelete, DeletionIsClean, Hash, ShardOf, Post, IndexOf;
    var p := IndexOf(t.fdNode, fd);
    DeleteDisruptsLittle(t.ring, shards, t.nodes, p, Hash(key));
    CleanDeleteIsFresh(t.ring, shards, t.nodes, p);
    FreshShardIsBelow(t.ring, shards, t.nodes, Hash(key));
    FreshShardIsBelow(AfterDelete(t.ring, shards, t.nodes, p), shards, t.nodes - 1, Hash(key));
  }

  // ---------- a removal is one step for a reason ----------

  /** The source takes the primary out of the table before its shard is off the
      ring, without a lock. A lookup in between is past the end of the table
      exactly when its key is on the highest shard. */
  lemma LookupInHalfRemovalIff(t: Table, shards: Shards, key: string, i: nat)
    requires t.nodes == |t.fdNode| && i < |t.fdNode| && t.ring != map[]
    requires IsSound(t.ring, shards, t.nodes)
    ensures ShardOf(t.ring, Hash(key)) < |Removed(t.fdNode, i)| <==> ShardOf(t.ring, Hash(key)) != t.nodes - 1
  {
    ShardIsBelow(t.ring, shards, t.nodes, Hash(key));
  }

  lemma ShardOfIsOnRing(ring: Points, h: Word)
    requires ring != map[]
    ensures ShardOf(ring, h) in ring.Values
  {
    NonEmptyKeys(ring);
    SuccessorIsNearest(ring.Keys, h, 0);
    assert ring[Successor(ring.Keys, h)] == ShardOf(ring, h);
  }

  /** A key that is routed to a given point: the name of its virtual node. */
  lemma KeyAt(t: Table, v: nat, x: Word) returns (key: string)
    requires IsSound(t.ring, HashedShards(v), t.nodes) && x in t.ring
    ensures Hash(key) == x && t.ring != map[] && ShardOf(t.ring, Hash(key)) == t.ring[x]
  {
    var j: nat :| j < v && Place(t.ring[x], j) == x;
    key := NodeName(t.ring[x], j);
    PointFindsItself(t.ring, x);
  }

  /** There is such a key exactly when the highest shard has a point on the ring. */
  lemma RemovalInHalvesIsUnsafeIff(t: Table, v: nat, i: nat)
    requires t.nodes == |t.fdNode| && i < |t.fdNode| && t.ring != map[]
    requires IsSound(t.ring, HashedShards(v), t.nodes)
    ensures (exists key: string :: ShardOf(t.ring, Hash(key)) >= |Removed(t.fdNode, i)|)
            <==> t.nodes - 1 in t.ring.Values
  {
    hide Hash, ShardOf, IsSound, HashedShards;
    if t.nodes - 1 in t.ring.Values {
      var x :| x in t.ring && t.ring[x] == t.nodes - 1;
      var key := KeyAt(t, v, x);
      assert ShardOf(t.ring, Hash(key)) >= |Removed(t.fdNode, i)|;
    }
    if key: string :| ShardOf(t.ring, Hash(key)) >= |Removed(t.fdNode, i)| {
      LookupInHalfRemovalIff(t, HashedShards(v), key, i);
      ShardOfIsOnRing(t.ring, Hash(key));
    }
  }

  /** On a ring built from nothing whose shards share no point there always is
      one: the name of a virtual node of the highest shard. */
  lemma RemovalInHalvesIsUnsafe(t: Table, v: nat, i: nat)
    requires t.nodes == |t.fdNode| && i < |t.fdNode| && v > 0
    requires IsFresh(t.ring, HashedShards(v), t.nodes) && ShardsApart(HashedShards(v), t.nodes)
    ensures t.ring != map[]
    ensures ShardOf(t.ring, Hash(NodeName(t.nodes - 1, 0))) == t.nodes - 1 >= |Removed(t.fdNode, i)|
  {
    var shards, x, highest := HashedShards(v), Place(t.nodes - 1, 0), t.nodes - 1;
    assert x in ShardPoints(highest, v);
    assert x in shards(highest) && x in t.ring;
    if t.ring[x] != highest {
      assert !Shared(shards, t.ring[x], highest);
      NotShared(shards, t.ring[x], highest, x);
    }
    PointFindsItself(t.ring, x);
  }
}
