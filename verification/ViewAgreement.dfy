/** The caches' views follow the master's table: what is still queued for a cache
    makes up exactly for what its list is behind. */
module ViewAgreement {
  import opened Options
  import opened Murmur
  import opened Ring
  import opened Wire
  import opened CacheView
  import opened MasterModel
  import opened Protocol

  // ---------- one cache and its queue ----------

  /** Once everything in the queue is read, the cache has this list, and is a
      primary or has been told to die. Nothing on the way throws or is undefined. */
  ghost predicate Tracks(v: View, queue: seq<string>, list: seq<Addr>, self: Addr, killed: bool) {
    var w := Fold(v, queue);
    && w.Some?
    && w.value.ready && w.value.list == list && w.value.self == self
    && w.value.status == (if killed then "K" else "P")
    && (v.status == "K" ==> v.ready)
  }

  lemma NewArrives(v: View, queue: seq<string>, list: seq<Addr>, self: Addr, a: Addr)
    requires Tracks(v, queue, list, self, false) && CleanAddr(a) && a != self
    ensures Tracks(v, queue + [NewText(a)], list + [a], self, false)
  {
    FoldSnoc(v, queue, NewText(a));
    ReadNew(Fold(v, queue).value, a);
  }

  lemma OwnNewArrives(v: View, queue: seq<string>, list: seq<Addr>, self: Addr)
    requires Tracks(v, queue, list, self, false) && CleanAddr(self)
    ensures Tracks(v, queue + [NewText(self)], list, self, false)
  {
    FoldSnoc(v, queue, NewText(self));
    ReadNew(Fold(v, queue).value, self);
  }

  lemma DeadArrives(v: View, queue: seq<string>, list: seq<Addr>, self: Addr, i: nat)
    requires Tracks(v, queue, list, self, false)
    requires i < |list| && NoDuplicates(list) && CleanAddr(list[i])
    ensures Tracks(v, queue + [DeadText(list[i])], Removed(list, i), self, false)
  {
    FoldSnoc(v, queue, DeadText(list[i]));
    ReadDead(Fold(v, queue).value, list[i]);
    EraseAt(list, i);
  }

  lemma KillArrives(v: View, queue: seq<string>, list: seq<Addr>, self: Addr, i: nat)
    requires Tracks(v, queue, list, self, false)
    requires i < |list| && NoDuplicates(list) && CleanAddr(list[i])
    ensures Tracks(v, queue + [KillText(list[i])], Removed(list, i), self, list[i] == self)
  {
    FoldSnoc(v, queue, KillText(list[i]));
    ReadKill(Fold(v, queue).value, list[i]);
    EraseAt(list, i);
  }

  lemma ReplyArrives(v: View, queue: seq<string>, list: seq<Addr>, self: Addr, killed: bool, pair: Option<Addr>)
    requires Tracks(v, queue, list, self, killed) && (pair.Some? ==> CleanAddr(pair.value))
    ensures Tracks(v, queue + [['P'] + "#" + PairText(pair)], list, self, killed)
  {
    FoldSnoc(v, queue, ['P'] + "#" + PairText(pair));
    ReadReply(Fold(v, queue).value, 'P', pair);
  }

  /** A newcomer reads the whole list first; its own announcement adds nothing. */
  lemma InitArrives(list: seq<Addr>, self: Addr)
    requires list != [] && CleanAddr(self) && forall a :: a in list ==> CleanAddr(a)
    ensures Tracks(Fresh(self, "P"), [Join(AddrTexts(list))], list, self, false)
  {
    InitRoundTripIff(list);
    var v, m := Fresh(self, "P"), Join(AddrTexts(list));
    assert [m][1..] == [];
    assert "P"[0] != "R"[0] && "P"[0] != "K"[0];
    assert [] + list == list;
    assert Receive(v, m) == Some(v.(ready := true, list := list));
    assert Fold(v.(ready := true, list := list), []) == Some(v.(ready := true, list := list));
  }

  /** Reading one message leaves the rest to be read. */
  lemma Delivered(v: View, queue: seq<string>, list: seq<Addr>, self: Addr, killed: bool)
    requires queue != [] && Tracks(v, queue, list, self, killed)
    ensures Receive(v, queue[0]).Some? && Tracks(Receive(v, queue[0]).value, queue[1..], list, self, killed)
  {
  }

  /** A cache that knows it is to die has read all that matters. */
  lemma {:induction false} KilledIsUpToDate(v: View, queue: seq<string>)
    requires v.ready && v.status == "K" && Fold(v, queue).Some?
    ensures Fold(v, queue) == Some(v)
    decreases |queue|
  {
    if queue == [] {
    } else {
      KilledIsUpToDate(v, queue[1..]);
    }
  }

  // ---------- addresses of the table ----------

  function AddrOf(text: string): Addr {
    match Slice(text)
    case None => NOBODY
    case Some(parts) => Addr(parts.0, parts.1)
  }

  function CacheAddr(recs: map<int, Rec>, fd: int): Addr {
    if fd in recs then AddrOf(recs[fd].ipCache) else NOBODY
  }

  function Addrs(recs: map<int, Rec>, fds: seq<int>): (r: seq<Addr>)
    ensures |r| == |fds|
    ensures forall i :: 0 <= i < |fds| ==> r[i] == CacheAddr(recs, fds[i])
  {
    if fds == [] then [] else [CacheAddr(recs, fds[0])] + Addrs(recs, fds[1..])
  }

  lemma AddrOfText(text: string)
    requires IsAddr(text)
    ensures CleanAddr(AddrOf(text)) && AddrText(AddrOf(text)) == text
  {
    var n := FirstHash(text);
    assert text == text[..n] + [text[n]] + text[n + 1..];
  }

  lemma {:induction false} TextsAreAddrTexts(recs: map<int, Rec>, fds: seq<int>)
    requires forall i :: 0 <= i < |fds| ==> fds[i] in recs && IsAddr(recs[fds[i]].ipCache)
    ensures Texts(recs, fds) == AddrTexts(Addrs(recs, fds))
    ensures forall a :: a in Addrs(recs, fds) ==> CleanAddr(a)
  {
    if fds == [] {
    } else {
      AddrOfText(recs[fds[0]].ipCache);
      TextsAreAddrTexts(recs, fds[1..]);
    }
  }

  lemma SameAddrs(recs: map<int, Rec>, recs': map<int, Rec>, fds: seq<int>)
    requires forall i :: 0 <= i < |fds| ==> CacheAddr(recs, fds[i]) == CacheAddr(recs', fds[i])
    ensures Addrs(recs, fds) == Addrs(recs', fds)
  {
  }

  lemma AddrsWithout(recs: map<int, Rec>, fds: seq<int>, i: nat)
    requires i < |fds|
    ensures Addrs(recs, Removed(fds, i)) == Removed(Addrs(recs, fds), i)
  {
  }

  lemma AddrsSnoc(recs: map<int, Rec>, fds: seq<int>, fd: int)
    ensures Addrs(recs, fds + [fd]) == Addrs(recs, fds) + [CacheAddr(recs, fd)]
  {
  }

  // ---------- the invariant ----------

  /** The list every cache is on its way to. A newcomer counts once it has been
      announced, a killed cache until it has been announced. */
  function Expected(s: State): seq<Addr> {
    if s.phase.Stable? || s.table.fdNode == [] then Addrs(s.table.recs, s.table.fdNode)
    else Addrs(s.table.recs, Pop(s.table.fdNode))
  }

  predicate IsNewcomer(s: State, fd: int) {
    s.phase.Joining? && s.table.fdNode != [] && fd == Top(s.table.fdNode)
  }

  predicate IsKilled(s: State, fd: int) {
    s.phase.Shrinking? && s.table.fdNode != [] && fd == Top(s.table.fdNode)
  }

  ghost predicate ViewOk(s: State, fd: int) {
    var self := CacheAddr(s.table.recs, fd);
    && fd in s.views && fd in s.table.wire
    && if IsNewcomer(s, fd) then s.views[fd] == Fresh(self, "P") && s.table.wire[fd] == []
       else Tracks(s.views[fd], s.table.wire[fd], Expected(s), self, IsKilled(s, fd))
  }

  ghost predicate ViewsOk(s: State) {
    && NoDuplicates(Addrs(s.table.recs, s.table.fdNode))
    && (forall fd :: fd in s.table.fdNode ==> ViewOk(s, fd))
    && (forall fd :: fd in s.table.recs && s.table.recs[fd].status == 'n' ==> fd in s.table.wire && s.table.wire[fd] == [])
  }

  /** The events the agreement is about: no promotion of a replica, and a new
      primary does not reuse the address of a live one. */
  predicate Orderly(s: State, step: Step) {
    match step
    case FailoverStep(_) => false
    case BeginPrimaryStep(_, ip, _, cachePort) => Addr(ip, cachePort) !in Addrs(s.table.recs, s.table.fdNode)
    case _ => true
  }

  lemma StartViewsOk()
    ensures ViewsOk(START)
  {
  }

  lemma PrimaryAddr(s: State, fd: int)
    requires MasterOk(s) && fd in s.table.fdNode
    ensures fd in s.table.recs && fd in s.table.wire && IsAddr(s.table.recs[fd].ipCache)
    ensures s.table.recs[fd].status == 'P' && fd > 0
    ensures CleanAddr(CacheAddr(s.table.recs, fd))
    ensures AddrText(CacheAddr(s.table.recs, fd)) == s.table.recs[fd].ipCache
  {
    PrimaryIsListed(s.table, fd);
    AddrOfText(s.table.recs[fd].ipCache);
  }

  /** The pair an answer to a heartbeat names. */
  lemma NamedPair(s: State, fd: int) returns (pair: Option<Addr>)
    requires MasterOk(s) && fd in s.table.recs
    ensures s.table.recs[fd].pair > UNPAIRED ==> s.table.recs[fd].pair in s.table.recs
    ensures pair.Some? ==> CleanAddr(pair.value)
    ensures ReplyText(s.table.recs, fd) == [s.table.recs[fd].status] + "#" + PairText(pair)
  {
    var other := s.table.recs[fd].pair;
    assert CacheOk(s.table, fd);
    pair := None;
    if other > UNPAIRED {
      assert CacheOk(s.table, other);
      AddrOfText(s.table.recs[other].ipCache);
      pair := Some(AddrOf(s.table.recs[other].ipCache));
    }
  }

  // ---------- every orderly event keeps the views in agreement ----------

  /** What a view has to be compared with, spelled out. */
  ghost predicate Agrees(s: State, fd: int, list: seq<Addr>, killed: bool) {
    && fd in s.views && fd in s.table.wire
    && Tracks(s.views[fd], s.table.wire[fd], list, CacheAddr(s.table.recs, fd), killed)
  }

  lemma AgreementIsViewOk(s: State, fd: int)
    requires !IsNewcomer(s, fd)
    ensures ViewOk(s, fd) <==> Agrees(s, fd, Expected(s), IsKilled(s, fd))
  {
  }

  /** The addresses of fds are the same in both tables. */
  lemma StableAddrs(s: State, recs': map<int, Rec>, fds: seq<int>)
    requires MasterOk(s) && forall fd :: fd in fds ==> fd in s.table.fdNode
    requires forall fd :: fd in fds ==> fd in recs' && recs'[fd].ipCache == s.table.recs[fd].ipCache
    ensures Addrs(recs', fds) == Addrs(s.table.recs, fds)
  {
    forall i | 0 <= i < |fds|
      ensures CacheAddr(recs', fds[i]) == CacheAddr(s.table.recs, fds[i])
    {
      assert fds[i] in fds;
      PrimaryAddr(s, fds[i]);
    }
    SameAddrs(s.table.recs, recs', fds);
  }

  lemma MembersOfPop(fds: seq<int>, x: int)
    requires fds != [] && NoDuplicates(fds)
    ensures x in Pop(fds) <==> x in fds && x != Top(fds)
    ensures Pop(fds) == Removed(fds, |fds| - 1)
  {
    RemovedMembers(fds, |fds| - 1, x);
    assert Pop(fds) == Removed(fds, |fds| - 1);
  }

  // ----- events that leave the primaries, their queues and their views alone

  ghost predicate SameFor(s: State, s': State, fd: int) {
    && fd in s.views && fd in s'.views && s'.views[fd] == s.views[fd]
    && fd in s.table.wire && fd in s'.table.wire && s'.table.wire[fd] == s.table.wire[fd]
    && fd in s.table.recs && fd in s'.table.recs && s'.table.recs[fd].ipCache == s.table.recs[fd].ipCache
  }

  ghost predicate UnknownsAreQuiet(s: State) {
    forall fd :: fd in s.table.recs && s.table.recs[fd].status == 'n' ==> fd in s.table.wire && s.table.wire[fd] == []
  }

  lemma QuietKeepsAddrs(s: State, s': State)
    requires MasterOk(s) && s'.phase == s.phase && s'.table.fdNode == s.table.fdNode
    requires forall fd :: fd in s.table.fdNode ==> SameFor(s, s', fd)
    ensures Addrs(s'.table.recs, s'.table.fdNode) == Addrs(s.table.recs, s.table.fdNode)
    ensures Expected(s') == Expected(s)
  {
    hide MasterOk, AddrOf;
    StableAddrs(s, s'.table.recs, s.table.fdNode);
    if s.table.fdNode != [] {
      assert forall fd :: fd in Pop(s.table.fdNode) ==> fd in s.table.fdNode;
      StableAddrs(s, s'.table.recs, Pop(s.table.fdNode));
    }
  }

  lemma SameForKeepsViewOk(s: State, s': State, fd: int)
    requires ViewOk(s, fd) && SameFor(s, s', fd) && Expected(s') == Expected(s)
    requires s'.phase == s.phase && s'.table.fdNode == s.table.fdNode
    ensures ViewOk(s', fd)
  {
    hide Tracks, AddrOf, Addrs, Expected;
  }

  lemma ViewsOkInParts(s: State)
    ensures ViewsOk(s) <==>
            && NoDuplicates(Addrs(s.table.recs, s.table.fdNode)) && UnknownsAreQuiet(s)
            && forall fd :: fd in s.table.fdNode ==> ViewOk(s, fd)
  {
    hide NoDuplicates, Addrs, ViewOk;
  }

  lemma QuietKeepsViews(s: State, s': State)
    requires MasterOk(s) && ViewsOk(s) && UnknownsAreQuiet(s')
    requires s'.phase == s.phase && s'.table.fdNode == s.table.fdNode
    requires forall fd :: fd in s.table.fdNode ==> SameFor(s, s', fd)
    ensures ViewsOk(s')
  {
    ViewsOkInParts(s);
    hide MasterOk, ViewOk, ViewsOk, Addrs, Expected, SameFor, NoDuplicates, UnknownsAreQuiet;
    QuietKeepsAddrs(s, s');
    forall fd | fd in s'.table.fdNode
      ensures ViewOk(s', fd)
    {
      SameForKeepsViewOk(s, s', fd);
    }
    ViewsOkInParts(s');
  }

  predicate IsQuiet(step: Step) {
    step.AcceptStep? || step.JoinReplicaStep? || step.LoseReplicaStep? || step.LoseUnknownStep?
  }

  /** A join of a replica does not touch the address of any other cache. */
  lemma JoinReplicaKeepsAddr(t: Table, fd: int, ip: string, clientPort: string, cachePort: string, x: int)
    requires fd in t.recs && (t.pcache != [] ==> Top(t.pcache) in t.recs) && x in t.recs && x != fd
    ensures x in JoinReplica(t, fd, ip, clientPort, cachePort).recs
    ensures JoinReplica(t, fd, ip, clientPort, cachePort).recs[x].ipCache == t.recs[x].ipCache
    ensures JoinReplica(t, fd, ip, clientPort, cachePort).wire == t.wire
  {
    hide Sep;
  }

  lemma JoinReplicaIsQuiet(s: State, step: Step, fd: int)
    requires MasterOk(s) && Enabled(s, step) && ViewsOk(s) && step.JoinReplicaStep? && fd in s.table.fdNode
    ensures SameFor(s, Do(s, step), fd)
  {
    assert ViewOk(s, fd);
    assert fd in s.views && fd in s.table.wire;
    PrimaryAddr(s, fd);
    StepIsDefined(s, step);
    JoinReplicaKeepsAddr(s.table, step.fd, step.ip, step.clientPort, step.cachePort, fd);
    hide JoinReplica, Tracks, IsAddr, MasterOk, Addrs, AddrOf, CacheAddr, CleanAddr, ViewsOk, ViewOk, CacheView.Fresh, SolidJoin, NoDuplicates;
  }

  lemma LoseReplicaIsQuiet(s: State, step: Step, fd: int)
    requires MasterOk(s) && Enabled(s, step) && ViewsOk(s) && step.LoseReplicaStep? && fd in s.table.fdNode
    ensures SameFor(s, Do(s, step), fd)
  {
    assert ViewOk(s, fd);
    assert fd in s.views && fd in s.table.wire;
    PrimaryAddr(s, fd);
    StepIsDefined(s, step);
    hide Tracks, IsAddr, MasterOk, Addrs, AddrOf, CacheAddr, CleanAddr, Sep, ViewsOk, ViewOk, CacheView.Fresh, SolidJoin, NoDuplicates;
  }

  lemma QuietStepIsQuiet(s: State, step: Step, fd: int)
    requires MasterOk(s) && Enabled(s, step) && ViewsOk(s) && IsQuiet(step) && fd in s.table.fdNode
    ensures SameFor(s, Do(s, step), fd)
  {
    if step.JoinReplicaStep? {
      JoinReplicaIsQuiet(s, step, fd);
    } else if step.LoseReplicaStep? {
      LoseReplicaIsQuiet(s, step, fd);
    } else {
      assert ViewOk(s, fd);
      assert fd in s.views && fd in s.table.wire;
      PrimaryAddr(s, fd);
      hide Tracks, IsAddr, MasterOk, Addrs, AddrOf, CacheAddr, CleanAddr, ViewsOk, ViewOk, NoDuplicates;
    }
  }

  lemma RecordsAreWired(s: State)
    requires MasterOk(s)
    ensures s.table.recs.Keys <= s.table.wire.Keys
  {
    forall fd | fd in s.table.recs
      ensures fd in s.table.wire
    {
      assert CacheOk(s.table, fd);
    }
  }

  lemma JoinReplicaKeepsUnknownsQuiet(s: State, step: Step)
    requires MasterOk(s) && Enabled(s, step) && step.JoinReplicaStep? && UnknownsAreQuiet(s)
    ensures UnknownsAreQuiet(Do(s, step))
  {
    if s.table.pcache != [] {
      TopPrimaryIsWaiting(s.table);
    }
    hide MasterOk, Sep, SolidJoin, CacheView.Fresh;
  }

  lemma QuietStepEffect(s: State, step: Step)
    requires MasterOk(s) && Enabled(s, step) && IsQuiet(step) && UnknownsAreQuiet(s)
    ensures Do(s, step).phase == s.phase && Do(s, step).table.fdNode == s.table.fdNode
    ensures UnknownsAreQuiet(Do(s, step))
  {
    StepIsDefined(s, step);
    RecordsAreWired(s);
    hide MasterOk, Sep, SolidJoin, CacheView.Fresh;
    if step.JoinReplicaStep? {
      JoinReplicaKeepsUnknownsQuiet(s, step);
      hide UnknownsAreQuiet;
    }
  }

  lemma QuietStepKeepsViews(s: State, step: Step)
    requires MasterOk(s) && Enabled(s, step) && ViewsOk(s) && IsQuiet(step)
    ensures ViewsOk(Do(s, step))
  {
    QuietStepEffect(s, step);
    hide Do, MasterOk, Enabled, ViewOk;
    forall fd | fd in s.table.fdNode
      ensures SameFor(s, Do(s, step), fd)
    {
      QuietStepIsQuiet(s, step, fd);
    }
    QuietKeepsViews(s, Do(s, step));
  }

  // ----- a primary joins

  ghost predicate PrimaryBegun(s: State, s': State, fd: int, a: Addr) {
    && s.phase.Stable? && s'.phase.Joining?
    && fd in s.table.recs && s.table.recs[fd].status == 'n' && fd !in s.table.fdNode
    && s'.table.fdNode == s.table.fdNode + [fd] && s'.table.wire == s.table.wire
    && s'.views == s.views[fd := Fresh(a, "P")]
    && s'.table.recs.Keys == s.table.recs.Keys
    && CacheAddr(s'.table.recs, fd) == a && s'.table.recs[fd].status == 'P'
    && (forall x :: x in s.table.recs && x != fd ==>
          s'.table.recs[x].ipCache == s.table.recs[x].ipCache && s'.table.recs[x].status == s.table.recs[x].status)
  }

  lemma BeginPrimaryEffect(s: State, step: Step)
    requires MasterOk(s) && Enabled(s, step) && step.BeginPrimaryStep?
    ensures PrimaryBegun(s, Do(s, step), step.fd, Addr(step.ip, step.cachePort))
  {
    StepIsDefined(s, step);
    AddrTextIsAddr(step.ip, step.cachePort);
    if s.table.rcache != [] {
      TopReplicaIsLive(s.table);
    }
    hide Sep, TableOk, RingOk;
    assert Do(s, step).table.recs[step.fd].ipCache == Sep(step.ip, step.cachePort);
  }

  lemma BegunAddrs(s: State, s': State, fd: int, a: Addr)
    requires MasterOk(s) && ViewsOk(s) && PrimaryBegun(s, s', fd, a)
    requires a !in Addrs(s.table.recs, s.table.fdNode)
    ensures Expected(s') == Expected(s) && NoDuplicates(Addrs(s'.table.recs, s'.table.fdNode))
    ensures forall x :: x in s.table.fdNode ==> CacheAddr(s'.table.recs, x) == CacheAddr(s.table.recs, x)
  {
    forall x | x in s.table.fdNode
      ensures x in s'.table.recs && s'.table.recs[x].ipCache == s.table.recs[x].ipCache && x in s.table.recs
    {
      PrimaryAddr(s, x);
    }
    hide MasterOk, ViewOk;
    StableAddrs(s, s'.table.recs, s.table.fdNode);
    AddrsSnoc(s'.table.recs, s.table.fdNode, fd);
    assert Pop(s'.table.fdNode) == s.table.fdNode;
  }

  lemma UnknownIsWired(s: State, fd: int)
    requires ViewsOk(s) && fd in s.table.recs && s.table.recs[fd].status == 'n'
    ensures fd in s.table.wire && s.table.wire[fd] == []
  {
    hide ViewOk, Addrs, NoDuplicates;
  }

  lemma NewcomerViewOk(s: State, s': State, fd: int, a: Addr)
    requires ViewsOk(s) && PrimaryBegun(s, s', fd, a)
    ensures ViewOk(s', fd)
  {
    UnknownIsWired(s, fd);
    assert Top(s'.table.fdNode) == fd;
    hide ViewsOk, Tracks, CacheAddr, Addrs, Expected;
  }

  lemma EarlierViewOk(s: State, s': State, fd: int, a: Addr, x: int)
    requires ViewOk(s, x) && PrimaryBegun(s, s', fd, a) && x in s.table.fdNode
    requires Expected(s') == Expected(s) && CacheAddr(s'.table.recs, x) == CacheAddr(s.table.recs, x)
    ensures ViewOk(s', x)
  {
    assert Top(s'.table.fdNode) == fd;
    hide Tracks, CacheAddr, Addrs, Expected;
  }

  lemma BegunViewOk(s: State, s': State, fd: int, a: Addr, x: int)
    requires ViewsOk(s) && PrimaryBegun(s, s', fd, a) && x in s'.table.fdNode
    requires Expected(s') == Expected(s)
    requires x in s.table.fdNode ==> CacheAddr(s'.table.recs, x) == CacheAddr(s.table.recs, x)
    ensures ViewOk(s', x)
  {
    assert x != fd ==> x in s.table.fdNode;
    hide Tracks, CacheAddr, Addrs, Expected, NoDuplicates;
    if x == fd {
      NewcomerViewOk(s, s', fd, a);
    } else {
      assert ViewOk(s, x);
      EarlierViewOk(s, s', fd, a, x);
    }
  }

  lemma BegunKeepsUnknownsQuiet(s: State, s': State, fd: int, a: Addr)
    requires PrimaryBegun(s, s', fd, a) && UnknownsAreQuiet(s)
    ensures UnknownsAreQuiet(s')
  {
    hide CacheAddr;
  }

  lemma BegunKeepsViews(s: State, s': State, fd: int, a: Addr)
    requires MasterOk(s) && ViewsOk(s) && PrimaryBegun(s, s', fd, a)
    requires a !in Addrs(s.table.recs, s.table.fdNode)
    ensures ViewsOk(s')
  {
    assert UnknownsAreQuiet(s);
    hide MasterOk, AddrOf, Addrs, CacheAddr, Expected, ViewOk, NoDuplicates, PrimaryBegun, UnknownsAreQuiet;
    BegunAddrs(s, s', fd, a);
    BegunKeepsUnknownsQuiet(s, s', fd, a);
    forall x | x in s'.table.fdNode
      ensures ViewOk(s', x)
    {
      BegunViewOk(s, s', fd, a, x);
    }
    ViewsOkInParts(s');
  }

  lemma BeginPrimaryKeepsViews(s: State, step: Step)
    requires MasterOk(s) && Enabled(s, step) && ViewsOk(s) && step.BeginPrimaryStep? && Orderly(s, step)
    ensures ViewsOk(Do(s, step))
  {
    BeginPrimaryEffect(s, step);
    hide Do, MasterOk, Enabled, ViewOk, PrimaryBegun;
    BegunKeepsViews(s, Do(s, step), step.fd, Addr(step.ip, step.cachePort));
  }

  lemma EndPrimaryEffect(s: State)
    requires MasterOk(s) && Enabled(s, EndPrimaryStep)
    ensures s.table.fdNode != [] && Top(s.table.fdNode) in s.table.recs
    ensures forall i :: 0 <= i < |s.table.fdNode| ==> s.table.fdNode[i] in s.table.recs
    ensures var s' := Do(s, EndPrimaryStep);
            && s'.phase == Stable && s'.table.fdNode == s.table.fdNode && s'.table.recs == s.table.recs && s'.views == s.views
            && s'.table.wire == Post(Post(s.table.wire, [Top(s.table.fdNode)], Join(Texts(s.table.recs, s.table.fdNode))),
                                     s.table.fdNode, "N#" + s.table.recs[Top(s.table.fdNode)].ipCache)
  {
    StepIsDefined(s, EndPrimaryStep);
    hide Post;
  }

  lemma PostAt(wire: map<int, seq<string>>, fds: seq<int>, text: string, x: int)
    requires x in wire
    ensures x in Post(wire, fds, text)
    ensures Post(wire, fds, text)[x] == if x in fds then wire[x] + [text] else wire[x]
  {
  }

  lemma EndPrimaryTexts(s: State)
    requires MasterOk(s) && s.table.fdNode != []
    ensures forall i :: 0 <= i < |s.table.fdNode| ==> s.table.fdNode[i] in s.table.recs
    ensures var all := Addrs(s.table.recs, s.table.fdNode);
            Texts(s.table.recs, s.table.fdNode) == AddrTexts(all) && forall a :: a in all ==> CleanAddr(a)
    ensures Addrs(s.table.recs, s.table.fdNode)
            == Addrs(s.table.recs, Pop(s.table.fdNode)) + [CacheAddr(s.table.recs, Top(s.table.fdNode))]
  {
    var t := s.table;
    hide MasterOk, AddrOf, IsAddr, Texts, CleanAddr, AddrTexts, CacheAddr, Addrs;
    forall i | 0 <= i < |t.fdNode|
      ensures t.fdNode[i] in t.recs && IsAddr(t.recs[t.fdNode[i]].ipCache)
    {
      assert t.fdNode[i] in t.fdNode;
      PrimaryAddr(s, t.fdNode[i]);
    }
    TextsAreAddrTexts(t.recs, t.fdNode);
    AddrsSnoc(t.recs, Pop(t.fdNode), Top(t.fdNode));
    assert Pop(t.fdNode) + [Top(t.fdNode)] == t.fdNode;
  }

  /** What goes out when a primary has joined. */
  lemma EndPrimaryLists(s: State)
    requires MasterOk(s) && Enabled(s, EndPrimaryStep) && ViewsOk(s)
    ensures s.table.fdNode != []
    ensures var s', all, a := Do(s, EndPrimaryStep), Addrs(s.table.recs, s.table.fdNode), CacheAddr(s.table.recs, Top(s.table.fdNode));
            && s.phase.Joining? && s'.phase.Stable?
            && s'.table.fdNode == s.table.fdNode && s'.table.recs == s.table.recs && s'.views == s.views
            && s'.table.wire == Post(Post(s.table.wire, [Top(s.table.fdNode)], Join(AddrTexts(all))), s.table.fdNode, NewText(a))
            && all == Expected(s) + [a] && Expected(s') == all
            && (forall b :: b in all ==> CleanAddr(b)) && CleanAddr(a)
  {
    EndPrimaryEffect(s);
    EndPrimaryTexts(s);
    assert Top(s.table.fdNode) in s.table.fdNode;
    PrimaryAddr(s, Top(s.table.fdNode));
    hide Do, MasterOk, ViewOk, AddrOf, IsAddr, Post, Addrs;
  }

  /** Different primaries have different addresses. */
  lemma AddrIsOwn(s: State, fd: int, other: int)
    requires NoDuplicates(Addrs(s.table.recs, s.table.fdNode))
    requires fd in s.table.fdNode && other in s.table.fdNode
    ensures CacheAddr(s.table.recs, fd) == CacheAddr(s.table.recs, other) <==> fd == other
  {
    var i :| 0 <= i < |s.table.fdNode| && s.table.fdNode[i] == fd;
    var j :| 0 <= j < |s.table.fdNode| && s.table.fdNode[j] == other;
    var all := Addrs(s.table.recs, s.table.fdNode);
    assert all[i] == CacheAddr(s.table.recs, fd) && all[j] == CacheAddr(s.table.recs, other);
  }

  lemma EndPrimaryViewOk(s: State, fd: int)
    requires MasterOk(s) && Enabled(s, EndPrimaryStep) && ViewsOk(s) && fd in s.table.fdNode
    ensures ViewOk(Do(s, EndPrimaryStep), fd)
  {
    EndPrimaryLists(s);
    var s', newcomer := Do(s, EndPrimaryStep), Top(s.table.fdNode);
    assert newcomer in s.table.fdNode;
    PrimaryAddr(s, fd);
    AddrIsOwn(s, fd, newcomer);
    assert ViewOk(s, fd);
    hide Do, MasterOk, Enabled, ViewsOk, Tracks, CacheAddr, CleanAddr, IsAddr, Addrs, Expected, Post, NewText, NoDuplicates;
    var recs, wire, all := s.table.recs, s.table.wire, Addrs(s.table.recs, s.table.fdNode);
    var initial, a := Join(AddrTexts(all)), CacheAddr(recs, newcomer);
    PostAt(wire, [newcomer], initial, fd);
    PostAt(Post(wire, [newcomer], initial), s.table.fdNode, NewText(a), fd);
    if fd == newcomer {
      InitArrives(all, a);
      assert [] + [initial] == [initial];
      OwnNewArrives(s.views[fd], [initial], all, a);
    } else {
      NewArrives(s.views[fd], wire[fd], Expected(s), CacheAddr(recs, fd), a);
    }
    AgreementIsViewOk(s', fd);
  }

  lemma UnknownIsNoPrimary(s: State, x: int)
    requires MasterOk(s) && x in s.table.recs && s.table.recs[x].status == 'n'
    ensures x !in s.table.fdNode && (s.table.fdNode != [] ==> x != Top(s.table.fdNode))
  {
    if s.table.fdNode != [] {
      assert Top(s.table.fdNode) in s.table.fdNode;
    }
  }

  lemma EndPrimaryKeepsViews(s: State)
    requires MasterOk(s) && Enabled(s, EndPrimaryStep) && ViewsOk(s)
    ensures ViewsOk(Do(s, EndPrimaryStep))
  {
    EndPrimaryEffect(s);
    forall fd | fd in s.table.fdNode
      ensures ViewOk(Do(s, EndPrimaryStep), fd)
    {
      EndPrimaryViewOk(s, fd);
    }
    hide ViewOk, MasterOk, Do;
    forall x | x in s.table.recs && s.table.recs[x].status == 'n'
      ensures x in Do(s, EndPrimaryStep).table.wire && Do(s, EndPrimaryStep).table.wire[x] == []
    {
      UnknownIsNoPrimary(s, x);
    }
  }

  // ----- a heartbeat is answered

  lemma BeatEffect(s: State, fd: int)
    requires MasterOk(s) && Enabled(s, BeatStep(fd))
    ensures s.table.recs[fd].pair > UNPAIRED ==> s.table.recs[fd].pair in s.table.recs
    ensures var s' := Do(s, BeatStep(fd));
            && s'.phase == s.phase && s'.views == s.views
            && s'.table == s.table.(wire := Post(s.table.wire, [fd], ReplyText(s.table.recs, fd)))
  {
    StepIsDefined(s, BeatStep(fd));
    hide Post, ReplyText;
  }

  lemma BeatViewOk(s: State, fd: int, x: int)
    requires MasterOk(s) && Enabled(s, BeatStep(fd)) && ViewsOk(s) && x in s.table.fdNode
    ensures ViewOk(Do(s, BeatStep(fd)), x)
  {
    BeatEffect(s, fd);
    PrimaryAddr(s, x);
    assert ViewOk(s, x);
    var pair := NamedPair(s, fd);
    hide Do, MasterOk, Tracks, AddrOf, CleanAddr, IsAddr, Addrs, ReplyText, PairText;
    PostAt(s.table.wire, [fd], ReplyText(s.table.recs, fd), x);
    if x == fd {
      ReplyArrives(s.views[fd], s.table.wire[fd], Expected(s), CacheAddr(s.table.recs, fd), IsKilled(s, fd), pair);
    }
  }

  lemma BeatKeepsViews(s: State, fd: int)
    requires MasterOk(s) && Enabled(s, BeatStep(fd)) && ViewsOk(s)
    ensures ViewsOk(Do(s, BeatStep(fd)))
  {
    BeatEffect(s, fd);
    forall x | x in s.table.fdNode
      ensures ViewOk(Do(s, BeatStep(fd)), x)
    {
      BeatViewOk(s, fd, x);
    }
    hide ViewOk, MasterOk, Do;
  }

  // ----- an unpaired primary is lost

  ghost predicate PrimaryLost(s: State, s': State, fd: int) {
    && s.phase.Stable? && s'.phase.Stable? && s'.views == s.views
    && fd in s.table.fdNode && fd in s.table.recs
    && s'.table.fdNode == Removed(s.table.fdNode, IndexOf(s.table.fdNode, fd))
    && s'.table.recs == s.table.recs - {fd}
    && s'.table.wire == Post(s.table.wire, s'.table.fdNode, "D#" + s.table.recs[fd].ipCache)
    && (forall x :: x in s'.table.fdNode <==> x in s.table.fdNode && x != fd)
  }

  lemma LosePrimaryEffect(s: State, fd: int)
    requires MasterOk(s) && Enabled(s, LosePrimaryStep(fd))
    ensures PrimaryLost(s, Do(s, LosePrimaryStep(fd)), fd)
  {
    StepIsDefined(s, LosePrimaryStep(fd));
    forall x
      ensures x in Removed(s.table.fdNode, IndexOf(s.table.fdNode, fd)) <==> x in s.table.fdNode && x != fd
    {
      RemovedMembers(s.table.fdNode, IndexOf(s.table.fdNode, fd), x);
    }
    hide Post, AfterDelete, Removed;
  }

  /** Taking one primary out of the table takes its address out of the list. */
  lemma LostAddrs(s: State, s': State, fd: int)
    requires MasterOk(s) && PrimaryLost(s, s', fd) && NoDuplicates(Addrs(s.table.recs, s.table.fdNode))
    ensures var all, i := Addrs(s.table.recs, s.table.fdNode), IndexOf(s.table.fdNode, fd);
            && Expected(s) == all && Expected(s') == Addrs(s'.table.recs, s'.table.fdNode) == Removed(all, i)
            && NoDuplicates(Removed(all, i)) && all[i] == CacheAddr(s.table.recs, fd)
  {
    var i := IndexOf(s.table.fdNode, fd);
    forall x | x in s'.table.fdNode
      ensures x in s'.table.recs
    {
      PrimaryAddr(s, x);
    }
    hide MasterOk, AddrOf, Addrs, IndexOf, IsAddr, Post;
    StableAddrs(s, s'.table.recs, s'.table.fdNode);
    AddrsWithout(s.table.recs, s.table.fdNode, i);
    RemovedMembers(Addrs(s.table.recs, s.table.fdNode), i, NOBODY);
  }

  lemma DeathIsAnnounced(s: State, s': State, x: int, self: Addr, i: nat)
    requires x in s.views && x in s.table.wire && x in s'.table.fdNode
    requires var all := Addrs(s.table.recs, s.table.fdNode);
             && Tracks(s.views[x], s.table.wire[x], all, self, false)
             && i < |all| && NoDuplicates(all) && CleanAddr(all[i])
             && s'.views == s.views && s'.table.wire == Post(s.table.wire, s'.table.fdNode, DeadText(all[i]))
    ensures x in s'.views && x in s'.table.wire
    ensures Tracks(s'.views[x], s'.table.wire[x], Removed(Addrs(s.table.recs, s.table.fdNode), i), self, false)
  {
    var all := Addrs(s.table.recs, s.table.fdNode);
    hide Tracks, Addrs, NoDuplicates, CleanAddr, Post, DeadText, Removed;
    PostAt(s.table.wire, s'.table.fdNode, DeadText(all[i]), x);
    DeadArrives(s.views[x], s.table.wire[x], all, self, i);
  }

  /** What the lost primary is called in the list and in the announcement. */
  lemma LostIsNamed(s: State, s': State, fd: int)
    requires MasterOk(s) && PrimaryLost(s, s', fd)
    ensures var all, i := Addrs(s.table.recs, s.table.fdNode), IndexOf(s.table.fdNode, fd);
            && i < |all| && CleanAddr(all[i])
            && s'.table.wire == Post(s.table.wire, s'.table.fdNode, DeadText(all[i]))
  {
    PrimaryAddr(s, fd);
    hide MasterOk, AddrOf, IsAddr, CleanAddr, AddrText, Post, Removed;
  }

  lemma RemovedKeepsAddr(s: State, s': State, fd: int, x: int)
    requires PrimaryLost(s, s', fd) && x != fd
    ensures CacheAddr(s'.table.recs, x) == CacheAddr(s.table.recs, x)
    ensures !IsNewcomer(s, x) && !IsKilled(s, x) && !IsNewcomer(s', x) && !IsKilled(s', x)
  {
    hide AddrOf, Post, Removed, IndexOf;
  }

  lemma LosePrimaryViewOk(s: State, s': State, fd: int, x: int)
    requires MasterOk(s) && ViewsOk(s) && PrimaryLost(s, s', fd)
    requires x in s.table.fdNode && x != fd
    ensures ViewOk(s', x)
  {
    var i, self := IndexOf(s.table.fdNode, fd), CacheAddr(s.table.recs, x);
    LostAddrs(s, s', fd);
    LostIsNamed(s, s', fd);
    ViewsOkInParts(s);
    RemovedKeepsAddr(s, s', fd, x);
    assert ViewOk(s, x) && x in s'.table.fdNode && s'.views == s.views;
    assert Tracks(s.views[x], s.table.wire[x], Expected(s), self, false);
    hide MasterOk, ViewsOk, Tracks, CacheAddr, CleanAddr, Addrs, Removed, Post, DeadText, IndexOf, Expected, NoDuplicates, PrimaryLost;
    DeathIsAnnounced(s, s', x, self, i);
    AgreementIsViewOk(s', x);
  }

  lemma LosePrimaryKeepsUnknownsQuiet(s: State, s': State, fd: int)
    requires MasterOk(s) && PrimaryLost(s, s', fd) && UnknownsAreQuiet(s)
    ensures UnknownsAreQuiet(s')
  {
    forall x | x in s'.table.recs && s'.table.recs[x].status == 'n'
      ensures x in s'.table.wire && s'.table.wire[x] == []
    {
      UnknownIsNoPrimary(s, x);
    }
  }

  lemma LosePrimaryKeepsViews(s: State, fd: int)
    requires MasterOk(s) && Enabled(s, LosePrimaryStep(fd)) && ViewsOk(s)
    ensures ViewsOk(Do(s, LosePrimaryStep(fd)))
  {
    LosePrimaryEffect(s, fd);
    ViewsOkInParts(s);
    var s' := Do(s, LosePrimaryStep(fd));
    assert forall x :: x in s'.table.fdNode ==> x in s.table.fdNode && x != fd;
    hide ViewOk, ViewsOk, MasterOk, Enabled, Do, PrimaryLost, Addrs, Expected, NoDuplicates, UnknownsAreQuiet;
    LostAddrs(s, s', fd);
    LosePrimaryKeepsUnknownsQuiet(s, s', fd);
    forall x | x in s'.table.fdNode
      ensures ViewOk(s', x)
    {
      LosePrimaryViewOk(s, s', fd, x);
    }
    ViewsOkInParts(s');
  }

  // ----- the last primary is shrunk away

  lemma BeginShrinkEffect(s: State)
    requires MasterOk(s) && Enabled(s, BeginShrinkStep)
    ensures Top(s.table.fdNode) in s.table.fdNode && Top(s.table.fdNode) in s.table.recs
    ensures var s' := Do(s, BeginShrinkStep);
            && s'.phase == Shrinking && s'.views == s.views && s'.table.fdNode == s.table.fdNode
            && s'.table.recs == s.table.recs
            && s'.table.wire == Post(s.table.wire, s.table.fdNode, "K#" + s.table.recs[Top(s.table.fdNode)].ipCache)
  {
    StepIsDefined(s, BeginShrinkStep);
    hide Post, AfterDelete;
  }

  /** The last address of the list is that of the last primary. */
  lemma LastOfAll(s: State)
    requires MasterOk(s) && s.table.fdNode != []
    ensures var all, last, fd := Addrs(s.table.recs, s.table.fdNode), |s.table.fdNode| - 1, Top(s.table.fdNode);
            && fd in s.table.fdNode && fd in s.table.recs
            && all[last] == CacheAddr(s.table.recs, fd) && CleanAddr(all[last])
            && AddrText(all[last]) == s.table.recs[fd].ipCache
            && Addrs(s.table.recs, Pop(s.table.fdNode)) == Removed(all, last)
  {
    var fds := s.table.fdNode;
    assert Top(fds) in fds;
    PrimaryAddr(s, Top(fds));
    hide MasterOk, AddrOf, IsAddr, CleanAddr, AddrText;
    AddrsWithout(s.table.recs, fds, |fds| - 1);
    assert Pop(fds) == Removed(fds, |fds| - 1);
  }

  /** What the death notice names, and the list without it. */
  lemma BeginShrinkLists(s: State)
    requires MasterOk(s) && Enabled(s, BeginShrinkStep) && ViewsOk(s)
    ensures var s', all, last := Do(s, BeginShrinkStep), Addrs(s.table.recs, s.table.fdNode), |s.table.fdNode| - 1;
            && Top(s.table.fdNode) in s.table.fdNode && Top(s.table.fdNode) in s.table.recs
            && s'.phase.Shrinking? && s'.table.fdNode == s.table.fdNode && s'.table.recs == s.table.recs && s'.views == s.views
            && s'.table.wire == Post(s.table.wire, s.table.fdNode, KillText(all[last]))
            && Expected(s) == all && Expected(s') == Removed(all, last)
            && all[last] == CacheAddr(s.table.recs, Top(s.table.fdNode)) && CleanAddr(all[last])
  {
    BeginShrinkEffect(s);
    LastOfAll(s);
    assert s.phase.Stable?;
    hide Do, MasterOk, Enabled, ViewsOk, CacheAddr, CleanAddr, AddrText, Addrs, Post, Removed;
  }

  lemma BeginShrinkViewOk(s: State, x: int)
    requires MasterOk(s) && Enabled(s, BeginShrinkStep) && ViewsOk(s) && x in s.table.fdNode
    ensures ViewOk(Do(s, BeginShrinkStep), x)
  {
    var s', last, fd := Do(s, BeginShrinkStep), |s.table.fdNode| - 1, Top(s.table.fdNode);
    var all, self := Addrs(s.table.recs, s.table.fdNode), CacheAddr(s.table.recs, x);
    BeginShrinkLists(s);
    AddrIsOwn(s, x, fd);
    PrimaryAddr(s, x);
    assert ViewOk(s, x) && s.phase.Stable?;
    hide Do, MasterOk, Enabled, ViewsOk, Tracks, CacheAddr, CleanAddr, IsAddr, Addrs, Removed, Post, Expected, KillText, NoDuplicates;
    KillArrives(s.views[x], s.table.wire[x], all, self, last);
    PostAt(s.table.wire, s.table.fdNode, KillText(all[last]), x);
    AgreementIsViewOk(s', x);
  }

  lemma BeginShrinkKeepsViews(s: State)
    requires MasterOk(s) && Enabled(s, BeginShrinkStep) && ViewsOk(s)
    ensures ViewsOk(Do(s, BeginShrinkStep))
  {
    BeginShrinkEffect(s);
    var s' := Do(s, BeginShrinkStep);
    forall x | x in s'.table.fdNode
      ensures ViewOk(s', x)
    {
      BeginShrinkViewOk(s, x);
    }
    hide ViewOk, MasterOk, Do;
    forall x | x in s'.table.recs && s'.table.recs[x].status == 'n'
      ensures x in s'.table.wire && s'.table.wire[x] == []
    {
      UnknownIsNoPrimary(s, x);
    }
  }

  ghost predicate ShrinkEnded(s: State, s': State) {
    && s.phase.Shrinking? && s'.phase.Stable? && s.table.fdNode != []
    && s'.views == s.views && s'.table.fdNode == Pop(s.table.fdNode) && s'.table.wire == s.table.wire
    && (forall x :: x in s'.table.recs ==> x in s.table.recs && s'.table.recs[x] == s.table.recs[x])
    && (forall x :: x in Pop(s.table.fdNode) ==> x in s'.table.recs && x in s.table.fdNode && x != Top(s.table.fdNode))
  }

  lemma EndShrinkEffect(s: State)
    requires MasterOk(s) && Enabled(s, EndShrinkStep)
    ensures ShrinkEnded(s, Do(s, EndShrinkStep))
  {
    StepIsDefined(s, EndShrinkStep);
    DoKeepsMasterOk(s, EndShrinkStep);
    forall x | x in Pop(s.table.fdNode)
      ensures x in Do(s, EndShrinkStep).table.recs && x in s.table.fdNode && x != Top(s.table.fdNode)
    {
      MembersOfPop(s.table.fdNode, x);
      PrimaryAddr(Do(s, EndShrinkStep), x);
    }
    hide TableOk, RingOk;
  }

  lemma EndedAddrs(s: State, s': State)
    requires MasterOk(s) && ShrinkEnded(s, s') && NoDuplicates(Addrs(s.table.recs, s.table.fdNode))
    ensures Expected(s') == Expected(s) && NoDuplicates(Addrs(s'.table.recs, s'.table.fdNode))
  {
    hide MasterOk, AddrOf;
    var all := Addrs(s.table.recs, s.table.fdNode);
    StableAddrs(s, s'.table.recs, s'.table.fdNode);
    AddrsWithout(s.table.recs, s.table.fdNode, |s.table.fdNode| - 1);
    assert Pop(s.table.fdNode) == Removed(s.table.fdNode, |s.table.fdNode| - 1);
    RemovedMembers(all, |s.table.fdNode| - 1, NOBODY);
  }

  lemma EndedViewOk(s: State, s': State, x: int)
    requires ViewOk(s, x) && ShrinkEnded(s, s') && x in s'.table.fdNode && Expected(s') == Expected(s)
    ensures ViewOk(s', x)
  {
    hide Tracks, AddrOf, Addrs, Expected;
  }

  lemma EndedKeepsUnknownsQuiet(s: State, s': State)
    requires ShrinkEnded(s, s') && UnknownsAreQuiet(s)
    ensures UnknownsAreQuiet(s')
  {
  }

  lemma EndedKeepsViews(s: State, s': State)
    requires MasterOk(s) && ViewsOk(s) && ShrinkEnded(s, s')
    ensures ViewsOk(s')
  {
    ViewsOkInParts(s);
    assert forall x :: x in s'.table.fdNode ==> x in s.table.fdNode;
    hide MasterOk, ViewOk, ViewsOk, Addrs, Expected, ShrinkEnded, NoDuplicates, UnknownsAreQuiet;
    EndedAddrs(s, s');
    EndedKeepsUnknownsQuiet(s, s');
    forall x | x in s'.table.fdNode
      ensures ViewOk(s', x)
    {
      EndedViewOk(s, s', x);
    }
    ViewsOkInParts(s');
  }

  lemma EndShrinkKeepsViews(s: State)
    requires MasterOk(s) && Enabled(s, EndShrinkStep) && ViewsOk(s)
    ensures ViewsOk(Do(s, EndShrinkStep))
  {
    EndShrinkEffect(s);
    hide Do, MasterOk, Enabled, ViewOk, ShrinkEnded;
    EndedKeepsViews(s, Do(s, EndShrinkStep));
  }

  // ----- a message is delivered

  ghost predicate HasDelivered(s: State, s': State, fd: int) {
    && fd in s.views && fd in s.table.wire && s.table.wire[fd] != []
    && s' == s.(table := s.table.(wire := s.table.wire[fd := s.table.wire[fd][1..]]), views := s'.views)
    && s'.views == match Receive(s.views[fd], s.table.wire[fd][0])
                   case Some(v) => s.views[fd := v]
                   case None => s.views - {fd}
  }

  lemma DeliveredViewOk(s: State, s': State, fd: int, x: int)
    requires ViewOk(s, x) && HasDelivered(s, s', fd)
    ensures ViewOk(s', x)
  {
    hide Tracks, AddrOf, Addrs, Receive;
    assert Expected(s') == Expected(s);
    if x == fd && !IsNewcomer(s, fd) {
      Delivered(s.views[fd], s.table.wire[fd], Expected(s), CacheAddr(s.table.recs, fd), IsKilled(s, fd));
    }
  }

  lemma DeliverKeepsViews(s: State, fd: int)
    requires MasterOk(s) && Enabled(s, DeliverStep(fd)) && ViewsOk(s)
    ensures ViewsOk(Do(s, DeliverStep(fd)))
  {
    hide MasterOk, ViewOk, Receive;
    assert HasDelivered(s, Do(s, DeliverStep(fd)), fd);
    forall x | x in s.table.fdNode
      ensures ViewOk(Do(s, DeliverStep(fd)), x)
    {
      DeliveredViewOk(s, Do(s, DeliverStep(fd)), fd, x);
    }
  }

  // ---------- every orderly run ----------

  lemma DoKeepsViews(s: State, step: Step)
    requires MasterOk(s) && Enabled(s, step) && ViewsOk(s) && Orderly(s, step)
    ensures ViewsOk(Do(s, step))
  {
    hide Do, MasterOk, ViewsOk;
    match step
    case AcceptStep(_) => QuietStepKeepsViews(s, step);
    case BeginPrimaryStep(_, _, _, _) => BeginPrimaryKeepsViews(s, step);
    case EndPrimaryStep => EndPrimaryKeepsViews(s);
    case JoinReplicaStep(_, _, _, _) => QuietStepKeepsViews(s, step);
    case BeatStep(fd) => BeatKeepsViews(s, fd);
    case LoseReplicaStep(_) => QuietStepKeepsViews(s, step);
    case LosePrimaryStep(fd) => LosePrimaryKeepsViews(s, fd);
    case LoseUnknownStep(_) => QuietStepKeepsViews(s, step);
    case BeginShrinkStep => BeginShrinkKeepsViews(s);
    case EndShrinkStep => EndShrinkKeepsViews(s);
    case DeliverStep(fd) => DeliverKeepsViews(s, fd);
  }

  ghost predicate OrderlyRun(s: State, steps: seq<Step>)
    requires MasterOk(s) && Legal(s, steps)
    decreases |steps|
  {
    steps == [] ||
    (Orderly(s, steps[0]) &&
     (DoKeepsMasterOk(s, steps[0]); OrderlyRun(Do(s, steps[0]), steps[1..])))
  }

  lemma {:induction false} RunKeepsViews(s: State, steps: seq<Step>)
    requires MasterOk(s) && Legal(s, steps) && OrderlyRun(s, steps) && ViewsOk(s)
    ensures ViewsOk(Run(s, steps))
    decreases |steps|
  {
    hide MasterOk, ViewsOk, Enabled, Do;
    if steps == [] {
    } else {
      DoKeepsMasterOk(s, steps[0]);
      DoKeepsViews(s, steps[0]);
      RunKeepsViews(Do(s, steps[0]), steps[1..]);
    }
  }

  ghost predicate PossibleInOrder(steps: seq<Step>) {
    Possible(steps) && (StartIsOk(); OrderlyRun(START, steps))
  }

  /** View agreement on every run, in the middle of a join or a shrink too:
      whatever is still queued for a primary, reading it never fails, and
      afterwards its list is the one the master is announcing, which between
      membership changes is the list of the table. Only a newcomer that has not
      been sent its first list yet has nothing to agree with. */
  lemma QueuesCatchUp(steps: seq<Step>, fd: int)
    requires PossibleInOrder(steps) && fd in After(steps).table.fdNode && !IsNewcomer(After(steps), fd)
    ensures var s := After(steps);
            && fd in s.views && fd in s.table.wire
            && Fold(s.views[fd], s.table.wire[fd]).Some?
            && Fold(s.views[fd], s.table.wire[fd]).value.list == Expected(s)
            && (s.table.wire[fd] == [] ==> s.views[fd].list == Expected(s))
            && (s.phase.Stable? ==> Expected(s) == Addrs(s.table.recs, s.table.fdNode))
  {
    StartIsOk();
    StartViewsOk();
    RunKeepsViews(START, steps);
    assert ViewOk(After(steps), fd);
  }

  // ---------- the ring on orderly runs ----------

  ghost predicate RingIsFresh(s: State) {
    IsFresh(s.table.ring, Placement(), s.table.nodes)
  }

  predicate ChangesRing(step: Step) {
    step.EndPrimaryStep? || step.LosePrimaryStep? || step.BeginShrinkStep?
  }

  lemma RingUntouched(s: State, step: Step)
    requires MasterOk(s) && Enabled(s, step) && !ChangesRing(step)
    ensures RingIsFresh(s) ==> RingIsFresh(Do(s, step))
  {
    StepIsDefined(s, step);
    hide MasterOk, Placement, Sep, Post, ReplyText, Removed, Receive, CacheView.Fresh, WithColon, IsFresh;
  }

  lemma EndPrimaryGrowsRing(t: Table, shards: Shards)
    requires t.fdNode != [] && forall i :: 0 <= i < |t.fdNode| ==> t.fdNode[i] in t.recs
    ensures EndPrimary(t, shards).nodes == t.nodes + 1
    ensures EndPrimary(t, shards).ring == InsertShard(t.ring, shards, |t.fdNode| - 1)
  {
    hide InsertShard, Post, Texts, Join;
  }

  lemma RingGrows(s: State)
    requires MasterOk(s) && Enabled(s, EndPrimaryStep)
    ensures Do(s, EndPrimaryStep).table.nodes == s.table.nodes + 1
    ensures Do(s, EndPrimaryStep).table.ring == InsertShard(s.table.ring, Placement(), s.table.nodes)
  {
    EndPrimaryKeepsOk(s.table, Placement());
    hide EndPrimary, InsertShard, Placement, TableOk, RingOk;
    EndPrimaryGrowsRing(s.table, Placement());
  }

  lemma RingLoses(s: State, fd: int)
    requires MasterOk(s) && Enabled(s, LosePrimaryStep(fd))
    ensures fd in s.table.fdNode && |s.table.fdNode| == s.table.nodes
    ensures Do(s, LosePrimaryStep(fd)).table.nodes == s.table.nodes - 1
    ensures Do(s, LosePrimaryStep(fd)).table.ring
            == AfterDelete(s.table.ring, Placement(), s.table.nodes, IndexOf(s.table.fdNode, fd))
  {
    StepIsDefined(s, LosePrimaryStep(fd));
    hide TableOk, RingOk, AfterDelete, Placement, Post, Removed;
  }

  lemma RingShrinks(s: State)
    requires MasterOk(s) && Enabled(s, BeginShrinkStep)
    ensures |s.table.fdNode| == s.table.nodes > 0
    ensures Do(s, BeginShrinkStep).table.nodes == s.table.nodes - 1
    ensures Do(s, BeginShrinkStep).table.ring
            == AfterDelete(s.table.ring, Placement(), s.table.nodes, s.table.nodes - 1)
  {
    StepIsDefined(s, BeginShrinkStep);
    hide TableOk, RingOk, AfterDelete, Placement, Post;
  }

  lemma DoKeepsFresh(s: State, step: Step, limit: nat)
    requires MasterOk(s) && Enabled(s, step) && RingIsFresh(s)
    requires |s.table.fdNode| <= limit && ShardsApart(Placement(), limit)
    ensures RingIsFresh(Do(s, step))
  {
    var t, shards := s.table, Placement();
    hide Do, Enabled, MasterOk, IsFresh, AfterDelete, InsertShard, Placement, ShardsApart, IndexOf;
    match step
    case EndPrimaryStep =>
      RingGrows(s);
      AddKeepsFresh(t.ring, shards, t.nodes);
    case LosePrimaryStep(fd) =>
      RingLoses(s, fd);
      ApartIsClean(shards, t.nodes, IndexOf(t.fdNode, fd), limit);
      CleanDeleteIsFresh(t.ring, shards, t.nodes, IndexOf(t.fdNode, fd));
    case BeginShrinkStep =>
      RingShrinks(s);
      ApartIsClean(shards, t.nodes, t.nodes - 1, limit);
      CleanDeleteIsFresh(t.ring, shards, t.nodes, t.nodes - 1);
    case _ => RingUntouched(s, step);
  }

  /** There are never more than `limit` primaries. */
  ghost predicate Within(s: State, steps: seq<Step>, limit: nat)
    requires MasterOk(s) && Legal(s, steps)
    decreases |steps|
  {
    |s.table.fdNode| <= limit &&
    (steps == [] || (DoKeepsMasterOk(s, steps[0]); Within(Do(s, steps[0]), steps[1..], limit)))
  }

  lemma {:induction false} RunKeepsFresh(s: State, steps: seq<Step>, limit: nat)
    requires MasterOk(s) && Legal(s, steps) && Within(s, steps, limit)
    requires RingIsFresh(s) && ShardsApart(Placement(), limit)
    ensures RingIsFresh(Run(s, steps))
    decreases |steps|
  {
    hide MasterOk, RingIsFresh, Enabled, Do, Placement;
    if steps == [] {
    } else {
      DoKeepsMasterOk(s, steps[0]);
      DoKeepsFresh(s, steps[0], limit);
      RunKeepsFresh(Do(s, steps[0]), steps[1..], limit);
    }
  }

  /** Possible in order, and with at most `limit` primaries whose shards share no point. */
  ghost predicate Spacious(steps: seq<Step>, limit: nat) {
    && PossibleInOrder(steps) && (StartIsOk(); Within(START, steps, limit))
    && ShardsApart(Placement(), limit)
  }

  // ---------- migration agrees with routing ----------

  /** A killed cache that has read the announcement has exactly the survivors on
      its list. */
  lemma KilledCacheKnowsSurvivors(s: State)
    requires MasterOk(s) && ViewsOk(s) && s.phase.Shrinking? && s.table.fdNode != []
    ensures Top(s.table.fdNode) in s.views
    ensures var v := s.views[Top(s.table.fdNode)];
            v.status == "K" ==> v.list == Addrs(s.table.recs, Pop(s.table.fdNode))
  {
    var fd := Top(s.table.fdNode);
    assert fd in s.table.fdNode;
    assert ViewOk(s, fd);
    if s.views[fd].status == "K" {
      KilledIsUpToDate(s.views[fd], s.table.wire[fd]);
    }
  }

  lemma LastShardIsGone(s: State, key: string)
    requires MasterOk(s) && RingIsFresh(s) && s.phase.Shrinking? && |s.table.fdNode| > 1
    ensures s.table.ring != map[] && s.table.ring == Build(Placement(), |s.table.fdNode| - 1)
    ensures ShardOf(s.table.ring, Hash(key)) < |s.table.fdNode| - 1
  {
    RealRingIsNonEmpty(s.table.ring, s.table.nodes, V_NODES);
    BuildIsFresh(Placement(), s.table.nodes);
    FreshIsUnique(s.table.ring, Build(Placement(), s.table.nodes), Placement(), s.table.nodes);
    ShardIsBelow(s.table.ring, Placement(), s.table.nodes, Hash(key));
  }

  lemma MigrationAgrees(s: State, key: string)
    requires MasterOk(s) && ViewsOk(s) && RingIsFresh(s) && s.phase.Shrinking? && |s.table.fdNode| > 1
    requires Top(s.table.fdNode) in s.views && s.views[Top(s.table.fdNode)].status == "K"
    ensures var list := s.views[Top(s.table.fdNode)].list;
            && Enabled(s, EndShrinkStep) && list != [] && s.table.ring != map[]
            && ShardOf(s.table.ring, Hash(key)) < |s.table.fdNode| - 1
            && var server := Route(s.table, key);
            && Target(list, key) == CacheAddr(s.table.recs, server)
            && Do(s, EndShrinkStep).table.fdNode == Pop(s.table.fdNode)
            && Do(s, EndShrinkStep).table.ring == s.table.ring
            && Route(Do(s, EndShrinkStep).table, key) == server
  {
    KilledCacheKnowsSurvivors(s);
    LastShardIsGone(s, key);
    StepIsDefined(s, EndShrinkStep);
    hide TableOk, RingIsFresh, Build, AddrOf, Hash, ShardOf;
    var list := s.views[Top(s.table.fdNode)].list;
    assert |list| == |s.table.fdNode| - 1;
  }

  /** Migration agrees with routing: once the killed cache has read its death
      notice, the address it computes for any key, alone and from a ring built
      from nothing, is the address of the primary the master routes that key to,
      during the shrink and after it. */
  lemma MigrationAgreesWithRouting(steps: seq<Step>, limit: nat, key: string)
    requires Spacious(steps, limit)
    requires After(steps).phase.Shrinking? && |After(steps).table.fdNode| > 1
    requires Top(After(steps).table.fdNode) in After(steps).views
    requires After(steps).views[Top(After(steps).table.fdNode)].status == "K"
    ensures var s := After(steps);
            var list := s.views[Top(s.table.fdNode)].list;
            && Enabled(s, EndShrinkStep) && list != [] && s.table.ring != map[]
            && ShardOf(s.table.ring, Hash(key)) < |s.table.fdNode| - 1
            && var server := Route(s.table, key);
            && Target(list, key) == CacheAddr(s.table.recs, server)
            && Do(s, EndShrinkStep).table.fdNode == Pop(s.table.fdNode)
            && Do(s, EndShrinkStep).table.ring == s.table.ring
            && Route(Do(s, EndShrinkStep).table, key) == server
  {
    StartIsOk();
    StartViewsOk();
    RunKeepsViews(START, steps);
    EmptyIsFresh(Placement());
    RunKeepsFresh(START, steps, limit);
    MigrationAgrees(After(steps), key);
  }
}
