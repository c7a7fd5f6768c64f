/** What the tables say is what happened: addresses are those the caches announced,
    pairs are made as soon as they can be, and answers name the right partner. */
module History {
  import opened CacheView
  import opened MasterModel
  import opened Options
  import opened Protocol
  import opened Ring
  import opened ViewAgreement
  import opened Wire

  // ---------- runs from their end ----------

  lemma {:induction false} LegalInit(s: State, steps: seq<Step>)
    requires MasterOk(s) && Legal(s, steps) && steps != []
    ensures var before, last := steps[..|steps| - 1], steps[|steps| - 1];
            Legal(s, before) && Enabled(Run(s, before), last) && Run(s, steps) == Do(Run(s, before), last)
    decreases |steps|
  {
    hide MasterOk, Enabled, Do;
    DoKeepsMasterOk(s, steps[0]);
    var s1, rest := Do(s, steps[0]), steps[1..];
    if |steps| == 1 {
      assert steps[..0] == [] && rest == [];
      assert Legal(s, []) && Run(s, []) == s;
      assert Legal(s1, []) && Run(s1, []) == s1;
    } else {
      LegalInit(s1, rest);
      assert steps[..|steps| - 1][1..] == rest[..|rest| - 1];
    }
  }

  lemma LastStep(steps: seq<Step>)
    requires Possible(steps) && steps != []
    ensures var before, last := steps[..|steps| - 1], steps[|steps| - 1];
            Possible(before) && Enabled(After(before), last) && After(steps) == Do(After(before), last)
    ensures MasterOk(After(steps))
  {
    StartIsOk();
    LegalInit(START, steps);
  }

  // ---------- joins ----------

  /** What a join does, told from outside: the newcomer at fd is written down as it
      announced itself; if somebody of the other role was waiting, the last to wait
      and the newcomer name each other and nobody else waits more or less than
      before; otherwise the newcomer is the last to wait. */
  ghost predicate Joined(t: Table, t': Table, fd: int, role: char, others: seq<int>, others': seq<int>, own: seq<int>, own': seq<int>,
                         ip: string, clientPort: string, cachePort: string)
  {
    && fd in t.recs && t'.recs.Keys == t.recs.Keys
    && t'.recs[fd].status == role
    && t'.recs[fd].ipPort == ip + "#" + clientPort && t'.recs[fd].ipCache == ip + "#" + cachePort
    && (if others != [] then
          && Top(others) in t.recs && Top(others) != fd
          && t'.recs[fd].pair == Top(others) && t'.recs[Top(others)] == t.recs[Top(others)].(pair := fd)
          && others' == Pop(others) && own' == own
          && fd !in own' && fd !in others'
        else
          && t'.recs[fd].pair == UNPAIRED
          && others' == [] && own' == own + [fd] && fd !in own)
    && (forall x :: x in t.recs && x != fd && (others != [] ==> x != Top(others)) ==> t'.recs[x] == t.recs[x])
  }

  lemma PrimaryJoins(s: State, step: Step)
    requires MasterOk(s) && Enabled(s, step) && step.BeginPrimaryStep?
    ensures var t, t' := s.table, Do(s, step).table;
            && Joined(t, t', step.fd, 'P', t.rcache, t'.rcache, t.pcache, t'.pcache, step.ip, step.clientPort, step.cachePort)
            && t'.fdNode == t.fdNode + [step.fd] && t'.wire == t.wire
  {
    var t := s.table;
    StepIsDefined(s, step);
    assert CacheOk(t, step.fd);
    CountPositive(t.pcache, step.fd);
    CountPositive(t.rcache, step.fd);
    if t.rcache != [] {
      TopReplicaIsLive(t);
      CountPop(t.rcache, step.fd);
      CountPositive(Pop(t.rcache), step.fd);
    }
    hide MasterOk, SolidJoin, CacheView.Fresh;
  }

  lemma ReplicaJoins(s: State, step: Step)
    requires MasterOk(s) && Enabled(s, step) && step.JoinReplicaStep?
    ensures var t, t' := s.table, Do(s, step).table;
            && Joined(t, t', step.fd, 'R', t.pcache, t'.pcache, t.rcache, t'.rcache, step.ip, step.clientPort, step.cachePort)
            && t'.fdNode == t.fdNode && t'.wire == t.wire
  {
    var t := s.table;
    StepIsDefined(s, step);
    assert CacheOk(t, step.fd);
    CountPositive(t.pcache, step.fd);
    CountPositive(t.rcache, step.fd);
    if t.pcache != [] {
      TopPrimaryIsWaiting(t);
      CountPop(t.pcache, step.fd);
      CountPositive(Pop(t.pcache), step.fd);
    }
    hide MasterOk, SolidJoin, CacheView.Fresh;
  }

  /** Nobody waits before its first heartbeat. */
  lemma WaitingAreOthers(t: Table, fd: int)
    requires TableOk(t) && fd in t.recs && t.recs[fd].status == 'n'
    ensures fd !in t.pcache && fd !in t.rcache
  {
    assert CacheOk(t, fd);
    CountPositive(t.pcache, fd);
    CountPositive(t.rcache, fd);
  }

  /** A first heartbeat, as text, is the join of the cache that sent it, with the
      role, the ip and the two ports where the text has them. An unknown role is
      written down, and nothing else happens. */
  lemma FirstHeartbeatIsAJoin(t: Table, shards: Shards, fd: int, ip: string, clientPort: string, cachePort: string, role: string)
    requires SolidJoin(ip, clientPort, cachePort) && Solid(role)
    requires var fields := Tokens("x#" + ip + "#" + clientPort + "#" + cachePort + "#" + role, "#");
             HeartbeatOk(t, shards, fd, fields) && t.recs[fd].status == 'n'
    ensures var t' := OnHeartbeat(t, shards, fd, Tokens("x#" + ip + "#" + clientPort + "#" + cachePort + "#" + role, "#"));
            && fd in t'.recs && t'.recs[fd].status == role[0]
            && t'.recs[fd].ipPort == ip + "#" + clientPort && t'.recs[fd].ipCache == ip + "#" + cachePort
            && t'.nodes == (if role == "P" then t.nodes + 1 else t.nodes)
            && t'.fdNode == (if role == "P" then t.fdNode + [fd] else t.fdNode)
            && (role != "P" && role != "R" ==>
                  t' == t.(recs := t.recs[fd := Rec(role[0], UNPAIRED, ip + "#" + clientPort, ip + "#" + cachePort)]))
  {
    HeartbeatRoundTrip(ip, clientPort, cachePort, role);
    var fields := ["x", ip, clientPort, cachePort, role];
    assert Tokens(Heartbeat(ip, clientPort, cachePort, role), "#") == fields;
    if role == "P" {
      BeginPrimaryIsDefined(t, shards, fd, fields);
    }
    assert CacheOk(t, fd);
    WaitingAreOthers(t, fd);
    hide TableOk, RingOk, Tokens, Post, Texts, Join, InsertShard;
  }

  // ---------- losses ----------

  /** A primary that has lost its replica is the next to get one. */
  lemma ReplicaLossRequeues(s: State, fd: int)
    requires MasterOk(s) && Enabled(s, LoseReplicaStep(fd))
    ensures fd in s.table.recs && s.table.recs[fd].pair in s.table.recs && s.table.recs[fd].pair != fd
    ensures var t, t' := s.table, Do(s, LoseReplicaStep(fd)).table;
            var p := t.recs[fd].pair;
            && t'.pcache == t.pcache + [p] && t'.rcache == t.rcache && t'.fdNode == t.fdNode && t'.wire == t.wire
            && t'.recs.Keys == t.recs.Keys - {fd} && t'.recs[p] == t.recs[p].(pair := UNPAIRED)
            && (forall x :: x in t.recs && x != fd && x != p ==> t'.recs[x] == t.recs[x])
  {
    StepIsDefined(s, LoseReplicaStep(fd));
    assert CacheOk(s.table, fd);
    hide MasterOk;
  }

  lemma ColonAt(text: string, n: nat)
    requires n < |text|
    ensures text[n := ':'] == text[..n] + ":" + text[n + 1..]
  {
  }

  lemma ColonText(text: string)
    requires IsAddr(text)
    ensures FirstHash(text) < |text|
    ensures WithColon(text) == AddrOf(text).ip + ":" + AddrOf(text).port
  {
    ColonAt(text, FirstHash(text));
  }

  lemma PromotionText(a: string, b: string)
    requires IsAddr(a) && IsAddr(b)
    ensures FirstHash(a) < |a| && FirstHash(b) < |b|
    ensures "C#" + Sep(WithColon(a), WithColon(b))
            == "C#" + AddrOf(a).ip + ":" + AddrOf(a).port + "#" + AddrOf(b).ip + ":" + AddrOf(b).port
  {
    ColonText(a);
    ColonText(b);
    hide AddrOf, WithColon, FirstHash;
  }

  /** A promoted replica is the next to get a replica of its own, and every primary
      left is told, in one text, whose place it has taken. */
  lemma FailoverIsTold(s: State, fd: int)
    requires MasterOk(s) && Enabled(s, FailoverStep(fd))
    ensures fd in s.table.recs && s.table.recs[fd].pair in s.table.recs && s.table.recs[fd].pair != fd
    ensures var t, t' := s.table, Do(s, FailoverStep(fd)).table;
            var backup := t.recs[fd].pair;
            var lost, heir := CacheAddr(t.recs, fd), CacheAddr(t.recs, backup);
            && t'.pcache == t.pcache + [backup] && t'.rcache == t.rcache
            && t'.recs.Keys == t.recs.Keys - {fd}
            && t'.recs[backup] == t.recs[backup].(pair := UNPAIRED, status := 'P')
            && (forall x :: x in t.recs && x != fd && x != backup ==> t'.recs[x] == t.recs[x])
            && t'.wire == Post(t.wire, t'.fdNode, "C#" + lost.ip + ":" + lost.port + "#" + heir.ip + ":" + heir.port)
  {
    StepIsDefined(s, FailoverStep(fd));
    var backup := s.table.recs[fd].pair;
    assert CacheOk(s.table, fd) && CacheOk(s.table, backup);
    PromotionText(s.table.recs[fd].ipCache, s.table.recs[backup].ipCache);
    hide MasterOk, IsAddr, AddrOf, WithColon, IndexOf, Sep, Post, FirstHash;
  }

  // ---------- who waits ----------

  lemma StacksKept(s: State, step: Step)
    requires MasterOk(s) && Enabled(s, step)
    requires !step.BeginPrimaryStep? && !step.JoinReplicaStep? && !step.LoseReplicaStep? && !step.FailoverStep?
    ensures Do(s, step).table.pcache == s.table.pcache && Do(s, step).table.rcache == s.table.rcache
  {
    StepIsDefined(s, step);
    hide MasterOk, Post, Texts, Join, Placement, InsertShard, AfterDelete, Removed, ReplyText, Receive;
  }

  /** As long as no replica is lost or promoted, a primary and a replica never wait
      at the same time: whoever comes is paired with whoever waits. Dead primaries
      on the stack count as waiting here, as they do in the source. */
  lemma {:induction false} NobodyWaitsInVain(steps: seq<Step>)
    requires Possible(steps)
    requires forall i :: 0 <= i < |steps| ==> !steps[i].LoseReplicaStep? && !steps[i].FailoverStep?
    ensures After(steps).table.pcache == [] || After(steps).table.rcache == []
    decreases |steps|
  {
    if steps == [] {
    } else {
      var before, step := steps[..|steps| - 1], steps[|steps| - 1];
      LastStep(steps);
      NobodyWaitsInVain(before);
      var s := After(before);
      hide MasterOk, Enabled, Do, Possible, After;
      if step.BeginPrimaryStep? {
        PrimaryJoins(s, step);
      } else if step.JoinReplicaStep? {
        ReplicaJoins(s, step);
      } else {
        StacksKept(s, step);
      }
    }
  }

  // ---------- addresses ----------

  /** The step in which fd announced the addresses of record r. */
  predicate Announces(step: Step, fd: int, r: Rec) {
    match step
    case BeginPrimaryStep(f, ip, clientPort, cachePort) =>
      f == fd && SolidJoin(ip, clientPort, cachePort) && r.ipPort == ip + "#" + clientPort && r.ipCache == ip + "#" + cachePort
    case JoinReplicaStep(f, ip, clientPort, cachePort) =>
      f == fd && SolidJoin(ip, clientPort, cachePort) && r.ipPort == ip + "#" + clientPort && r.ipCache == ip + "#" + cachePort
    case _ => false
  }

  predicate SameAddresses(t: Table, t': Table, fd: int) {
    && fd in t.recs && fd in t'.recs
    && t'.recs[fd].ipPort == t.recs[fd].ipPort && t'.recs[fd].ipCache == t.recs[fd].ipCache
    && (t'.recs[fd].status == 'n' <==> t.recs[fd].status == 'n')
  }

  lemma OtherKeepsRecords(s: State, step: Step, fd: int)
    requires MasterOk(s) && Enabled(s, step) && fd in Do(s, step).table.recs
    requires !step.BeginPrimaryStep? && !step.JoinReplicaStep? && !step.LoseReplicaStep? && !step.FailoverStep?
    ensures Do(s, step).table.recs[fd] == UNKNOWN || SameAddresses(s.table, Do(s, step).table, fd)
  {
    StepIsDefined(s, step);
    hide MasterOk, Post, Texts, Join, Placement, InsertShard, AfterDelete, Removed, ReplyText, Receive;
  }

  lemma JoinsAreSolid(s: State, step: Step)
    requires Enabled(s, step) && (step.BeginPrimaryStep? || step.JoinReplicaStep?)
    ensures SolidJoin(step.ip, step.clientPort, step.cachePort)
  {
  }

  lemma PairIsKnown(s: State, fd: int)
    requires MasterOk(s) && fd in s.table.recs && s.table.recs[fd].pair in s.table.recs
    ensures s.table.recs[s.table.recs[fd].pair].status != 'n'
  {
    assert CacheOk(s.table, fd);
    assert CacheOk(s.table, s.table.recs[fd].pair);
  }

  lemma StepKeepsAddresses(s: State, step: Step, fd: int)
    requires MasterOk(s) && Enabled(s, step) && fd in Do(s, step).table.recs
    ensures || Do(s, step).table.recs[fd].status == 'n'
            || Announces(step, fd, Do(s, step).table.recs[fd])
            || SameAddresses(s.table, Do(s, step).table, fd)
  {
    assert s.table.recs.Keys == s.table.recs.Keys;
    hide SolidJoin;
    if step.BeginPrimaryStep? {
      PrimaryJoins(s, step);
      JoinsAreSolid(s, step);
      hide MasterOk, Enabled, Do;
    } else if step.JoinReplicaStep? {
      ReplicaJoins(s, step);
      JoinsAreSolid(s, step);
      hide MasterOk, Enabled, Do;
    } else if step.LoseReplicaStep? {
      ReplicaLossRequeues(s, step.fd);
      hide MasterOk, Enabled, Do;
      assert fd in s.table.recs.Keys;
    } else if step.FailoverStep? {
      FailoverIsTold(s, step.fd);
      PairIsKnown(s, step.fd);
      hide MasterOk, Enabled, Do;
      assert fd in s.table.recs.Keys;
    } else {
      OtherKeepsRecords(s, step, fd);
      hide MasterOk, Enabled, Do;
    }
  }

  /** On every run, the record of a cache that has sent a heartbeat has the very
      addresses of its own first heartbeat: for clients the first port, for other
      caches the second. */
  lemma {:induction false} RecordsAreAsAnnounced(steps: seq<Step>, fd: int) returns (i: nat)
    requires Possible(steps) && fd in After(steps).table.recs && After(steps).table.recs[fd].status != 'n'
    ensures i < |steps| && Announces(steps[i], fd, After(steps).table.recs[fd])
    decreases |steps|
  {
    var before, step := steps[..|steps| - 1], steps[|steps| - 1];
    LastStep(steps);
    StepKeepsAddresses(After(before), step, fd);
    hide MasterOk, Enabled, Do, Possible, After;
    if Announces(step, fd, After(steps).table.recs[fd]) {
      i := |steps| - 1;
    } else {
      i := RecordsAreAsAnnounced(before, fd);
      assert steps[i] == before[i];
    }
  }

  /** Every client is sent where it should be: on every run, the address it is told
      is the ip and the client port that the primary its key is routed to announced
      in its first heartbeat. */
  lemma ClientsReachTheAnnouncedPort(steps: seq<Step>, key: string, address: string) returns (i: nat)
    requires Possible(steps) && IsAnswer(After(steps).table, key, address)
    ensures i < |steps| && (steps[i].BeginPrimaryStep? || steps[i].JoinReplicaStep?)
    ensures steps[i].fd == Route(After(steps).table, key)
    ensures address == steps[i].ip + ":" + steps[i].clientPort
  {
    var t := After(steps).table;
    var fd := Route(t, key);
    assert CacheOk(t, fd) && fd in t.fdNode;
    i := RecordsAreAsAnnounced(steps, fd);
    var ip, port :| Solid(ip) && Solid(port) && t.recs[fd].ipPort == Sep(ip, port) && address == ip + ":" + port;
    SliceInvertsIff(ip, port);
    SliceInvertsIff(steps[i].ip, steps[i].clientPort);
    assert Sep(ip, port) == Sep(steps[i].ip, steps[i].clientPort);
  }

  // ---------- answers to heartbeats ----------

  /** The address an answer to fd should name. */
  function PartnerOf(recs: map<int, Rec>, fd: int): Addr
    requires fd in recs
  {
    if recs[fd].pair == UNPAIRED then Addr("None", "None") else CacheAddr(recs, recs[fd].pair)
  }

  lemma PostOne(wire: map<int, seq<string>>, fd: int, text: string)
    requires fd in wire
    ensures Post(wire, [fd], text) == wire[fd := wire[fd] + [text]]
  {
  }

  /** An answer goes to the cache that asked and to nobody else. It says the role on
      record and the address of the other half of its pair, or "None" exactly when
      there is none. */
  lemma AnswerNamesPartner(s: State, fd: int)
    requires MasterOk(s) && Enabled(s, BeatStep(fd))
    ensures fd in s.table.recs && fd in s.table.wire
    ensures var t, s', r := s.table, Do(s, BeatStep(fd)), s.table.recs[fd];
            var named := if r.pair == UNPAIRED then "None" else AddrText(PartnerOf(t.recs, fd));
            && s' == s.(table := t.(wire := t.wire[fd := t.wire[fd] + [[r.status] + "#" + named]]))
            && (named == "None" <==> r.pair == UNPAIRED)
            && (r.pair != UNPAIRED ==> r.pair in t.recs && CleanAddr(PartnerOf(t.recs, fd)))
            && (r.status == 'P' || r.status == 'R')
  {
    var r := s.table.recs[fd];
    StepIsDefined(s, BeatStep(fd));
    assert CacheOk(s.table, fd);
    if r.pair != UNPAIRED {
      assert CacheOk(s.table, r.pair);
      AddrOfText(s.table.recs[r.pair].ipCache);
      HashIsNotInNone(PartnerOf(s.table.recs, fd));
    }
    hide MasterOk, AddrOf, IsAddr, CleanAddr;
    PostOne(s.table.wire, fd, ReplyText(s.table.recs, fd));
  }

  /** On every run, a cache that reads the answer to its heartbeat knows its role
      and its partner; only one that was told to die does not listen. */
  lemma ReaderLearnsPartner(steps: seq<Step>, fd: int, v: View)
    requires Possible(steps) && Enabled(After(steps), BeatStep(fd)) && v.ready && v.status != "K"
    ensures fd in After(steps).table.recs
    ensures var s, s' := After(steps), Do(After(steps), BeatStep(fd));
            var r := s.table.recs[fd];
            && fd in s'.table.wire && s'.table.wire[fd] != []
            && var w := Receive(v, s'.table.wire[fd][|s'.table.wire[fd]| - 1]);
            && w.Some? && w.value.status == [r.status] && w.value.target == PartnerOf(s.table.recs, fd)
            && w.value.list == v.list && w.value.dying == v.dying
  {
    var s := After(steps);
    AnswerNamesPartner(s, fd);
    var r := s.table.recs[fd];
    hide Do, MasterOk, Enabled, CacheAddr;
    ReadReply(v, r.status, if r.pair == UNPAIRED then None else Some(PartnerOf(s.table.recs, fd)));
  }

  // ---------- who hears what ----------

  /** A cache that has not announced itself has been sent nothing, and a replica
      nothing but answers to its heartbeats. */
  ghost predicate HearsAnswersOnly(t: Table, fd: int)
    requires fd in t.recs
  {
    && fd in t.wire
    && (t.recs[fd].status == 'n' ==> t.wire[fd] == [])
    && (t.recs[fd].status == 'R' ==> forall m :: m in t.wire[fd] ==> "R#" <= m)
  }

  predicate IsBroadcast(step: Step) {
    step.EndPrimaryStep? || step.FailoverStep? || step.LosePrimaryStep? || step.BeginShrinkStep?
  }

  lemma BroadcastKeepsHearing(s: State, step: Step, fd: int)
    requires MasterOk(s) && Enabled(s, step) && IsBroadcast(step)
    requires fd in Do(s, step).table.recs && Do(s, step).table.recs[fd].status != 'P'
    requires fd in s.table.recs ==> HearsAnswersOnly(s.table, fd)
    ensures HearsAnswersOnly(Do(s, step).table, fd)
  {
    DoKeepsMasterOk(s, step);
    assert fd !in Do(s, step).table.fdNode;
    StepIsDefined(s, step);
    assert step.EndPrimaryStep? ==> Top(s.table.fdNode) in s.table.fdNode;
    hide MasterOk, Texts, Join, Placement, InsertShard, AfterDelete, Removed, WithColon, Sep;
  }

  lemma JoinKeepsHearing(s: State, step: Step, fd: int)
    requires MasterOk(s) && Enabled(s, step) && (step.BeginPrimaryStep? || step.JoinReplicaStep?)
    requires fd in Do(s, step).table.recs && Do(s, step).table.recs[fd].status != 'P'
    requires fd in s.table.recs ==> HearsAnswersOnly(s.table, fd)
    ensures HearsAnswersOnly(Do(s, step).table, fd)
  {
    assert s.table.recs[step.fd].status == 'n';
    assert fd in s.table.recs.Keys by {
      if step.BeginPrimaryStep? {
        PrimaryJoins(s, step);
      } else {
        ReplicaJoins(s, step);
      }
    }
    if step.BeginPrimaryStep? {
      PrimaryJoins(s, step);
    } else {
      ReplicaJoins(s, step);
    }
    hide MasterOk, Enabled, Do, SolidJoin;
  }

  lemma LossKeepsHearing(s: State, step: Step, fd: int)
    requires MasterOk(s) && Enabled(s, step) && step.LoseReplicaStep?
    requires fd in Do(s, step).table.recs && Do(s, step).table.recs[fd].status != 'P'
    requires fd in s.table.recs ==> HearsAnswersOnly(s.table, fd)
    ensures HearsAnswersOnly(Do(s, step).table, fd)
  {
    ReplicaLossRequeues(s, step.fd);
    hide MasterOk, Enabled, Do;
    assert fd in s.table.recs.Keys;
  }

  lemma StartsWithR(named: string)
    ensures "R#" <= ['R'] + "#" + named
  {
    assert ['R'] + "#" == "R#";
  }

  lemma BeatKeepsHearing(s: State, step: Step, fd: int)
    requires MasterOk(s) && Enabled(s, step) && step.BeatStep?
    requires fd in Do(s, step).table.recs && Do(s, step).table.recs[fd].status != 'P'
    requires fd in s.table.recs ==> HearsAnswersOnly(s.table, fd)
    ensures HearsAnswersOnly(Do(s, step).table, fd)
  {
    AnswerNamesPartner(s, step.fd);
    var r := s.table.recs[step.fd];
    var named := if r.pair == UNPAIRED then "None" else AddrText(PartnerOf(s.table.recs, step.fd));
    StartsWithR(named);
    hide MasterOk, Enabled, Do, AddrText, PartnerOf;
  }

  lemma DeliveryKeepsHearing(s: State, step: Step, fd: int)
    requires MasterOk(s) && Enabled(s, step) && step.DeliverStep?
    requires fd in Do(s, step).table.recs && Do(s, step).table.recs[fd].status != 'P'
    requires fd in s.table.recs ==> HearsAnswersOnly(s.table, fd)
    ensures HearsAnswersOnly(Do(s, step).table, fd)
  {
    hide MasterOk, Receive;
    var queue := s.table.wire[step.fd];
    assert Do(s, step).table == s.table.(wire := s.table.wire[step.fd := queue[1..]]);
    assert forall m :: m in queue[1..] ==> m in queue;
  }

  lemma EndShrinkKeepsHearing(s: State, step: Step, fd: int)
    requires MasterOk(s) && Enabled(s, step) && step.EndShrinkStep?
    requires fd in Do(s, step).table.recs && Do(s, step).table.recs[fd].status != 'P'
    requires fd in s.table.recs ==> HearsAnswersOnly(s.table, fd)
    ensures HearsAnswersOnly(Do(s, step).table, fd)
  {
    StepIsDefined(s, step);
    hide MasterOk;
    assert Do(s, step).table.wire == s.table.wire;
    assert fd in s.table.recs && Do(s, step).table.recs[fd] == s.table.recs[fd];
  }

  lemma OtherKeepsHearing(s: State, step: Step, fd: int)
    requires MasterOk(s) && Enabled(s, step) && (step.AcceptStep? || step.LoseUnknownStep?)
    requires fd in Do(s, step).table.recs && Do(s, step).table.recs[fd].status != 'P'
    requires fd in s.table.recs ==> HearsAnswersOnly(s.table, fd)
    ensures HearsAnswersOnly(Do(s, step).table, fd)
  {
    hide MasterOk;
  }

  /** On every run, whatever is still queued for a replica is the answer to one of
      its heartbeats: no list, no `N`, `K`, `C` or `D` is ever sent to it. */
  lemma {:induction false} ReplicasHearAnswersOnly(steps: seq<Step>, fd: int)
    requires Possible(steps) && fd in After(steps).table.recs
    ensures HearsAnswersOnly(After(steps).table, fd)
    decreases |steps|
  {
    var before, step := steps[..|steps| - 1], steps[|steps| - 1];
    LastStep(steps);
    var s := After(before);
    if After(steps).table.recs[fd].status == 'P' {
      assert CacheOk(After(steps).table, fd);
    } else {
      if fd in s.table.recs {
        ReplicasHearAnswersOnly(before, fd);
      }
      hide MasterOk, Enabled, Do, Possible, After, HearsAnswersOnly;
      if IsBroadcast(step) {
        BroadcastKeepsHearing(s, step, fd);
      } else if step.BeginPrimaryStep? || step.JoinReplicaStep? {
        JoinKeepsHearing(s, step, fd);
      } else if step.LoseReplicaStep? {
        LossKeepsHearing(s, step, fd);
      } else if step.BeatStep? {
        BeatKeepsHearing(s, step, fd);
      } else if step.DeliverStep? {
        DeliveryKeepsHearing(s, step, fd);
      } else if step.EndShrinkStep? {
        EndShrinkKeepsHearing(s, step, fd);
      } else {
        OtherKeepsHearing(s, step, fd);
      }
    }
  }

  /** An initialised view that reads one answer. */
  lemma ReadsOneAnswer(v: View, pair: Option<Addr>)
    requires v.ready && v.status != "K" && (pair.Some? ==> CleanAddr(pair.value))
    ensures Fold(v, [['R'] + "#" + PairText(pair)]) == Some(v.(status := "R", target := PairOf(pair)))
  {
    var text := ['R'] + "#" + PairText(pair);
    ReadReply(v, 'R', pair);
    hide PairText, ReadFromMaster;
    var w := v.(status := "R", target := PairOf(pair));
    assert [text][1..] == [];
    assert Fold(w, []) == Some(w);
  }

  /** What a new replica has in its queue after its first heartbeat. */
  lemma FirstAnswer(s: State, fd: int)
    requires MasterOk(s) && Enabled(s, BeatStep(fd)) && fd in s.table.recs && s.table.recs[fd].status == 'R'
    requires fd in s.table.wire && s.table.wire[fd] == []
    ensures var pair := if s.table.recs[fd].pair == UNPAIRED then None else Some(CacheAddr(s.table.recs, s.table.recs[fd].pair));
            && (pair.Some? ==> CleanAddr(pair.value))
            && fd in Do(s, BeatStep(fd)).table.wire
            && Do(s, BeatStep(fd)).table.wire[fd] == [['R'] + "#" + PairText(pair)]
            && Do(s, BeatStep(fd)).views == s.views
  {
    AnswerNamesPartner(s, fd);
    hide MasterOk, Enabled, Do, AddrOf, CleanAddr;
    var text := ['R'] + "#" + if s.table.recs[fd].pair == UNPAIRED then "None" else AddrText(PartnerOf(s.table.recs, fd));
    assert [] + [text] == [text];
  }

  /** A replica needs no list: the first thing it reads is the answer to its first
      heartbeat, and with that it knows its role and its primary. */
  lemma NewReplicaLearnsItsPrimary(steps: seq<Step>, fd: int, ip: string, clientPort: string, cachePort: string)
    requires Possible(steps) && Enabled(After(steps), JoinReplicaStep(fd, ip, clientPort, cachePort))
    ensures var t := After(steps).table;
            var s1 := Do(After(steps), JoinReplicaStep(fd, ip, clientPort, cachePort));
            && MasterOk(s1) && Enabled(s1, BeatStep(fd))
            && var s2 := Do(s1, BeatStep(fd));
            && fd in s2.views && fd in s2.table.wire && |s2.table.wire[fd]| == 1
            && Fold(s2.views[fd], s2.table.wire[fd]) ==
               Some(View(true, [], "R", "R", Addr(ip, cachePort), Addr("", ""),
                         if t.pcache == [] then Addr("None", "None") else CacheAddr(t.recs, Top(t.pcache))))
  {
    var s, step := After(steps), JoinReplicaStep(fd, ip, clientPort, cachePort);
    var s1 := Do(s, step);
    ReplicaJoins(s, step);
    ReplicasHearAnswersOnly(steps, fd);
    DoKeepsMasterOk(s, step);
    assert fd in s1.views && s1.views[fd] == View(true, [], "R", "R", Addr(ip, cachePort), Addr("", ""), Addr("None", "None"));
    assert s1.table.wire[fd] == [] && s1.phase.Stable? && Enabled(s1, BeatStep(fd));
    assert CacheAddr(s1.table.recs, s1.table.recs[fd].pair) ==
           if s.table.pcache == [] then NOBODY else CacheAddr(s.table.recs, Top(s.table.pcache));
    hide Do, MasterOk, Enabled, Possible, After, CacheAddr, CleanAddr, Fold, PairText;
    FirstAnswer(s1, fd);
    ReadsOneAnswer(s1.views[fd], if s1.table.recs[fd].pair == UNPAIRED then None else Some(CacheAddr(s1.table.recs, s1.table.recs[fd].pair)));
  }

  // ---------- the survivors of a shrink ----------

  /** What has been heard of a death stays the last thing heard: after a death
      notice, the cache remembers the address it names. */
  lemma DeathIsRemembered(v: View, queue: seq<string>, list: seq<Addr>, self: Addr, i: nat)
    requires Tracks(v, queue, list, self, false)
    requires i < |list| && CleanAddr(list[i])
    ensures var w := Fold(v, queue + [KillText(list[i])]);
            w.Some? && w.value.dying == list[i] && w.value.status == if list[i] == self then "K" else "P"
  {
    FoldSnoc(v, queue, KillText(list[i]));
    ReadKill(Fold(v, queue).value, list[i]);
    EraseFindsIff(list, list[i]);
  }

  lemma SolidAddr(text: string)
    requires IsAddr(text)
    ensures AddrOf(text).ip != "" && AddrOf(text).port != ""
  {
  }

  lemma ListAgreed(s: State, fd: int)
    requires ViewsOk(s) && s.phase.Stable? && fd in s.table.fdNode
    ensures fd in s.views && fd in s.table.wire
    ensures Tracks(s.views[fd], s.table.wire[fd], Expected(s), CacheAddr(s.table.recs, fd), false)
  {
    hide Tracks, Expected, CacheAddr;
    assert ViewOk(s, fd);
  }

  lemma LastAddrIsSolid(s: State)
    requires MasterOk(s) && s.table.fdNode != []
    ensures var a := CacheAddr(s.table.recs, Top(s.table.fdNode)); a.ip != "" && a.port != ""
  {
    var gone := Top(s.table.fdNode);
    assert gone in s.table.fdNode;
    PrimaryAddr(s, gone);
    SolidAddr(s.table.recs[gone].ipCache);
    hide MasterOk, AddrOf, IsAddr, CleanAddr;
  }

  lemma DeathIsHeard(s: State, s': State, fd: int, all: seq<Addr>, self: Addr, last: nat)
    requires fd in s.views && fd in s.table.wire && fd in s.table.fdNode && last < |all|
    requires Tracks(s.views[fd], s.table.wire[fd], all, self, false)
    requires CleanAddr(all[last]) && all[last].ip != "" && all[last].port != ""
    requires s'.views == s.views && s'.table.wire == Post(s.table.wire, s.table.fdNode, KillText(all[last]))
    ensures fd in s'.views && fd in s'.table.wire
    ensures var w := Fold(s'.views[fd], s'.table.wire[fd]);
            && w.Some? && w.value.dying == all[last]
            && (if all[last] == self then w.value.status == "K" else Listens(w.value))
  {
    hide Tracks, CleanAddr, Post, KillText;
    DeathIsRemembered(s.views[fd], s.table.wire[fd], all, self, last);
    PostAt(s.table.wire, s.table.fdNode, KillText(all[last]), fd);
  }

  lemma ShrinkIsHeard(s: State, s': State, fd: int)
    requires MasterOk(s) && ViewsOk(s) && s.phase.Stable? && fd in s.table.fdNode
    requires var all, last := Addrs(s.table.recs, s.table.fdNode), |s.table.fdNode| - 1;
             && s'.views == s.views && s'.table.wire == Post(s.table.wire, s.table.fdNode, KillText(all[last]))
             && Expected(s) == all && CleanAddr(all[last])
    ensures var gone := CacheAddr(s.table.recs, Top(s.table.fdNode));
            && fd in s'.views && fd in s'.table.wire
            && var w := Fold(s'.views[fd], s'.table.wire[fd]);
            && w.Some? && w.value.dying == gone
            && (if fd == Top(s.table.fdNode) then w.value.status == "K" else Listens(w.value))
  {
    var all, last := Addrs(s.table.recs, s.table.fdNode), |s.table.fdNode| - 1;
    LastAddrIsSolid(s);
    ListAgreed(s, fd);
    AddrIsOwn(s, fd, Top(s.table.fdNode));
    hide MasterOk, ViewsOk, Tracks, CacheAddr, CleanAddr, Addrs, Post, KillText, NoDuplicates, Fold, Expected, Listens;
    DeathIsHeard(s, s', fd, all, CacheAddr(s.table.recs, fd), last);
  }

  /** On every orderly run, when a shrink begins, every survivor that reads its
      queue ends up waiting for the entries of the cache that is shrunk away, and
      that one ends up killed. */
  lemma SurvivorsListen(steps: seq<Step>, fd: int)
    requires PossibleInOrder(steps) && Enabled(After(steps), BeginShrinkStep) && fd in After(steps).table.fdNode
    ensures var s, s' := After(steps), Do(After(steps), BeginShrinkStep);
            var gone := Top(s.table.fdNode);
            && fd in s'.views && fd in s'.table.wire
            && var w := Fold(s'.views[fd], s'.table.wire[fd]);
            && w.Some? && w.value.dying == CacheAddr(s.table.recs, gone)
            && (fd != gone ==> Listens(w.value)) && (fd == gone ==> w.value.status == "K")
  {
    StartIsOk();
    StartViewsOk();
    RunKeepsViews(START, steps);
    var s := After(steps);
    BeginShrinkLists(s);
    assert s.phase.Stable?;
    hide MasterOk, ViewsOk, Do, Enabled, Possible, PossibleInOrder, After, CacheAddr, CleanAddr, Addrs, Post, KillText, Fold, Expected, Listens;
    ShrinkIsHeard(s, Do(s, BeginShrinkStep), fd);
  }
}
