/** The whole cluster as a step system: the master's tables, one FIFO queue per
    cache, and every cache's own view. */
module Protocol {
  import opened Murmur
  import opened Ring
  import opened Wire
  import opened CacheView
  import opened MasterModel

  /** A join and a shrink are two steps each, so that lookups and deliveries can
      come in between; no other membership event can. */
  datatype Phase = Stable | Joining | Shrinking

  datatype State = State(
    table: Table, phase: Phase, views: map<int, View>,
    open: set<int>)   // descriptors the master has accepted and not closed

  datatype Step =
    | AcceptStep(fd: int)
    | BeginPrimaryStep(fd: int, ip: string, clientPort: string, cachePort: string)
    | EndPrimaryStep
    | JoinReplicaStep(fd: int, ip: string, clientPort: string, cachePort: string)
    | BeatStep(fd: int)
    | LoseReplicaStep(fd: int)
    | FailoverStep(fd: int)
    | LosePrimaryStep(fd: int)
    | LoseUnknownStep(fd: int)
    | BeginShrinkStep
    | EndShrinkStep
    | DeliverStep(fd: int)

  const START: State := State(EMPTY, Stable, map[], {})

  /** The placement of the real ring. */
  function Placement(): Shards {
    HashedShards(V_NODES)
  }

  /** A shard has the points of a hundred names. */
  lemma PlacementOfShard(shard: nat, x: Word)
    ensures x in Placement()(shard) <==> exists j: nat :: j < 100 && x == Place(shard, j)
    ensures forall j: nat :: Place(shard, j) == Hash("SHARD-" + Decimal(shard) + "NODE-" + Decimal(j))
  {
    hide Hash;
    assert Placement()(shard) == ShardPoints(shard, 100);
  }

  predicate IsLive(t: Table, fd: int, status: char) {
    fd in t.recs && t.recs[fd].status == status
  }

  /** What must hold for an event to happen. Descriptors are fresh; membership
      changes one at a time; only paired replicas are lost; a replica joins only
      when the waiting primary on top, if any, is still live. */
  predicate Enabled(s: State, step: Step) {
    var t := s.table;
    match step
    case AcceptStep(fd) => fd > 0 && fd !in t.wire
    case BeginPrimaryStep(fd, ip, clientPort, cachePort) =>
      s.phase.Stable? && IsLive(t, fd, 'n') && SolidJoin(ip, clientPort, cachePort)
    case EndPrimaryStep => s.phase.Joining?
    case JoinReplicaStep(fd, ip, clientPort, cachePort) =>
      s.phase.Stable? && IsLive(t, fd, 'n') && SolidJoin(ip, clientPort, cachePort)
      && (t.pcache != [] ==> Top(t.pcache) in t.recs)
    case BeatStep(fd) => !s.phase.Joining? && (IsLive(t, fd, 'P') || IsLive(t, fd, 'R'))
    case LoseReplicaStep(fd) => s.phase.Stable? && IsLive(t, fd, 'R') && t.recs[fd].pair != UNPAIRED
    case FailoverStep(fd) => s.phase.Stable? && IsLive(t, fd, 'P') && t.recs[fd].pair != UNPAIRED
    case LosePrimaryStep(fd) => s.phase.Stable? && IsLive(t, fd, 'P') && t.recs[fd].pair == UNPAIRED
    case LoseUnknownStep(fd) => s.phase.Stable? && IsLive(t, fd, 'n')
    case BeginShrinkStep => s.phase.Stable? && t.fdNode != []
    case EndShrinkStep => s.phase.Shrinking?
    case DeliverStep(fd) => fd in s.views && fd in t.wire && t.wire[fd] != []
  }

  /** How many shards the ring has, given how far the current change has got. */
  ghost predicate PhaseOk(s: State) {
    && |s.table.fdNode| == s.table.nodes + (if s.phase.Stable? then 0 else 1)
  }

  /** The invariant of the master on every run. */
  ghost predicate MasterOk(s: State) {
    TableOk(s.table) && RingOk(s.table, Placement()) && PhaseOk(s)
  }

  /** A cache process reads its next message. A message on which the source is
      undefined ends the process. */
  function Deliver(s: State, fd: int): State
    requires Enabled(s, DeliverStep(fd))
  {
    var queue := s.table.wire[fd];
    s.(table := s.table.(wire := s.table.wire[fd := queue[1..]]),
       views := match Receive(s.views[fd], queue[0])
         case Some(v) => s.views[fd := v]
         case None => s.views - {fd})
  }

  /** No event dereferences a record that is not there. */
  lemma StepIsDefined(s: State, step: Step)
    requires MasterOk(s) && Enabled(s, step)
    ensures var t := s.table;
            match step
            case BeginPrimaryStep(fd, _, _, _) => t.rcache != [] ==> Top(t.rcache) in t.recs
            case EndPrimaryStep => t.fdNode != [] && forall i :: 0 <= i < |t.fdNode| ==> t.fdNode[i] in t.recs
            case BeatStep(fd) => t.recs[fd].pair > UNPAIRED ==> t.recs[fd].pair in t.recs
            case LoseReplicaStep(fd) => t.recs[fd].pair in t.recs
            case FailoverStep(fd) => FailoverIsPossible(t, fd)
            case LosePrimaryStep(fd) => fd in t.fdNode && t.nodes > 0
            case BeginShrinkStep => Top(t.fdNode) in t.recs && t.nodes > 0
            case EndShrinkStep => t.fdNode != [] && Top(t.fdNode) in t.recs
            case _ => true
  {
    var t := s.table;
    forall i | 0 <= i < |t.fdNode|
      ensures t.fdNode[i] in t.recs
    {
      PrimaryIsListed(t, t.fdNode[i]);
    }
    match step
    case BeginPrimaryStep(fd, ip, clientPort, cachePort) => BeginPrimaryKeepsOk(t, fd, ip, clientPort, cachePort);
    case BeatStep(fd) => BeatKeepsOk(t, fd);
    case LoseReplicaStep(fd) => LoseReplicaKeepsOk(t, fd);
    case FailoverStep(fd) => FailoverIsDefined(t, fd);
    case _ =>
  }

  ghost function Do(s: State, step: Step): State
    requires MasterOk(s) && Enabled(s, step)
  {
    var t := s.table;
    StepIsDefined(s, step);
    match step
    case AcceptStep(fd) => s.(table := Accept(t, fd), open := s.open + {fd})
    case BeginPrimaryStep(fd, ip, clientPort, cachePort) =>
      s.(table := BeginPrimary(t, fd, ip, clientPort, cachePort), phase := Joining,
         views := s.views[fd := CacheView.Fresh(Addr(ip, cachePort), "P")])
    case EndPrimaryStep => s.(table := EndPrimary(t, Placement()), phase := Stable)
    case JoinReplicaStep(fd, ip, clientPort, cachePort) =>
      s.(table := JoinReplica(t, fd, ip, clientPort, cachePort), views := s.views[fd := CacheView.Fresh(Addr(ip, cachePort), "R")])
    case BeatStep(fd) => s.(table := Beat(t, fd))
    case LoseReplicaStep(fd) => s.(table := LoseReplica(t, fd), open := s.open - {fd})
    case FailoverStep(fd) => s.(table := Failover(t, fd), open := s.open - {fd})
    case LosePrimaryStep(fd) => s.(table := LosePrimary(t, fd, Placement()), open := s.open - {fd})
    case LoseUnknownStep(fd) => s.(table := LoseUnknown(t, fd))
    case BeginShrinkStep => s.(table := BeginShrink(t, Placement()), phase := Shrinking)
    case EndShrinkStep => s.(table := EndShrink(t), phase := Stable, open := s.open - {Top(t.fdNode), t.recs[Top(t.fdNode)].pair})
    case DeliverStep(fd) => Deliver(s, fd)
  }

  lemma DoKeepsMasterOk(s: State, step: Step)
    requires MasterOk(s) && Enabled(s, step)
    ensures MasterOk(Do(s, step))
  {
    StepIsDefined(s, step);
    var t, shards := s.table, Placement();
    match step
    case AcceptStep(fd) => AcceptKeepsOk(t, fd);
    case BeginPrimaryStep(fd, ip, clientPort, cachePort) => BeginPrimaryKeepsOk(t, fd, ip, clientPort, cachePort);
    case EndPrimaryStep => EndPrimaryKeepsOk(t, shards);
    case JoinReplicaStep(fd, ip, clientPort, cachePort) => JoinReplicaKeepsOk(t, fd, ip, clientPort, cachePort);
    case BeatStep(fd) => BeatKeepsOk(t, fd);
    case LoseReplicaStep(fd) => LoseReplicaKeepsOk(t, fd);
    case FailoverStep(fd) => FailoverKeepsOk(t, fd);
    case LosePrimaryStep(fd) => LosePrimaryKeepsOk(t, fd, shards);
    case LoseUnknownStep(fd) => LoseUnknownKeepsOk(t, fd);
    case BeginShrinkStep => BeginShrinkKeepsOk(t, shards);
    case EndShrinkStep => EndShrinkKeepsOk(t, shards);
    case DeliverStep(fd) => WireKeepsOk(t, Deliver(s, fd).table);
  }

  ghost predicate Legal(s: State, steps: seq<Step>)
    requires MasterOk(s)
    decreases |steps|
  {
    steps == [] ||
    (Enabled(s, steps[0]) &&
     (DoKeepsMasterOk(s, steps[0]); Legal(Do(s, steps[0]), steps[1..])))
  }

  ghost function Run(s: State, steps: seq<Step>): (s': State)
    requires MasterOk(s) && Legal(s, steps)
    ensures MasterOk(s')
    decreases |steps|
  {
    if steps == [] then s
    else
      DoKeepsMasterOk(s, steps[0]);
      Run(Do(s, steps[0]), steps[1..])
  }

  lemma StartIsOk()
    ensures MasterOk(START)
  {
    EmptyIsOk(Placement());
  }

  /** A run of the cluster from nothing. */
  ghost predicate Possible(steps: seq<Step>) {
    StartIsOk();
    Legal(START, steps)
  }

  ghost function After(steps: seq<Step>): State
    requires Possible(steps)
  {
    StartIsOk();
    Run(START, steps)
  }

  /** On every run: fd_node is exactly the live primaries, each once; pairing is
      symmetric and joins one primary to one replica; every live unpaired cache
      waits on its stack exactly once; and no lookup leaves the table, not even
      in the middle of a join or a shrink. */
  lemma MasterTableOnAllRuns(steps: seq<Step>, fd: int, key: string)
    requires Possible(steps)
    ensures var t := After(steps).table;
            && NoDuplicates(t.fdNode)
            && (fd in t.fdNode <==> fd in t.recs && t.recs[fd].status == 'P')
            && (fd in t.recs ==> PairOk(t, fd) && WaitsOnce(t, fd))
            && (t.ring != map[] ==> ShardOf(t.ring, Hash(key)) < |t.fdNode| && Route(t, key) in t.recs)
  {
    var t := After(steps).table;
    if fd in t.recs {
      assert CacheOk(t, fd);
    }
    if t.ring != map[] {
      LookupIsSafe(t, Placement(), key);
    }
  }
}
