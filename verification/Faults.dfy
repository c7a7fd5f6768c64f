/** Which events the master cannot survive. The source looks records up without a
    test; this file says exactly when it finds them, and shows the runs on which
    it does not. */
module Faults {
  import opened CacheView
  import opened MasterModel
  import opened Protocol
  import opened Ring
  import opened Wire

  predicate IsHeartbeat(step: Step) {
    step.BeginPrimaryStep? || step.JoinReplicaStep? || step.BeatStep?
  }

  /** An event the environment can bring about, whatever the tables say: any
      descriptor that is open may send a heartbeat, and any replica may be lost. */
  predicate Happens(s: State, step: Step) {
    var t := s.table;
    match step
    case BeginPrimaryStep(fd, ip, clientPort, cachePort) =>
      s.phase.Stable? && fd in s.open && (fd in t.recs ==> t.recs[fd].status == 'n') && SolidJoin(ip, clientPort, cachePort)
    case JoinReplicaStep(fd, ip, clientPort, cachePort) =>
      s.phase.Stable? && fd in s.open && (fd in t.recs ==> t.recs[fd].status == 'n') && SolidJoin(ip, clientPort, cachePort)
    case BeatStep(fd) => !s.phase.Joining? && fd in s.open && (fd in t.recs ==> t.recs[fd].status != 'n')
    case LoseReplicaStep(fd) => s.phase.Stable? && IsLive(t, fd, 'R')
    case _ => Enabled(s, step)
  }

  /** Every record that handling the event follows is there. */
  predicate FindsRecords(t: Table, step: Step) {
    match step
    case BeginPrimaryStep(fd, _, _, _) => fd in t.recs && (t.rcache != [] ==> Top(t.rcache) in t.recs)
    case EndPrimaryStep => t.fdNode != [] && forall fd :: fd in t.fdNode ==> fd in t.recs
    case JoinReplicaStep(fd, _, _, _) => fd in t.recs && (t.pcache != [] ==> Top(t.pcache) in t.recs)
    case BeatStep(fd) => fd in t.recs && (t.recs[fd].pair > UNPAIRED ==> t.recs[fd].pair in t.recs)
    case LoseReplicaStep(fd) => fd in t.recs && t.recs[fd].pair in t.recs
    case FailoverStep(fd) => fd in t.recs && t.recs[fd].pair in t.recs
    case LosePrimaryStep(fd) => fd in t.recs
    case BeginShrinkStep => t.fdNode != [] && Top(t.fdNode) in t.recs
    case EndShrinkStep => t.fdNode != [] && Top(t.fdNode) in t.recs
    case _ => true
  }

  // ---------- open descriptors and records ----------

  /** The open descriptors are those on record and those in `forgotten`. */
  ghost predicate OpenIs(s: State, forgotten: set<int>) {
    && s.open == s.table.recs.Keys + forgotten
    && forgotten !! s.table.recs.Keys
    && s.open <= s.table.wire.Keys
    && UNPAIRED !in s.open
  }

  /** The descriptors the detector erased before their first heartbeat. It does
      not close these. */
  function Forgotten(steps: seq<Step>): set<int> {
    set i | 0 <= i < |steps| && steps[i].LoseUnknownStep? :: steps[i].fd
  }

  /** The descriptors an event closes. */
  function Closes(s: State, step: Step): set<int>
    requires step.EndShrinkStep? ==> s.table.fdNode != [] && Top(s.table.fdNode) in s.table.recs
  {
    match step
    case LoseReplicaStep(fd) => {fd}
    case FailoverStep(fd) => {fd}
    case LosePrimaryStep(fd) => {fd}
    case EndShrinkStep => {Top(s.table.fdNode), s.table.recs[Top(s.table.fdNode)].pair}
    case _ => {}
  }

  function Opens(step: Step): set<int> {
    if step.AcceptStep? then {step.fd} else {}
  }

  function Forgets(step: Step): set<int> {
    if step.LoseUnknownStep? then {step.fd} else {}
  }

  /** An event opens, forgets and closes descriptors, and touches no other key. */
  ghost predicate HasEffect(s: State, s': State, added: set<int>, forgotten: set<int>, closed: set<int>) {
    && s'.open == s.open + added - closed
    && s'.table.recs.Keys == s.table.recs.Keys + added - forgotten - closed
    && s'.table.wire.Keys == s.table.wire.Keys + added
  }

  lemma PrimaryEffect(s: State, step: Step)
    requires MasterOk(s) && Enabled(s, step) && step.BeginPrimaryStep?
    ensures HasEffect(s, Do(s, step), {}, {}, {})
  {
    StepIsDefined(s, step);
    hide MasterOk, Sep, CacheView.Fresh, SolidJoin;
    assert Do(s, step).table.recs.Keys == s.table.recs.Keys;
  }

  lemma ReplicaEffect(s: State, step: Step)
    requires MasterOk(s) && Enabled(s, step) && step.JoinReplicaStep?
    ensures HasEffect(s, Do(s, step), {}, {}, {})
  {
    StepIsDefined(s, step);
    hide MasterOk, Sep, CacheView.Fresh, SolidJoin;
    assert Do(s, step).table.recs.Keys == s.table.recs.Keys;
  }

  lemma EndPrimaryEffect(s: State)
    requires MasterOk(s) && Enabled(s, EndPrimaryStep)
    ensures HasEffect(s, Do(s, EndPrimaryStep), {}, {}, {})
  {
    StepIsDefined(s, EndPrimaryStep);
    hide MasterOk, Enabled, Post, Texts, Join, Placement, InsertShard;
  }

  lemma OtherEffect(s: State, step: Step)
    requires MasterOk(s) && Enabled(s, step)
    requires step.AcceptStep? || step.BeatStep? || step.BeginShrinkStep? || step.DeliverStep?
    ensures HasEffect(s, Do(s, step), Opens(step), {}, {})
  {
    StepIsDefined(s, step);
    hide MasterOk, Post, Placement, AfterDelete, ReplyText, Receive;
  }

  lemma ReplicaLossEffect(s: State, step: Step)
    requires MasterOk(s) && Enabled(s, step) && (step.LoseReplicaStep? || step.LoseUnknownStep?)
    ensures HasEffect(s, Do(s, step), {}, Forgets(step), Closes(s, step))
  {
    StepIsDefined(s, step);
    hide MasterOk, Post, WithColon, Sep, Placement, AfterDelete, Removed, IndexOf, FirstHash;
    assert Do(s, step).table.recs.Keys == s.table.recs.Keys - {step.fd};
  }

  lemma FailoverEffect(s: State, step: Step)
    requires MasterOk(s) && Enabled(s, step) && step.FailoverStep?
    ensures HasEffect(s, Do(s, step), {}, {}, {step.fd})
  {
    StepIsDefined(s, step);
    hide MasterOk, Post, WithColon, Sep, Placement, AfterDelete, Removed, IndexOf, FirstHash;
    assert Do(s, step).table.recs.Keys == s.table.recs.Keys - {step.fd};
  }

  lemma PrimaryLossEffect(s: State, step: Step)
    requires MasterOk(s) && Enabled(s, step) && step.LosePrimaryStep?
    ensures HasEffect(s, Do(s, step), {}, {}, {step.fd})
  {
    StepIsDefined(s, step);
    hide MasterOk, Post, WithColon, Sep, Placement, AfterDelete, Removed, IndexOf, FirstHash;
    assert Do(s, step).table.recs.Keys == s.table.recs.Keys - {step.fd};
  }

  lemma RecordsArePositive(s: State)
    requires MasterOk(s)
    ensures forall fd :: fd in s.table.recs ==> fd > 0
    ensures forall fd :: fd in s.table.recs && s.table.recs[fd].pair <= 0 ==> s.table.recs[fd].pair == UNPAIRED
  {
    forall fd | fd in s.table.recs
      ensures fd > 0 && (s.table.recs[fd].pair <= 0 ==> s.table.recs[fd].pair == UNPAIRED)
    {
      assert CacheOk(s.table, fd);
      if s.table.recs[fd].pair != UNPAIRED {
        assert CacheOk(s.table, s.table.recs[fd].pair);
      }
    }
  }

  lemma ShrinkEffect(s: State)
    requires MasterOk(s) && Enabled(s, EndShrinkStep)
    ensures s.table.fdNode != [] && Top(s.table.fdNode) in s.table.recs
    ensures HasEffect(s, Do(s, EndShrinkStep), {}, {}, Closes(s, EndShrinkStep))
  {
    StepIsDefined(s, EndShrinkStep);
    RecordsArePositive(s);
    hide MasterOk;
  }

  /** What is closed leaves the records too, what is forgotten leaves only those. */
  lemma StepEffect(s: State, step: Step)
    requires MasterOk(s) && Enabled(s, step)
    ensures step.EndShrinkStep? ==> s.table.fdNode != [] && Top(s.table.fdNode) in s.table.recs
    ensures HasEffect(s, Do(s, step), Opens(step), Forgets(step), Closes(s, step))
  {
    hide HasEffect, MasterOk, Enabled, Do;
    if step.BeginPrimaryStep? {
      PrimaryEffect(s, step);
    } else if step.EndPrimaryStep? {
      EndPrimaryEffect(s);
    } else if step.JoinReplicaStep? {
      ReplicaEffect(s, step);
    } else if step.LoseReplicaStep? || step.LoseUnknownStep? {
      ReplicaLossEffect(s, step);
    } else if step.FailoverStep? {
      FailoverEffect(s, step);
    } else if step.LosePrimaryStep? {
      PrimaryLossEffect(s, step);
    } else if step.EndShrinkStep? {
      ShrinkEffect(s);
    } else {
      OtherEffect(s, step);
    }
  }

  lemma EffectKeepsOpen(s: State, s': State, forgotten: set<int>, added: set<int>, forgets: set<int>, closed: set<int>)
    requires OpenIs(s, forgotten) && HasEffect(s, s', added, forgets, closed)
    requires added !! s.table.wire.Keys && UNPAIRED !in added
    requires closed <= s.table.recs.Keys + {UNPAIRED} && forgets <= s.table.recs.Keys && forgets !! closed
    ensures OpenIs(s', forgotten + forgets)
  {
  }

  lemma EffectIsLegal(s: State, step: Step)
    requires MasterOk(s) && Enabled(s, step)
    requires step.EndShrinkStep? ==> s.table.fdNode != [] && Top(s.table.fdNode) in s.table.recs
    ensures Opens(step) !! s.table.wire.Keys && UNPAIRED !in Opens(step)
    ensures Closes(s, step) <= s.table.recs.Keys + {UNPAIRED}
    ensures Forgets(step) <= s.table.recs.Keys && Forgets(step) !! Closes(s, step)
  {
    if step.EndShrinkStep? {
      assert CacheOk(s.table, Top(s.table.fdNode));
    }
  }

  lemma StepKeepsOpen(s: State, step: Step, forgotten: set<int>)
    requires MasterOk(s) && Enabled(s, step) && OpenIs(s, forgotten)
    ensures OpenIs(Do(s, step), forgotten + Forgets(step))
  {
    StepEffect(s, step);
    EffectIsLegal(s, step);
    hide Do, MasterOk, Enabled, Closes, Opens, Forgets;
    EffectKeepsOpen(s, Do(s, step), forgotten, Opens(step), Forgets(step), Closes(s, step));
  }

  lemma ForgottenCons(steps: seq<Step>)
    requires steps != []
    ensures Forgotten(steps) == Forgets(steps[0]) + Forgotten(steps[1..])
  {
    assert forall i :: 0 < i < |steps| ==> steps[i] == steps[1..][i - 1];
    assert steps[0] == steps[0];
  }

  lemma {:induction false} RunKeepsOpen(s: State, steps: seq<Step>, forgotten: set<int>)
    requires MasterOk(s) && Legal(s, steps) && OpenIs(s, forgotten)
    ensures OpenIs(Run(s, steps), forgotten + Forgotten(steps))
    decreases |steps|
  {
    hide MasterOk, OpenIs, Enabled, Do;
    if steps == [] {
      assert Forgotten(steps) == {};
      assert forgotten + {} == forgotten;
    } else {
      DoKeepsMasterOk(s, steps[0]);
      StepKeepsOpen(s, steps[0], forgotten);
      RunKeepsOpen(Do(s, steps[0]), steps[1..], forgotten + Forgets(steps[0]));
      ForgottenCons(steps);
      assert forgotten + Forgets(steps[0]) + Forgotten(steps[1..]) == forgotten + Forgotten(steps);
    }
  }

  /** On every run, an open descriptor has a record if and only if the detector
      has not erased it before its first heartbeat; and every record is of an
      open descriptor. */
  lemma RecordedIffNotForgotten(steps: seq<Step>, fd: int)
    requires Possible(steps)
    ensures fd in After(steps).open ==> (fd in After(steps).table.recs <==> LoseUnknownStep(fd) !in steps)
    ensures fd in After(steps).table.recs ==> fd in After(steps).open
    ensures LoseUnknownStep(fd) in steps ==> fd in After(steps).open
  {
    StartIsOk();
    RunKeepsOpen(START, steps, {});
    assert {} + Forgotten(steps) == Forgotten(steps);
    assert LoseUnknownStep(fd) in steps <==> fd in Forgotten(steps);
  }

  // ---------- the events the master cannot survive ----------

  /** The three events after which the source follows a record that is not there. */
  ghost predicate IsFatal(steps: seq<Step>, step: Step)
    requires Possible(steps)
  {
    var t := After(steps).table;
    || (IsHeartbeat(step) && LoseUnknownStep(step.fd) in steps)
    || (step.JoinReplicaStep? && t.pcache != [] && Top(t.pcache) !in t.recs)
    || (step.LoseReplicaStep? && step.fd in t.recs && t.recs[step.fd].pair == UNPAIRED)
  }

  /** After every run, for every event that can come next: the source finds all
      the records it follows, the event is one the model goes on from, and the
      event is none of the three fatal ones, all three or none. */
  lemma RecordsAreFoundIff(steps: seq<Step>, step: Step)
    requires Possible(steps) && Happens(After(steps), step)
    ensures FindsRecords(After(steps).table, step) <==> !IsFatal(steps, step)
    ensures Enabled(After(steps), step) <==> !IsFatal(steps, step)
  {
    var s := After(steps);
    if IsHeartbeat(step) {
      RecordedIffNotForgotten(steps, step.fd);
      if step.fd in s.table.recs {
        assert CacheOk(s.table, step.fd);
      }
    }
    if step.LoseReplicaStep? {
      assert CacheOk(s.table, step.fd);
    }
    if Enabled(s, step) {
      StepIsDefined(s, step);
    }
    hide Possible, After;
  }

  // ---------- the three fatal events do happen ----------

  lemma {:induction false} LegalSnoc(s: State, steps: seq<Step>, step: Step)
    requires MasterOk(s) && Legal(s, steps) && Enabled(Run(s, steps), step)
    ensures Legal(s, steps + [step]) && Run(s, steps + [step]) == Do(Run(s, steps), step)
    decreases |steps|
  {
    hide MasterOk, Enabled, Do;
    if steps == [] {
      DoKeepsMasterOk(s, step);
      assert [] + [step] == [step] && [step][1..] == [];
      assert Legal(Do(s, step), []) && Run(Do(s, step), []) == Do(s, step);
    } else {
      DoKeepsMasterOk(s, steps[0]);
      assert (steps + [step])[1..] == steps[1..] + [step];
      LegalSnoc(Do(s, steps[0]), steps[1..], step);
    }
  }

  lemma OneMore(steps: seq<Step>, step: Step)
    requires Possible(steps) && Enabled(After(steps), step)
    ensures Possible(steps + [step]) && After(steps + [step]) == Do(After(steps), step)
  {
    StartIsOk();
    LegalSnoc(START, steps, step);
  }

  /** A new connection, in one step from nothing. */
  lemma Connected() returns (steps: seq<Step>)
    ensures steps == [AcceptStep(1)] && Possible(steps)
    ensures After(steps) == START.(table := Accept(EMPTY, 1), open := {1})
  {
    StartIsOk();
    assert Legal(START, []) && Run(START, []) == START;
    OneMore([], AcceptStep(1));
    steps := [AcceptStep(1)];
    assert [] + [AcceptStep(1)] == steps;
    assert {} + {1} == {1};
  }

  /** A cache that is slow with its first heartbeat: the detector erases its
      record, and the heartbeat then finds none. */
  lemma SlowFirstHeartbeatIsFatal() returns (steps: seq<Step>)
    ensures steps == [AcceptStep(1), LoseUnknownStep(1)] && Possible(steps)
    ensures Happens(After(steps), BeginPrimaryStep(1, "h", "1", "2"))
    ensures IsFatal(steps, BeginPrimaryStep(1, "h", "1", "2"))
  {
    steps := Connected();
    OneMore(steps, LoseUnknownStep(1));
    steps := steps + [LoseUnknownStep(1)];
    assert steps[1] == LoseUnknownStep(1);
  }

  /** A replica that never had a primary is lost. */
  lemma LoneReplicaIsFatal() returns (steps: seq<Step>)
    ensures steps == [AcceptStep(1), JoinReplicaStep(1, "h", "1", "2")] && Possible(steps)
    ensures Happens(After(steps), LoseReplicaStep(1)) && IsFatal(steps, LoseReplicaStep(1))
  {
    steps := Connected();
    OneMore(steps, JoinReplicaStep(1, "h", "1", "2"));
    steps := steps + [JoinReplicaStep(1, "h", "1", "2")];
  }

  lemma OneJoining() returns (steps: seq<Step>)
    ensures steps == [AcceptStep(1), BeginPrimaryStep(1, "h", "1", "2")] && Possible(steps)
    ensures var s := After(steps);
            && s.phase.Joining? && s.open == {1} && s.table.fdNode == [1] && s.table.pcache == [1] && s.table.rcache == []
            && IsLive(s.table, 1, 'P') && s.table.recs[1].pair == UNPAIRED && s.table.wire.Keys == {1}
  {
    steps := Connected();
    OneMore(steps, BeginPrimaryStep(1, "h", "1", "2"));
    steps := steps + [BeginPrimaryStep(1, "h", "1", "2")];
  }

  /** One primary, alone. */
  lemma OnePrimary() returns (steps: seq<Step>)
    ensures steps == [AcceptStep(1), BeginPrimaryStep(1, "h", "1", "2"), EndPrimaryStep] && Possible(steps)
    ensures var s := After(steps);
            && s.phase.Stable? && s.open == {1} && s.table.fdNode == [1] && s.table.pcache == [1] && s.table.rcache == []
            && IsLive(s.table, 1, 'P') && s.table.recs[1].pair == UNPAIRED && s.table.wire.Keys == {1}
  {
    steps := OneJoining();
    hide InsertShard, Placement, Texts, Join;
    OneMore(steps, EndPrimaryStep);
    steps := steps + [EndPrimaryStep];
  }

  /** A replica joins after the only primary was lost. */
  lemma ReplicaAfterLossIsFatal() returns (steps: seq<Step>)
    ensures Possible(steps) && LosePrimaryStep(1) in steps
    ensures Happens(After(steps), JoinReplicaStep(2, "h", "3", "4"))
    ensures After(steps).table.pcache == [1] && IsFatal(steps, JoinReplicaStep(2, "h", "3", "4"))
  {
    steps := OnePrimary();
    OneMore(steps, LosePrimaryStep(1));
    steps := steps + [LosePrimaryStep(1)];
    assert steps[3] == LosePrimaryStep(1);
    OneMore(steps, AcceptStep(2));
    steps := steps + [AcceptStep(2)];
    assert steps[3] == LosePrimaryStep(1);
  }

  /** A replica joins after the only primary was shrunk away. */
  lemma ReplicaAfterShrinkIsFatal() returns (steps: seq<Step>)
    ensures Possible(steps) && EndShrinkStep in steps
    ensures Happens(After(steps), JoinReplicaStep(2, "h", "3", "4"))
    ensures After(steps).table.pcache == [1] && IsFatal(steps, JoinReplicaStep(2, "h", "3", "4"))
  {
    steps := OnePrimary();
    OneMore(steps, BeginShrinkStep);
    steps := steps + [BeginShrinkStep];
    OneMore(steps, EndShrinkStep);
    steps := steps + [EndShrinkStep];
    assert steps[4] == EndShrinkStep;
    OneMore(steps, AcceptStep(2));
    steps := steps + [AcceptStep(2)];
    assert steps[4] == EndShrinkStep;
  }
}
