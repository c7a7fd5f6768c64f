/** The pool object: its shared fields, and the critical sections that change
    them, each proved to be the step or steps of `ThreadPool` it stands for. */
module PoolObject {
  import opened Options
  import opened ThreadPool

  datatype Taken = Nothing | Quit | Task(task: Task)

  lemma ChooseWoken(s: State) returns (notify: Step)
    requires s.owner.Pushed?
    ensures notify.NotifyOne? && Enabled(s, notify)
  {
    if w: nat :| IsWaiting(s, w) {
      notify := NotifyOne(Some(w));
    } else {
      notify := NotifyOne(None);
    }
  }

  lemma RunTwo(s: State, steps: seq<Step>)
    requires |steps| == 2 && Enabled(s, steps[0]) && Enabled(Do(s, steps[0]), steps[1])
    ensures Legal(s, steps) && Run(s, steps) == Do(Do(s, steps[0]), steps[1])
  {
    var s1 := Do(s, steps[0]);
    var s2 := Do(s1, steps[1]);
    assert Legal(s2, []) && Run(s2, []) == s2;
    assert steps[1..][1..] == [];
    assert Legal(s1, steps[1..]) && Run(s1, steps[1..]) == s2;
  }

  lemma {:induction false} RunConcat(s: State, a: seq<Step>, b: seq<Step>)
    requires Legal(s, a) && Legal(Run(s, a), b)
    ensures Legal(s, a + b) && Run(s, a + b) == Run(Run(s, a), b)
    decreases |a|
  {
    if a == [] {
      assert a + b == b;
    } else {
      assert (a + b)[1..] == a[1..] + b;
      RunConcat(Do(s, a[0]), a[1..], b);
    }
  }

  class Pool {
    var tasks: seq<Task>
    var isPoolStoped: bool
    var numActiveThreads: nat
    const capacity: nat
    ghost var model: State

    ghost predicate Valid()
      reads this
    {
      && Inv(model) && |model.workers| == capacity
      && model.tasks == tasks && model.stopped == isPoolStoped && model.active == numActiveThreads
    }

    constructor (capacity: nat)
      ensures Valid() && model == Start(capacity) && this.capacity == capacity
    {
      StartSatisfiesInv(capacity);
      tasks, isPoolStoped, numActiveThreads := [], false, 0;
      this.capacity, model := capacity, Start(capacity);
    }

    /** A worker that has the mutex tests the predicate: it blocks, quits, or
        takes the oldest task and counts itself active. The count never passes
        the capacity, so it cannot wrap around. */
    method TakeTask(ghost w: nat) returns (r: Taken)
      requires Valid() && Enabled(model, Test(w))
      modifies this
      ensures Valid() && model == Do(old(model), Test(w))
      ensures r.Task? <==> old(tasks) != []
      ensures r.Quit? <==> old(tasks) == [] && isPoolStoped
      ensures r.Task? ==> model.started == old(model.started) + [r.task] && numActiveThreads <= capacity
    {
      StepKeepsInv(model, Test(w));
      model := Do(model, Test(w));
      BusyIsAtMostAll(model.workers);
      if !(isPoolStoped || tasks != []) {
        return Nothing;
      }
      if isPoolStoped && tasks == [] {
        return Quit;
      }
      r := Task(tasks[0]);
      tasks := tasks[1..];
      numActiveThreads := numActiveThreads + 1;
    }

    /** The closing hook. The count never drops below zero. */
    method AfterTask(ghost w: nat)
      requires Valid() && Enabled(model, AfterHook(w))
      modifies this
      ensures Valid() && model == Do(old(model), AfterHook(w))
    {
      StepKeepsInv(model, AfterHook(w));
      BusyIsAtMostAll(model.workers);
      model := Do(model, AfterHook(w));
      numActiveThreads := numActiveThreads - 1;
    }

    /** Pushes a task and notifies one waiting worker, if there is one; refuses
        when the pool is stopped. */
    method Enqueue(task: Task) returns (accepted: bool, ghost steps: seq<Step>)
      requires Valid() && model.owner.Free?
      modifies this
      ensures Valid() && model.owner.Free? && accepted == !isPoolStoped
      ensures Legal(old(model), steps) && model == Run(old(model), steps)
      ensures tasks == if accepted then old(tasks) + [task] else old(tasks)
      ensures model.accepted == if accepted then old(model.accepted) + [task] else old(model.accepted)
    {
      ghost var s0 := model;
      StepKeepsInv(s0, EnqueueLock(task));
      ghost var s1 := Do(s0, EnqueueLock(task));
      StepKeepsInv(s1, EnqueueTest);
      ghost var s2 := Do(s1, EnqueueTest);
      if isPoolStoped {
        model := s2;
        steps := [EnqueueLock(task), EnqueueTest];
        RunTwo(s0, steps);
        return false, steps;
      }
      tasks := tasks + [task];
      ghost var notify := ChooseWoken(s2);
      StepKeepsInv(s2, notify);
      ghost var s3 := Do(s2, notify);
      StepKeepsInv(s3, EnqueueUnlock);
      model := Do(s3, EnqueueUnlock);
      WakeAllIs(s0.workers);
      steps := [EnqueueLock(task), EnqueueTest] + [notify, EnqueueUnlock];
      RunTwo(s0, [EnqueueLock(task), EnqueueTest]);
      RunTwo(s2, [notify, EnqueueUnlock]);
      RunConcat(s0, [EnqueueLock(task), EnqueueTest], [notify, EnqueueUnlock]);
      return true, steps;
    }

    /** The destructor's two steps, before it joins the workers. */
    method StopAndNotify()
      requires Valid() && model.owner.Free? && !isPoolStoped
      modifies this
      ensures Valid() && isPoolStoped && model.notifiedAll
      ensures model == Do(Do(old(model), Stop), NotifyAll)
    {
      StepKeepsInv(model, Stop);
      isPoolStoped := true;
      model := Do(model, Stop);
      StepKeepsInv(model, NotifyAll);
      WakeAllIs(model.workers);
      model := Do(model, NotifyAll);
    }
  }
}
