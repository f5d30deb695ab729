/**
 * The multi-producer, multi-consumer task queue and its workers.
 *
 * Each critical section under the queue's mutex is one step. A worker blocked in the condition
 * variable is Waiting; one that was notified, or woke spuriously, and has not got the mutex back is
 * Notified.
 */
module TaskQueue {
  import opened Bits

  /** A task object; a default-constructed one holds nothing and is not valid. */
  datatype Task = Empty | Task(id: nat)

  type Worker = nat

  /** Calling: in getWork, wanting the mutex. Working: running the task it was given. */
  datatype Phase = Calling | Waiting | Notified | Working(task: Task) | Exited

  /** One trip through the loop of getWork: wait, or leave with a task. */
  datatype Pass = Block | Give(task: Task, rest: seq<Task>)

  function GetPass(tasks: seq<Task>, stop: bool): Pass {
    if !stop && tasks == [] then Block
    else if stop then Give(Empty, tasks)
    else Give(tasks[0], tasks[1..])
  }

  /** added, delivered: every task ever pushed and handed out, in the order the mutex was taken. */
  datatype State = State(tasks: seq<Task>, stop: bool, workers: map<Worker, Phase>,
                         added: seq<Task>, delivered: seq<Task>)

  /**
   * wake: the waiting worker notify_one picks, if any waits. Get: a calling or notified worker takes
   * the mutex. Finish: a worker ends its task and calls getWork again.
   */
  datatype Step =
    | AddWork(task: Task, wake: Worker)
    | Get(worker: Worker)
    | Spurious(worker: Worker)
    | Finish(worker: Worker)
    | Stop

  /** The workers in a given phase. */
  function In(ws: map<Worker, Phase>, p: Phase): set<Worker> {
    set w | w in ws && ws[w] == p
  }

  ghost predicate Enabled(s: State, step: Step) {
    match step
    case AddWork(_, wake) => In(s.workers, Waiting) != {} ==> wake in In(s.workers, Waiting)
    case Get(w) => w in In(s.workers, Calling) + In(s.workers, Notified)
    case Spurious(w) => w in In(s.workers, Waiting)
    case Finish(w) => w in s.workers && s.workers[w].Working?
    case Stop => true
  }

  /** A worker that is given a task runs it, or exits if it is not valid. */
  function AfterGet(task: Task): Phase {
    if task.Empty? then Exited else Working(task)
  }

  ghost function Next(s: State, step: Step): State
    requires Enabled(s, step)
  {
    match step
    case AddWork(t, wake) =>
      s.(tasks := s.tasks + [t], added := s.added + [t],
         workers := if In(s.workers, Waiting) == {} then s.workers else s.workers[wake := Notified])
    case Get(w) =>
      (match GetPass(s.tasks, s.stop)
       case Block => s.(workers := s.workers[w := Waiting])
       case Give(t, rest) =>
         s.(workers := s.workers[w := AfterGet(t)], tasks := rest,
            delivered := if s.stop then s.delivered else s.delivered + [t]))
    case Spurious(w) => s.(workers := s.workers[w := Notified])
    case Finish(w) => s.(workers := s.workers[w := Calling])
    case Stop =>
      s.(stop := true,
         workers := map w | w in s.workers :: if s.workers[w].Waiting? then Notified else s.workers[w])
  }

  // ---- the invariant ----

  /** While open and someone waits, as many workers have been woken as tasks are queued; stopped, nobody waits. */
  ghost predicate Woken(tasks: seq<Task>, stop: bool, ws: map<Worker, Phase>) {
    && (stop ==> In(ws, Waiting) == {})
    && (!stop && In(ws, Waiting) != {} ==> |tasks| <= |In(ws, Notified)|)
  }

  ghost predicate RunsValid(ws: map<Worker, Phase>) {
    forall w :: w in ws && ws[w].Working? ==> ws[w].task.Task?
  }

  /** If only valid tasks are added, a worker exits only after stop. */
  ghost predicate ExitsStopped(added: seq<Task>, stop: bool, ws: map<Worker, Phase>) {
    (forall t :: t in added ==> t.Task?) && In(ws, Exited) != {} ==> stop
  }

  ghost predicate Inv(s: State) {
    && s.added == s.delivered + s.tasks
    && Woken(s.tasks, s.stop, s.workers)
    && RunsValid(s.workers)
    && ExitsStopped(s.added, s.stop, s.workers)
  }

  /** A worker changing phase leaves one set and joins another. */
  lemma PhaseChange(ws: map<Worker, Phase>, w: Worker, p: Phase, q: Phase)
    requires w in ws
    ensures In(ws[w := p], q) == if q == p then In(ws, q) + {w} else In(ws, q) - {w}
    ensures |In(ws[w := p], q)|
         == |In(ws, q)| + (if q == p && ws[w] != p then 1 else if q != p && ws[w] == q then -1 else 0)
  {
    assert In(ws[w := p], q) == if q == p then In(ws, q) + {w} else In(ws, q) - {w};
  }

  lemma PhaseChanges(ws: map<Worker, Phase>, w: Worker, p: Phase)
    requires w in ws
    ensures In(ws[w := p], Waiting) == if p == Waiting then In(ws, Waiting) + {w} else In(ws, Waiting) - {w}
    ensures In(ws[w := p], Exited) == if p == Exited then In(ws, Exited) + {w} else In(ws, Exited) - {w}
    ensures |In(ws[w := p], Notified)| == |In(ws, Notified)|
            + (if p == Notified && ws[w] != p then 1 else if p != Notified && ws[w] == Notified then -1 else 0)
  {
    PhaseChange(ws, w, p, Notified);
    PhaseChange(ws, w, p, Waiting);
    PhaseChange(ws, w, p, Exited);
  }

  lemma AddKeeps(s: State, t: Task, wake: Worker)
    requires Inv(s) && Enabled(s, AddWork(t, wake))
    ensures Inv(Next(s, AddWork(t, wake)))
  {
    var s' := Next(s, AddWork(t, wake));
    if In(s.workers, Waiting) != {} {
      PhaseChanges(s.workers, wake, Notified);
    }
    assert forall x :: x in s.added ==> x in s'.added;
  }

  lemma BlockKeeps(s: State, w: Worker)
    requires Inv(s) && Enabled(s, Get(w)) && !s.stop && s.tasks == []
    ensures Inv(Next(s, Get(w)))
  {
    PhaseChanges(s.workers, w, Waiting);
  }

  lemma RefuseKeeps(s: State, w: Worker)
    requires Inv(s) && Enabled(s, Get(w)) && s.stop
    ensures Inv(Next(s, Get(w)))
  {
    PhaseChanges(s.workers, w, Exited);
  }

  lemma GiveOrder(added: seq<Task>, delivered: seq<Task>, tasks: seq<Task>)
    requires added == delivered + tasks && tasks != []
    ensures added == (delivered + [tasks[0]]) + tasks[1..] && tasks[0] in added
  {
    assert added[|delivered|] == tasks[0];
  }

  lemma GiveWoken(tasks: seq<Task>, ws: map<Worker, Phase>, w: Worker, p: Phase)
    requires Woken(tasks, false, ws) && tasks != [] && w in ws && p != Waiting && p != Notified
    ensures Woken(tasks[1..], false, ws[w := p])
  {
    PhaseChanges(ws, w, p);
  }

  lemma GiveExits(added: seq<Task>, ws: map<Worker, Phase>, w: Worker, t: Task)
    requires ExitsStopped(added, false, ws) && w in ws && t in added
    ensures ExitsStopped(added, false, ws[w := AfterGet(t)])
  {
    PhaseChanges(ws, w, AfterGet(t));
    if t.Task? {
      assert In(ws[w := AfterGet(t)], Exited) <= In(ws, Exited);
    }
  }

  lemma GiveKeeps(s: State, w: Worker)
    requires Inv(s) && Enabled(s, Get(w)) && !s.stop && s.tasks != []
    ensures Inv(Next(s, Get(w)))
  {
    GiveOrder(s.added, s.delivered, s.tasks);
    GiveWoken(s.tasks, s.workers, w, AfterGet(s.tasks[0]));
    GiveExits(s.added, s.workers, w, s.tasks[0]);
  }

  lemma GetKeeps(s: State, w: Worker)
    requires Inv(s) && Enabled(s, Get(w))
    ensures Inv(Next(s, Get(w)))
  {
    if s.stop {
      RefuseKeeps(s, w);
    } else if s.tasks == [] {
      BlockKeeps(s, w);
    } else {
      GiveKeeps(s, w);
    }
  }

  lemma SpuriousKeeps(s: State, w: Worker)
    requires Inv(s) && Enabled(s, Spurious(w))
    ensures Inv(Next(s, Spurious(w)))
  {
    PhaseChanges(s.workers, w, Notified);
  }

  lemma FinishKeeps(s: State, w: Worker)
    requires Inv(s) && Enabled(s, Finish(w))
    ensures Inv(Next(s, Finish(w)))
  {
    PhaseChanges(s.workers, w, Calling);
  }

  lemma StopKeeps(s: State)
    requires Inv(s)
    ensures Inv(Next(s, Stop))
  {
  }

  lemma StepKeeps(s: State, step: Step)
    requires Inv(s) && Enabled(s, step)
    ensures Inv(Next(s, step))
  {
    match step
    case AddWork(t, wake) => AddKeeps(s, t, wake);
    case Get(w) => GetKeeps(s, w);
    case Spurious(w) => SpuriousKeeps(s, w);
    case Finish(w) => FinishKeeps(s, w);
    case Stop => StopKeeps(s);
  }

  // ---- the queue object ----

  /**
   * The queue and the threads at it. Each method is one critical section: what it does under the mutex,
   * and the notification it sends. `workers` is where the condition variable keeps its waiters.
   */
  class MpmcQueue {
    var tasks: seq<Task>
    var stop: bool
    var workers: map<Worker, Phase>
    ghost var added: seq<Task>
    ghost var delivered: seq<Task>

    ghost function View(): State
      reads this
    {
      State(tasks, stop, workers, added, delivered)
    }

    ghost predicate Valid()
      reads this
    {
      Inv(View())
    }

    constructor (ws: set<Worker>)
      ensures Valid() && Fresh(View()) && workers.Keys == ws
    {
      tasks, stop, added, delivered := [], false, [], [];
      workers := map w | w in ws :: Calling;
    }

    /** notify_one: some waiter, if there is one. */
    method NotifyOne(wake: Worker)
      requires In(workers, Waiting) != {} ==> wake in In(workers, Waiting)
      modifies this`workers
      ensures workers == if In(old(workers), Waiting) == {} then old(workers) else old(workers)[wake := Notified]
    {
      if In(workers, Waiting) != {} {
        workers := workers[wake := Notified];
      }
    }

    method AddWork(t: Task, wake: Worker)
      requires Valid() && Enabled(View(), Step.AddWork(t, wake))
      modifies this
      ensures Valid() && View() == Next(old(View()), Step.AddWork(t, wake))
    {
      AddKeeps(View(), t, wake);
      tasks, added := tasks + [t], added + [t];
      NotifyOne(wake);
    }

    /** One trip through the loop of getWork: worker `w` waits, or leaves with a task. */
    method GetWork(w: Worker) returns (blocked: bool, task: Task)
      requires Valid() && Enabled(View(), Get(w))
      modifies this
      ensures Valid() && View() == Next(old(View()), Get(w))
      ensures stop == old(stop) && (blocked <==> !stop && old(tasks) == [])
      ensures !blocked ==> if stop then task == Empty && tasks == old(tasks) else old(tasks) == [task] + tasks
    {
      GetKeeps(View(), w);
      task, blocked := Empty, !stop && tasks == [];
      if blocked {
        workers := workers[w := Waiting];
        return;
      }
      if !stop {
        task := tasks[0];
        tasks, delivered := tasks[1..], delivered + [task];
      }
      workers := workers[w := AfterGet(task)];
    }

    /** notify_all wakes every waiter. */
    method Stop()
      requires Valid()
      modifies this
      ensures Valid() && View() == Next(old(View()), Step.Stop)
      ensures stop && tasks == old(tasks) && In(workers, Waiting) == {}
    {
      StopKeeps(View());
      stop := true;
      workers := map w | w in workers :: if workers[w].Waiting? then Notified else workers[w];
    }
  }

  // ---- whole runs ----

  ghost predicate Allowed(s: State, steps: seq<Step>)
    decreases |steps|
  {
    steps == [] || (Enabled(s, steps[0]) && Allowed(Next(s, steps[0]), steps[1..]))
  }

  ghost function Final(s: State, steps: seq<Step>): State
    requires Allowed(s, steps)
    decreases |steps|
  {
    if steps == [] then s else Final(Next(s, steps[0]), steps[1..])
  }

  /** An empty queue and any number of workers about to ask for work. */
  ghost predicate Fresh(s: State) {
    && s.tasks == [] && !s.stop && s.added == [] && s.delivered == []
    && forall w :: w in s.workers ==> s.workers[w] == Calling
  }

  lemma {:induction false} RunKeeps(s: State, steps: seq<Step>)
    requires Inv(s) && Allowed(s, steps)
    ensures Inv(Final(s, steps))
    decreases |steps|
  {
    if steps != [] {
      StepKeeps(s, steps[0]);
      RunKeeps(Next(s, steps[0]), steps[1..]);
    }
  }

  lemma FreshIsSafe(s: State)
    requires Fresh(s)
    ensures Inv(s)
  {
    assert In(s.workers, Waiting) == {} && In(s.workers, Exited) == {};
  }

  lemma RunInOrder(s: State, steps: seq<Step>)
    requires Inv(s) && Allowed(s, steps)
    ensures Final(s, steps).added == Final(s, steps).delivered + Final(s, steps).tasks
  {
    RunKeeps(s, steps);
  }

  lemma {:induction false} RunSplit(s: State, a: seq<Step>, b: seq<Step>)
    requires Allowed(s, a) && Allowed(Final(s, a), b)
    ensures Allowed(s, a + b) && Final(s, a + b) == Final(Final(s, a), b)
    decreases |a|
  {
    if a == [] {
      assert a + b == b;
    } else {
      assert (a + b)[0] == a[0] && (a + b)[1..] == a[1..] + b;
      RunSplit(Next(s, a[0]), a[1..], b);
    }
  }

  lemma RunOne(s: State, a: Step)
    requires Enabled(s, a)
    ensures Allowed(s, [a]) && Final(s, [a]) == Next(s, a)
  {
    assert [a][1..] == [];
  }

  lemma RunTwo(s: State, a: Step, b: Step)
    requires Enabled(s, a) && Enabled(Next(s, a), b)
    ensures Allowed(s, [a, b]) && Final(s, [a, b]) == Next(Next(s, a), b)
  {
    assert [a, b][1..] == [b];
    RunOne(Next(s, a), b);
  }

  /** Some worker can still take the mutex or is running a task. */
  ghost predicate SomeoneAwake(s: State) {
    exists w :: w in s.workers && !s.workers[w].Waiting? && !s.workers[w].Exited?
  }

  ghost predicate SomeoneLeft(s: State) {
    exists w :: w in s.workers && !s.workers[w].Exited?
  }

  /**
   * In every run: tasks are delivered in the order they were added, each once; while the queue is
   * open and someone waits, no more tasks are queued than workers have been woken for, so queued work
   * never sits while everyone sleeps; after stop nobody waits; and if only valid tasks are ever added
   * a worker exits only after stop.
   */
  lemma NoLostWakeup(s: State, steps: seq<Step>)
    requires Fresh(s) && Allowed(s, steps)
    ensures var f := Final(s, steps);
            && f.added == f.delivered + f.tasks
            && (!f.stop && In(f.workers, Waiting) != {} ==> |f.tasks| <= |In(f.workers, Notified)|)
            && (!f.stop && f.tasks != [] && SomeoneLeft(f) ==> SomeoneAwake(f))
            && (f.stop ==> In(f.workers, Waiting) == {})
            && ((forall t :: t in f.added ==> t.Task?) && In(f.workers, Exited) != {} ==> f.stop)
  {
    FreshIsSafe(s);
    RunKeeps(s, steps);
    AwakeIfQueued(Final(s, steps));
  }

  lemma AwakeIfQueued(s: State)
    requires Inv(s)
    ensures !s.stop && s.tasks != [] && SomeoneLeft(s) ==> SomeoneAwake(s)
  {
    if !s.stop && s.tasks != [] && SomeoneLeft(s) {
      var w :| w in s.workers && !s.workers[w].Exited?;
      if s.workers[w].Waiting? {
        assert w in In(s.workers, Waiting);
        var v :| v in In(s.workers, Notified);
        assert v in s.workers && s.workers[v] == Notified;
      }
    }
  }

  /** From stop on, nothing more is delivered and the queue stays stopped. */
  lemma {:induction false} StopFreezes(s: State, steps: seq<Step>)
    requires s.stop && Allowed(s, steps)
    ensures Final(s, steps).stop && Final(s, steps).delivered == s.delivered
    decreases |steps|
  {
    if steps != [] {
      StopFreezes(Next(s, steps[0]), steps[1..]);
    }
  }

  // ---- progress ----

  /** While open, an awake worker needs at most two steps of its own to take the first queued task. */
  lemma DeliverOne(s: State) returns (steps: seq<Step>)
    requires Inv(s) && !s.stop && s.tasks != [] && SomeoneAwake(s) && s.tasks[0].Task?
    ensures Allowed(s, steps) && |steps| <= 2
    ensures var f := Final(s, steps);
            && !f.stop && f.tasks == s.tasks[1..] && f.added == s.added && f.delivered == s.delivered + [s.tasks[0]]
            && SomeoneAwake(f)
  {
    var w :| w in s.workers && !s.workers[w].Waiting? && !s.workers[w].Exited?;
    if s.workers[w].Working? {
      var s1 := Next(s, Finish(w));
      assert w in In(s1.workers, Calling);
      steps := [Finish(w), Get(w)];
      RunTwo(s, Finish(w), Get(w));
    } else {
      assert w in In(s.workers, Calling) + In(s.workers, Notified);
      steps := [Get(w)];
      RunOne(s, Get(w));
    }
    assert Final(s, steps).workers[w] == Working(s.tasks[0]);
  }

  /** No deadlock: from any reachable open state the workers can deliver everything that is queued. */
  lemma {:induction false} QueueDrains(s: State) returns (steps: seq<Step>)
    requires Inv(s) && !s.stop && SomeoneLeft(s) && (forall t :: t in s.added ==> t.Task?)
    ensures Allowed(s, steps) && |steps| <= 2 * |s.tasks|
    ensures Final(s, steps).delivered == s.added && Final(s, steps).tasks == []
    decreases |s.tasks|
  {
    if s.tasks == [] {
      steps := [];
      assert s.delivered + [] == s.delivered;
    } else {
      AwakeIfQueued(s);
      assert s.tasks[0] == s.added[|s.delivered|];
      var first := DeliverOne(s);
      RunKeeps(s, first);
      var rest := QueueDrains(Final(s, first));
      RunSplit(s, first, rest);
      steps := first + rest;
    }
  }

  /** After stop, any worker left is out within two steps of its own. */
  lemma ExitOne(s: State, w: Worker) returns (steps: seq<Step>)
    requires Inv(s) && s.stop && w in s.workers && !s.workers[w].Exited?
    ensures Allowed(s, steps) && |steps| <= 2
    ensures Final(s, steps) == s.(workers := s.workers[w := Exited])
  {
    assert w !in In(s.workers, Waiting);
    if s.workers[w].Working? {
      var s1 := Next(s, Finish(w));
      assert w in In(s1.workers, Calling);
      steps := [Finish(w), Get(w)];
      RunTwo(s, Finish(w), Get(w));
      assert s.workers[w := Calling][w := Exited] == s.workers[w := Exited];
    } else {
      assert w in In(s.workers, Calling) + In(s.workers, Notified);
      steps := [Get(w)];
      RunOne(s, Get(w));
    }
  }

  function Left(s: State): set<Worker> {
    set w | w in s.workers && !s.workers[w].Exited?
  }

  /** Shutdown completes: after stop every worker can be out, in at most two steps each. */
  lemma {:induction false} ShutdownCompletes(s: State) returns (steps: seq<Step>)
    requires Inv(s) && s.stop
    ensures Allowed(s, steps) && |steps| <= 2 * |Left(s)|
    ensures Left(Final(s, steps)) == {}
    decreases |Left(s)|
  {
    if Left(s) == {} {
      steps := [];
    } else {
      var w :| w in Left(s);
      var first := ExitOne(s, w);
      var s1 := Final(s, first);
      RunKeeps(s, first);
      assert Left(s1) == Left(s) - {w};
      var rest := ShutdownCompletes(s1);
      RunSplit(s, first, rest);
      steps := first + rest;
    }
  }

  // ---- what a run shows ----

  /** The tasks a run adds, in order. */
  function AddedBy(steps: seq<Step>): seq<Task> {
    if steps == [] then []
    else (if steps[0].AddWork? then [steps[0].task] else []) + AddedBy(steps[1..])
  }

  /** The task a step sets a worker running, if any. */
  ghost function StartedBy(s: State, step: Step): seq<Task>
    requires Enabled(s, step)
  {
    if step.Get? && Next(s, step).workers[step.worker].Working? then [Next(s, step).workers[step.worker].task] else []
  }

  /** The tasks workers start running, in order. */
  ghost function Started(s: State, steps: seq<Step>): seq<Task>
    requires Allowed(s, steps)
    decreases |steps|
  {
    if steps == [] then [] else StartedBy(s, steps[0]) + Started(Next(s, steps[0]), steps[1..])
  }

  function ValidOf(tasks: seq<Task>): seq<Task> {
    if tasks == [] then [] else (if tasks[0].Task? then [tasks[0]] else []) + ValidOf(tasks[1..])
  }

  lemma {:induction false} ValidOfAppend(a: seq<Task>, b: seq<Task>)
    ensures ValidOf(a + b) == ValidOf(a) + ValidOf(b)
    decreases |a|
  {
    if a == [] {
      assert a + b == b;
    } else {
      assert (a + b)[0] == a[0] && (a + b)[1..] == a[1..] + b;
      ValidOfAppend(a[1..], b);
      AppendAssociates(if a[0].Task? then [a[0]] else [], ValidOf(a[1..]), ValidOf(b));
    }
  }

  lemma AddShows(s: State, step: Step)
    requires Enabled(s, step)
    ensures Next(s, step).added == s.added + AddedBy([step])
    ensures Next(s, step).stop <==> s.stop || step == Stop
  {
    assert [step][1..] == [];
  }

  lemma StartShows(s: State, step: Step)
    requires Enabled(s, step)
    ensures ValidOf(Next(s, step).delivered) == ValidOf(s.delivered) + StartedBy(s, step)
    ensures s.stop ==> StartedBy(s, step) == []
  {
    if step.Get? && !s.stop && s.tasks != [] {
      var t := s.tasks[0];
      ValidOfAppend(s.delivered, [t]);
      assert [t][1..] == [];
    }
  }

  /** The tasks the model counts as added are those the run adds. */
  lemma {:induction false} RunAdds(s: State, steps: seq<Step>)
    requires Allowed(s, steps)
    ensures Final(s, steps).added == s.added + AddedBy(steps)
    decreases |steps|
  {
    if steps != [] {
      AddShows(s, steps[0]);
      RunAdds(Next(s, steps[0]), steps[1..]);
      AppendAssociates(s.added, AddedBy([steps[0]]), AddedBy(steps[1..]));
      assert AddedBy(steps) == AddedBy([steps[0]]) + AddedBy(steps[1..]) by {
        assert [steps[0]][1..] == [];
      }
    }
  }

  /** The tasks the model counts as delivered are those workers start, and the invalid ones. */
  lemma {:induction false} RunStarts(s: State, steps: seq<Step>)
    requires Allowed(s, steps)
    ensures ValidOf(Final(s, steps).delivered) == ValidOf(s.delivered) + Started(s, steps)
    decreases |steps|
  {
    if steps != [] {
      StartShows(s, steps[0]);
      RunStarts(Next(s, steps[0]), steps[1..]);
      AppendAssociates(ValidOf(s.delivered), StartedBy(s, steps[0]), Started(Next(s, steps[0]), steps[1..]));
    }
  }

  /** The queue is stopped exactly if the run contains a stop. */
  lemma {:induction false} RunStops(s: State, steps: seq<Step>)
    requires Allowed(s, steps)
    ensures Final(s, steps).stop <==> s.stop || Stop in steps
    decreases |steps|
  {
    if steps != [] {
      AddShows(s, steps[0]);
      RunStops(Next(s, steps[0]), steps[1..]);
      assert Stop in steps <==> steps[0] == Stop || Stop in steps[1..];
    }
  }

  lemma AddedFromFresh(s: State, steps: seq<Step>)
    requires Fresh(s) && Allowed(s, steps)
    ensures AddedBy(steps) == Final(s, steps).delivered + Final(s, steps).tasks
  {
    FreshIsSafe(s);
    RunInOrder(s, steps);
    RunAdds(s, steps);
    assert [] + AddedBy(steps) == AddedBy(steps);
  }

  lemma StartedFromFresh(s: State, steps: seq<Step>)
    requires Fresh(s) && Allowed(s, steps)
    ensures Started(s, steps) == ValidOf(Final(s, steps).delivered)
  {
    RunStarts(s, steps);
    assert [] + Started(s, steps) == Started(s, steps);
  }

  /**
   * First in, first out, over every run: the tasks workers start are a prefix of the valid tasks added, in
   * the same order and each once, and the rest is still queued; the queue is stopped exactly if the run
   * contains a stop.
   */
  lemma WorkersRunInOrder(s: State, steps: seq<Step>)
    requires Fresh(s) && Allowed(s, steps)
    ensures ValidOf(AddedBy(steps)) == Started(s, steps) + ValidOf(Final(s, steps).tasks)
    ensures Final(s, steps).stop <==> Stop in steps
  {
    var f := Final(s, steps);
    AddedFromFresh(s, steps);
    StartedFromFresh(s, steps);
    RunStops(s, steps);
    ValidOfAppend(f.delivered, f.tasks);
  }

  /** After a stop no worker starts a task. */
  lemma {:induction false} StoppedStartsNothing(s: State, steps: seq<Step>)
    requires s.stop && Allowed(s, steps)
    ensures Started(s, steps) == []
    decreases |steps|
  {
    if steps != [] {
      StartShows(s, steps[0]);
      StoppedStartsNothing(Next(s, steps[0]), steps[1..]);
    }
  }

  /** Once a run contains a stop, every worker can get out, in at most two steps each, starting nothing more. */
  lemma StopEndsAll(s: State, steps: seq<Step>) returns (more: seq<Step>)
    requires Fresh(s) && Allowed(s, steps) && Stop in steps
    ensures Allowed(Final(s, steps), more) && Allowed(s, steps + more) && |more| <= 2 * |Left(Final(s, steps))|
    ensures Left(Final(s, steps + more)) == {} && Started(Final(s, steps), more) == []
  {
    var f := Final(s, steps);
    FreshIsSafe(s);
    RunKeeps(s, steps);
    RunStops(s, steps);
    more := ShutdownCompletes(f);
    RunSplit(s, steps, more);
    StoppedStartsNothing(f, more);
  }
}
