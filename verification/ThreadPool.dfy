/** The thread pool handshake as a state machine: the caller clears the done flags, bumps the task
    counter, notifies, and waits for every flag; each worker waits for the counter to move, runs the task
    it finds in the context, sets its flag and notifies. The destructor submits Exit the same way and then
    deletes the counter and the context. Waiting is a check that either passes or parks the thread, and a
    parked thread moves again only after a notification. A schedule lists who moves next; a move that is
    not enabled changes nothing. */
module ThreadPool {

  datatype Task = Nop | FillDistToAnchor | FindKnn | BatchFindKnn | BatchPrefill | Exit

  /** The thread that owns the pool. */
  datatype OwnerPc =
    | Idle
    | Clearing(i: nat)
    | Announcing         // the counter is bumped, notify_all is next
    | Checking(i: nat)   // about to look at done flag i
    | Waiting(i: nat)    // parked on done flag i
    | DeletingCounter
    | DeletingContext
    | Gone

  datatype WorkerPc =
    | Blocked              // about to compare the task counter with the local one
    | Parked               // parked on the task counter
    | Starting             // about to reset its output count and read the task
    | Running(task: Task)
    | Storing(task: Task)  // about to set its done flag
    | Notifying(task: Task)
    | Returned

  /** taskId is the worker's local counter; ran lists the tasks it has run, a history. */
  datatype Worker = Worker(pc: WorkerPc, taskId: nat, ran: seq<Task>)

  /** An output count together with the task number it was produced for. */
  datatype Output = Output(taskId: nat, count: nat)

  datatype State = State(
    owner: OwnerPc,
    task: Task,
    counter: nat,
    done: seq<bool>,
    outputs: seq<Output>,
    counterAlive: bool,
    contextAlive: bool,
    workers: seq<Worker>,
    submitted: seq<Task>)

  /** The owner's move names the task to submit when it is idle, Exit being the destructor; a worker's
      move names the output count its task ends with. */
  datatype Move = OwnerMove(task: Task) | WorkerMove(w: nat, count: nat)

  function Init(n: nat): State {
    State(Idle, Nop, 0, seq(n, _ => true), seq(n, _ => Output(0, 0)), true, true,
          seq(n, _ => Worker(Blocked, 0, [])), [])
  }

  predicate Enabled(s: State, m: Move) {
    match m
    case OwnerMove(_) => !s.owner.Waiting? && !s.owner.Gone?
    case WorkerMove(w, _) =>
      && w < |s.workers| && w < |s.done| && w < |s.outputs|
      && !s.workers[w].pc.Returned? && !s.workers[w].pc.Parked?
  }

  /** notify_all on the task counter: every parked worker checks again. */
  function WakeAll(workers: seq<Worker>): (r: seq<Worker>)
    ensures |r| == |workers|
    ensures forall w :: 0 <= w < |r| ==>
      r[w] == if workers[w].pc.Parked? then workers[w].(pc := Blocked) else workers[w]
  {
    seq(|workers|, w requires 0 <= w < |workers| =>
      if workers[w].pc.Parked? then workers[w].(pc := Blocked) else workers[w])
  }

  function OwnerStep(s: State, task: Task): State {
    match s.owner
    case Idle => s.(task := task, submitted := s.submitted + [task], owner := Clearing(0))
    case Clearing(i) =>
      if i < |s.done| then s.(done := s.done[i := false], owner := Clearing(i + 1))
      else s.(counter := s.counter + 1, owner := Announcing)
    case Announcing => s.(workers := WakeAll(s.workers), owner := Checking(0))
    case Checking(i) =>
      if i < |s.done| then s.(owner := if s.done[i] then Checking(i + 1) else Waiting(i))
      else s.(owner := if s.task.Exit? then DeletingCounter else Idle)
    case Waiting(_) => s
    case DeletingCounter => s.(counterAlive := false, owner := DeletingContext)
    case DeletingContext => s.(contextAlive := false, owner := Gone)
    case Gone => s
  }

  /** The tasks that are handed the worker's output count; the others leave it at 0. */
  predicate CountsOutputs(task: Task) {
    task.FindKnn? || task.BatchPrefill?
  }

  function WorkerStep(s: State, w: nat, count: nat): State
    requires w < |s.workers| && w < |s.done| && w < |s.outputs|
  {
    var wk := s.workers[w];
    match wk.pc
    case Blocked =>
      if s.counter == wk.taskId then s.(workers := s.workers[w := wk.(pc := Parked)])
      else s.(workers := s.workers[w := wk.(pc := Starting, taskId := wk.taskId + 1)])
    case Parked => s
    case Starting =>
      s.(outputs := s.outputs[w := Output(wk.taskId, 0)], workers := s.workers[w := wk.(pc := Running(s.task))])
    case Running(task) =>
      if task.Exit? then s.(workers := s.workers[w := wk.(pc := Storing(task))])
      else s.(outputs := s.outputs[w := Output(wk.taskId, if CountsOutputs(task) then count else 0)],
              workers := s.workers[w := wk.(pc := Storing(task), ran := wk.ran + [task])])
    case Storing(task) => s.(done := s.done[w := true], workers := s.workers[w := wk.(pc := Notifying(task))])
    case Notifying(task) =>
      s.(owner := if s.owner == Waiting(w) then Checking(w) else s.owner,
         workers := s.workers[w := wk.(pc := if task.Exit? then Returned else Blocked)])
    case Returned => s
  }

  function Advance(s: State, m: Move): State {
    if !Enabled(s, m) then s
    else
      match m
      case OwnerMove(task) => OwnerStep(s, task)
      case WorkerMove(w, count) => WorkerStep(s, w, count)
  }

  function Exec(n: nat, sched: seq<Move>): State {
    if sched == [] then Init(n) else Advance(Exec(n, sched[..|sched| - 1]), sched[|sched| - 1])
  }

  // ---------- What every run keeps ----------

  predicate Asleep(pc: WorkerPc) {
    pc.Blocked? || pc.Parked? || (pc.Notifying? && !pc.task.Exit?)
  }

  predicate Leaving(pc: WorkerPc) {
    pc.Returned? || (pc.Notifying? && pc.task.Exit?)
  }

  /** Worker w has served every submission up to the counter. */
  ghost predicate Served(s: State, wk: Worker, out: Output, exiting: bool) {
    && wk.taskId == s.counter && (if exiting then Leaving(wk.pc) else Asleep(wk.pc))
    && out.taskId == wk.taskId
    && s.counter <= |s.submitted|
    && wk.ran == (if exiting && s.counter > 0 then s.submitted[..s.counter - 1] else s.submitted[..s.counter])
  }

  /** Worker w is on its way through the submission the counter announces. A worker that is still parked
      waits for the notification that is about to come. */
  ghost predicate Serving(s: State, wk: Worker, out: Output) {
    && 0 < s.counter == |s.submitted|
    && match wk.pc
       case Starting => wk.taskId == s.counter && wk.ran == s.submitted[..s.counter - 1]
       case Running(task) =>
         task == s.task && wk.taskId == s.counter == out.taskId && wk.ran == s.submitted[..s.counter - 1]
       case Storing(task) =>
         && task == s.task && wk.taskId == s.counter == out.taskId
         && wk.ran == (if task.Exit? then s.submitted[..s.counter - 1] else s.submitted)
       case _ =>
         && wk.taskId == s.counter - 1 && Asleep(wk.pc) && (wk.pc.Parked? ==> s.owner.Announcing?)
         && wk.ran == s.submitted[..s.counter - 1]
  }

  ghost predicate Called(s: State, w: nat)
    requires w < |s.workers| && w < |s.done| && w < |s.outputs|
  {
    var wk, out := s.workers[w], s.outputs[w];
    if s.done[w] then Served(s, wk, out, s.task.Exit?) else Serving(s, wk, out)
  }

  ghost predicate WorkerOk(s: State, w: nat)
    requires w < |s.workers| && w < |s.done| && w < |s.outputs|
  {
    var wk, out := s.workers[w], s.outputs[w];
    match s.owner
    case Idle => s.done[w] && Served(s, wk, out, false)
    case Clearing(i) => (s.done[w] <==> i <= w) && Served(s, wk, out, false)
    case Announcing => Called(s, w)
    case Checking(i) => (w < i ==> s.done[w]) && Called(s, w)
    case Waiting(i) => (w < i ==> s.done[w]) && Called(s, w) && (w == i && s.done[w] ==> wk.pc.Notifying?)
    case _ => s.done[w] && Served(s, wk, out, true)
  }

  ghost predicate OwnerOk(s: State) {
    match s.owner
    case Idle => s.counter == |s.submitted| && s.counterAlive && s.contextAlive
    case Clearing(i) =>
      && s.counter + 1 == |s.submitted| && s.counterAlive && s.contextAlive && i <= |s.done|
      && s.submitted[s.counter] == s.task
    case DeletingCounter =>
      s.counter == |s.submitted| && s.task.Exit? && s.counterAlive && s.contextAlive && 0 < s.counter
    case DeletingContext => s.counter == |s.submitted| && s.task.Exit? && s.contextAlive && 0 < s.counter
    case Gone => s.counter == |s.submitted| && s.task.Exit? && 0 < s.counter
    case pc =>
      && s.counter == |s.submitted| && s.counterAlive && s.contextAlive
      && 0 < s.counter && s.submitted[s.counter - 1] == s.task
      && (pc.Checking? ==> pc.i <= |s.done|) && (pc.Waiting? ==> pc.i < |s.done|)
  }

  ghost predicate Inv(n: nat, s: State) {
    && |s.workers| == |s.done| == |s.outputs| == n
    && OwnerOk(s)
    && forall w :: 0 <= w < n ==> WorkerOk(s, w)
  }

  lemma SliceOfMore(a: seq<Task>, t: Task, n: nat)
    requires n <= |a|
    ensures (a + [t])[..n] == a[..n]
  {
  }

  lemma OwnerStepKeepsInv(n: nat, s: State, task: Task)
    requires Inv(n, s) && Enabled(s, OwnerMove(task))
    ensures Inv(n, OwnerStep(s, task))
  {
    var s' := OwnerStep(s, task);
    forall w | 0 <= w < n ensures WorkerOk(s', w) {
      assert WorkerOk(s, w);
      if s.owner.Idle? { SliceOfMore(s.submitted, task, s.counter); }
      if s.owner.Checking? && s.owner.i == n { assert s.done[w]; }
    }
  }

  /** A worker's step as long as it keeps the flags: only its own state and output change. */
  lemma QuietStepKeepsOthers(n: nat, s: State, w: nat, count: nat)
    requires Inv(n, s) && Enabled(s, WorkerMove(w, count)) && !s.workers[w].pc.Notifying?
    ensures forall v :: 0 <= v < n && v != w ==> WorkerOk(WorkerStep(s, w, count), v)
  {
    var s' := WorkerStep(s, w, count);
    forall v | 0 <= v < n && v != w ensures WorkerOk(s', v) {
      assert WorkerOk(s, v);
      hide Served, Serving;
      StateMatters(s, s', v);
    }
  }

  /** What a worker must be depends on the shared fields and on its own. */
  lemma StateMatters(s: State, s': State, v: nat)
    requires v < |s.workers| == |s'.workers| && v < |s.done| == |s'.done| && v < |s.outputs| == |s'.outputs|
    requires s'.counter == s.counter && s'.submitted == s.submitted && s'.task == s.task
    requires s'.workers[v] == s.workers[v] && s'.done[v] == s.done[v] && s'.outputs[v] == s.outputs[v]
    requires s'.owner == s.owner || (s.owner.Waiting? && s'.owner == Checking(s.owner.i))
    ensures WorkerOk(s, v) ==> WorkerOk(s', v)
  {
  }

  lemma BlockedStep(n: nat, s: State, w: nat, count: nat)
    requires Inv(n, s) && Enabled(s, WorkerMove(w, count)) && s.workers[w].pc.Blocked?
    ensures WorkerOk(WorkerStep(s, w, count), w)
  {
    assert WorkerOk(s, w);
  }

  lemma StartingStep(n: nat, s: State, w: nat, count: nat)
    requires Inv(n, s) && Enabled(s, WorkerMove(w, count)) && s.workers[w].pc.Starting?
    ensures WorkerOk(WorkerStep(s, w, count), w)
  {
    assert WorkerOk(s, w);
  }

  lemma RunningStep(n: nat, s: State, w: nat, count: nat)
    requires Inv(n, s) && Enabled(s, WorkerMove(w, count)) && s.workers[w].pc.Running?
    ensures WorkerOk(WorkerStep(s, w, count), w)
  {
    assert WorkerOk(s, w);
    assert s.submitted == s.submitted[..s.counter - 1] + [s.task];
  }

  lemma StoringStep(n: nat, s: State, w: nat, count: nat)
    requires Inv(n, s) && Enabled(s, WorkerMove(w, count)) && s.workers[w].pc.Storing?
    ensures WorkerOk(WorkerStep(s, w, count), w)
  {
    assert WorkerOk(s, w);
    assert s.submitted[..s.counter] == s.submitted;
  }

  lemma NotifyingStep(n: nat, s: State, w: nat, count: nat)
    requires Inv(n, s) && Enabled(s, WorkerMove(w, count)) && s.workers[w].pc.Notifying?
    ensures forall v :: 0 <= v < n ==> WorkerOk(WorkerStep(s, w, count), v)
  {
    var s' := WorkerStep(s, w, count);
    forall v | 0 <= v < n ensures WorkerOk(s', v) {
      assert WorkerOk(s, v);
      if v != w {
        hide Served, Serving;
        StateMatters(s, s', v);
      }
    }
  }

  lemma WorkerStepKeepsInv(n: nat, s: State, w: nat, count: nat)
    requires Inv(n, s) && Enabled(s, WorkerMove(w, count))
    ensures Inv(n, WorkerStep(s, w, count))
  {
    hide WorkerOk;
    if s.workers[w].pc.Notifying? {
      NotifyingStep(n, s, w, count);
    } else {
      QuietStepKeepsOthers(n, s, w, count);
      match s.workers[w].pc
      case Blocked => BlockedStep(n, s, w, count);
      case Starting => StartingStep(n, s, w, count);
      case Running(_) => RunningStep(n, s, w, count);
      case Storing(_) => StoringStep(n, s, w, count);
    }
  }

  lemma {:induction false} ExecInv(n: nat, sched: seq<Move>)
    ensures Inv(n, Exec(n, sched))
  {
    if sched != [] {
      var s, m := Exec(n, sched[..|sched| - 1]), sched[|sched| - 1];
      ExecInv(n, sched[..|sched| - 1]);
      if Enabled(s, m) {
        match m
        case OwnerMove(task) => OwnerStepKeepsInv(n, s, task);
        case WorkerMove(w, count) => WorkerStepKeepsInv(n, s, w, count);
      }
    }
  }

  // ---------- Main results, for every schedule ----------

  /** Whenever the pool is idle again, every worker has run exactly the submitted tasks, in order and
      once each, and its output count belongs to the last one. */
  lemma SubmitRunsEverywhereOnce(n: nat, sched: seq<Move>, w: nat)
    requires w < n && Exec(n, sched).owner.Idle?
    ensures var s := Exec(n, sched);
      && |s.workers| == |s.outputs| == n
      && s.workers[w].ran == s.submitted
      && s.outputs[w].taskId == |s.submitted|
  {
    ExecInv(n, sched);
    var s := Exec(n, sched);
    assert WorkerOk(s, w);
    assert s.submitted[..s.counter] == s.submitted;
  }

  /** Move i of the schedule is the one with which worker w ended the task it ran last, and the worker's output is
      the one of that move. */
  ghost predicate EndedBy(n: nat, sched: seq<Move>, w: nat, i: nat) {
    && i < |sched| && sched[i].WorkerMove? && sched[i].w == w
    && var was, s := Exec(n, sched[..i]), Exec(n, sched);
       && w < |was.workers| && w < |s.workers| && w < |s.outputs|
       && was.workers[w].pc.Running? && !was.workers[w].pc.task.Exit?
       && s.workers[w].ran == was.workers[w].ran + [was.workers[w].pc.task]
       && s.outputs[w].taskId == was.workers[w].taskId
       && s.outputs[w].count
          == match was.workers[w].pc.task case FindKnn => sched[i].count case BatchPrefill => sched[i].count case _ => 0
  }

  predicate BetweenTasks(pc: WorkerPc) {
    pc.Blocked? || pc.Parked? || ((pc.Storing? || pc.Notifying?) && !pc.task.Exit?)
  }

  lemma EndedStays(n: nat, sched: seq<Move>, m: Move, w: nat, i: nat)
    requires EndedBy(n, sched, w, i)
    requires var s, s' := Exec(n, sched), Exec(n, sched + [m]);
      && w < |s.workers| && w < |s'.workers| && w < |s'.outputs| && w < |s.outputs|
      && s'.workers[w].ran == s.workers[w].ran && s'.outputs[w] == s.outputs[w]
    ensures EndedBy(n, sched + [m], w, i)
  {
    assert (sched + [m])[..i] == sched[..i] && (sched + [m])[i] == sched[i];
    hide Exec;
  }

  /** What one move does to a worker, seen from its output: it keeps it, or resets it, or ends a task. */
  ghost predicate Carried(s: State, s': State, m: Move, w: nat) {
    && w < |s.workers| == |s'.workers| && w < |s.outputs| == |s'.outputs|
    && var pc := s.workers[w].pc;
       || !BetweenTasks(s'.workers[w].pc)
       || (s'.workers[w].ran == s.workers[w].ran && s'.outputs[w] == s.outputs[w] && BetweenTasks(pc))
       || (m.WorkerMove? && m.w == w && pc.Running? && !pc.task.Exit?
           && s'.workers[w].ran == s.workers[w].ran + [pc.task]
           && s'.outputs[w] == Output(s.workers[w].taskId, if CountsOutputs(pc.task) then m.count else 0))
  }

  lemma OwnerCarries(s: State, task: Task, w: nat)
    requires w < |s.workers| && w < |s.outputs|
    ensures Carried(s, OwnerStep(s, task), OwnerMove(task), w)
  {
  }

  lemma OwnStepCarries(s: State, w: nat, count: nat)
    requires w < |s.workers| && w < |s.done| && w < |s.outputs|
    ensures Carried(s, WorkerStep(s, w, count), WorkerMove(w, count), w)
  {
  }

  lemma OtherStepCarries(s: State, v: nat, count: nat, w: nat)
    requires w < |s.workers| && v < |s.workers| && v < |s.done| && v < |s.outputs| && w < |s.outputs| && v != w
    ensures Carried(s, WorkerStep(s, v, count), WorkerMove(v, count), w)
  {
  }

  lemma OutputMoves(n: nat, s: State, m: Move, w: nat)
    requires Inv(n, s) && w < n
    ensures Carried(s, Advance(s, m), m, w)
  {
    hide WorkerOk, OwnerOk, OwnerStep, WorkerStep;
    if Enabled(s, m) {
      match m
      case OwnerMove(task) => OwnerCarries(s, task, w);
      case WorkerMove(v, count) => if v == w { OwnStepCarries(s, w, count); } else { OtherStepCarries(s, v, count, w); }
    }
  }

  lemma {:induction false} OutputWasEnded(n: nat, sched: seq<Move>, w: nat) returns (i: nat)
    requires w < n
    requires var s := Exec(n, sched);
      |s.workers| == n && BetweenTasks(s.workers[w].pc) && s.workers[w].ran != []
    ensures EndedBy(n, sched, w, i)
  {
    i := 0;
    if sched != [] {
      var last := |sched| - 1;
      var s, m := Exec(n, sched[..last]), sched[last];
      ExecInv(n, sched[..last]);
      OutputMoves(n, s, m, w);
      assert sched == sched[..last] + [m];
      if BetweenTasks(s.workers[w].pc) && !(m.WorkerMove? && m.w == w && s.workers[w].pc.Running?) {
        i := OutputWasEnded(n, sched[..last], w);
        hide Advance, EndedBy, Inv;
        EndedStays(n, sched[..last], m, w, i);
      } else {
        hide Advance, Inv;
        i := last;
      }
    }
  }

  /** Whenever the pool is idle again after a submission, the output count of every worker is the one the last
      submitted task ended with: the count named by the move with which the worker, running that task, ended it,
      or 0 for a task that has no outputs. */
  lemma OutputsOfLastTask(n: nat, sched: seq<Move>, w: nat) returns (i: nat)
    requires w < n && Exec(n, sched).owner.Idle? && Exec(n, sched).submitted != []
    ensures i < |sched| && sched[i].WorkerMove? && sched[i].w == w
    ensures var was, s := Exec(n, sched[..i]), Exec(n, sched);
      var last := s.submitted[|s.submitted| - 1];
      && w < |was.workers| && |s.outputs| == n
      && was.workers[w].pc == Running(last) && was.workers[w].taskId == |s.submitted|
      && s.outputs[w].count == match last case FindKnn => sched[i].count case BatchPrefill => sched[i].count case _ => 0
  {
    SubmitRunsEverywhereOnce(n, sched, w);
    ExecInv(n, sched);
    assert WorkerOk(Exec(n, sched), w);
    i := OutputWasEnded(n, sched, w);
    hide Exec, Inv;
  }

  /** At any moment a worker has run a prefix of the submitted tasks, at most one behind. */
  lemma NoTaskSkippedOrRepeated(n: nat, sched: seq<Move>, w: nat)
    requires w < n
    ensures var s := Exec(n, sched);
      && |s.workers| == n
      && s.workers[w].ran <= s.submitted
      && |s.submitted| <= |s.workers[w].ran| + 1
  {
    ExecInv(n, sched);
    assert WorkerOk(Exec(n, sched), w);
  }

  predicate TouchesCounter(pc: WorkerPc) {
    pc.Blocked? || pc.Parked?
  }

  predicate TouchesContext(pc: WorkerPc) {
    pc.Starting? || pc.Running?
  }

  /** No worker is anywhere it would read the counter or the context after its deletion. */
  lemma NothingUsedAfterDeletion(n: nat, sched: seq<Move>, w: nat)
    requires w < n
    ensures var s := Exec(n, sched);
      && |s.workers| == n
      && (TouchesCounter(s.workers[w].pc) ==> s.counterAlive)
      && (TouchesContext(s.workers[w].pc) ==> s.contextAlive)
  {
    ExecInv(n, sched);
    assert WorkerOk(Exec(n, sched), w);
  }

  // ---------- Progress ----------

  ghost predicate AllReturned(s: State) {
    s.owner.Gone? && forall w :: 0 <= w < |s.workers| ==> s.workers[w].pc.Returned?
  }

  /** No lost wake-up: when the owner is parked, the worker whose flag it waits for is not. */
  lemma AwaitedWorkerIsAwake(n: nat, sched: seq<Move>)
    requires Exec(n, sched).owner.Waiting?
    ensures var s := Exec(n, sched); s.owner.i < n == |s.workers| && Enabled(s, WorkerMove(s.owner.i, 0))
  {
    ExecInv(n, sched);
    assert WorkerOk(Exec(n, sched), Exec(n, sched).owner.i);
  }

  /** Deadlock freedom, although parked threads depend on notifications: until the pool is gone and its
      threads have returned, somebody can move. */
  lemma SomebodyCanMove(n: nat, sched: seq<Move>) returns (m: Move)
    requires !AllReturned(Exec(n, sched))
    ensures Enabled(Exec(n, sched), m)
  {
    ExecInv(n, sched);
    var s := Exec(n, sched);
    if Enabled(s, OwnerMove(Nop)) {
      m := OwnerMove(Nop);
    } else if s.owner.Gone? {
      var w :| 0 <= w < |s.workers| && !s.workers[w].pc.Returned?;
      assert WorkerOk(s, w);
      m := WorkerMove(w, 0);
    } else {
      AwaitedWorkerIsAwake(n, sched);
      m := WorkerMove(s.owner.i, 0);
    }
  }

  function OwnerLeft(s: State): nat {
    var n := |s.workers|;
    match s.owner
    case Idle => 0
    case Clearing(i) => if i <= n then 10 * n + 6 - i else 0
    case Announcing => 3 * n + 5
    case Checking(i) => if i <= n then 2 * (n - i) + 4 else 0
    case Waiting(i) => if i <= n then 2 * (n - i) + 3 else 0
    case DeletingCounter => 2
    case DeletingContext => 1
    case Gone => 0
  }

  function WorkerLeft(counter: nat, wk: Worker): nat {
    var behind := if wk.taskId == counter then 0 else 6;
    match wk.pc
    case Parked => behind
    case Blocked => 1 + behind
    case Starting => 6
    case Running(_) => 5
    case Storing(_) => 4
    case Notifying(_) => 3 + behind
    case Returned => 0
  }

  function WorkersLeft(counter: nat, workers: seq<Worker>): nat {
    if workers == [] then 0
    else WorkersLeft(counter, workers[..|workers| - 1]) + WorkerLeft(counter, workers[|workers| - 1])
  }

  function Left(s: State): nat {
    OwnerLeft(s) + WorkersLeft(s.counter, s.workers)
  }

  lemma {:induction false} WorkersLeftUpdate(counter: nat, workers: seq<Worker>, w: nat, wk: Worker)
    requires w < |workers|
    ensures WorkersLeft(counter, workers[w := wk]) + WorkerLeft(counter, workers[w])
      == WorkersLeft(counter, workers) + WorkerLeft(counter, wk)
  {
    var n := |workers| - 1;
    if w < n {
      assert workers[w := wk][..n] == workers[..n][w := wk];
      WorkersLeftUpdate(counter, workers[..n], w, wk);
    } else {
      assert workers[w := wk][..n] == workers[..n];
    }
  }

  lemma {:induction false} BumpAddsAtMostSix(counter: nat, workers: seq<Worker>)
    ensures WorkersLeft(counter + 1, workers) <= WorkersLeft(counter, workers) + 6 * |workers|
  {
    if workers != [] { BumpAddsAtMostSix(counter, workers[..|workers| - 1]); }
  }

  lemma {:induction false} WakingAddsAtMostOne(counter: nat, workers: seq<Worker>)
    ensures WorkersLeft(counter, WakeAll(workers)) <= WorkersLeft(counter, workers) + |workers|
  {
    if workers != [] {
      var n := |workers| - 1;
      assert WakeAll(workers)[..n] == WakeAll(workers[..n]);
      WakingAddsAtMostOne(counter, workers[..n]);
    }
  }

  lemma OwnerUsesBudget(n: nat, s: State, task: Task)
    requires Inv(n, s) && Enabled(s, OwnerMove(task)) && !s.owner.Idle?
    ensures Left(OwnerStep(s, task)) < Left(s)
  {
    hide WorkersLeft;
    BumpAddsAtMostSix(s.counter, s.workers);
    WakingAddsAtMostOne(s.counter, s.workers);
  }

  lemma StoringIsCurrent(n: nat, s: State, w: nat)
    requires Inv(n, s) && w < n
    ensures s.workers[w].pc.Storing? ==> s.workers[w].taskId == s.counter
  {
    assert WorkerOk(s, w);
  }

  /** A worker's move lowers its own weight by more than it can wake up of the owner. */
  lemma OwnWeightFalls(s: State, w: nat, count: nat)
    requires Enabled(s, WorkerMove(w, count)) && OwnerOk(s) && |s.workers| == |s.done|
    requires s.workers[w].pc.Storing? ==> s.workers[w].taskId == s.counter
    ensures var s' := WorkerStep(s, w, count);
      && s'.counter == s.counter && s'.workers == s.workers[w := s'.workers[w]]
      && OwnerLeft(s') + WorkerLeft(s.counter, s'.workers[w]) < OwnerLeft(s) + WorkerLeft(s.counter, s.workers[w])
  {
  }

  lemma WorkerUsesBudget(n: nat, s: State, w: nat, count: nat)
    requires Inv(n, s) && Enabled(s, WorkerMove(w, count))
    ensures Left(WorkerStep(s, w, count)) < Left(s)
  {
    StoringIsCurrent(n, s, w);
    OwnWeightFalls(s, w, count);
    hide WorkersLeft, WorkerLeft, OwnerLeft, WorkerOk, WorkerStep, OwnerOk;
    WorkersLeftUpdate(s.counter, s.workers, w, WorkerStep(s, w, count).workers[w]);
  }

  /** Termination of every submission: each move, other than the owner's decision to submit, uses up
      part of a budget fixed at the submission. So submit_and_block returns, and the destructor
      completes, after a bounded number of moves, whoever makes them. */
  lemma EveryMoveUsesBudget(n: nat, sched: seq<Move>, m: Move)
    requires Enabled(Exec(n, sched), m)
    requires !(m.OwnerMove? && Exec(n, sched).owner.Idle?)
    ensures Left(Advance(Exec(n, sched), m)) < Left(Exec(n, sched))
  {
    ExecInv(n, sched);
    match m
    case OwnerMove(task) => OwnerUsesBudget(n, Exec(n, sched), task);
    case WorkerMove(w, count) => WorkerUsesBudget(n, Exec(n, sched), w, count);
  }
}
