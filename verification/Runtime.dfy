/**
 The runtime thread protocol: any number of wakers and stoppers, one worker thread, a
 pending word and two binary semaphores, as atomic steps in any interleaving.
 Semaphores hold 0 or 1; steps are sequentially consistent.
 */
module Runtime {

  /** The pending word: the four event bits there are. */
  datatype Word = Word(host: bool, mpsl: bool, sdc: bool, stop: bool)

  const NONE := Word(false, false, false, false)
  const HOST := Word(true, false, false, false)
  const STOP := Word(false, false, false, true)

  function BitOr(a: Word, b: Word): Word {
    Word(a.host || b.host, a.mpsl || b.mpsl, a.sdc || b.sdc, a.stop || b.stop)
  }

  /** Every bit of `a` is set in `b`. */
  predicate Within(a: Word, b: Word) {
    (a.host ==> b.host) && (a.mpsl ==> b.mpsl) && (a.sdc ==> b.sdc) && (a.stop ==> b.stop)
  }

  /** Where the worker is: the next thing it will do. */
  datatype Worker =
    | Absent                    // no kernel task
    | Entering                  // created, first instruction not yet run
    | EntryCheck                // live; about to read StopRequested
    | StartTarget
    | StartHost
    | SelfWakeOr                // its own wake of the host, the fetch-or
    | SelfWakeGive              // and the give
    | LoopCheck                 // while (!StopRequested)
    | Waiting                   // blocked on the wake semaphore
    | PollHost                  // timed out, pumping the host anyway
    | TakeWord                  // has the token, has not taken the word
    | ServeMpsl(events: Word)
    | ServeHost(events: Word)
    | PassCheck(events: Word)   // leave the inner loop on a stop?
    | TryAgain                  // take without waiting
    | LeaveFlags
    | LeaveGive
    | Gone

  /** Running target or host code, which a teardown must never overlap. */
  predicate Active(w: Worker) {
    w.StartTarget? || w.StartHost? || w.PollHost? || w.ServeMpsl? || w.ServeHost?
  }

  /** What a call is for: a plain wake, a stop, or a whole application stop that goes on to tear down. */
  datatype Goal = Plain | StopOnly | AppStop

  /** Where a caller of the wake and stop functions is. */
  datatype Agent =
    | Idle
    | Or(events: Word, goal: Goal)   // before the fetch-or
    | Give(goal: Goal)               // between the fetch-or and the give
    | WaitCheck                      // reading whether a thread exists
    | WaitToken                      // waiting on the stopped semaphore
    | TearDown                       // the wait returned true
    | Abandon                        // the wait timed out: nothing is torn down

  /** What the worker and its callers share, and where the worker is. */
  datatype Core = Core(
    pending: Word, wakeSem: bool, stoppedSem: bool,
    stopRequested: bool, armed: bool, live: bool,
    polling: bool, worker: Worker,
    leaving: nat)        // earlier threads that have cleared the flags and not yet given the token

  datatype State = State(
    core: Core, agents: map<nat, Agent>,
    stopPosted: bool,    // history: the fetch-or of some stop has run
    tornDown: bool)      // history: some wait for the worker has returned true

  datatype Step =
    | Arm | Create | Disarm
    | CallWake(a: nat, events: Word)
    | CallStop(a: nat, app: bool)
    | DoOr(a: nat) | DoGive(a: nat)
    | DoCheck(a: nat) | DoToken(a: nat) | DoTimeout(a: nat)
    | LateGive           // such an earlier thread gives its token
    | Work(ok: bool)     // ok: what a call the worker makes answers, where it matters

  function Init(polling: bool): State {
    State(Core(NONE, false, false, false, false, false, polling, Absent, 0), map[], false, false)
  }

  function AgentAt(s: State, a: nat): Agent {
    if a in s.agents then s.agents[a] else Idle
  }

  predicate CanWork(c: Core, ok: bool) {
    && !c.worker.Absent? && !c.worker.Gone?
    && (c.worker.Waiting? && ok ==> c.wakeSem)
  }

  predicate Enabled(s: State, step: Step) {
    match step
    case Arm => true
    case Create => s.core.worker.Absent? || s.core.worker.Gone? || s.core.worker.LeaveGive?
    case LateGive => s.core.leaving > 0
    case Disarm => true
    case CallWake(a, events) => AgentAt(s, a).Idle? && events != NONE
    case CallStop(a, _) => AgentAt(s, a).Idle?
    case DoOr(a) => AgentAt(s, a).Or?
    case DoGive(a) => AgentAt(s, a).Give?
    case DoCheck(a) => AgentAt(s, a).WaitCheck?
    case DoToken(a) => AgentAt(s, a).WaitToken? && s.core.stoppedSem
    case DoTimeout(a) => AgentAt(s, a).WaitToken?
    case Work(ok) => CanWork(s.core, ok)
  }

  /** Where a call goes once its wake is done. */
  function AfterWake(goal: Goal): Agent {
    if goal == AppStop then WaitCheck else Idle
  }

  /** What a step does to the shared part. */
  function CoreStep(c: Core, step: Step, pc: Agent): Core
    requires step.DoOr? ==> pc.Or?
    requires step.Work? ==> CanWork(c, step.ok)
    requires step.LateGive? ==> c.leaving > 0
  {
    match step
    case Arm => c.(armed := true)
    case Create => c.(worker := Entering, leaving := c.leaving + if c.worker.LeaveGive? then 1 else 0)
    case LateGive => c.(stoppedSem := true, leaving := c.leaving - 1)
    case Disarm => if c.live then c else c.(armed := false)
    case CallStop(_, _) => c.(stopRequested := true)
    case DoOr(_) => c.(pending := BitOr(c.pending, pc.events))
    case DoGive(_) => c.(wakeSem := true)
    case DoToken(_) => c.(stoppedSem := false)
    case Work(ok) => WorkerStep(c, ok)
    case _ => c
  }

  /** Where a step takes the caller that makes it. */
  function AgentStep(c: Core, step: Step, pc: Agent): Agent
    requires step.DoOr? ==> pc.Or?
    requires step.DoGive? ==> pc.Give?
  {
    match step
    case CallWake(_, events) => Or(events, Plain)
    case CallStop(_, app) => Or(STOP, if app then AppStop else StopOnly)
    case DoOr(_) => if Within(pc.events, c.pending) then AfterWake(pc.goal) else Give(pc.goal)
    case DoGive(_) => AfterWake(pc.goal)
    case DoCheck(_) => if c.armed || c.live then WaitToken else TearDown
    case DoToken(_) => TearDown
    case DoTimeout(_) => Abandon
    case _ => pc
  }

  predicate OfCaller(step: Step) {
    !step.Arm? && !step.Create? && !step.Disarm? && !step.LateGive? && !step.Work?
  }

  function Apply(s: State, step: Step): State
    requires Enabled(s, step)
  {
    if OfCaller(step) then
      var pc := AgentAt(s, step.a);
      var next := AgentStep(s.core, step, pc);
      State(CoreStep(s.core, step, pc), s.agents[step.a := next],
            s.stopPosted || (step.DoOr? && pc.goal != Plain),
            s.tornDown || next.TearDown?)
    else s.(core := CoreStep(s.core, step, Idle))
  }

  /** The worker's next position; `ok` is what the call it makes answers, where it matters. */
  function NextPc(c: Core, ok: bool): Worker
    requires CanWork(c, ok)
  {
    match c.worker
    case Entering => EntryCheck
    case EntryCheck => if c.stopRequested then LeaveFlags else StartTarget
    case StartTarget => if ok then StartHost else LeaveFlags
    case StartHost => SelfWakeOr
    case SelfWakeOr => if c.pending.host then LoopCheck else SelfWakeGive
    case SelfWakeGive => LoopCheck
    case LoopCheck => if c.stopRequested then LeaveFlags else Waiting
    case Waiting => if ok then TakeWord else if c.polling then PollHost else LoopCheck
    case PollHost => LoopCheck
    case TakeWord => if c.pending.mpsl then ServeMpsl(c.pending) else ServeHost(c.pending)
    case ServeMpsl(events) => ServeHost(events)
    case ServeHost(events) => PassCheck(events)
    case PassCheck(events) => if events.stop || c.stopRequested then LoopCheck else TryAgain
    case TryAgain => if c.wakeSem then TakeWord else LoopCheck
    case LeaveFlags => LeaveGive
    case LeaveGive => Gone
  }

  function WorkerStep(c: Core, ok: bool): Core
    requires CanWork(c, ok)
  {
    var d := c.(worker := NextPc(c, ok));
    if c.worker.Entering? then d.(live := true)
    else if c.worker.SelfWakeOr? then d.(pending := BitOr(c.pending, HOST))
    else if c.worker.SelfWakeGive? then d.(wakeSem := true)
    else if c.worker.TryAgain? || (c.worker.Waiting? && ok) then d.(wakeSem := false)
    else if c.worker.TakeWord? then d.(pending := NONE)
    else if c.worker.LeaveFlags? then d.(live := false, armed := false)
    else if c.worker.LeaveGive? then d.(stoppedSem := true)
    else d
  }

  // -------------------------------------------------------------------------
  // Runs.
  // -------------------------------------------------------------------------

  ghost predicate CanRun(s: State, steps: seq<Step>)
    decreases |steps|
  {
    steps == [] || (Enabled(s, steps[0]) && CanRun(Apply(s, steps[0]), steps[1..]))
  }

  ghost function Exec(s: State, steps: seq<Step>): State
    requires CanRun(s, steps)
    decreases |steps|
  {
    if steps == [] then s else Exec(Apply(s, steps[0]), steps[1..])
  }

  /** A stopped token is there, or an earlier thread has yet to give it. */
  predicate TokenAround(c: Core) {
    c.stoppedSem || c.leaving > 0
  }

  /**
   The thread may be created when no token of an earlier one can be mistaken for its own:
   none there, none on its way, or a stop already up.
   */
  predicate FreshCreate(s: State, step: Step) {
    step == Create ==> (!TokenAround(s.core) && !s.core.worker.LeaveGive?) || s.core.stopRequested
  }

  ghost predicate FreshRun(s: State, steps: seq<Step>)
    requires CanRun(s, steps)
    decreases |steps|
  {
    steps == [] || (FreshCreate(s, steps[0]) && FreshRun(Apply(s, steps[0]), steps[1..]))
  }

  // -------------------------------------------------------------------------
  // Invariants.
  // -------------------------------------------------------------------------

  /** Somebody is between its fetch-or and its give. */
  ghost predicate GiveInFlight(s: State) {
    s.core.worker.SelfWakeGive? || CallerGives(s.agents)
  }

  ghost predicate CallerGives(agents: map<nat, Agent>) {
    exists a :: a in agents && agents[a].Give?
  }

  /** A pending event always has a wake on its way, or the worker already has the token for it. */
  ghost predicate NoLostWakeup(s: State) {
    s.core.pending != NONE ==> s.core.wakeSem || s.core.worker.TakeWord? || GiveInFlight(s)
  }

  predicate LiveWorker(w: Worker) {
    !w.Absent? && !w.Entering? && !w.LeaveGive? && !w.Gone?
  }

  /** With the stop flag up, a worker here leaves without touching target or host. */
  predicate OnWayOut(w: Worker) {
    w.Absent? || w.Entering? || w.EntryCheck? || w.LeaveFlags? || w.LeaveGive? || w.Gone?
  }

  /** The flags and the token tell the truth about the worker. */
  predicate FlagsTrue(c: Core) {
    && (c.live <==> LiveWorker(c.worker))
    && (TokenAround(c) ==> c.worker.Gone? || (c.stopRequested && OnWayOut(c.worker)))
  }

  /** No host or target code again. */
  predicate Quiet(c: Core) {
    c.stopRequested && OnWayOut(c.worker)
  }

  predicate NeedsStopFlag(pc: Agent) {
    match pc
    case Idle => false
    case Or(_, goal) => goal != Plain
    case Give(goal) => goal != Plain
    case _ => true
  }

  /** A caller past the flag of its stop has raised it, and posts the stop bit. */
  predicate Raised(c: Core, pc: Agent) {
    NeedsStopFlag(pc) ==> c.stopRequested && (pc.Or? ==> pc.events == STOP)
  }

  /** A worker that blocked before the flag went up still has the stop bit to wake it. */
  predicate StopBitKept(c: Core) {
    c.stopRequested && (c.worker.Waiting? ==> c.pending.stop)
  }

  ghost predicate Inv(s: State) {
    && NoLostWakeup(s) && FlagsTrue(s.core)
    && (forall a :: a in s.agents ==> Raised(s.core, s.agents[a]))
    && (s.stopPosted ==> StopBitKept(s.core))
    && (s.tornDown ==> Quiet(s.core))
  }

  predicate InLoop(w: Worker) {
    w.LoopCheck? || w.Waiting? || w.PollHost? || w.TakeWord? || Serving(w)
  }

  predicate Serving(w: Worker) {
    w.ServeMpsl? || w.ServeHost? || w.PassCheck? || w.TryAgain?
  }

  /** The worker on its own: what one of its steps keeps, inside the loop and outside it. */
  lemma LoopKeeps(c: Core, ok: bool)
    requires CanWork(c, ok) && InLoop(c.worker)
    ensures LiveWorker(NextPc(c, ok)) && !NextPc(c, ok).Gone?
    ensures c.stopRequested ==> !NextPc(c, ok).Waiting?
  {
  }

  lemma EndsKeep(c: Core, ok: bool)
    requires CanWork(c, ok) && !InLoop(c.worker)
    ensures LiveWorker(NextPc(c, ok)) <==> !c.worker.LeaveFlags? && !c.worker.LeaveGive?
    ensures c.worker.LeaveGive? ==> NextPc(c, ok).Gone?
    ensures Quiet(c) ==> OnWayOut(NextPc(c, ok))
    ensures !NextPc(c, ok).Waiting?
  {
  }

  lemma WorkKeepsFlags(c: Core, ok: bool)
    requires CanWork(c, ok)
    ensures FlagsTrue(c) ==> FlagsTrue(WorkerStep(c, ok))
    ensures Quiet(c) ==> Quiet(WorkerStep(c, ok))
  {
    hide NextPc;
    if InLoop(c.worker) {
      LoopKeeps(c, ok);
    } else {
      EndsKeep(c, ok);
    }
  }

  lemma WorkKeepsStop(c: Core, ok: bool)
    requires CanWork(c, ok)
    ensures StopBitKept(c) ==> StopBitKept(WorkerStep(c, ok))
    ensures WorkerStep(c, ok).stopRequested == c.stopRequested
  {
    hide NextPc;
    if InLoop(c.worker) {
      LoopKeeps(c, ok);
    } else {
      EndsKeep(c, ok);
    }
  }

  /** Where a wake is consumed, and where the worker becomes a waker itself. */
  lemma WakePcs(c: Core, ok: bool)
    requires CanWork(c, ok)
    ensures c.worker.Waiting? && ok ==> NextPc(c, ok).TakeWord?
    ensures c.worker.TryAgain? && c.wakeSem ==> NextPc(c, ok).TakeWord?
    ensures c.worker.SelfWakeOr? && !c.pending.host ==> NextPc(c, ok).SelfWakeGive?
  {
  }

  lemma WorkKeepsWakeup(c: Core, ok: bool)
    requires CanWork(c, ok)
    requires c.pending != NONE ==> c.wakeSem || c.worker.TakeWord? || c.worker.SelfWakeGive?
    ensures var d := WorkerStep(c, ok);
            d.pending != NONE ==> d.wakeSem || d.worker.TakeWord? || d.worker.SelfWakeGive?
  {
    hide NextPc;
    WakePcs(c, ok);
  }

  /** A caller's step on the shared part. */
  lemma CallKeeps(c: Core, step: Step, pc: Agent)
    requires OfCaller(step) && (step.DoOr? ==> pc.Or?) && (step.DoGive? ==> pc.Give?)
    requires Raised(c, pc) && (step.DoCheck? ==> pc.WaitCheck?) && (step.DoTimeout? ==> pc.WaitToken?)
    requires step.DoToken? ==> pc.WaitToken? && c.stoppedSem
    requires FlagsTrue(c)
    ensures FlagsTrue(CoreStep(c, step, pc))
    ensures Quiet(c) ==> Quiet(CoreStep(c, step, pc))
    ensures StopBitKept(c) ==> StopBitKept(CoreStep(c, step, pc))
    ensures Raised(CoreStep(c, step, pc), AgentStep(c, step, pc))
    ensures step.DoOr? && pc.goal != Plain ==> StopBitKept(CoreStep(c, step, pc))
    ensures AgentStep(c, step, pc).TearDown? && (step.DoCheck? || step.DoToken?) ==> Quiet(CoreStep(c, step, pc))
    ensures c.stopRequested ==> CoreStep(c, step, pc).stopRequested
  {
    hide WorkerStep;
  }

  lemma NoLostWakeupStep(s: State, step: Step)
    requires NoLostWakeup(s) && Enabled(s, step)
    ensures NoLostWakeup(Apply(s, step))
  {
    var t := Apply(s, step);
    if step.Work? {
      if !CallerGives(s.agents) {
        WorkKeepsWakeup(s.core, step.ok);
      }
      hide WorkerStep;
    } else {
      hide WorkerStep;
      if OfCaller(step) && CallerGives(s.agents) {
        var a :| a in s.agents && s.agents[a].Give?;
        assert a != step.a || step.DoGive?;
        assert !step.DoGive? ==> a in t.agents && t.agents[a].Give?;
      }
      if step.DoOr? {
        assert step.a in t.agents && t.agents[step.a] == AgentStep(s.core, step, AgentAt(s, step.a));
      }
    }
  }

  lemma InvStep(s: State, step: Step)
    requires Inv(s) && Enabled(s, step) && FreshCreate(s, step)
    ensures Inv(Apply(s, step))
  {
    NoLostWakeupStep(s, step);
    hide NoLostWakeup;
    hide WorkerStep;
    if step.Work? {
      WorkKeepsFlags(s.core, step.ok);
      WorkKeepsStop(s.core, step.ok);
    } else if OfCaller(step) {
      CallKeeps(s.core, step, AgentAt(s, step.a));
      hide CoreStep;
      hide AgentStep;
    }
  }

  lemma {:induction false} InvRun(s: State, steps: seq<Step>)
    requires Inv(s) && CanRun(s, steps) && FreshRun(s, steps)
    ensures Inv(Exec(s, steps))
    decreases |steps|
  {
    if steps != [] {
      InvStep(s, steps[0]);
      InvRun(Apply(s, steps[0]), steps[1..]);
    }
  }

  lemma {:induction false} NoLostWakeupRun(s: State, steps: seq<Step>)
    requires NoLostWakeup(s) && CanRun(s, steps)
    ensures NoLostWakeup(Exec(s, steps))
    decreases |steps|
  {
    if steps != [] {
      NoLostWakeupStep(s, steps[0]);
      NoLostWakeupRun(Apply(s, steps[0]), steps[1..]);
    }
  }

  // -------------------------------------------------------------------------
  // Main results, for every reachable state.
  // -------------------------------------------------------------------------

  /** No wakeup is lost, folded wakes included, in any interleaving whatever. */
  lemma NoWakeupIsLost(polling: bool, steps: seq<Step>)
    requires CanRun(Init(polling), steps)
    ensures NoLostWakeup(Exec(Init(polling), steps))
  {
    NoLostWakeupRun(Init(polling), steps);
  }

  /** Once a wait for the worker returned true, target and host are never entered again. */
  lemma TeardownIsSafe(polling: bool, steps: seq<Step>, more: seq<Step>)
    requires CanRun(Init(polling), steps) && FreshRun(Init(polling), steps)
    requires Exec(Init(polling), steps).tornDown
    requires CanRun(Exec(Init(polling), steps), more) && FreshRun(Exec(Init(polling), steps), more)
    ensures !Active(Exec(Init(polling), steps).core.worker)
    ensures !Active(Exec(Exec(Init(polling), steps), more).core.worker)
  {
    var s := Exec(Init(polling), steps);
    InvRun(Init(polling), steps);
    InvRun(s, more);
    TornDownStays(s, more);
  }

  lemma {:induction false} TornDownStays(s: State, steps: seq<Step>)
    requires s.tornDown && CanRun(s, steps)
    ensures Exec(s, steps).tornDown
    decreases |steps|
  {
    hide CoreStep;
    hide AgentStep;
    if steps != [] {
      TornDownStays(Apply(s, steps[0]), steps[1..]);
    }
  }

  /** A completed stop cannot be slept through: a blocked worker has a wake to take, or one about to be given. */
  lemma StopIsNotSleptThrough(polling: bool, steps: seq<Step>)
    requires CanRun(Init(polling), steps) && FreshRun(Init(polling), steps)
    requires Exec(Init(polling), steps).stopPosted && Exec(Init(polling), steps).core.worker.Waiting?
    ensures Exec(Init(polling), steps).core.wakeSem || CallerGives(Exec(Init(polling), steps).agents)
  {
    InvRun(Init(polling), steps);
  }

  /** How many more steps of its own a worker with the stop flag up can take. */
  function StepsToLeave(w: Worker): nat {
    match w
    case Absent => 0
    case Gone => 0
    case LeaveGive => 1
    case LeaveFlags => 2
    case EntryCheck => 8
    case Entering => 9
    case LoopCheck => 3
    case PollHost => 4
    case PassCheck(_) => 4
    case SelfWakeGive => 4
    case ServeHost(_) => 5
    case SelfWakeOr => 5
    case ServeMpsl(_) => 6
    case StartHost => 6
    case TakeWord => 7
    case StartTarget => 7
    case TryAgain => 8
    case Waiting => 8
  }

  lemma LoopUsesUpSteps(c: Core, ok: bool)
    requires c.stopRequested && CanWork(c, ok) && InLoop(c.worker) && !Serving(c.worker)
    ensures StepsToLeave(NextPc(c, ok)) < StepsToLeave(c.worker)
  {
  }

  lemma ServiceUsesUpSteps(c: Core, ok: bool)
    requires c.stopRequested && CanWork(c, ok) && Serving(c.worker)
    ensures StepsToLeave(NextPc(c, ok)) < StepsToLeave(c.worker)
  {
  }

  lemma EndsUseUpSteps(c: Core, ok: bool)
    requires c.stopRequested && CanWork(c, ok) && !InLoop(c.worker)
    ensures StepsToLeave(NextPc(c, ok)) < StepsToLeave(c.worker)
  {
  }

  lemma WorkUsesUpSteps(c: Core, ok: bool)
    requires c.stopRequested && CanWork(c, ok)
    ensures WorkerStep(c, ok).stopRequested
    ensures StepsToLeave(WorkerStep(c, ok).worker) < StepsToLeave(c.worker)
  {
    hide NextPc;
    hide StepsToLeave;
    if Serving(c.worker) {
      ServiceUsesUpSteps(c, ok);
    } else if InLoop(c.worker) {
      LoopUsesUpSteps(c, ok);
    } else {
      EndsUseUpSteps(c, ok);
    }
  }

  /** Everybody else's steps leave it alone, each of its own uses some of it up. */
  lemma StopUsesUpSteps(s: State, step: Step)
    requires s.core.stopRequested && Enabled(s, step) && step != Create
    ensures Apply(s, step).core.stopRequested
    ensures StepsToLeave(Apply(s, step).core.worker) + (if step.Work? then 1 else 0) <= StepsToLeave(s.core.worker)
  {
    hide StepsToLeave;
    hide WorkerStep;
    if step.Work? {
      WorkUsesUpSteps(s.core, step.ok);
    }
  }

  function WorkCount(steps: seq<Step>): nat {
    if steps == [] then 0 else (if steps[0].Work? then 1 else 0) + WorkCount(steps[1..])
  }

  /** With the flag up, no interleaving lets one worker take more than nine further steps. */
  lemma {:induction false} StopTerminates(s: State, steps: seq<Step>)
    requires s.core.stopRequested && CanRun(s, steps) && Create !in steps
    ensures WorkCount(steps) + StepsToLeave(Exec(s, steps).core.worker) <= StepsToLeave(s.core.worker) <= 9
    decreases |steps|
  {
    if steps != [] {
      StopUsesUpSteps(s, steps[0]);
      StopTerminates(Apply(s, steps[0]), steps[1..]);
    }
  }

  // -------------------------------------------------------------------------
  // What was posted is served.
  // -------------------------------------------------------------------------

  /** What a run does for those outside the protocol. */
  datatype Event =
    | Posted(events: Word) | SelfPosted | StopRaised
    | Entered | TargetStarted(ok: bool) | HostStarted
    | Took(events: Word) | MpslServed | HostServed
    | TimedOut | HostPolled
    | Left
    | Unseen

  function Seen(s: State, step: Step): Event
    requires Enabled(s, step)
  {
    match step
    case DoOr(a) => Posted(AgentAt(s, a).events)
    case CallStop(_, _) => StopRaised
    case Work(ok) => SeenOfWorker(s.core, ok)
    case _ => Unseen
  }

  /** What the worker is doing where it stands. */
  function SeenOfWorker(c: Core, ok: bool): Event {
    match c.worker
    case Entering => Entered
    case StartTarget => TargetStarted(ok)
    case StartHost => HostStarted
    case SelfWakeOr => SelfPosted
    case Waiting => if ok then Unseen else TimedOut
    case PollHost => HostPolled
    case TakeWord => Took(c.pending)
    case ServeMpsl(_) => MpslServed
    case ServeHost(_) => HostServed
    case LeaveFlags => Left
    case _ => Unseen
  }

  function Trace(s: State, steps: seq<Step>): seq<Event>
    requires CanRun(s, steps)
    decreases |steps|
  {
    if steps == [] then [] else [Seen(s, steps[0])] + Trace(Apply(s, steps[0]), steps[1..])
  }

  /** How far a thread has come up. */
  datatype Stage = Away | Fresh | Failed | TargetUp | HostUp | Looping

  /** The books an outsider would keep: what is posted and not taken, and what the worker owes. */
  datatype Books = Books(polling: bool, posted: Word, stop: bool, stage: Stage, mpsl: bool, host: bool, poll: bool)

  predicate Owes(b: Books) {
    b.mpsl || b.host || b.poll
  }

  /**
   The thread comes up target first, then host, then its own wake. It takes all that is
   posted, at once, only when it owes nothing; it then owes the host a service, and before
   that MPSL if the word asks for it; a wait that times out owes the host one too while
   polling. It leaves owing nothing, after a stop or a failed start.
   */
  predicate Proper(b: Books, e: Event) {
    match e
    case Unseen => true
    case Posted(_) => true
    case StopRaised => true
    case Entered => b.stage == Away
    case TargetStarted(_) => b.stage == Fresh
    case HostStarted => b.stage == TargetUp
    case SelfPosted => b.stage == HostUp
    case Took(w) => b.stage == Looping && !Owes(b) && w == b.posted
    case MpslServed => b.mpsl
    case HostServed => b.host && !b.mpsl
    case TimedOut => b.stage == Looping && !Owes(b)
    case HostPolled => b.poll
    case Left => !Owes(b) && (b.stage == Failed || (b.stop && (b.stage == Fresh || b.stage == Looping)))
  }

  function Booked(b: Books, e: Event): Books {
    match e
    case Unseen => b
    case Posted(w) => b.(posted := BitOr(b.posted, w))
    case StopRaised => b.(stop := true)
    case Entered => b.(stage := Fresh)
    case TargetStarted(ok) => b.(stage := if ok then TargetUp else Failed)
    case HostStarted => b.(stage := HostUp)
    case SelfPosted => b.(stage := Looping, posted := BitOr(b.posted, HOST))
    case Took(w) => b.(posted := NONE, mpsl := w.mpsl, host := true)
    case MpslServed => b.(mpsl := false)
    case HostServed => b.(host := false)
    case TimedOut => b.(poll := b.polling)
    case HostPolled => b.(poll := false)
    case Left => b.(stage := Away)
  }

  predicate AllProper(b: Books, es: seq<Event>)
    decreases |es|
  {
    es == [] || (Proper(b, es[0]) && AllProper(Booked(b, es[0]), es[1..]))
  }

  function AllBooked(b: Books, es: seq<Event>): Books
    decreases |es|
  {
    if es == [] then b else AllBooked(Booked(b, es[0]), es[1..])
  }

  /** The books of a state: where the worker stands says what it owes. */
  predicate Agrees(c: Core, b: Books) {
    && b.polling == c.polling && b.posted == c.pending && b.stop == c.stopRequested
    && (b.mpsl <==> c.worker.ServeMpsl?)
    && (b.host <==> c.worker.ServeMpsl? || c.worker.ServeHost?)
    && (b.poll <==> c.worker.PollHost?)
    && StandsAt(c.worker, b)
  }

  predicate StandsAt(w: Worker, b: Books) {
    if w.LeaveFlags? then b.stage == Failed || (b.stop && (b.stage == Fresh || b.stage == Looping))
    else b.stage == StageOf(w)
  }

  /** A worker at rest owes nothing. */
  predicate AtRest(w: Worker) {
    !w.ServeMpsl? && !w.ServeHost? && !w.PollHost?
  }

  /** What the worker owes next. */
  lemma NextOwes(c: Core, ok: bool)
    requires CanWork(c, ok)
    ensures NextPc(c, ok).ServeMpsl? <==> c.worker.TakeWord? && c.pending.mpsl
    ensures NextPc(c, ok).ServeHost? <==> c.worker.ServeMpsl? || (c.worker.TakeWord? && !c.pending.mpsl)
    ensures NextPc(c, ok).PollHost? <==> c.worker.Waiting? && !ok && c.polling
  {
  }

  /** How far up a worker is, but for one about to leave. */
  function StageOf(w: Worker): Stage {
    match w
    case Absent => Away
    case Entering => Away
    case LeaveGive => Away
    case Gone => Away
    case EntryCheck => Fresh
    case StartTarget => Fresh
    case StartHost => TargetUp
    case SelfWakeOr => HostUp
    case LeaveFlags => Failed
    case _ => Looping
  }

  lemma NextStage(c: Core, ok: bool)
    requires CanWork(c, ok)
    ensures c.worker.Entering? ==> StageOf(NextPc(c, ok)) == Fresh && !NextPc(c, ok).LeaveFlags?
    ensures c.worker.StartTarget? ==> if ok then StageOf(NextPc(c, ok)) == TargetUp else NextPc(c, ok).LeaveFlags?
    ensures c.worker.StartHost? ==> StageOf(NextPc(c, ok)) == HostUp
    ensures c.worker.LeaveFlags? || c.worker.LeaveGive? ==> StageOf(NextPc(c, ok)) == Away
    ensures c.worker.EntryCheck? ==>
              if c.stopRequested then NextPc(c, ok).LeaveFlags? else StageOf(NextPc(c, ok)) == Fresh
    ensures StageOf(c.worker) == Looping || c.worker.SelfWakeOr? ==>
              StageOf(NextPc(c, ok)) == Looping || (NextPc(c, ok).LeaveFlags? && c.stopRequested)
    ensures NextPc(c, ok).LeaveFlags? <==> StageOf(NextPc(c, ok)) == Failed
  {
  }

  lemma WorkIsProper(c: Core, ok: bool, b: Books)
    requires Agrees(c, b) && CanWork(c, ok)
    ensures Proper(b, SeenOfWorker(c, ok))
  {
    hide NextPc;
  }

  /** Which event a worker's step is. */
  lemma SeenIs(c: Core, ok: bool)
    ensures var e := SeenOfWorker(c, ok);
            && (e.Took? <==> c.worker.TakeWord?) && (e.Took? ==> e.events == c.pending)
            && (e.MpslServed? <==> c.worker.ServeMpsl?) && (e.HostServed? <==> c.worker.ServeHost?)
            && (e.TimedOut? <==> c.worker.Waiting? && !ok) && (e.HostPolled? <==> c.worker.PollHost?)
            && (e.SelfPosted? <==> c.worker.SelfWakeOr?) && !e.Posted? && !e.StopRaised?
  {
  }

  /** What an event does to what is owed. */
  lemma BookedIs(b: Books, e: Event)
    requires !e.Posted? && !e.StopRaised?
    ensures var d := Booked(b, e);
            && d.polling == b.polling && d.stop == b.stop
            && d.posted == (if e.Took? then NONE else if e.SelfPosted? then BitOr(b.posted, HOST) else b.posted)
            && d.mpsl == (if e.Took? then e.events.mpsl else b.mpsl && !e.MpslServed?)
            && d.host == (e.Took? || (b.host && !e.HostServed?))
            && d.poll == (if e.TimedOut? then b.polling else b.poll && !e.HostPolled?)
  {
  }

  lemma WorkOwes(c: Core, ok: bool, b: Books)
    requires Agrees(c, b) && CanWork(c, ok)
    ensures var (d, end) := (WorkerStep(c, ok), Booked(b, SeenOfWorker(c, ok)));
            && end.polling == d.polling && end.posted == d.pending && end.stop == d.stopRequested
            && (end.mpsl <==> d.worker.ServeMpsl?) && (end.poll <==> d.worker.PollHost?)
            && (end.host <==> d.worker.ServeMpsl? || d.worker.ServeHost?)
  {
    hide NextPc;
    hide StandsAt;
    hide SeenOfWorker;
    hide Booked;
    SeenIs(c, ok);
    BookedIs(b, SeenOfWorker(c, ok));
    NextOwes(c, ok);
  }

  lemma WorkStands(c: Core, ok: bool, b: Books)
    requires Agrees(c, b) && CanWork(c, ok)
    ensures StandsAt(NextPc(c, ok), Booked(b, SeenOfWorker(c, ok)))
  {
    hide NextPc;
    NextStage(c, ok);
  }

  lemma WorkMoves(c: Core, ok: bool)
    requires CanWork(c, ok)
    ensures WorkerStep(c, ok).worker == NextPc(c, ok)
  {
    hide NextPc;
  }

  lemma WorkAgrees(c: Core, ok: bool, b: Books)
    requires Agrees(c, b) && CanWork(c, ok)
    ensures Proper(b, SeenOfWorker(c, ok)) && Agrees(WorkerStep(c, ok), Booked(b, SeenOfWorker(c, ok)))
  {
    hide NextPc;
    hide WorkerStep;
    hide StandsAt;
    hide SeenOfWorker;
    hide Booked;
    hide Proper;
    WorkIsProper(c, ok, b);
    WorkOwes(c, ok, b);
    WorkStands(c, ok, b);
    WorkMoves(c, ok);
  }

  lemma StepAgrees(s: State, step: Step, b: Books)
    requires Agrees(s.core, b) && Enabled(s, step)
    ensures Proper(b, Seen(s, step)) && Agrees(Apply(s, step).core, Booked(b, Seen(s, step)))
  {
    if step.Work? {
      WorkAgrees(s.core, step.ok, b);
      hide Agrees;
      hide Proper;
      hide Booked;
    }
    hide WorkerStep;
    hide SeenOfWorker;
  }

  lemma {:induction false} RunAgrees(s: State, steps: seq<Step>, b: Books)
    requires Agrees(s.core, b) && CanRun(s, steps)
    ensures AllProper(b, Trace(s, steps)) && Agrees(Exec(s, steps).core, AllBooked(b, Trace(s, steps)))
    decreases |steps|
  {
    hide Agrees;
    hide Seen;
    hide Proper;
    hide Booked;
    hide CoreStep;
    hide AgentStep;
    if steps != [] {
      StepAgrees(s, steps[0], b);
      RunAgrees(Apply(s, steps[0]), steps[1..], Booked(b, Seen(s, steps[0])));
      assert Trace(s, steps)[1..] == Trace(Apply(s, steps[0]), steps[1..]);
    }
  }

  function FirstBooks(polling: bool): Books {
    Books(polling, NONE, false, Away, false, false, false)
  }

  function Tally(es: seq<Event>, e: Event): nat {
    if es == [] then 0 else One(es[0] == e) + Tally(es[1..], e)
  }

  /** Words taken, and those of them that ask for MPSL. */
  function Takes(es: seq<Event>): nat {
    if es == [] then 0 else One(es[0].Took?) + Takes(es[1..])
  }

  function MpslTakes(es: seq<Event>): nat {
    if es == [] then 0 else One(es[0].Took? && es[0].events.mpsl) + MpslTakes(es[1..])
  }

  function One(p: bool): nat {
    if p then 1 else 0
  }

  /** One event balances. */
  lemma EventBalances(b: Books, e: Event)
    requires Proper(b, e) && (b.poll ==> b.polling)
    ensures var c := Booked(b, e);
            && c.polling == b.polling && (c.poll ==> c.polling)
            && One(e.Took?) + One(b.host) == One(e == HostServed) + One(c.host)
            && One(e.Took? && e.events.mpsl) + One(b.mpsl) == One(e == MpslServed) + One(c.mpsl)
            && (b.polling ==> One(e == TimedOut) + One(b.poll) == One(e == HostPolled) + One(c.poll))
            && (!b.polling ==> e != HostPolled)
  {
  }

  lemma {:induction false} BooksBalance(b: Books, es: seq<Event>)
    requires AllProper(b, es) && (b.poll ==> b.polling)
    ensures var end := AllBooked(b, es);
            && Takes(es) + One(b.host) == Tally(es, HostServed) + One(end.host)
            && MpslTakes(es) + One(b.mpsl) == Tally(es, MpslServed) + One(end.mpsl)
            && (if b.polling then Tally(es, TimedOut) + One(b.poll) == Tally(es, HostPolled) + One(end.poll)
                else Tally(es, HostPolled) == 0)
    decreases |es|
  {
    hide Proper;
    hide Booked;
    if es != [] {
      EventBalances(b, es[0]);
      BooksBalance(Booked(b, es[0]), es[1..]);
    }
  }

  /**
   Everything taken is served: in every interleaving, over every run, each word taken is
   followed by one service of MPSL if it asks for it and then one of the host, before
   anything else is taken and before the thread leaves; polls serve the host once each. At
   rest the counts agree.
   */
  lemma EventsAreServed(polling: bool, steps: seq<Step>)
    requires CanRun(Init(polling), steps)
    ensures var es := Trace(Init(polling), steps);
            && AllProper(FirstBooks(polling), es)
            && Agrees(Exec(Init(polling), steps).core, AllBooked(FirstBooks(polling), es))
            && (AtRest(Exec(Init(polling), steps).core.worker) ==>
                  && Takes(es) == Tally(es, HostServed)
                  && MpslTakes(es) == Tally(es, MpslServed)
                  && Tally(es, HostPolled) == if polling then Tally(es, TimedOut) else 0)
  {
    RunAgrees(Init(polling), steps, FirstBooks(polling));
    BooksBalance(FirstBooks(polling), Trace(Init(polling), steps));
  }

  lemma OwedStays(b: Books, e: Event, w: Word)
    requires Proper(b, e)
    ensures (b.posted.mpsl || b.mpsl) && e != MpslServed ==> Booked(b, e).posted.mpsl || Booked(b, e).mpsl
    ensures (Within(w, b.posted) || b.host) && e != HostServed ==> Within(w, Booked(b, e).posted) || Booked(b, e).host
  {
  }

  /** What is owed at one time and not at another has been served in between. */
  lemma {:induction false} OwedIsServed(b: Books, es: seq<Event>, w: Word)
    requires AllProper(b, es)
    ensures var end := AllBooked(b, es);
            && ((b.posted.mpsl || b.mpsl) && !end.posted.mpsl && !end.mpsl ==> MpslServed in es)
            && ((Within(w, b.posted) || b.host) && !Within(w, end.posted) && !end.host ==> HostServed in es)
    decreases |es|
  {
    hide Proper;
    hide Booked;
    hide Within;
    if es != [] {
      OwedStays(b, es[0], w);
      OwedIsServed(Booked(b, es[0]), es[1..], w);
    }
  }

  /**
   Every post is answered: once the worker is at rest, an event posted earlier is still
   pending, or the host has been served since, and MPSL too if it was for MPSL.
   */
  lemma PostIsServed(polling: bool, before: seq<Step>, a: nat, after: seq<Step>)
    requires CanRun(Init(polling), before) && AgentAt(Exec(Init(polling), before), a).Or?
    requires var posted := Apply(Exec(Init(polling), before), DoOr(a));
             CanRun(posted, after) && AtRest(Exec(posted, after).core.worker)
    ensures var s := Exec(Init(polling), before);
            var posted := Apply(s, DoOr(a));
            var pending := Exec(posted, after).core.pending;
            && (!Within(AgentAt(s, a).events, pending) ==> HostServed in Trace(posted, after))
            && (AgentAt(s, a).events.mpsl && !pending.mpsl ==> MpslServed in Trace(posted, after))
  {
    var s := Exec(Init(polling), before);
    var posted := Apply(s, DoOr(a));
    RunAgrees(Init(polling), before, FirstBooks(polling));
    var b := AllBooked(FirstBooks(polling), Trace(Init(polling), before));
    StepAgrees(s, DoOr(a), b);
    var c := Booked(b, Seen(s, DoOr(a)));
    RunAgrees(posted, after, c);
    OwedIsServed(c, Trace(posted, after), AgentAt(s, a).events);
  }

  // -------------------------------------------------------------------------
  // What a returned wait means.
  // -------------------------------------------------------------------------

  /** The order the application keeps: armed before created, disarmed only without a task, created only afresh. */
  predicate Orderly(s: State, step: Step) {
    && (step == Create ==> s.core.armed && !s.core.stopRequested && FreshCreate(s, step))
    && (step == Disarm ==> Ended(s.core.worker))
  }

  ghost predicate OrderlyRun(s: State, steps: seq<Step>)
    requires CanRun(s, steps)
    decreases |steps|
  {
    steps == [] || (Orderly(s, steps[0]) && OrderlyRun(Apply(s, steps[0]), steps[1..]))
  }

  /** No thread, or one past its last use of the runtime's flags. */
  predicate Ended(w: Worker) {
    w.Absent? || w.LeaveGive? || w.Gone?
  }

  predicate Kept(c: Core) {
    && (!Ended(c.worker) ==> c.armed)
    && c.leaving == 0 && (c.stoppedSem ==> c.worker.Gone?)
  }

  lemma WorkKeepsOrder(c: Core, ok: bool)
    requires CanWork(c, ok) && Kept(c)
    ensures Kept(WorkerStep(c, ok)) && (Ended(c.worker) ==> Ended(WorkerStep(c, ok).worker))
  {
    hide NextPc;
    NextEnds(c, ok);
  }

  lemma NextEnds(c: Core, ok: bool)
    requires CanWork(c, ok)
    ensures Ended(NextPc(c, ok)) <==> c.worker.LeaveFlags? || c.worker.LeaveGive?
    ensures c.worker.LeaveGive? <==> NextPc(c, ok).Gone?
  {
  }

  lemma OrderStep(s: State, step: Step)
    requires Inv(s) && Enabled(s, step) && Orderly(s, step) && Kept(s.core)
    requires s.tornDown ==> Ended(s.core.worker) && s.core.stopRequested
    ensures var t := Apply(s, step);
            Kept(t.core) && (t.tornDown ==> Ended(t.core.worker) && t.core.stopRequested)
  {
    hide NoLostWakeup;
    hide WorkerStep;
    if step.Work? {
      WorkKeepsOrder(s.core, step.ok);
      WorkKeepsStop(s.core, step.ok);
      hide Kept;
    } else if OfCaller(step) {
      hide StopBitKept;
      hide Quiet;
    }
  }

  lemma {:induction false} OrderRun(s: State, steps: seq<Step>)
    requires Inv(s) && CanRun(s, steps) && OrderlyRun(s, steps) && Kept(s.core)
    requires s.tornDown ==> Ended(s.core.worker) && s.core.stopRequested
    ensures Exec(s, steps).tornDown ==> Ended(Exec(s, steps).core.worker)
    decreases |steps|
  {
    hide Inv;
    hide Kept;
    hide CoreStep;
    hide AgentStep;
    if steps != [] {
      InvStep(s, steps[0]);
      OrderStep(s, steps[0]);
      OrderRun(Apply(s, steps[0]), steps[1..]);
    }
  }

  /**
   A returned wait means more than quiet: in any run that keeps the order, there is no
   thread then, nor one created and not yet run, and there is none afterwards.
   */
  lemma ThreadIsGone(polling: bool, steps: seq<Step>)
    requires CanRun(Init(polling), steps) && OrderlyRun(Init(polling), steps)
    requires Exec(Init(polling), steps).tornDown
    ensures Ended(Exec(Init(polling), steps).core.worker)
  {
    OrderRun(Init(polling), steps);
  }

  /** And where there is no thread a stop does not wait for one. */
  lemma StopWithoutThread(polling: bool, a: nat)
    ensures var steps := [CallStop(a, true), DoOr(a), DoGive(a), DoCheck(a)];
            CanRun(Init(polling), steps) && Exec(Init(polling), steps).tornDown
  {
    var s0 := Init(polling);
    var s1 := Apply(s0, CallStop(a, true));
    var s2 := Apply(s1, DoOr(a));
    var s3 := Apply(s2, DoGive(a));
    Prepend(s3, DoCheck(a), []);
    Prepend(s2, DoGive(a), [DoCheck(a)] + []);
    Prepend(s1, DoOr(a), [DoGive(a)] + ([DoCheck(a)] + []));
    Prepend(s0, CallStop(a, true), [DoOr(a)] + ([DoGive(a)] + ([DoCheck(a)] + [])));
    assert [CallStop(a, true), DoOr(a), DoGive(a), DoCheck(a)]
        == [CallStop(a, true)] + ([DoOr(a)] + ([DoGive(a)] + ([DoCheck(a)] + [])));
  }

  // -------------------------------------------------------------------------
  // A thread created again on the same runtime object.
  // -------------------------------------------------------------------------

  /** The steps of one application stop by an idle caller, taken while the worker stands still. */
  function StopSteps(s: State, a: nat): seq<Step> {
    [CallStop(a, true), DoOr(a)] + (if s.core.pending.stop then [] else [DoGive(a)]) + [DoCheck(a), DoToken(a)]
  }

  const ENTRY: seq<Step> := [Work(true), Work(true)]

  /** A created thread, up to where it is about to start the target. */
  lemma EntryRuns(s: State)
    requires s.core.worker.Entering? && !s.core.stopRequested
    ensures CanRun(s, ENTRY)
    ensures Exec(s, ENTRY) == s.(core := s.core.(live := true, worker := StartTarget))
  {
    var s1 := Apply(s, Work(true));
    Prepend(s1, Work(true), []);
    Prepend(s, Work(true), [Work(true)] + []);
    assert ENTRY == [Work(true)] + ([Work(true)] + []);
  }

  lemma {:induction false} RunConcat(s: State, first: seq<Step>, more: seq<Step>)
    requires CanRun(s, first) && CanRun(Exec(s, first), more)
    ensures CanRun(s, first + more) && Exec(s, first + more) == Exec(Exec(s, first), more)
    decreases |first|
  {
    if first == [] {
      assert first + more == more;
    } else {
      assert (first + more)[1..] == first[1..] + more;
      RunConcat(Apply(s, first[0]), first[1..], more);
    }
  }

  /**
   The token an earlier thread left behind lets a stop of the next thread return while
   that thread is running: from any state with such a token, a thread about to enter,
   no stop yet and an idle caller.
   */
  lemma StaleTokenBreaksStop(s: State, a: nat)
    requires s.core.worker.Entering? && s.core.stoppedSem && !s.core.stopRequested && AgentAt(s, a).Idle?
    ensures CanRun(s, ENTRY + StopSteps(s, a))
    ensures Exec(s, ENTRY + StopSteps(s, a)).tornDown
    ensures Active(Exec(s, ENTRY + StopSteps(s, a)).core.worker)
  {
    hide CanRun;
    hide Exec;
    EntryRuns(s);
    var started := Exec(s, ENTRY);
    assert AgentAt(started, a).Idle?;
    StopReturnsAtOnce(started, a);
    assert StopSteps(started, a) == StopSteps(s, a);
    RunConcat(s, ENTRY, StopSteps(s, a));
  }

  /** No run from here, creating threads only afresh, ever overlaps a teardown with the worker. */
  ghost predicate SafeFrom(s: State) {
    forall more: seq<Step> :: CanRun(s, more) && FreshRun(s, more) && Exec(s, more).tornDown ==>
      !Active(Exec(s, more).core.worker)
  }

  /** A thread about to enter, a token of an earlier one there or on its way, no stop yet. */
  predicate Haunted(c: Core) {
    c.worker.Entering? && TokenAround(c) && !c.stopRequested
  }

  /** From there a stop can return while the thread is running, no thread created meanwhile. */
  lemma HauntedIsUnsafe(t: State, a: nat)
    requires Haunted(t.core) && AgentAt(t, a).Idle?
    ensures !SafeFrom(t)
  {
    hide CanRun;
    hide Exec;
    hide StopSteps;
    hide FreshRun;
    hide Active;
    var u := if t.core.stoppedSem then t else Apply(t, LateGive);
    var more := ENTRY + StopSteps(u, a);
    assert AgentAt(u, a).Idle?;
    StaleTokenBreaksStop(u, a);
    StopCreatesNothing(u, a);
    if t.core.stoppedSem {
      NoCreateIsFresh(t, more);
    } else {
      Prepend(t, LateGive, more);
      NoCreateIsFresh(t, [LateGive] + more);
    }
  }

  lemma StopCreatesNothing(s: State, a: nat)
    ensures Create !in ENTRY + StopSteps(s, a)
  {
  }

  lemma FreshIsSafe(s: State)
    requires Inv(s) && Enabled(s, Create) && FreshCreate(s, Create)
    ensures SafeFrom(Apply(s, Create))
  {
    hide CanRun;
    hide Exec;
    hide FreshRun;
    hide NoLostWakeup;
    var t := Apply(s, Create);
    InvStep(s, Create);
    forall more: seq<Step> | CanRun(t, more) && FreshRun(t, more) && Exec(t, more).tornDown
      ensures !Active(Exec(t, more).core.worker)
    {
      InvRun(t, more);
    }
  }

  /**
   Creating a thread again, once the flags of the last one are clear, is safe exactly when
   no stopped token is there or still to be given, or a stop is already up.
   */
  lemma RecreateIsSafeIff(s: State, a: nat)
    requires Inv(s) && Enabled(s, Create) && AgentAt(s, a).Idle?
    ensures SafeFrom(Apply(s, Create)) <==> FreshCreate(s, Create)
  {
    hide SafeFrom;
    hide Inv;
    if FreshCreate(s, Create) {
      FreshIsSafe(s);
    } else {
      HauntedIsUnsafe(Apply(s, Create), a);
    }
  }

  /** The stopped token taken without waiting. */
  function Drained(s: State): State {
    s.(core := s.core.(stoppedSem := false))
  }

  /**
   What a caller can check: every earlier kernel task has ended, not just cleared its flags,
   and the token has been taken. Then a thread may be created.
   */
  lemma GoneAndDrainedIsSafe(s: State)
    requires Inv(s) && (s.core.worker.Absent? || s.core.worker.Gone?) && s.core.leaving == 0
    ensures Inv(Drained(s)) && Enabled(Drained(s), Create) && SafeFrom(Apply(Drained(s), Create))
  {
    hide SafeFrom;
    FreshIsSafe(Drained(s));
  }

  /** So it may in a newly initialized runtime, which no earlier task is still leaving. */
  lemma InitializedIsSafe(polling: bool)
    ensures Enabled(Init(polling), Create) && SafeFrom(Apply(Init(polling), Create))
  {
    hide SafeFrom;
    FreshIsSafe(Init(polling));
  }

  /** A target that fails to start: the first thread leaves by itself, up to its token. */
  const FAILED_START: seq<Step> := [Create, Work(true), Work(true), Work(false), Work(true)]

  /** Nothing has happened but the first thread's progress. */
  function FirstThread(polling: bool, w: Worker, live: bool): State {
    Init(polling).(core := Init(polling).core.(worker := w, live := live))
  }

  predicate Leads(s: State, step: Step, t: State) {
    Enabled(s, step) && Apply(s, step) == t
  }

  lemma FirstIsCreated(polling: bool)
    ensures Leads(Init(polling), Create, FirstThread(polling, Entering, false))
    ensures Leads(FirstThread(polling, Entering, false), Work(true), FirstThread(polling, EntryCheck, true))
    ensures Leads(FirstThread(polling, EntryCheck, true), Work(true), FirstThread(polling, StartTarget, true))
  {
  }

  lemma FirstFailsToStart(polling: bool)
    ensures Leads(FirstThread(polling, StartTarget, true), Work(false), FirstThread(polling, LeaveFlags, true))
    ensures Leads(FirstThread(polling, LeaveFlags, true), Work(true), FirstThread(polling, LeaveGive, false))
  {
  }

  lemma LeadsOn(s: State, step: Step, t: State, rest: seq<Step>)
    requires Leads(s, step, t) && CanRun(t, rest)
    ensures CanRun(s, [step] + rest) && Exec(s, [step] + rest) == Exec(t, rest)
  {
    Prepend(s, step, rest);
  }

  lemma FailedStartRuns(polling: bool)
    ensures CanRun(Init(polling), FAILED_START)
    ensures Exec(Init(polling), FAILED_START) == FirstThread(polling, LeaveGive, false)
  {
    hide CanRun;
    hide Exec;
    hide Leads;
    hide FirstThread;
    hide Init;
    FirstIsCreated(polling);
    FirstFailsToStart(polling);
    RunNothing(FirstThread(polling, LeaveGive, false));
    LeadsOn(FirstThread(polling, LeaveFlags, true), Work(true), FirstThread(polling, LeaveGive, false), []);
    LeadsOn(FirstThread(polling, StartTarget, true), Work(false), FirstThread(polling, LeaveFlags, true),
            [Work(true)] + []);
    LeadsOn(FirstThread(polling, EntryCheck, true), Work(true), FirstThread(polling, StartTarget, true),
            [Work(false)] + ([Work(true)] + []));
    LeadsOn(FirstThread(polling, Entering, false), Work(true), FirstThread(polling, EntryCheck, true),
            [Work(true)] + ([Work(false)] + ([Work(true)] + [])));
    LeadsOn(Init(polling), Create, FirstThread(polling, Entering, false),
            [Work(true)] + ([Work(true)] + ([Work(false)] + ([Work(true)] + []))));
    assert FAILED_START == [Create] + ([Work(true)] + ([Work(true)] + ([Work(false)] + ([Work(true)] + []))));
  }

  lemma RunNothing(s: State)
    ensures CanRun(s, []) && Exec(s, []) == s
  {
  }

  /** How the second thread comes to inherit the token: given before it is created, or only after. */
  function SecondCreated(gaveFirst: bool): seq<Step> {
    if gaveFirst then [Work(true), Create] else [Create, LateGive]
  }

  /** The second thread, about to enter, the first one's token beside it. */
  function Inherited(polling: bool): State {
    Init(polling).(core := Init(polling).core.(worker := Entering, stoppedSem := true))
  }

  lemma SecondInherits(polling: bool, gaveFirst: bool)
    ensures CanRun(FirstThread(polling, LeaveGive, false), SecondCreated(gaveFirst))
    ensures Exec(FirstThread(polling, LeaveGive, false), SecondCreated(gaveFirst)) == Inherited(polling)
  {
    var s := FirstThread(polling, LeaveGive, false);
    var steps := SecondCreated(gaveFirst);
    var t := Apply(s, steps[0]);
    assert Leads(s, steps[0], t) && Leads(t, steps[1], Inherited(polling));
    RunNothing(Inherited(polling));
    hide CanRun;
    hide Exec;
    LeadsOn(t, steps[1], Inherited(polling), []);
    LeadsOn(s, steps[0], t, [steps[1]] + []);
    assert steps == [steps[0]] + ([steps[1]] + []);
  }

  /** From the start to the teardown. */
  function EarlyReturn(polling: bool, a: nat, gaveFirst: bool): seq<Step> {
    FAILED_START + (SecondCreated(gaveFirst) + (ENTRY + StopSteps(Inherited(polling), a)))
  }

  /**
   The failure is reachable in two ways: the first thread has given its token before the
   second is created, or it gives it only afterwards, its flags already clear. Either way a
   run from the start ends with a stop that tears down under the running second thread.
   */
  lemma StopCanReturnEarly(polling: bool, a: nat, gaveFirst: bool)
    ensures CanRun(Init(polling), EarlyReturn(polling, a, gaveFirst))
    ensures Exec(Init(polling), EarlyReturn(polling, a, gaveFirst)).tornDown
    ensures Active(Exec(Init(polling), EarlyReturn(polling, a, gaveFirst)).core.worker)
  {
    hide CanRun;
    hide Exec;
    hide StopSteps;
    FailedStartRuns(polling);
    SecondInherits(polling, gaveFirst);
    var t := Inherited(polling);
    assert AgentAt(t, a).Idle?;
    StaleTokenBreaksStop(t, a);
    RunConcat(FirstThread(polling, LeaveGive, false), SecondCreated(gaveFirst), ENTRY + StopSteps(t, a));
    RunConcat(Init(polling), FAILED_START, SecondCreated(gaveFirst) + (ENTRY + StopSteps(t, a)));
  }

  lemma {:induction false} NoCreateIsFresh(s: State, steps: seq<Step>)
    requires CanRun(s, steps) && Create !in steps
    ensures FreshRun(s, steps)
    decreases |steps|
  {
    if steps != [] {
      NoCreateIsFresh(Apply(s, steps[0]), steps[1..]);
    }
  }

  lemma Prepend(s: State, step: Step, rest: seq<Step>)
    requires Enabled(s, step) && CanRun(Apply(s, step), rest)
    ensures CanRun(s, [step] + rest) && Exec(s, [step] + rest) == Exec(Apply(s, step), rest)
  {
    assert ([step] + rest)[1..] == rest;
  }

  /** A caller that has posted its stop, with a token there for it. */
  lemma WaitReturns(s: State, a: nat)
    requires s.core.live && s.core.stoppedSem && AgentAt(s, a).WaitCheck?
    ensures CanRun(s, [DoCheck(a), DoToken(a)])
    ensures Exec(s, [DoCheck(a), DoToken(a)]).tornDown
    ensures Exec(s, [DoCheck(a), DoToken(a)]).core.worker == s.core.worker
  {
    var s1 := Apply(s, DoCheck(a));
    Prepend(s1, DoToken(a), []);
    Prepend(s, DoCheck(a), [DoToken(a)] + []);
    assert [DoCheck(a), DoToken(a)] == [DoCheck(a)] + ([DoToken(a)] + []);
  }

  lemma StopReturnsAtOnce(s: State, a: nat)
    requires s.core.live && s.core.stoppedSem && AgentAt(s, a).Idle?
    ensures CanRun(s, StopSteps(s, a))
    ensures Exec(s, StopSteps(s, a)).tornDown && Exec(s, StopSteps(s, a)).core.worker == s.core.worker
  {
    hide CanRun;
    hide Exec;
    hide WorkerStep;
    var s1 := Apply(s, CallStop(a, true));
    var s2 := Apply(s1, DoOr(a));
    var tail := [DoCheck(a), DoToken(a)];
    if s.core.pending.stop {
      WaitReturns(s2, a);
      Prepend(s1, DoOr(a), tail);
      Prepend(s, CallStop(a, true), [DoOr(a)] + tail);
      assert StopSteps(s, a) == [CallStop(a, true)] + ([DoOr(a)] + tail);
    } else {
      WaitReturns(Apply(s2, DoGive(a)), a);
      Prepend(s2, DoGive(a), tail);
      Prepend(s1, DoOr(a), [DoGive(a)] + tail);
      Prepend(s, CallStop(a, true), [DoOr(a)] + ([DoGive(a)] + tail));
      assert StopSteps(s, a) == [CallStop(a, true)] + ([DoOr(a)] + ([DoGive(a)] + tail));
    }
  }
}
