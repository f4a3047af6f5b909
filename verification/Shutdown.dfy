/** Start-up and shutdown of the process: the main thread, six workers and the timer
    thread, one atomic step at a time. */
module Shutdown {
  import Timers

  datatype Msg = Terminate | Other

  /** Where a worker is in its life. Polling workers look at their inbox and then wait
      for a tick; blocking workers wait for a message. */
  datatype Phase =
    | Unborn
    | Starting(left: nat)     // timer services still to be registered
    | Looking                 // about to take a message
    | Waiting                 // waiting for its fast tick
    | Leaving                 // has taken Terminate; unregistering
    | Finished

  datatype TimerPhase = NotYet | Checking | Ticking | Stopped

  datatype Pc =
    | Creating(next: nat)     // making the inboxes
    | Launching(next: nat)    // starting the threads
    | Serving
    | Broadcasting(todo: set<nat>)
    | Joining(next: nat)
    | TellingTimer
    | JoiningTimer
    | Exiting                 // the singletons are shut down
    | Gone

  const WORKERS: nat := 6
  const TIMER: nat := 6
  const THREADS: nat := 7

  /** Display, LED strip, light sensor and motion sensor poll; the MQTT client and the
      dictionary block. */
  predicate Polls(w: nat) { w < 4 }

  /** How many timer services each worker registers for itself. */
  function Services(w: nat): nat
    requires w < WORKERS
  {
    [9, 4, 1, 1, 4, 1][w]
  }

  /** The interval of the service that a polling worker waits for, in milliseconds; it is
      the first that the worker registers and the first that it unregisters. */
  function Interval(w: nat): int
    requires w < WORKERS
  {
    [12, 12, 600, 1000, 0, 0][w]
  }

  /** How many turns of the timer thread apart the wake-ups of a polling worker are. */
  function WakePeriod(w: nat): (p: nat)
    requires w < WORKERS
    ensures p >= 1 && (w < 4 ==> p == [2, 2, 51, 84][w])
  {
    Timers.Period(Interval(w))
  }

  function AtRest(w: nat): Timers.Timer
    requires w < WORKERS
  {
    Timers.Timer(Interval(w), true, 0)
  }

  datatype Sys = Sys(
    pc: Pc,
    inboxes: map<nat, seq<Msg>>,
    phase: seq<Phase>,
    registered: seq<nat>,
    wake: seq<Timers.Timer>,  // the service that each polling worker waits for
    ticked: seq<bool>,        // its expiry flag
    timer: TimerPhase)

  datatype Step =
    | CreateInbox
    | Launch
    | EndServing
    | BroadcastTo(t: nat)
    | EndBroadcast
    | Join
    | TellTimer
    | JoinTimer
    | ShutSingletons
    | RegisterOne(w: nat)
    | EnterLoop(w: nat)
    | Look(w: nat)
    | WakeUp(w: nat)
    | UnregisterOne(w: nat)
    | Finish(w: nat)
    | SendOther(w: nat, t: nat)
    | TimerLook
    | TimerTick(fired: set<nat>)  // `fired` get a message

  predicate Shaped(s: Sys) {
    |s.phase| == |s.registered| == |s.wake| == |s.ticked| == WORKERS
  }

  const INIT := Sys(Creating(0), map[], seq(WORKERS, _ => Unborn), seq(WORKERS, _ => 0),
                    seq(WORKERS, w requires 0 <= w < WORKERS => AtRest(w)), seq(WORKERS, _ => false), NotYet)

  predicate Alive(p: Phase) { p.Looking? || p.Waiting? }

  predicate Enabled(s: Sys, step: Step)
    requires Shaped(s)
  {
    match step
    case CreateInbox => s.pc.Creating?
    case Launch => s.pc.Launching?
    case EndServing => s.pc.Serving?
    case BroadcastTo(t) => s.pc.Broadcasting? && t in s.pc.todo && t in s.inboxes
    case EndBroadcast => s.pc == Broadcasting({})
    case Join => s.pc.Joining? && (s.pc.next < WORKERS ==> s.phase[s.pc.next] == Finished)
    case TellTimer => s.pc.TellingTimer? && TIMER in s.inboxes
    case JoinTimer => s.pc.JoiningTimer? && s.timer.Stopped?
    case ShutSingletons => s.pc.Exiting?
    case RegisterOne(w) => w < WORKERS && s.phase[w].Starting? && s.phase[w].left > 0
    case EnterLoop(w) => w < WORKERS && s.phase[w] == Starting(0)
    case Look(w) => w < WORKERS && s.phase[w].Looking? && w in s.inboxes && (Polls(w) || s.inboxes[w] != [])
    case WakeUp(w) => w < WORKERS && s.phase[w].Waiting? && s.ticked[w]
    case UnregisterOne(w) => w < WORKERS && s.phase[w].Leaving? && s.registered[w] > 0
    case Finish(w) => w < WORKERS && s.phase[w].Leaving? && s.registered[w] == 0 && w in s.inboxes
    case SendOther(w, t) => w < WORKERS && Alive(s.phase[w]) && t in s.inboxes && t != w
    case TimerLook => s.timer.Checking? && TIMER in s.inboxes
    case TimerTick(fired) =>
      s.timer.Ticking? && forall w | w in fired :: w < WORKERS && !Polls(w) && s.registered[w] > 0 && w in s.inboxes
  }

  function Next(s: Sys, step: Step): (r: Sys)
    requires Shaped(s) && Enabled(s, step)
    ensures Shaped(r)
  {
    match step
    case CreateInbox =>
      if s.pc.next < THREADS then s.(pc := Creating(s.pc.next + 1), inboxes := s.inboxes[s.pc.next := []])
      else s.(pc := Launching(0))
    case Launch =>
      var i := s.pc.next;
      if i < WORKERS then s.(pc := Launching(i + 1), phase := s.phase[i := Starting(Services(i))])
      else if i == TIMER then s.(pc := Launching(i + 1), timer := Checking)
      else s.(pc := Serving)
    case EndServing => s.(pc := Broadcasting(s.inboxes.Keys - {TIMER}))
    case BroadcastTo(t) => s.(pc := Broadcasting(s.pc.todo - {t}), inboxes := s.inboxes[t := s.inboxes[t] + [Terminate]])
    case EndBroadcast => s.(pc := Joining(0))
    case Join => if s.pc.next < WORKERS then s.(pc := Joining(s.pc.next + 1)) else s.(pc := TellingTimer)
    case TellTimer => s.(pc := JoiningTimer, inboxes := s.inboxes[TIMER := s.inboxes[TIMER] + [Terminate]])
    case JoinTimer => s.(pc := Exiting)
    case ShutSingletons => s.(pc := Gone)
    case RegisterOne(w) =>
      s.(phase := s.phase[w := Starting(s.phase[w].left - 1)], registered := s.registered[w := s.registered[w] + 1],
         wake := if Polls(w) && s.registered[w] == 0 then s.wake[w := Timers.Started(s.wake[w])] else s.wake)
    case EnterLoop(w) => s.(phase := s.phase[w := Looking])
    case Look(w) =>
      if s.inboxes[w] == [] then s.(phase := s.phase[w := Waiting])
      else s.(inboxes := s.inboxes[w := s.inboxes[w][1..]],
              phase := s.phase[w := if s.inboxes[w][0].Terminate? then Leaving else if Polls(w) then Waiting else Looking])
    case WakeUp(w) => s.(phase := s.phase[w := Looking], ticked := s.ticked[w := false])
    case UnregisterOne(w) =>
      s.(registered := s.registered[w := s.registered[w] - 1],
         wake := if Polls(w) && s.registered[w] == Services(w) then s.wake[w := AtRest(w)] else s.wake)
    case Finish(w) =>
      s.(phase := s.phase[w := Finished], inboxes := if Polls(w) then s.inboxes else s.inboxes[w := []])
    case SendOther(_, t) => s.(inboxes := s.inboxes[t := s.inboxes[t] + [Other]])
    case TimerLook =>
      if s.inboxes[TIMER] == [] then s.(timer := Ticking)
      else s.(inboxes := s.inboxes[TIMER := s.inboxes[TIMER][1..]],
              timer := if s.inboxes[TIMER][0].Terminate? then Stopped else Ticking)
    case TimerTick(fired) =>
      s.(timer := Checking,
         wake := seq(WORKERS, w requires 0 <= w < WORKERS => Timers.Ticked(s.wake[w])),
         ticked := seq(WORKERS, w requires 0 <= w < WORKERS => s.ticked[w] || Timers.Expires(s.wake[w])),
         inboxes := map t | t in s.inboxes :: if t in fired then s.inboxes[t] + [Other] else s.inboxes[t])
  }

  // ---------------------------------------------------------------- what every step keeps

  /** Has the broadcast reached this worker? */
  predicate Told(pc: Pc, w: nat) {
    match pc
    case Creating(_) => false
    case Launching(_) => false
    case Serving => false
    case Broadcasting(todo) => w !in todo
    case _ => true
  }

  predicate TimerTold(pc: Pc) { pc.JoiningTimer? || pc.Exiting? || pc.Gone? }

  predicate HasLeft(p: Phase) { p.Leaving? || p.Finished? }

  /** How far the launch has come. */
  predicate Launched(pc: Pc, t: nat) {
    match pc
    case Creating(_) => false
    case Launching(next) => t < next
    case _ => true
  }

  ghost predicate InboxesReady(s: Sys) {
    match s.pc
    case Creating(next) => next <= THREADS && forall t: nat :: t in s.inboxes <==> t < next
    case _ => forall t: nat :: t in s.inboxes <==> t < THREADS
  }

  /** Is the service that the worker waits for registered? */
  predicate WakeRuns(s: Sys, w: nat)
    requires Shaped(s) && w < WORKERS
  {
    && Polls(w)
    && match s.phase[w]
       case Starting(_) => s.registered[w] > 0
       case Looking => true
       case Waiting => true
       case Leaving => s.registered[w] == Services(w)
       case _ => false
  }

  ghost predicate WakeInv(s: Sys, w: nat)
    requires Shaped(s) && w < WORKERS
  {
    && s.wake[w] == AtRest(w).(ticksLeft := s.wake[w].ticksLeft)
    && if WakeRuns(s, w) then 1 <= s.wake[w].ticksLeft <= WakePeriod(w) else s.wake[w].ticksLeft == 0
  }

  ghost predicate WorkerInv(s: Sys, w: nat)
    requires Shaped(s) && w < WORKERS
  {
    WakeInv(s, w) && TaskInv(s, w)
  }

  ghost predicate TaskInv(s: Sys, w: nat)
    requires Shaped(s) && w < WORKERS
  {
    && (s.phase[w].Unborn? <==> !Launched(s.pc, w))
    && (w in s.inboxes ==>
          if Told(s.pc, w) then HasLeft(s.phase[w]) || Terminate in s.inboxes[w]
          else !HasLeft(s.phase[w]) && Terminate !in s.inboxes[w])
    && (match s.phase[w]
        case Unborn => s.registered[w] == 0
        case Starting(left) => s.registered[w] + left == Services(w)
        case Looking => s.registered[w] == Services(w)
        case Waiting => Polls(w) && s.registered[w] == Services(w)
        case Leaving => s.registered[w] <= Services(w)
        case Finished => s.registered[w] == 0)
  }

  ghost predicate MainInv(s: Sys)
    requires Shaped(s)
  {
    match s.pc
    case Launching(next) => next <= THREADS
    case Broadcasting(todo) => forall t :: t in todo ==> t < WORKERS
    case Joining(next) => next <= WORKERS && forall w :: 0 <= w < next ==> s.phase[w].Finished?
    case TellingTimer => forall w :: 0 <= w < WORKERS ==> s.phase[w].Finished?
    case JoiningTimer => forall w :: 0 <= w < WORKERS ==> s.phase[w].Finished?
    case Exiting => s.timer.Stopped? && forall w :: 0 <= w < WORKERS ==> s.phase[w].Finished?
    case Gone => s.timer.Stopped? && forall w :: 0 <= w < WORKERS ==> s.phase[w].Finished?
    case _ => true
  }

  ghost predicate TimerInv(s: Sys) {
    && (s.timer.NotYet? <==> !Launched(s.pc, TIMER))
    && (TIMER in s.inboxes ==>
          if TimerTold(s.pc) then s.timer.Stopped? || Terminate in s.inboxes[TIMER]
          else !s.timer.Stopped? && Terminate !in s.inboxes[TIMER])
  }

  ghost predicate Inv(s: Sys) {
    && Shaped(s) && InboxesReady(s) && MainInv(s) && TimerInv(s)
    && forall w :: 0 <= w < WORKERS ==> WorkerInv(s, w)
  }

  lemma InitInv()
    ensures Inv(INIT)
  {
  }

  predicate WorkerStep(step: Step, w: nat) {
    step == RegisterOne(w) || step == EnterLoop(w) || step == Look(w) || step == WakeUp(w) || step == UnregisterOne(w) || step == Finish(w)
  }

  lemma OwnStepKeeps(s: Sys, step: Step, w: nat)
    requires Inv(s) && Enabled(s, step) && w < WORKERS && WorkerStep(step, w)
    ensures WorkerInv(Next(s, step), w)
  {
    assert WorkerInv(s, w);
  }

  lemma OtherStepKeepsWake(s: Sys, step: Step, w: nat)
    requires Inv(s) && Enabled(s, step) && w < WORKERS && !WorkerStep(step, w)
    ensures WakeInv(Next(s, step), w)
  {
    assert WorkerInv(s, w);
  }

  /** A step of the main thread. */
  predicate ByMain(step: Step) {
    || step.CreateInbox? || step.Launch? || step.EndServing? || step.BroadcastTo? || step.EndBroadcast?
    || step.Join? || step.TellTimer? || step.JoinTimer? || step.ShutSingletons?
  }

  lemma MainStepKeepsTask(s: Sys, step: Step, w: nat)
    requires Inv(s) && Enabled(s, step) && w < WORKERS && ByMain(step)
    ensures TaskInv(Next(s, step), w)
  {
    hide WakeInv, TimerInv;
    assert WorkerInv(s, w);
  }

  lemma PeerStepKeepsTask(s: Sys, step: Step, w: nat)
    requires Inv(s) && Enabled(s, step) && w < WORKERS && !WorkerStep(step, w) && !ByMain(step)
    ensures TaskInv(Next(s, step), w)
  {
    hide WakeInv, TimerInv, MainInv;
    assert WorkerInv(s, w);
  }

  lemma StepKeepsWorker(s: Sys, step: Step, w: nat)
    requires Inv(s) && Enabled(s, step) && w < WORKERS
    ensures WorkerInv(Next(s, step), w)
  {
    hide Next, Enabled, WakeInv, TaskInv, WorkerStep, ByMain;
    if WorkerStep(step, w) {
      OwnStepKeeps(s, step, w);
    } else {
      OtherStepKeepsWake(s, step, w);
      if ByMain(step) {
        MainStepKeepsTask(s, step, w);
      } else {
        PeerStepKeepsTask(s, step, w);
      }
    }
  }

  lemma StepKeepsMain(s: Sys, step: Step)
    requires Inv(s) && Enabled(s, step)
    ensures MainInv(Next(s, step))
  {
    hide WorkerInv;
  }

  lemma StepKeepsInboxes(s: Sys, step: Step)
    requires Inv(s) && Enabled(s, step)
    ensures InboxesReady(Next(s, step))
  {
    hide WorkerInv, TimerInv;
    if !step.CreateInbox? {
      InboxesStay(s, step);
    }
  }

  /** Only the main thread makes inboxes, and it makes them first. */
  lemma InboxesStay(s: Sys, step: Step)
    requires Shaped(s) && Enabled(s, step) && !step.CreateInbox?
    ensures Next(s, step).inboxes.Keys == s.inboxes.Keys
    ensures Next(s, step).pc.Creating? ==> Next(s, step).pc == s.pc
  {
  }

  lemma StepKeepsTimer(s: Sys, step: Step)
    requires Inv(s) && Enabled(s, step)
    ensures TimerInv(Next(s, step))
  {
  }

  lemma StepInv(s: Sys, step: Step)
    requires Inv(s) && Enabled(s, step)
    ensures Inv(Next(s, step))
  {
    StepKeepsMain(s, step);
    StepKeepsInboxes(s, step);
    StepKeepsTimer(s, step);
    forall w | 0 <= w < WORKERS
      ensures WorkerInv(Next(s, step), w)
    {
      StepKeepsWorker(s, step, w);
    }
  }

  // ---------------------------------------------------------------- whole runs

  predicate Legal(s: Sys, steps: seq<Step>)
    requires Shaped(s)
    decreases steps
  {
    steps == [] || (Enabled(s, steps[0]) && Legal(Next(s, steps[0]), steps[1..]))
  }

  function After(s: Sys, steps: seq<Step>): (r: Sys)
    requires Shaped(s) && Legal(s, steps)
    ensures Shaped(r)
    decreases steps
  {
    if steps == [] then s else After(Next(s, steps[0]), steps[1..])
  }

  lemma {:induction false} RunInv(s: Sys, steps: seq<Step>)
    requires Inv(s) && Legal(s, steps)
    ensures Inv(After(s, steps))
    decreases steps
  {
    if steps != [] {
      StepInv(s, steps[0]);
      RunInv(Next(s, steps[0]), steps[1..]);
    }
  }

  /** Safety of the shutdown, in every run. Once the broadcast is over, every worker has
      left or has Terminate in its inbox. The timer thread stops only after all workers
      have been joined, and by then none of their timer services is registered. When the
      singletons are shut down, no thread is left. */
  lemma ShutdownIsOrdered(steps: seq<Step>)
    requires Legal(INIT, steps)
    ensures var s := After(INIT, steps);
            && (s.pc.Joining? ==> forall w :: 0 <= w < WORKERS ==> HasLeft(s.phase[w]) || (w in s.inboxes && Terminate in s.inboxes[w]))
            && (s.timer.Stopped? ==> TimerTold(s.pc) && forall w :: 0 <= w < WORKERS ==> s.phase[w].Finished? && s.registered[w] == 0)
            && (s.pc.Exiting? || s.pc.Gone? ==> s.timer.Stopped? && forall w :: 0 <= w < WORKERS ==> s.phase[w].Finished?)
  {
    InitInv();
    RunInv(INIT, steps);
    var s := After(INIT, steps);
    forall w | 0 <= w < WORKERS
      ensures s.pc.Joining? ==> HasLeft(s.phase[w]) || (w in s.inboxes && Terminate in s.inboxes[w])
      ensures s.timer.Stopped? ==> s.phase[w].Finished? && s.registered[w] == 0
    {
      assert WorkerInv(s, w);
    }
  }

  // ---------------------------------------------------------------- progress

  /** Where the first Terminate stands in a queue; its length if there is none. */
  function Place(q: seq<Msg>): nat {
    if q == [] || q[0].Terminate? then 0 else 1 + Place(q[1..])
  }

  lemma {:induction false} PlaceStands(q: seq<Msg>, m: Msg)
    requires Terminate in q
    ensures Place(q + [m]) == Place(q) && Terminate in q + [m]
  {
    if !q[0].Terminate? {
      assert (q + [m])[1..] == q[1..] + [m];
      PlaceStands(q[1..], m);
    }
  }

  /** Steps still to come from a worker that has been told, ticks not counted. */
  function WorkLeft(s: Sys, w: nat): nat
    requires Shaped(s) && w < WORKERS
  {
    var place := if w in s.inboxes then Place(s.inboxes[w]) else 0;
    match s.phase[w]
    case Unborn => 0
    case Starting(left) => left + 2 * place + 4 + Services(w)
    case Looking => 2 * place + 2 + Services(w)
    case Waiting => 2 * place + 3 + Services(w)
    case Leaving => s.registered[w] + 1
    case Finished => 0
  }

  function WorkOfAll(s: Sys, n: nat): nat
    requires Shaped(s) && n <= WORKERS
  {
    if n == 0 then 0 else WorkOfAll(s, n - 1) + WorkLeft(s, n - 1)
  }

  /** Steps that the timer thread may still take once it is told. Until then every message
      in its inbox counts, since Terminate will stand behind it. */
  function TimerLeft(s: Sys): nat {
    if s.timer.Stopped? || TIMER !in s.inboxes then 0
    else if TimerTold(s.pc) then 2 * Place(s.inboxes[TIMER]) + (if s.timer.Ticking? then 2 else 1)
    else 2 * |s.inboxes[TIMER]| + 2
  }

  /** How far the main thread is from the end. */
  function MainLeft(pc: Pc): nat {
    match pc
    case Joining(next) => if next <= WORKERS then 11 - next else 0
    case TellingTimer => 4
    case JoiningTimer => 3
    case Exiting => 2
    case Gone => 1
    case _ => 0
  }

  predicate ShuttingDown(pc: Pc) {
    pc.Joining? || pc.TellingTimer? || pc.JoiningTimer? || pc.Exiting? || pc.Gone?
  }

  /** Steps of the main thread and of the workers, and those of the timer thread once it
      has been told. The others are the environment: ticks, and messages between threads. */
  predicate Progresses(s: Sys, step: Step) {
    match step
    case SendOther(_, _) => false
    case TimerLook => TimerTold(s.pc)
    case TimerTick(_) => TimerTold(s.pc)
    case _ => true
  }

  lemma {:induction false} SumStays(a: Sys, b: Sys, n: nat)
    requires Shaped(a) && Shaped(b) && n <= WORKERS
    requires forall w :: 0 <= w < n ==> WorkLeft(a, w) == WorkLeft(b, w)
    ensures WorkOfAll(a, n) == WorkOfAll(b, n)
  {
    if n > 0 {
      SumStays(a, b, n - 1);
    }
  }

  lemma {:induction false} SumDrops(a: Sys, b: Sys, n: nat, w: nat)
    requires Shaped(a) && Shaped(b) && w < n <= WORKERS
    requires forall v :: 0 <= v < n && v != w ==> WorkLeft(a, v) == WorkLeft(b, v)
    requires WorkLeft(b, w) < WorkLeft(a, w)
    ensures WorkOfAll(b, n) < WorkOfAll(a, n)
  {
    if w < n - 1 {
      SumDrops(a, b, n - 1, w);
    } else {
      SumStays(a, b, n - 1);
    }
  }

  lemma OwnStepLowers(s: Sys, step: Step, w: nat)
    requires Inv(s) && ShuttingDown(s.pc) && Enabled(s, step) && w < WORKERS && WorkerStep(step, w)
    ensures WorkLeft(Next(s, step), w) < WorkLeft(s, w)
  {
    assert WorkerInv(s, w);
  }

  lemma OthersOnlyAppend(s: Sys, step: Step, w: nat)
    requires Inv(s) && ShuttingDown(s.pc) && Enabled(s, step) && w < WORKERS && !WorkerStep(step, w)
    ensures var s' := Next(s, step);
            && s'.phase[w] == s.phase[w] && s'.registered[w] == s.registered[w]
            && w in s.inboxes && w in s'.inboxes
            && (s'.inboxes[w] == s.inboxes[w] || s'.inboxes[w] == s.inboxes[w] + [Other])
  {
  }

  /** The place of Terminate is a strictly decreasing measure of a worker's loop: each of
      its own steps lowers what it has left, and no other step touches that. */
  lemma WorkerMeasure(s: Sys, step: Step, w: nat)
    requires Inv(s) && ShuttingDown(s.pc) && Enabled(s, step) && w < WORKERS
    ensures WorkerStep(step, w) ==> WorkLeft(Next(s, step), w) < WorkLeft(s, w)
    ensures !WorkerStep(step, w) ==> WorkLeft(Next(s, step), w) == WorkLeft(s, w)
  {
    hide Next, Enabled, Place;
    if WorkerStep(step, w) {
      OwnStepLowers(s, step, w);
    } else {
      OthersOnlyAppend(s, step, w);
      assert WorkerInv(s, w);
      if Terminate in s.inboxes[w] {
        PlaceStands(s.inboxes[w], Other);
      }
    }
  }

  lemma {:induction false} PlaceInside(q: seq<Msg>)
    requires Terminate in q
    ensures Place(q) < |q|
  {
    if !q[0].Terminate? {
      PlaceInside(q[1..]);
    }
  }

  /** A message to the timer thread. */
  predicate TellsTimer(step: Step) { step.SendOther? && step.t == TIMER }

  /** Once it is told, each turn of the timer thread lowers what it has left. Before that
      only a message to it can raise that. */
  lemma TimerMeasure(s: Sys, step: Step)
    requires Inv(s) && ShuttingDown(s.pc) && Enabled(s, step)
    ensures TimerTold(s.pc) && (step.TimerLook? || step.TimerTick?) ==> TimerLeft(Next(s, step)) < TimerLeft(s)
    ensures TimerLeft(Next(s, step)) <= TimerLeft(s) + if TellsTimer(step) then 2 else 0
  {
    if Terminate in s.inboxes[TIMER] {
      PlaceStands(s.inboxes[TIMER], Other);
    }
    if step.TellTimer? {
      PlaceInside(s.inboxes[TIMER] + [Terminate]);
    }
  }

  predicate MainStep(step: Step) {
    step.Join? || step.TellTimer? || step.JoinTimer? || step.ShutSingletons?
  }

  lemma MainMeasure(s: Sys, step: Step)
    requires Inv(s) && ShuttingDown(s.pc) && Enabled(s, step)
    ensures var s' := Next(s, step);
            && ShuttingDown(s'.pc)
            && (if MainStep(step) then MainLeft(s'.pc) < MainLeft(s.pc) else s'.pc == s.pc)
            && (MainStep(step) ==> Progresses(s, step))
  {
  }

  /** What is left of the shutdown. */
  function Potential(s: Sys): nat
    requires Shaped(s)
  {
    MainLeft(s.pc) + WorkOfAll(s, WORKERS) + TimerLeft(s)
  }

  lemma WorkersMeasure(s: Sys, step: Step)
    requires Inv(s) && ShuttingDown(s.pc) && Enabled(s, step)
    ensures var s' := Next(s, step);
            && WorkOfAll(s', WORKERS) <= WorkOfAll(s, WORKERS)
            && (Progresses(s, step) && !MainStep(step) && !step.TimerLook? && !step.TimerTick? ==>
                  WorkOfAll(s', WORKERS) < WorkOfAll(s, WORKERS))
  {
    hide Next, WorkLeft, MainLeft;
    var s' := Next(s, step);
    forall w | 0 <= w < WORKERS
      ensures WorkerStep(step, w) ==> WorkLeft(s', w) < WorkLeft(s, w)
      ensures !WorkerStep(step, w) ==> WorkLeft(s', w) == WorkLeft(s, w)
    {
      WorkerMeasure(s, step, w);
    }
    match step {
      case RegisterOne(w) => SumDrops(s, s', WORKERS, w);
      case EnterLoop(w) => SumDrops(s, s', WORKERS, w);
      case Look(w) => SumDrops(s, s', WORKERS, w);
      case WakeUp(w) => SumDrops(s, s', WORKERS, w);
      case UnregisterOne(w) => SumDrops(s, s', WORKERS, w);
      case Finish(w) => SumDrops(s, s', WORKERS, w);
      case _ => SumStays(s, s', WORKERS);
    }
  }

  /** A progress step brings the end nearer; another step takes it no further away, except
      that a message to the timer thread costs two of its turns. */
  lemma ProgressLowers(s: Sys, step: Step)
    requires Inv(s) && ShuttingDown(s.pc) && Enabled(s, step)
    ensures var s' := Next(s, step);
            && ShuttingDown(s'.pc)
            && Potential(s') <= Potential(s) + (if TellsTimer(step) then 2 else 0)
            && (Progresses(s, step) ==> Potential(s') < Potential(s))
  {
    hide Next, WorkOfAll, TimerLeft, MainLeft, ShuttingDown;
    MainMeasure(s, step);
    WorkersMeasure(s, step);
    TimerMeasure(s, step);
  }

  function ProgressIn(s: Sys, steps: seq<Step>): nat
    requires Shaped(s) && Legal(s, steps)
    decreases steps
  {
    if steps == [] then 0
    else (if Progresses(s, steps[0]) then 1 else 0) + ProgressIn(Next(s, steps[0]), steps[1..])
  }

  function MessagesToTimer(steps: seq<Step>): nat {
    if steps == [] then 0 else (if TellsTimer(steps[0]) then 1 else 0) + MessagesToTimer(steps[1..])
  }

  /** Every run of the shutdown, however the threads interleave, has at most as many
      progress steps as were left at its start, and two for each message that the timer
      thread has been sent meanwhile. */
  lemma {:induction false} ProgressIsBounded(s: Sys, steps: seq<Step>)
    requires Inv(s) && ShuttingDown(s.pc) && Legal(s, steps)
    ensures var after := After(s, steps);
            && Inv(after) && ShuttingDown(after.pc)
            && ProgressIn(s, steps) + Potential(after) <= Potential(s) + 2 * MessagesToTimer(steps)
    decreases steps
  {
    if steps != [] {
      hide Next, Enabled, Potential, Inv, ShuttingDown, Progresses;
      StepInv(s, steps[0]);
      ProgressLowers(s, steps[0]);
      ProgressIsBounded(Next(s, steps[0]), steps[1..]);
    }
  }

  lemma {:induction false} PlaceWithin(q: seq<Msg>)
    ensures Place(q) <= |q|
  {
    if q != [] {
      PlaceWithin(q[1..]);
    }
  }

  lemma WorkBound(s: Sys, w: nat)
    requires Inv(s) && ShuttingDown(s.pc) && w < 6
    ensures w in s.inboxes && WorkLeft(s, w) <= 2 * |s.inboxes[w]| + 4 + 2 * Services(w)
  {
    hide Services, WakeInv, MainInv, TimerInv;
    assert WorkerInv(s, w);
    PlaceWithin(s.inboxes[w]);
  }

  lemma TimerBound(s: Sys)
    requires Inv(s) && ShuttingDown(s.pc)
    ensures 6 in s.inboxes && TimerLeft(s) <= 2 * |s.inboxes[6]| + 2
  {
    hide WorkerInv, MainInv;
    PlaceWithin(s.inboxes[6]);
  }

  lemma SixWorkers(s: Sys)
    requires Shaped(s)
    ensures WorkOfAll(s, 6) == WorkLeft(s, 0) + WorkLeft(s, 1) + WorkLeft(s, 2) + WorkLeft(s, 3) + WorkLeft(s, 4) + WorkLeft(s, 5)
  {
    hide WorkLeft;
    assert WorkOfAll(s, 1) == WorkLeft(s, 0);
    assert WorkOfAll(s, 2) == WorkOfAll(s, 1) + WorkLeft(s, 1) && WorkOfAll(s, 3) == WorkOfAll(s, 2) + WorkLeft(s, 2);
    assert WorkOfAll(s, 4) == WorkOfAll(s, 3) + WorkLeft(s, 3) && WorkOfAll(s, 5) == WorkOfAll(s, 4) + WorkLeft(s, 4);
  }

  /** What is left of a shutdown is at most 77 steps, and two for each message that waits in
      one of the seven inboxes. */
  lemma PotentialBound(s: Sys)
    requires Inv(s) && ShuttingDown(s.pc)
    ensures forall t :: 0 <= t < 7 ==> t in s.inboxes
    ensures Potential(s) <= 77 + 2 * (|s.inboxes[0]| + |s.inboxes[1]| + |s.inboxes[2]| + |s.inboxes[3]| +
                                      |s.inboxes[4]| + |s.inboxes[5]| + |s.inboxes[6]|)
  {
    assert Shaped(s);
    hide Inv, WorkLeft, WorkOfAll, TimerLeft;
    forall w | 0 <= w < 6
      ensures w in s.inboxes && WorkLeft(s, w) <= 2 * |s.inboxes[w]| + 4 + 2 * Services(w)
    {
      WorkBound(s, w);
    }
    TimerBound(s);
    SixWorkers(s);
    assert Services(0) + Services(1) + Services(2) + Services(3) + Services(4) + Services(5) == 20;
  }

  /** So no run of the shutdown has more progress steps than that, and two for each message
      that the timer thread is sent in the run. */
  lemma StepsToEnd(s: Sys, steps: seq<Step>)
    requires Inv(s) && ShuttingDown(s.pc) && Legal(s, steps)
    ensures forall t :: 0 <= t < 7 ==> t in s.inboxes
    ensures ProgressIn(s, steps) <= 77 + 2 * MessagesToTimer(steps) +
              2 * (|s.inboxes[0]| + |s.inboxes[1]| + |s.inboxes[2]| + |s.inboxes[3]| + |s.inboxes[4]| + |s.inboxes[5]| + |s.inboxes[6]|)
  {
    hide Inv, Potential, ShuttingDown;
    PotentialBound(s);
    ProgressIsBounded(s, steps);
  }

  /** What the worker that is being joined can do next, if it need not wait for a tick. */
  lemma WorkerMoves(s: Sys, w: nat) returns (step: Step)
    requires Inv(s) && s.pc == Joining(w) && w < WORKERS
    requires s.phase[w].Waiting? ==> s.ticked[w]
    ensures Enabled(s, step) && Progresses(s, step)
  {
    assert WorkerInv(s, w);
    match s.phase[w] {
      case Starting(left) => step := if left > 0 then RegisterOne(w) else EnterLoop(w);
      case Looking => step := Look(w);
      case Waiting => step := WakeUp(w);
      case Leaving => step := if s.registered[w] > 0 then UnregisterOne(w) else Finish(w);
      case Finished => step := Join;
    }
  }

  /** How many turns of the timer thread there are in a run. */
  function Turns(steps: seq<Step>): nat {
    if steps == [] then 0 else (if steps[0].TimerTick? then 1 else 0) + Turns(steps[1..])
  }

  /** In every run in which a waiting worker goes on waiting, its flag is up from the turn
      on at which its service expires and not before. */
  lemma {:induction false} WakesOnTime(s: Sys, steps: seq<Step>, w: nat)
    requires Inv(s) && Legal(s, steps) && w < WORKERS && s.phase[w].Waiting? && WakeUp(w) !in steps
    ensures var after := After(s, steps);
            && after.phase[w].Waiting?
            && (after.ticked[w] <==> s.ticked[w] || Turns(steps) >= s.wake[w].ticksLeft)
    ensures 1 <= s.wake[w].ticksLeft <= WakePeriod(w)
    decreases steps
  {
    assert WorkerInv(s, w);
    if steps != [] {
      WaitingStep(s, steps[0], w);
      WakesOnTime(Next(s, steps[0]), steps[1..], w);
    }
  }

  /** So whatever the other threads do, and however they interleave, once the timer thread
      has made as many turns as the worker's period the worker can go on. */
  lemma WakesWithinPeriod(s: Sys, env: seq<Step>, w: nat)
    requires Inv(s) && Legal(s, env) && w < WORKERS && s.phase[w].Waiting?
    requires WakeUp(w) !in env && Turns(env) >= WakePeriod(w)
    ensures Enabled(After(s, env), WakeUp(w))
  {
    hide Next, Inv, Legal;
    WakesOnTime(s, env, w);
  }

  lemma WaitingStep(s: Sys, step: Step, w: nat)
    requires Inv(s) && Enabled(s, step) && w < WORKERS && s.phase[w].Waiting? && step != WakeUp(w)
    ensures var s' := Next(s, step);
            && Inv(s') && s'.phase[w].Waiting?
            && s'.wake[w] == (if step.TimerTick? then Timers.Ticked(s.wake[w]) else s.wake[w])
            && s'.ticked[w] == (s.ticked[w] || (step.TimerTick? && Timers.Expires(s.wake[w])))
  {
    StepInv(s, step);
    assert WorkerInv(s, w);
  }

  predicate TimerOnly(steps: seq<Step>) {
    forall k :: 0 <= k < |steps| ==> steps[k].TimerLook? || steps[k].TimerTick?
  }

  /** The timer thread, which outlives the worker, wakes it within its period. */
  lemma {:induction false} TimerWakes(s: Sys, w: nat) returns (env: seq<Step>)
    requires Inv(s) && s.pc == Joining(w) && w < WORKERS && s.phase[w].Waiting?
    ensures |env| <= 2 * s.wake[w].ticksLeft && Legal(s, env) && TimerOnly(env)
    ensures var s' := After(s, env); Inv(s') && s'.pc == s.pc && s'.phase[w].Waiting? && s'.ticked[w]
    decreases s.wake[w].ticksLeft
  {
    assert WorkerInv(s, w);
    var looked, front := LookFirst(s, w);
    var turned := Next(looked, TimerTick({}));
    WaitingStep(looked, TimerTick({}), w);
    var rest: seq<Step> := [];
    if !turned.ticked[w] {
      rest := TimerWakes(turned, w);
    }
    StepThenRun(looked, TimerTick({}), rest);
    env := [TimerTick({})] + rest;
    if front != [] {
      StepThenRun(s, TimerLook, env);
      env := [TimerLook] + env;
    }
  }

  lemma StepThenRun(s: Sys, step: Step, rest: seq<Step>)
    requires Shaped(s) && Enabled(s, step) && Legal(Next(s, step), rest)
    ensures Legal(s, [step] + rest) && After(s, [step] + rest) == After(Next(s, step), rest)
  {
    assert ([step] + rest)[1..] == rest;
  }

  lemma LookFirst(s: Sys, w: nat) returns (looked: Sys, front: seq<Step>)
    requires Inv(s) && s.pc == Joining(w) && w < WORKERS && s.phase[w].Waiting?
    ensures Inv(looked) && looked.pc == s.pc && looked.phase[w].Waiting? && looked.timer.Ticking?
    ensures looked.wake[w] == s.wake[w]
    ensures if s.timer.Checking? then front == [TimerLook] && Enabled(s, TimerLook) && looked == Next(s, TimerLook)
            else front == [] && looked == s
  {
    assert WorkerInv(s, w);
    if s.timer.Checking? {
      front, looked := [TimerLook], Next(s, TimerLook);
      WaitingStep(s, TimerLook, w);
    } else {
      front, looked := [], s;
    }
  }

  /** No deadlock: from every state of the shutdown short of its end, a progress step can
      be taken at once, or, if the worker being joined waits, after the timer turns that
      its period takes. */
  lemma NeverStuck(s: Sys) returns (env: seq<Step>, step: Step)
    requires Inv(s) && ShuttingDown(s.pc) && !s.pc.Gone?
    ensures |env| <= (if s.pc.Joining? && s.pc.next < WORKERS then 2 * WakePeriod(s.pc.next) else 0)
    ensures Legal(s, env) && TimerOnly(env)
    ensures Enabled(After(s, env), step) && Progresses(After(s, env), step)
  {
    env := [];
    if s.pc.Joining? && s.pc.next < WORKERS {
      var w := s.pc.next;
      assert WorkerInv(s, w);
      if s.phase[w].Waiting? && !s.ticked[w] {
        env := TimerWakes(s, w);
      }
      step := WorkerMoves(After(s, env), w);
    } else if s.pc.JoiningTimer? {
      step := if s.timer.Stopped? then JoinTimer else if s.timer.Checking? then TimerLook else TimerTick({});
    } else {
      step := if s.pc.Joining? then Join else if s.pc.TellingTimer? then TellTimer else ShutSingletons;
    }
  }

  lemma {:induction false} RunThenRun(s: Sys, a: seq<Step>, b: seq<Step>)
    requires Shaped(s) && Legal(s, a) && Legal(After(s, a), b)
    ensures Legal(s, a + b) && After(s, a + b) == After(After(s, a), b)
    decreases a
  {
    hide Next, Enabled;
    if a == [] {
      assert a + b == b;
    } else {
      RunThenRun(Next(s, a[0]), a[1..], b);
      assert a + b == [a[0]] + (a[1..] + b);
      StepThenRun(s, a[0], a[1..] + b);
    }
  }

  lemma {:induction false} TimerSendsNothing(steps: seq<Step>)
    requires TimerOnly(steps)
    ensures MessagesToTimer(steps) == 0
  {
    if steps != [] {
      TimerSendsNothing(steps[1..]);
    }
  }

  /** The longest that a worker waits, looks at the inbox of the timer thread included. */
  const LONGEST: nat := 2 * 84

  /** From every state of the shutdown the process can come to its end, without help from
      outside, in as many steps as the progress left allows for. */
  lemma {:induction false} CanFinish(s: Sys) returns (run: seq<Step>)
    requires Inv(s) && ShuttingDown(s.pc)
    ensures Legal(s, run) && After(s, run).pc.Gone?
    ensures |run| <= Potential(s) * (LONGEST + 1)
    decreases Potential(s)
  {
    hide Next, Enabled, Progresses, Potential, WorkerInv, MainInv, TimerInv, InboxesReady;
    run := [];
    if !s.pc.Gone? {
      var env, step := NeverStuck(s);
      TimerSendsNothing(env);
      ProgressIsBounded(s, env);
      var ready := After(s, env);
      StepInv(ready, step);
      ProgressLowers(ready, step);
      var rest := CanFinish(Next(ready, step));
      StepThenRun(ready, step, rest);
      RunThenRun(s, env, [step] + rest);
      run := env + ([step] + rest);
    }
  }
}
