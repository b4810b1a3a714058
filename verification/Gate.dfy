/**
 * controller/src/runtime.rs: the leadership admission gate. Each atomic load, store, addition and
 * notification is a step of its own; threads interleave freely under sequential consistency.
 */
module GateMachine {

  type Tid = nat

  /** Where a thread stands inside `try_enter`, `leave`, `stop_accepting` or `drain`. */
  datatype Pc =
    | Idle
    | EnterSeen                 // the first load said accepting
    | EnterCounted              // `active` was raised, the second load is next
    | Holding                   // a work permit
    | Leaving                   // `active` is about to be lowered
    | LeftLast                  // lowered it to zero, about to load `accepting`
    | StopStored                // stored false, about to load `active`
    | NotifyWaiters
    | NotifyOne
    | DrainLoad                 // about to load `active`
    | DrainSaw                  // saw work, about to make the notification future
    | DrainArmed(hit: bool)     // made it; `hit` once a notify_waiters came
    | DrainParked               // queued and waiting

  /** Threads not in the map are idle. */
  datatype Gate = Gate(accepting: bool, active: nat, token: bool, pcs: map<Tid, Pc>)

  function At(g: Gate, t: Tid): Pc {
    if t in g.pcs then g.pcs[t] else Idle
  }

  function Move(g: Gate, t: Tid, pc: Pc): Gate {
    g.(pcs := g.pcs[t := pc])
  }

  datatype Choice = Start | Stop | Enter | Drain | Drop | Go(wake: Tid)

  predicate Parked(g: Gate, t: Tid) {
    At(g, t) == DrainParked
  }

  function WakeAll(pcs: map<Tid, Pc>): map<Tid, Pc> {
    map t | t in pcs :: if pcs[t] == DrainParked then DrainLoad
                        else if pcs[t].DrainArmed? then DrainArmed(true) else pcs[t]
  }

  /** What an idle thread, or one with a permit, may start; `Go` carries on with what is under way. */
  ghost predicate Enabled(drainers: set<Tid>, g: Gate, t: Tid, c: Choice) {
    match c
    case Drain => At(g, t) == Idle && t in drainers
    case Drop => At(g, t) == Holding
    case Go(wake) =>
      && At(g, t) != Idle && At(g, t) != Holding && At(g, t) != DrainParked
      && (At(g, t) == NotifyOne && (exists u :: Parked(g, u)) ==> Parked(g, wake))
    case _ => At(g, t) == Idle
  }

  const USIZE_MAX: nat := 0xFFFF_FFFF_FFFF_FFFF

  function Proceed(g: Gate, t: Tid, wake: Tid): Gate {
    match At(g, t)
    case EnterSeen => Move(g.(active := g.active + 1), t, EnterCounted)
    case EnterCounted => Move(g, t, if g.accepting then Holding else Leaving)
    case Leaving =>
      Move(g.(active := if g.active == 0 then USIZE_MAX else g.active - 1), t, if g.active == 1 then LeftLast else Idle)
    case LeftLast => Move(g, t, if g.accepting then Idle else NotifyWaiters)
    case StopStored => Move(g, t, if g.active == 0 then NotifyWaiters else Idle)
    case NotifyWaiters => Move(g.(pcs := WakeAll(g.pcs)), t, NotifyOne)
    case NotifyOne =>
      if Parked(g, wake) then Move(Move(g, wake, DrainLoad), t, Idle) else Move(g.(token := true), t, Idle)
    case DrainLoad => Move(g, t, if g.active == 0 then Idle else DrainSaw)
    case DrainSaw => Move(g, t, DrainArmed(false))
    case DrainArmed(hit) =>
      if g.token then Move(g.(token := false), t, DrainLoad) else Move(g, t, if hit then DrainLoad else DrainParked)
    case _ => g
  }

  function Next(g: Gate, t: Tid, c: Choice): Gate {
    match c
    case Start => g.(accepting := true)
    case Stop => Move(g.(accepting := false), t, StopStored)
    case Enter => if g.accepting then Move(g, t, EnterSeen) else g
    case Drain => Move(g, t, DrainLoad)
    case Drop => Move(g, t, Leaving)
    case Go(wake) => Proceed(g, t, wake)
  }

  /** The gate as constructed, with every thread outside. */
  ghost predicate Fresh(g: Gate) {
    !g.accepting && g.active == 0 && !g.token && forall t :: At(g, t) == Idle
  }

  datatype Event = Event(t: Tid, c: Choice)

  ghost predicate Run(drainers: set<Tid>, run: seq<Gate>, events: seq<Event>) {
    && |run| == |events| + 1 && Fresh(run[0])
    && forall i :: 0 <= i < |events| ==>
         && Enabled(drainers, run[i], events[i].t, events[i].c)
         && run[i + 1] == Next(run[i], events[i].t, events[i].c)
  }

  // ---- `active` counts the threads between its two changes --------------------------------

  predicate Counted(pc: Pc) {
    pc == EnterCounted || pc == Holding || pc == Leaving
  }

  function Inside(g: Gate): set<Tid> {
    set t | t in g.pcs && Counted(g.pcs[t])
  }

  ghost predicate Balanced(g: Gate) {
    g.active == |Inside(g)|
  }

  function One(pc: Pc): nat {
    if Counted(pc) then 1 else 0
  }

  predicate Draining(pc: Pc) {
    pc == DrainLoad || pc == DrainSaw || pc.DrainArmed? || pc == DrainParked
  }

  lemma IdleOutside()
    ensures !Counted(Idle)
  {
  }

  lemma Without(s: set<Tid>, t: Tid)
    ensures |s| == |s - {t}| + (if t in s then 1 else 0)
  {
    if t !in s {
      assert s - {t} == s;
    }
  }

  lemma MoveInside(g: Gate, t: Tid, pc: Pc)
    ensures |Inside(Move(g, t, pc))| + One(At(g, t)) == |Inside(g)| + One(pc)
  {
    hide Counted;
    var before, after := Inside(g), Inside(Move(g, t, pc));
    forall u ensures u in before - {t} <==> u in after - {t} {
    }
    assert before - {t} == after - {t};
    IdleOutside();
    assert (t in before <==> Counted(At(g, t))) && (t in after <==> Counted(pc));
    hide Inside;
    Without(before, t);
    Without(after, t);
  }

  lemma WakeInside(g: Gate)
    ensures Inside(g.(pcs := WakeAll(g.pcs))) == Inside(g)
  {
  }

  /** The counter never underflows: every subtraction follows an addition by the same thread. */
  lemma StepBalanced(drainers: set<Tid>, g: Gate, t: Tid, c: Choice)
    requires Balanced(g) && Enabled(drainers, g, t, c)
    ensures Balanced(Next(g, t, c)) && (At(g, t) == Leaving ==> g.active > 0)
  {
    var pc, h := At(g, t), Next(g, t, c);
    MoveInside(g, t, pc);
    MoveInside(g, t, At(h, t));
    hide Inside;
    if c.Go? && pc == NotifyWaiters {
      WakeInside(g);
      MoveInside(g.(pcs := WakeAll(g.pcs)), t, NotifyOne);
    } else if c.Go? && pc == NotifyOne && Parked(g, c.wake) {
      MoveInside(g, c.wake, DrainLoad);
      MoveInside(Move(g, c.wake, DrainLoad), t, Idle);
    } else {
      InsideOnlyPlaces(h, Move(g, t, At(h, t)));
      InsideOnlyPlaces(h, g);
    }
  }

  lemma InsideOnlyPlaces(g: Gate, h: Gate)
    ensures g.pcs == h.pcs ==> Inside(g) == Inside(h)
  {
  }

  // ---- no permit after a drain -------------------------------------------------------------

  ghost predicate NoPermit(g: Gate) {
    forall t :: At(g, t) != Holding
  }

  lemma StaysWithoutPermit(drainers: set<Tid>, g: Gate, t: Tid, c: Choice)
    requires NoPermit(g) && !g.accepting && Enabled(drainers, g, t, c)
    ensures NoPermit(Next(g, t, c))
  {
    forall u ensures At(Next(g, t, c), u) != Holding {
      assert At(g, u) != Holding && At(g, t) != Holding;
    }
  }

  lemma {:induction false} RunBalanced(drainers: set<Tid>, run: seq<Gate>, events: seq<Event>, i: nat)
    requires Run(drainers, run, events) && i < |run|
    ensures Balanced(run[i])
    decreases i
  {
    if i == 0 {
      assert Inside(run[0]) == {} by {
        forall t ensures t !in Inside(run[0]) {
          assert At(run[0], t) == Idle;
        }
      }
    } else {
      RunBalanced(drainers, run, events, i - 1);
      StepBalanced(drainers, run[i - 1], events[i - 1].t, events[i - 1].c);
      assert run[i] == Next(run[i - 1], events[i - 1].t, events[i - 1].c);
    }
  }

  /** The thread was draining before the step and is outside after it. */
  ghost predicate DrainReturns(run: seq<Gate>, events: seq<Event>, i: nat)
    requires i < |events| && |run| == |events| + 1
  {
    Draining(At(run[i], events[i].t)) && At(run[i + 1], events[i].t) == Idle
  }

  /** A drain returns from its load of the counter, and from there exactly when no thread is inside. */
  lemma ReturnsExactlyWhenEmpty(drainers: set<Tid>, run: seq<Gate>, events: seq<Event>, i: nat)
    requires Run(drainers, run, events) && i < |events|
    ensures DrainReturns(run, events, i) <==>
            At(run[i], events[i].t) == DrainLoad && forall t :: !Counted(At(run[i], t))
    ensures DrainReturns(run, events, i) ==> run[i].active == 0 && run[i + 1].active == 0
  {
    RunBalanced(drainers, run, events, i);
    assert run[i + 1] == Next(run[i], events[i].t, events[i].c) && Enabled(drainers, run[i], events[i].t, events[i].c);
    IdleOutside();
    assert forall t :: t in Inside(run[i]) <==> Counted(At(run[i], t));
    if forall t :: !Counted(At(run[i], t)) {
      assert Inside(run[i]) == {};
    }
    if run[i].active == 0 {
      assert Inside(run[i]) == {};
    }
    hide Inside;
  }

  /** Once a drain has returned no permit exists, and none is granted until the gate is started again. */
  lemma {:induction false} DrainIsSafe(drainers: set<Tid>, run: seq<Gate>, events: seq<Event>, i: nat, j: nat)
    requires Run(drainers, run, events) && i < |events| && DrainReturns(run, events, i)
    requires i <= j < |run| && forall k :: i <= k <= j ==> !run[k].accepting
    ensures NoPermit(run[j])
    decreases j
  {
    if j == i {
      ReturnsExactlyWhenEmpty(drainers, run, events, i);
      assert Counted(Holding);
    } else {
      DrainIsSafe(drainers, run, events, i, j - 1);
      StaysWithoutPermit(drainers, run[j - 1], events[j - 1].t, events[j - 1].c);
      assert run[j] == Next(run[j - 1], events[j - 1].t, events[j - 1].c);
    }
  }

  // ---- no lost wake-up ---------------------------------------------------------------------

  /** A notification is on its way: some thread is between emptying the gate and notifying. */
  ghost predicate NotifierComing(g: Gate) {
    exists t :: At(g, t) == StopStored || At(g, t) == LeftLast || At(g, t) == NotifyWaiters || At(g, t) == NotifyOne
  }

  predicate Waits(pc: Pc) {
    pc == DrainSaw || pc == DrainArmed(false) || pc == DrainParked
  }

  /** Once the gate is closed, a waiting drain has a reason to wait or something that will wake it. */
  ghost predicate NoLostWakeUp(g: Gate) {
    !g.accepting ==> forall d :: Waits(At(g, d)) ==> g.active > 0 || g.token || NotifierComing(g)
  }

  ghost predicate WakeInv(drainers: set<Tid>, g: Gate) {
    && NoLostWakeUp(g)
    && (forall d :: Draining(At(g, d)) ==> d in drainers)
    && (forall d :: At(g, d) == DrainParked ==> !g.token)
  }

  /** A thread other than the mover keeps its place, unless a notification reaches it. */
  lemma OthersKeep(g: Gate, t: Tid, c: Choice, u: Tid)
    requires u != t
    ensures var pc := At(Next(g, t, c), u);
            || pc == At(g, u)
            || (At(g, u) == DrainParked && pc == DrainLoad)
            || (At(g, u).DrainArmed? && pc == DrainArmed(true))
  {
  }

  lemma SameDrainer(drainers: set<Tid>, d: Tid, e: Tid)
    requires |drainers| <= 1 && d in drainers && e in drainers
    ensures d == e
  {
    assert |drainers - {d}| == |drainers| - 1;
    assert e !in drainers - {d};
  }

  lemma StepNoLostWakeUp(drainers: set<Tid>, g: Gate, t: Tid, c: Choice)
    requires |drainers| <= 1 && Balanced(g) && WakeInv(drainers, g) && Enabled(drainers, g, t, c)
    ensures WakeInv(drainers, Next(g, t, c))
  {
    var h := Next(g, t, c);
    StepBalanced(drainers, g, t, c);
    forall d | Draining(At(h, d)) ensures d in drainers {
      if d != t {
        OthersKeep(g, t, c, d);
      }
    }
    forall d | At(h, d) == DrainParked ensures !h.token {
      ParkedWithoutToken(drainers, g, t, c, d);
    }
    forall d | Waits(At(h, d)) ensures h.accepting || h.active > 0 || h.token || NotifierComing(h) {
      WaitingHasReason(drainers, g, t, c, d);
    }
  }

  lemma ParkedWithoutToken(drainers: set<Tid>, g: Gate, t: Tid, c: Choice, d: Tid)
    requires WakeInv(drainers, g) && Enabled(drainers, g, t, c) && At(Next(g, t, c), d) == DrainParked
    ensures !Next(g, t, c).token
  {
    if d != t {
      OthersKeep(g, t, c, d);
      assert Parked(g, d);
    }
  }

  lemma WaitingHasReason(drainers: set<Tid>, g: Gate, t: Tid, c: Choice, d: Tid)
    requires |drainers| <= 1 && Balanced(g) && WakeInv(drainers, g) && Enabled(drainers, g, t, c)
    requires Waits(At(Next(g, t, c), d))
    ensures var h := Next(g, t, c); h.accepting || h.active > 0 || h.token || NotifierComing(h)
  {
    var h := Next(g, t, c);
    if d != t {
      OthersKeep(g, t, c, d);
      assert Waits(At(g, d)) && d in drainers;
      if At(g, t).DrainArmed? {
        SameDrainer(drainers, d, t);
      }
      if At(g, t) == NotifyOne && Parked(g, c.wake) {
        SameDrainer(drainers, d, c.wake);
      }
    }
    if !g.accepting && g.active == 0 && !g.token && NotifierComing(g) {
      var u :| At(g, u) == StopStored || At(g, u) == LeftLast || At(g, u) == NotifyWaiters || At(g, u) == NotifyOne;
      if u != t {
        OthersKeep(g, t, c, u);
        assert At(h, u) == At(g, u);
      } else {
        assert At(h, t) == NotifyWaiters || At(h, t) == NotifyOne || h.token || h.accepting;
      }
    }
    assert At(h, t) == StopStored || At(h, t) == LeftLast ==> NotifierComing(h);
  }

  lemma {:induction false} RunNoLostWakeUp(drainers: set<Tid>, run: seq<Gate>, events: seq<Event>, i: nat)
    requires |drainers| <= 1 && Run(drainers, run, events) && i < |run|
    ensures WakeInv(drainers, run[i])
    decreases i
  {
    if i > 0 {
      RunNoLostWakeUp(drainers, run, events, i - 1);
      RunBalanced(drainers, run, events, i - 1);
      StepNoLostWakeUp(drainers, run[i - 1], events[i - 1].t, events[i - 1].c);
      assert run[i] == Next(run[i - 1], events[i - 1].t, events[i - 1].c);
    }
  }

  /** The state after `n` further steps of thread `t` alone. */
  function Alone(g: Gate, t: Tid, n: nat): Gate
    decreases n
  {
    if n == 0 || At(g, t) == Idle then g else Alone(Next(g, t, Go(t)), t, n - 1)
  }

  /** When every other thread has finished after a stop, the drain is never stuck: it returns in three steps. */
  lemma DrainFinishesAlone(drainers: set<Tid>, run: seq<Gate>, events: seq<Event>, i: nat, d: Tid)
    requires |drainers| <= 1 && Run(drainers, run, events) && i < |run|
    requires !run[i].accepting && Draining(At(run[i], d)) && forall t :: t != d ==> At(run[i], t) == Idle
    ensures run[i].active == 0 && At(run[i], d) != DrainParked
    ensures Waits(At(run[i], d)) ==> run[i].token
    ensures At(Alone(run[i], d, 3), d) == Idle
  {
    RunNoLostWakeUp(drainers, run, events, i);
    RunBalanced(drainers, run, events, i);
    assert Inside(run[i]) == {} by {
      forall t ensures t !in Inside(run[i]) {
        assert t != d ==> At(run[i], t) == Idle;
      }
    }
    assert !NotifierComing(run[i]);
  }

  // ---- two drains at once ------------------------------------------------------------------

  /** Four threads: a worker, a stopper and two drains. */
  datatype Four = Four(w: Tid, s: Tid, d: Tid, e: Tid)

  predicate Apart(f: Four) {
    f.w != f.s && f.w != f.d && f.w != f.e && f.s != f.d && f.s != f.e && f.d != f.e
  }

  datatype Scene = Scene(accepting: bool, active: nat, token: bool, w: Pc, s: Pc, d: Pc, e: Pc)

  ghost predicate ShowsFour(f: Four, g: Gate, x: Scene) {
    && g.accepting == x.accepting && g.active == x.active && g.token == x.token
    && At(g, f.w) == x.w && At(g, f.s) == x.s && At(g, f.d) == x.d && At(g, f.e) == x.e
  }

  ghost predicate Shows(f: Four, g: Gate, x: Scene) {
    && ShowsFour(f, g, x)
    && forall t :: t != f.w && t != f.s && t != f.d && t != f.e ==> At(g, t) == Idle
  }

  lemma Extend(drainers: set<Tid>, run: seq<Gate>, events: seq<Event>, t: Tid, c: Choice)
    requires Run(drainers, run, events) && Enabled(drainers, run[|events|], t, c)
    ensures Run(drainers, run + [Next(run[|events|], t, c)], events + [Event(t, c)])
  {
  }

  /** Both drains see the worker before it leaves; one notification is stored and one drain takes it. */
  function Cue(f: Four, i: nat): Event {
    match i
    case 0 => Event(f.w, Start)
    case 1 => Event(f.w, Enter)
    case 2 => Event(f.w, Go(0))
    case 3 => Event(f.w, Go(0))
    case 4 => Event(f.s, Stop)
    case 5 => Event(f.s, Go(0))
    case 6 => Event(f.d, Drain)
    case 7 => Event(f.d, Go(0))
    case 8 => Event(f.e, Drain)
    case 9 => Event(f.e, Go(0))
    case 10 => Event(f.w, Drop)
    case 11 => Event(f.w, Go(0))
    case 12 => Event(f.w, Go(0))
    case 13 => Event(f.w, Go(0))
    case 14 => Event(f.w, Go(f.s))
    case 15 => Event(f.d, Go(0))
    case 16 => Event(f.d, Go(0))
    case 17 => Event(f.d, Go(0))
    case 18 => Event(f.e, Go(0))
    case _ => Event(f.e, Go(0))
  }

  function SceneAt(i: nat): Scene {
    match i
    case 0 => Scene(false, 0, false, Idle, Idle, Idle, Idle)
    case 1 => Scene(true, 0, false, Idle, Idle, Idle, Idle)
    case 2 => Scene(true, 0, false, EnterSeen, Idle, Idle, Idle)
    case 3 => Scene(true, 1, false, EnterCounted, Idle, Idle, Idle)
    case 4 => Scene(true, 1, false, Holding, Idle, Idle, Idle)
    case 5 => Scene(false, 1, false, Holding, StopStored, Idle, Idle)
    case 6 => Scene(false, 1, false, Holding, Idle, Idle, Idle)
    case 7 => Scene(false, 1, false, Holding, Idle, DrainLoad, Idle)
    case 8 => Scene(false, 1, false, Holding, Idle, DrainSaw, Idle)
    case 9 => Scene(false, 1, false, Holding, Idle, DrainSaw, DrainLoad)
    case 10 => Scene(false, 1, false, Holding, Idle, DrainSaw, DrainSaw)
    case 11 => Scene(false, 1, false, Leaving, Idle, DrainSaw, DrainSaw)
    case 12 => Scene(false, 0, false, LeftLast, Idle, DrainSaw, DrainSaw)
    case 13 => Scene(false, 0, false, NotifyWaiters, Idle, DrainSaw, DrainSaw)
    case 14 => Scene(false, 0, false, NotifyOne, Idle, DrainSaw, DrainSaw)
    case 15 => Scene(false, 0, true, Idle, Idle, DrainSaw, DrainSaw)
    case 16 => Scene(false, 0, true, Idle, Idle, DrainArmed(false), DrainSaw)
    case 17 => Scene(false, 0, false, Idle, Idle, DrainLoad, DrainSaw)
    case 18 => Scene(false, 0, false, Idle, Idle, Idle, DrainSaw)
    case 19 => Scene(false, 0, false, Idle, Idle, Idle, DrainArmed(false))
    case _ => Scene(false, 0, false, Idle, Idle, Idle, DrainParked)
  }

  lemma OthersIdle(f: Four, g: Gate, t: Tid, c: Choice)
    requires forall u :: u != f.w && u != f.s && u != f.d && u != f.e ==> At(g, u) == Idle
    requires t == f.w || t == f.s || t == f.d || t == f.e
    ensures forall u :: u != f.w && u != f.s && u != f.d && u != f.e ==> At(Next(g, t, c), u) == Idle
  {
    forall u | u != f.w && u != f.s && u != f.d && u != f.e ensures At(Next(g, t, c), u) == Idle {
      OthersKeep(g, t, c, u);
    }
  }

  lemma WorkerEnters(drainers: set<Tid>, f: Four, g: Gate, i: nat)
    requires Apart(f) && f.d in drainers && f.e in drainers && 0 <= i < 4 && ShowsFour(f, g, SceneAt(i))
    requires forall u :: u != f.w && u != f.s && u != f.d && u != f.e ==> At(g, u) == Idle
    ensures Enabled(drainers, g, Cue(f, i).t, Cue(f, i).c)
            && ShowsFour(f, Next(g, Cue(f, i).t, Cue(f, i).c), SceneAt(i + 1))
  {
  }

  lemma GateStops(drainers: set<Tid>, f: Four, g: Gate, i: nat)
    requires Apart(f) && f.d in drainers && f.e in drainers && 4 <= i < 6 && ShowsFour(f, g, SceneAt(i))
    requires forall u :: u != f.w && u != f.s && u != f.d && u != f.e ==> At(g, u) == Idle
    ensures Enabled(drainers, g, Cue(f, i).t, Cue(f, i).c)
            && ShowsFour(f, Next(g, Cue(f, i).t, Cue(f, i).c), SceneAt(i + 1))
  {
  }

  lemma DrainsLook(drainers: set<Tid>, f: Four, g: Gate, i: nat)
    requires Apart(f) && f.d in drainers && f.e in drainers && 6 <= i < 10 && ShowsFour(f, g, SceneAt(i))
    requires forall u :: u != f.w && u != f.s && u != f.d && u != f.e ==> At(g, u) == Idle
    ensures Enabled(drainers, g, Cue(f, i).t, Cue(f, i).c)
            && ShowsFour(f, Next(g, Cue(f, i).t, Cue(f, i).c), SceneAt(i + 1))
  {
  }

  lemma WorkerLeaves(drainers: set<Tid>, f: Four, g: Gate, i: nat)
    requires Apart(f) && f.d in drainers && f.e in drainers && 10 <= i < 14 && ShowsFour(f, g, SceneAt(i))
    requires forall u :: u != f.w && u != f.s && u != f.d && u != f.e ==> At(g, u) == Idle
    ensures Enabled(drainers, g, Cue(f, i).t, Cue(f, i).c)
            && ShowsFour(f, Next(g, Cue(f, i).t, Cue(f, i).c), SceneAt(i + 1))
  {
  }

  lemma TokenStored(drainers: set<Tid>, f: Four, g: Gate, i: nat)
    requires Apart(f) && f.d in drainers && f.e in drainers && 14 <= i < 15 && ShowsFour(f, g, SceneAt(i))
    requires forall u :: u != f.w && u != f.s && u != f.d && u != f.e ==> At(g, u) == Idle
    ensures Enabled(drainers, g, Cue(f, i).t, Cue(f, i).c)
            && ShowsFour(f, Next(g, Cue(f, i).t, Cue(f, i).c), SceneAt(i + 1))
  {
    assert forall u :: !Parked(g, u);
  }

  lemma TokenTaken(drainers: set<Tid>, f: Four, g: Gate, i: nat)
    requires Apart(f) && f.d in drainers && f.e in drainers && 15 <= i < 20 && ShowsFour(f, g, SceneAt(i))
    requires forall u :: u != f.w && u != f.s && u != f.d && u != f.e ==> At(g, u) == Idle
    ensures Enabled(drainers, g, Cue(f, i).t, Cue(f, i).c)
            && ShowsFour(f, Next(g, Cue(f, i).t, Cue(f, i).c), SceneAt(i + 1))
  {
    hide WakeAll;
  }

  lemma ScriptStep(drainers: set<Tid>, f: Four, g: Gate, i: nat)
    requires Apart(f) && f.d in drainers && f.e in drainers && i < 20 && Shows(f, g, SceneAt(i))
    ensures Enabled(drainers, g, Cue(f, i).t, Cue(f, i).c)
            && Shows(f, Next(g, Cue(f, i).t, Cue(f, i).c), SceneAt(i + 1))
  {
    assert Cue(f, i).t == f.w || Cue(f, i).t == f.s || Cue(f, i).t == f.d || Cue(f, i).t == f.e;
    hide Cue, SceneAt, Next, Enabled;
    OthersIdle(f, g, Cue(f, i).t, Cue(f, i).c);
    if i < 4 {
      WorkerEnters(drainers, f, g, i);
    } else if i < 6 {
      GateStops(drainers, f, g, i);
    } else if i < 10 {
      DrainsLook(drainers, f, g, i);
    } else if i < 14 {
      WorkerLeaves(drainers, f, g, i);
    } else if i < 15 {
      TokenStored(drainers, f, g, i);
    } else {
      TokenTaken(drainers, f, g, i);
    }
  }

  /** The second drain waits for ever: nothing is active, nothing is stored, nobody will notify. */
  lemma {:induction false} LossRun(drainers: set<Tid>, f: Four, i: nat) returns (run: seq<Gate>, events: seq<Event>)
    requires Apart(f) && f.d in drainers && f.e in drainers && i <= 20
    ensures Run(drainers, run, events) && Shows(f, run[|events|], SceneAt(i))
  {
    if i == 0 {
      run, events := [Gate(false, 0, false, map[])], [];
    } else {
      run, events := LossRun(drainers, f, i - 1);
      var event := Cue(f, i - 1);
      ScriptStep(drainers, f, run[|events|], i - 1);
      hide Cue, SceneAt, Next, Enabled, Shows;
      Extend(drainers, run, events, event.t, event.c);
      run, events := run + [Next(run[|events|], event.t, event.c)], events + [event];
    }
  }

  ghost predicate AlwaysWoken(drainers: set<Tid>) {
    forall run: seq<Gate>, events: seq<Event>, i: nat ::
      Run(drainers, run, events) && i < |run| ==> NoLostWakeUp(run[i])
  }

  /** With at most one draining thread, and only then, no wake-up is lost. */
  lemma NoLostWakeUpIffOneDrainer(drainers: set<Tid>)
    ensures AlwaysWoken(drainers) <==> |drainers| <= 1
  {
    if |drainers| <= 1 {
      forall run: seq<Gate>, events: seq<Event>, i: nat | Run(drainers, run, events) && i < |run|
        ensures NoLostWakeUp(run[i])
      {
        RunNoLostWakeUp(drainers, run, events, i);
      }
    } else {
      var d :| d in drainers;
      Without(drainers, d);
      var e :| e in drainers - {d};
      var f := Four(d + e + 1, d + e + 2, d, e);
      var run, events := LossRun(drainers, f, 20);
      var g := run[|events|];
      assert SceneAt(20) == Scene(false, 0, false, Idle, Idle, Idle, DrainParked);
      assert Waits(At(g, e));
      forall t ensures At(g, t) == Idle || At(g, t) == DrainParked {
      }
      assert !NotifierComing(g);
    }
  }
}

/** The gate as the object it is: each method, run without interruption, takes exactly its machine steps. */
module LeadershipGate {
  import opened GateMachine

  ghost predicate Same(g: Gate, h: Gate) {
    g.accepting == h.accepting && g.active == h.active && g.token == h.token && forall u :: At(g, u) == At(h, u)
  }

  /** The next step of a call under way; none once the thread is outside or holds a permit. */
  function Advance(g: Gate, t: Tid): Gate {
    if At(g, t) == Idle || At(g, t) == Holding then g else Next(g, t, Go(t))
  }

  /** A whole call: no call of the gate but `drain` takes more than four further steps. */
  function Call(g: Gate, t: Tid, c: Choice): Gate {
    Advance(Advance(Advance(Advance(Next(g, t, c), t), t), t), t)
  }

  /** What dropping a permit comes to. */
  lemma DropCall(g: Gate, t: Tid)
    requires At(g, t) == Holding && g.active > 0
    ensures var last := g.active == 1 && !g.accepting;
            Same(Call(g, t, Drop), Gate(g.accepting, g.active - 1, g.token || last,
                                        (if last then WakeAll(g.pcs) else g.pcs)[t := Idle]))
  {
    var lowered := Advance(Next(g, t, Drop), t);
    assert lowered.active == g.active - 1 && lowered.accepting == g.accepting && lowered.token == g.token;
    assert forall u :: u != t ==> At(lowered, u) == At(g, u);
    if g.active != 1 {
      assert At(lowered, t) == Idle;
    } else if g.accepting {
      assert At(Advance(lowered, t), t) == Idle;
    } else {
      var loaded := Advance(lowered, t);
      assert loaded.pcs == g.pcs[t := NotifyWaiters];
      var woken := Advance(loaded, t);
      assert woken.pcs == WakeAll(g.pcs)[t := NotifyOne];
    }
  }

  /** What closing the gate comes to. */
  lemma StopCall(g: Gate, t: Tid)
    requires At(g, t) == Idle
    ensures Same(Call(g, t, Stop), Gate(false, g.active, g.token || g.active == 0,
                                        if g.active == 0 then WakeAll(g.pcs)[t := Idle] else g.pcs))
  {
    var stored := Next(g, t, Stop);
    var loaded := Advance(stored, t);
    if g.active != 0 {
      assert At(loaded, t) == Idle;
    } else {
      assert loaded.pcs == g.pcs[t := NotifyWaiters];
      var woken := Advance(loaded, t);
      assert woken.pcs == WakeAll(g.pcs)[t := NotifyOne];
    }
  }

  class LeadershipGate {
    var accepting: bool
    var active: nat
    var token: bool
    var places: map<Tid, Pc>

    ghost function State(): Gate
      reads this
    {
      Gate(accepting, active, token, places)
    }

    constructor ()
      ensures Fresh(State())
    {
      accepting, active, token, places := false, 0, false, map[];
    }

    method StartAccepting(t: Tid)
      requires At(State(), t) == Idle
      modifies this
      ensures Same(State(), Next(old(State()), t, Start))
    {
      accepting := true;
    }

    method NotifyDrained(t: Tid)
      modifies this
      ensures accepting == old(accepting) && active == old(active) && token
      ensures places == WakeAll(old(places))[t := Idle]
    {
      places := WakeAll(places)[t := Idle];
      token := true;
    }

    /** Closes the gate; when no one is inside, every parked drain is woken and a notification stored. */
    method StopAccepting(t: Tid)
      requires At(State(), t) == Idle
      modifies this
      ensures Same(State(), Call(old(State()), t, Stop))
      ensures !accepting && active == old(active)
      ensures active == 0 ==> token && forall u :: !Parked(State(), u)
    {
      hide Call;
      StopCall(State(), t);
      accepting := false;
      if active == 0 {
        NotifyDrained(t);
      }
    }

    /** A permit is granted exactly when the gate accepts, and then it is counted. */
    method TryEnter(t: Tid) returns (granted: bool)
      requires At(State(), t) == Idle && Balanced(State())
      modifies this
      ensures Same(State(), Call(old(State()), t, Enter))
      ensures granted == old(accepting) && At(State(), t) == if granted then Holding else Idle
      ensures Balanced(State())
    {
      if !accepting {
        return false;
      }
      ghost var before := State();
      active := active + 1;
      granted := accepting;
      places := places[t := Holding];
      MoveInside(before, t, Holding);
      InsideOnlyPlaces(Move(before, t, Holding), State());
    }

    /** Dropping a permit: the last worker out of a closed gate wakes every drain and stores a notification. */
    method Leave(t: Tid)
      requires At(State(), t) == Holding && Balanced(State())
      modifies this
      ensures Same(State(), Call(old(State()), t, Drop))
      ensures Balanced(State()) && At(State(), t) == Idle && active == old(active) - 1
      ensures active == 0 && !accepting ==> token && forall u :: !Parked(State(), u)
    {
      hide Call;
      ghost var before := State();
      MoveInside(before, t, Idle);
      assert t in Inside(before);
      DropCall(before, t);
      active := active - 1;
      places := places[t := Idle];
      InsideOnlyPlaces(Move(before, t, Idle), State());
      if active == 0 && !accepting {
        ghost var left := State();
        NotifyDrained(t);
        WakeInside(left);
        MoveInside(left.(pcs := WakeAll(left.pcs)), t, Idle);
        InsideOnlyPlaces(Move(left.(pcs := WakeAll(left.pcs)), t, Idle), State());
      }
    }
  }
}
