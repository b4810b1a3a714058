/**
 * controller/src/runtime.rs: how long a leader may trust its Lease, and why two leaders never work
 * at once. Times are integers in nanoseconds; a Duration division by two or four is exact because
 * the configuration is in whole seconds.
 */
module Leadership {
  import opened Base

  const SECOND := 1_000_000_000
  const I32_MAX := 0x7FFF_FFFF

  /** The last instant the system clock type can hold: 64-bit signed seconds and a full fraction. */
  const SYSTEM_TIME_MAX := 0x7FFF_FFFF_FFFF_FFFF * SECOND + (SECOND - 1)

  datatype Config = Config(durationSeconds: int, graceSeconds: int) {
    predicate Valid() {
      0 < graceSeconds < durationSeconds <= I32_MAX
    }

    function Duration(): int {
      durationSeconds * SECOND
    }

    function Grace(): int {
      graceSeconds * SECOND
    }
  }

  /** The fields of one Lease response. */
  datatype View = View(hasSpec: bool, renew: Option<int>, uid: Option<string>, holder: Option<string>,
                       durationSeconds: Option<int>, transitions: Option<int>)

  /** The clock readings one observation takes, in the order it takes them. */
  datatype Clocks = Clocks(entered: int, system: int, instant: int, left: int)

  datatype Confirmation = Confirmation(identity: string, config: Config, uid: Option<string>, transitions: Option<int>,
                                       lastRenewal: Option<int>, deadline: int)

  function Min(a: int, b: int): int {
    if a <= b then a else b
  }

  function Max(a: int, b: int): int {
    if a <= b then b else a
  }

  function Begun(identity: string, config: Config, now: int): Confirmation {
    Confirmation(identity, config, None, None, None, now + config.Duration() - config.Grace() / 2)
  }

  /** The response is this leader's own Lease, in the same incarnation, never going back in time. */
  predicate Ours(c: Confirmation, v: View) {
    && v.hasSpec && v.renew.Some? && v.uid.Some?
    && v.holder == Some(c.identity)
    && v.durationSeconds == Some(c.config.durationSeconds)
    && (c.uid.Some? ==> c.uid == v.uid)
    && (c.transitions.Some? ==> c.transitions == v.transitions)
    && (c.lastRenewal.Some? ==> c.lastRenewal.value <= v.renew.value)
  }

  /** What is left of the Lease at wall-clock time `system`, less half the grace period. */
  function Remaining(c: Confirmation, v: View, system: int): int
    requires v.renew.Some?
  {
    v.renew.value + c.config.Duration() - c.config.Grace() / 2 - system
  }

  predicate Believed(c: Confirmation, v: View, k: Clocks) {
    && k.entered < c.deadline && Ours(c, v)
    && v.renew.value + c.config.Duration() <= SYSTEM_TIME_MAX && Remaining(c, v, k.system) >= 0
  }

  /** The confirmation after one response has been judged. */
  function Judged(c: Confirmation, v: View, k: Clocks): Confirmation {
    if Believed(c, v, k) && c.lastRenewal != v.renew then
      c.(deadline := k.instant + Min(Remaining(c, v, k.system), c.config.Duration() - c.config.Grace() / 2),
         lastRenewal := v.renew, uid := v.uid, transitions := v.transitions)
    else c
  }

  predicate Confirms(c: Confirmation, v: View, k: Clocks) {
    Believed(c, v, k) && k.left < Judged(c, v, k).deadline
  }

  /** Expiry is an instant the clock type can hold, and more than half the grace period away. */
  predicate InRange(config: Config, renew: int, system: int) {
    && renew + config.durationSeconds * 1_000_000_000 <= SYSTEM_TIME_MAX
    && system <= renew + config.durationSeconds * 1_000_000_000 - config.graceSeconds * 500_000_000
  }

  class LeaseConfirmation {
    const identity: string
    const config: Config
    var uid: Option<string>
    var transitions: Option<int>
    var lastRenewal: Option<int>
    var deadline: int

    ghost function State(): Confirmation
      reads this
    {
      Confirmation(identity, config, uid, transitions, lastRenewal, deadline)
    }

    constructor (identity: string, config: Config, now: int)
      ensures State() == Begun(identity, config, now)
      ensures uid == None && transitions == None && lastRenewal == None
      ensures deadline == now + config.durationSeconds * 1_000_000_000 - config.graceSeconds * 500_000_000
    {
      this.identity, this.config := identity, config;
      uid, transitions, lastRenewal := None, None, None;
      deadline := now + config.Duration() - config.Grace() / 2;
    }

    /**
     * One response judged. A response that differs from the Lease on record in any field, goes back in time,
     * comes late or lies outside the clock's range changes nothing. Any other one is confirmed exactly while
     * the deadline is ahead, and moves the deadline exactly when it carries a new renewal.
     */
    method Observe(v: View, k: Clocks) returns (confirmed: bool)
      modifies this
      ensures State() == Judged(old(State()), v, k)
      ensures confirmed == Confirms(old(State()), v, k)
      ensures confirmed ==> k.left < deadline && lastRenewal == v.renew && v.holder == Some(identity)
      ensures old(uid).Some? && v.uid != old(uid) ==> !confirmed && State() == old(State())
      ensures old(transitions).Some? && v.transitions != old(transitions) ==> !confirmed && State() == old(State())
      ensures v.durationSeconds != Some(config.durationSeconds) ==> !confirmed && State() == old(State())
      ensures !v.hasSpec || v.renew.None? || v.uid.None? || v.holder != Some(identity) ==>
                !confirmed && State() == old(State())
      ensures old(lastRenewal).Some? && v.renew.Some? && v.renew.value < old(lastRenewal).value ==>
                !confirmed && State() == old(State())
      ensures k.entered >= old(deadline) || (v.renew.Some? && !InRange(config, v.renew.value, k.system)) ==>
                !confirmed && State() == old(State())
      ensures v.hasSpec && v.renew.Some? && v.uid.Some? && v.holder == Some(identity)
              && v.durationSeconds == Some(config.durationSeconds)
              && (old(uid) == None || old(uid) == v.uid)
              && (old(transitions) == None || old(transitions) == v.transitions)
              && (old(lastRenewal) == None || old(lastRenewal).value <= v.renew.value)
              && k.entered < old(deadline) && InRange(config, v.renew.value, k.system) ==>
                && (confirmed <==> k.left < deadline)
                && if old(lastRenewal) == v.renew then State() == old(State())
                   else
                     && uid == v.uid && transitions == v.transitions && lastRenewal == v.renew
                     && deadline == k.instant + config.durationSeconds * 1_000_000_000
                                    - config.graceSeconds * 500_000_000 - Max(0, k.system - v.renew.value)
    {
      if k.entered >= deadline || !v.hasSpec || v.renew.None? || v.uid.None? {
        return false;
      }
      var renew := v.renew.value;
      if v.holder != Some(identity) || v.durationSeconds != Some(config.durationSeconds) {
        return false;
      }
      if (uid.Some? && uid != v.uid) || (transitions.Some? && transitions != v.transitions) {
        return false;
      }
      if lastRenewal.Some? && renew < lastRenewal.value {
        return false;
      }
      if renew + config.Duration() > SYSTEM_TIME_MAX {
        return false;
      }
      var expiresSafely := renew + config.Duration() - config.Grace() / 2;
      if expiresSafely < k.system {
        return false;
      }
      var remaining := expiresSafely - k.system;
      if lastRenewal != Some(renew) {
        deadline := k.instant + Min(remaining, config.Duration() - config.Grace() / 2);
        lastRenewal := Some(renew);
        uid := v.uid;
        transitions := v.transitions;
      }
      return k.left < deadline;
    }
  }

  /** How far an accepted renewal is trusted, and exactly when retirement fits before its expiry. */
  lemma DeadlineBeforeExpiry(c: Confirmation, v: View, k: Clocks, tail: int)
    requires c.config.Valid() && Believed(c, v, k) && c.lastRenewal != v.renew
    ensures var expiry := v.renew.value + c.config.Duration();
            && Judged(c, v, k).deadline == expiry - c.config.Grace() / 2 + k.instant - Max(k.system, v.renew.value)
            && (Judged(c, v, k).deadline + tail < expiry
                <==> k.instant - Max(k.system, v.renew.value) < c.config.Grace() / 2 - tail)
  {
  }

  // ---- one incarnation of the Lease --------------------------------------------------------

  /** A monitor's responses and the confirmation after each; it goes on only while they are confirmed. */
  ghost predicate Monitored(identity: string, config: Config, now: int, states: seq<Confirmation>, views: seq<View>,
                            clocks: seq<Clocks>) {
    && |states| == |views| + 1 && |clocks| == |views| && states[0] == Begun(identity, config, now)
    && forall i :: 0 <= i < |views| ==>
         Confirms(states[i], views[i], clocks[i]) && states[i + 1] == Judged(states[i], views[i], clocks[i])
  }

  /** What the responses confirmed so far have fixed. */
  ghost predicate Fixed(c: Confirmation, v: View) {
    && c.uid.Some? && c.uid == v.uid && c.lastRenewal.Some? && v.renew.Some? && v.renew.value <= c.lastRenewal.value
    && v.holder == Some(c.identity) && v.durationSeconds == Some(c.config.durationSeconds)
  }

  lemma ConfirmedStep(c: Confirmation, v: View, k: Clocks)
    requires Confirms(c, v, k) && (c.lastRenewal.Some? <==> c.uid.Some?)
    ensures var d := Judged(c, v, k);
            && Fixed(d, v) && d.lastRenewal == v.renew && d.identity == c.identity && d.config == c.config
            && (c.transitions.Some? ==> d.transitions == c.transitions == v.transitions)
            && forall w :: Fixed(c, w) ==> Fixed(d, w)
  {
  }

  lemma {:induction false} MonitorFixes(identity: string, config: Config, now: int, states: seq<Confirmation>,
                                        views: seq<View>, clocks: seq<Clocks>, i: nat, j: nat)
    requires Monitored(identity, config, now, states, views, clocks) && i <= j < |states|
    ensures states[j].identity == identity && states[j].config == config
    ensures states[j].lastRenewal.Some? <==> states[j].uid.Some?
    ensures i < j ==> Fixed(states[j], views[i]) && states[j].lastRenewal == views[j - 1].renew
    ensures states[i].transitions.Some? ==> states[j].transitions == states[i].transitions
    decreases j
  {
    if j > 0 {
      hide Confirms, Judged;
      assert Confirms(states[j - 1], views[j - 1], clocks[j - 1]);
      assert states[j] == Judged(states[j - 1], views[j - 1], clocks[j - 1]);
      MonitorFixes(identity, config, now, states, views, clocks, if i < j then i else j - 1, j - 1);
      ConfirmedStep(states[j - 1], views[j - 1], clocks[j - 1]);
    }
  }

  /**
   * All the responses one monitor ever confirms are of one Lease object, held by it for the configured time,
   * with one count of transitions once that is on record, and renewed no earlier than any before.
   */
  lemma OneIncarnation(identity: string, config: Config, now: int, states: seq<Confirmation>, views: seq<View>,
                       clocks: seq<Clocks>, i: nat, j: nat)
    requires Monitored(identity, config, now, states, views, clocks) && i <= j < |views|
    ensures views[i].uid.Some? && views[i].uid == views[j].uid
    ensures views[j].holder == Some(identity) && views[j].durationSeconds == Some(config.durationSeconds)
    ensures views[i].renew.Some? && views[j].renew.Some? && views[i].renew.value <= views[j].renew.value
    ensures states[i].transitions.Some? ==> views[j].transitions == states[i].transitions
  {
    hide Judged;
    MonitorFixes(identity, config, now, states, views, clocks, i, j + 1);
    MonitorFixes(identity, config, now, states, views, clocks, j, j + 1);
    MonitorFixes(identity, config, now, states, views, clocks, i, j);
    ConfirmedStep(states[j], views[j], clocks[j]);
  }

  /** The same response again is confirmed exactly while its deadline is ahead, and moves nothing. */
  lemma ReadAgain(c: Confirmation, v: View, k: Clocks, again: Clocks)
    requires Confirms(c, v, k)
    ensures var d := Judged(c, v, k);
            && Judged(d, v, again) == d
            && (Confirms(d, v, again) <==>
                  && again.entered < d.deadline && again.left < d.deadline
                  && again.system <= v.renew.value + c.config.durationSeconds * 1_000_000_000
                                     - c.config.graceSeconds * 500_000_000)
  {
    assert v.renew.Some?;
  }

  // ---- the whole election ------------------------------------------------------------------

  datatype Lease = Lease(holder: Option<string>, renew: int, transitions: int)

  datatype Process =
    | Standby
    | Confirming(c: Confirmation, pending: Option<View>)   // the gate is not open yet
    | Accepting(c: Confirmation, pending: Option<View>)
    | Retiring(retireBy: int, renewal: int)                // the gate is closed, work is being drained

  /** Processes not in the map stand by. */
  datatype Election = Election(now: int, lease: Lease, processes: map<string, Process>)

  function At(s: Election, p: string): Process {
    if p in s.processes then s.processes[p] else Standby
  }

  function Move(s: Election, p: string, to: Process): Election {
    s.(processes := s.processes[p := to])
  }

  datatype Step =
    | Tick(to: int)
    | Acquire(p: string, renew: int)
    | Renew(p: string, renew: int)
    | Release(p: string)
    | Begin(p: string)
    | Read(p: string)
    | Evaluate(p: string, system: int)
    | Failed(p: string)                  // an API error: the response is dropped, the loop goes on
    | Open(p: string)
    | Stop(p: string)                    // shutdown, lost leadership, deadline reached or workload finished
    | Retired(p: string)

  function Seen(config: Config, lease: Lease): View {
    View(true, Some(lease.renew), Some("lease"), lease.holder, Some(config.durationSeconds), Some(lease.transitions))
  }

  predicate Expired(config: Config, s: Election) {
    s.now >= s.lease.renew + config.Duration()
  }

  /** Timers fire on time: nothing accepts past its deadline or retires past `retireBy`. */
  predicate Punctual(to: int, process: Process) {
    match process
    case Accepting(c, _) => to <= c.deadline
    case Retiring(retireBy, _) => to <= retireBy
    case _ => true
  }

  predicate Monitors(process: Process) {
    process.Confirming? || process.Accepting?
  }

  ghost predicate Enabled(config: Config, skew: int, s: Election, step: Step) {
    match step
    case Tick(to) => s.now <= to && forall p :: Punctual(to, At(s, p))
    case Acquire(p, renew) => s.lease.holder == None || Expired(config, s)
    case Renew(p, renew) => s.lease.holder == Some(p) && s.lease.renew <= renew
    case Release(p) => s.lease.holder == Some(p) && At(s, p) == Standby
    case Begin(p) => At(s, p) == Standby
    case Read(p) => Monitors(At(s, p))
    case Evaluate(p, system) => Monitors(At(s, p)) && At(s, p).pending.Some? && s.now - system <= skew
    case Failed(p) => Monitors(At(s, p))
    case Open(p) => At(s, p).Confirming? && At(s, p).c.lastRenewal.Some? && s.now <= At(s, p).c.deadline
    case Stop(p) => At(s, p).Confirming? || (At(s, p).Accepting? && At(s, p).c.lastRenewal.Some?)
    case Retired(p) => At(s, p).Retiring?
  }

  function Stopped(config: Config, process: Process): Process {
    if process.Accepting? && process.c.lastRenewal.Some?
    then Retiring(process.c.deadline + config.Grace() / 4, process.c.lastRenewal.value) else Standby
  }

  /** A refused observation ends the run; the retirement time is the last one published. */
  function Evaluated(config: Config, process: Process, now: int, system: int): Process
    requires Monitors(process) && process.pending.Some?
  {
    var v, k := process.pending.value, Clocks(now, system, now, now);
    if Confirms(process.c, v, k) then process.(c := Judged(process.c, v, k), pending := None)
    else Stopped(config, process)
  }

  ghost function Next(config: Config, skew: int, s: Election, step: Step): Election
    requires Enabled(config, skew, s, step)
  {
    match step
    case Tick(to) => s.(now := to)
    case Acquire(p, renew) => s.(lease := Lease(Some(p), renew, s.lease.transitions + 1))
    case Renew(p, renew) => s.(lease := s.lease.(renew := renew))
    case Release(p) => s.(lease := s.lease.(holder := None))
    case Begin(p) => Move(s, p, Confirming(Begun(p, config, s.now), None))
    case Read(p) => Move(s, p, At(s, p).(pending := Some(Seen(config, s.lease))))
    case Evaluate(p, system) => Move(s, p, Evaluated(config, At(s, p), s.now, system))
    case Failed(p) => Move(s, p, At(s, p).(pending := None))
    case Open(p) => Move(s, p, Accepting(At(s, p).c, At(s, p).pending))
    case Stop(p) => Move(s, p, Stopped(config, At(s, p)))
    case Retired(p) => Move(s, p, Standby)
  }

  ghost predicate Run(config: Config, skew: int, run: seq<Election>, steps: seq<Step>) {
    && |run| == |steps| + 1
    && (forall p :: At(run[0], p) == Standby)
    && forall i :: 0 <= i < |steps| ==>
         Enabled(config, skew, run[i], steps[i]) && run[i + 1] == Next(config, skew, run[i], steps[i])
  }

  /** Working: an open gate, and with `retiring` also one being drained. */
  predicate Working(retiring: bool, process: Process) {
    process.Accepting? || (retiring && process.Retiring?)
  }

  ghost predicate Exclusive(retiring: bool, s: Election) {
    forall p, q :: Working(retiring, At(s, p)) && Working(retiring, At(s, q)) ==> p == q
  }

  // ---- the invariant -----------------------------------------------------------------------

  /** Either `p` still holds the Lease, renewed at `r` or later, or that renewal has run out. */
  predicate Held(config: Config, s: Election, p: string, r: int) {
    (s.lease.holder == Some(p) && r <= s.lease.renew) || r + config.Duration() <= s.now
  }

  function Tail(config: Config, retiring: bool): int {
    if retiring then config.Grace() / 4 else 0
  }

  predicate Trusted(config: Config, tail: int, s: Election, p: string, c: Confirmation, pending: Option<View>) {
    && c.identity == p && c.config == config
    && (c.lastRenewal.Some? ==>
          c.deadline + tail < c.lastRenewal.value + config.Duration() && Held(config, s, p, c.lastRenewal.value))
    && (pending.Some? && pending.value.holder == Some(p) ==>
          pending.value.renew.Some? && Held(config, s, p, pending.value.renew.value))
  }

  predicate ProcessInv(config: Config, tail: int, s: Election, p: string) {
    match At(s, p)
    case Standby => true
    case Confirming(c, pending) => Trusted(config, tail, s, p, c, pending)
    case Accepting(c, pending) => Trusted(config, tail, s, p, c, pending) && c.lastRenewal.Some? && s.now <= c.deadline
    case Retiring(retireBy, renewal) =>
      && s.now <= retireBy && retireBy - config.Grace() / 4 + tail < renewal + config.Duration()
      && Held(config, s, p, renewal)
  }

  ghost predicate Inv(config: Config, tail: int, s: Election) {
    forall p :: ProcessInv(config, tail, s, p)
  }

  /** A confirmed response leaves a deadline that is `tail` short of the expiry it was granted under. */
  lemma EvaluateTrusted(config: Config, retiring: bool, skew: int, s: Election, p: string, system: int)
    requires config.Valid() && skew < config.Grace() / 2 - Tail(config, retiring)
    requires Enabled(config, skew, s, Evaluate(p, system)) && ProcessInv(config, Tail(config, retiring), s, p)
    ensures ProcessInv(config, Tail(config, retiring), Next(config, skew, s, Evaluate(p, system)), p)
  {
    var process := At(s, p);
    var c, v, k := process.c, process.pending.value, Clocks(s.now, system, s.now, s.now);
    hide Tail;
    if Confirms(c, v, k) {
      if c.lastRenewal != v.renew {
        DeadlineBeforeExpiry(c, v, k, Tail(config, retiring));
        hide Remaining, Min;
      }
    } else {
      hide Confirms, Judged;
    }
  }

  /** What a process relies on is lost only when it gives the Lease up itself. */
  lemma HeldKept(config: Config, skew: int, s: Election, step: Step, p: string, r: int)
    requires Enabled(config, skew, s, step) && step != Release(p) && Held(config, s, p, r)
    ensures Held(config, Next(config, skew, s, step), p, r)
  {
    hide Evaluated, Stopped, Begun, Seen;
  }

  lemma TrustedKept(config: Config, tail: int, skew: int, s: Election, step: Step, p: string, c: Confirmation,
                    pending: Option<View>)
    requires Enabled(config, skew, s, step) && step != Release(p) && Trusted(config, tail, s, p, c, pending)
    ensures Trusted(config, tail, Next(config, skew, s, step), p, c, pending)
  {
    hide Enabled, Next, Held;
    if c.lastRenewal.Some? {
      HeldKept(config, skew, s, step, p, c.lastRenewal.value);
    }
    if pending.Some? && pending.value.holder == Some(p) {
      HeldKept(config, skew, s, step, p, pending.value.renew.value);
    }
  }

  /** A process that does not move keeps its invariant while others act and time passes. */
  lemma WaitingKept(config: Config, tail: int, skew: int, s: Election, step: Step, p: string)
    requires Enabled(config, skew, s, step) && ProcessInv(config, tail, s, p)
    requires At(Next(config, skew, s, step), p) == At(s, p)
    ensures ProcessInv(config, tail, Next(config, skew, s, step), p)
  {
    hide Evaluated, Stopped, Begun, Seen, Trusted, Held;
    match At(s, p)
    case Standby =>
    case Confirming(c, pending) => TrustedKept(config, tail, skew, s, step, p, c, pending);
    case Accepting(c, pending) =>
      TrustedKept(config, tail, skew, s, step, p, c, pending);
      assert step.Tick? ==> Punctual(step.to, At(s, p));
    case Retiring(_, renewal) =>
      HeldKept(config, skew, s, step, p, renewal);
      assert step.Tick? ==> Punctual(step.to, At(s, p));
  }

  /** The process that takes the step. */
  lemma MovingKept(config: Config, retiring: bool, skew: int, s: Election, step: Step, p: string)
    requires config.Valid() && skew < config.Grace() / 2 - Tail(config, retiring)
    requires Enabled(config, skew, s, step) && ProcessInv(config, Tail(config, retiring), s, p)
    requires At(Next(config, skew, s, step), p) != At(s, p) && !step.Evaluate?
    ensures ProcessInv(config, Tail(config, retiring), Next(config, skew, s, step), p)
  {
    hide Evaluated, Tail;
  }

  lemma StepKeepsProcess(config: Config, retiring: bool, skew: int, s: Election, step: Step, p: string)
    requires config.Valid() && skew < config.Grace() / 2 - Tail(config, retiring)
    requires Enabled(config, skew, s, step) && ProcessInv(config, Tail(config, retiring), s, p)
    ensures ProcessInv(config, Tail(config, retiring), Next(config, skew, s, step), p)
  {
    if At(Next(config, skew, s, step), p) == At(s, p) {
      WaitingKept(config, Tail(config, retiring), skew, s, step, p);
    } else if step.Evaluate? {
      EvaluateTrusted(config, retiring, skew, s, p, step.system);
    } else {
      MovingKept(config, retiring, skew, s, step, p);
    }
  }

  lemma {:induction false} RunKeepsInv(config: Config, retiring: bool, skew: int, run: seq<Election>, steps: seq<Step>,
                                       i: nat)
    requires config.Valid() && skew < config.Grace() / 2 - Tail(config, retiring)
    requires Run(config, skew, run, steps) && i < |run|
    ensures Inv(config, Tail(config, retiring), run[i])
    decreases i
  {
    if i > 0 {
      RunKeepsInv(config, retiring, skew, run, steps, i - 1);
      forall p ensures ProcessInv(config, Tail(config, retiring), run[i], p) {
        StepKeepsProcess(config, retiring, skew, run[i - 1], steps[i - 1], p);
        assert run[i] == Next(config, skew, run[i - 1], steps[i - 1]);
      }
    } else {
      assert forall p :: ProcessInv(config, Tail(config, retiring), run[0], p);
    }
  }

  lemma WorkingHolds(config: Config, retiring: bool, s: Election, p: string)
    requires config.Valid() && ProcessInv(config, Tail(config, retiring), s, p) && Working(retiring, At(s, p))
    ensures s.lease.holder == Some(p)
  {
  }

  /** Every retirement is due strictly before the Lease it was confirmed under expires. */
  lemma RetiresBeforeExpiry(config: Config, skew: int, run: seq<Election>, steps: seq<Step>, i: nat, p: string)
    requires config.Valid() && skew < config.Grace() / 4
    requires Run(config, skew, run, steps) && i < |run| && At(run[i], p).Retiring?
    ensures run[i].now <= At(run[i], p).retireBy < At(run[i], p).renewal + config.Duration()
    ensures run[i].lease.holder == Some(p) && At(run[i], p).renewal <= run[i].lease.renew
  {
    RunKeepsInv(config, true, skew, run, steps, i);
    assert ProcessInv(config, Tail(config, true), run[i], p);
  }

  /** The confirmation rests on the stored renewal, and so does a response not judged yet. */
  predicate UpToDate(s: Election, p: string) {
    && Monitors(At(s, p)) && At(s, p).c.lastRenewal == Some(s.lease.renew)
    && (At(s, p).pending.Some? ==> At(s, p).pending.value.renew == Some(s.lease.renew))
  }

  lemma RereadStep(config: Config, skew: int, s: Election, step: Step, p: string)
    requires Enabled(config, skew, s, step) && !step.Acquire? && !step.Renew?
    requires UpToDate(s, p) && Monitors(At(Next(config, skew, s, step), p))
    ensures var s' := Next(config, skew, s, step);
            s'.lease.renew == s.lease.renew && At(s', p).c == At(s, p).c && UpToDate(s', p)
  {
    if step.Tick? || step.Release? || step.p != p {
      hide Enabled;
      assert At(Next(config, skew, s, step), p) == At(s, p);
    }
  }

  /** Re-reading an unrenewed Lease, however often, leaves the confirmation and its deadline alone. */
  lemma {:induction false} RereadingExtendsNothing(config: Config, skew: int, run: seq<Election>, steps: seq<Step>,
                                                   i: nat, j: nat, p: string)
    requires Run(config, skew, run, steps) && i <= j < |run|
    requires Monitors(At(run[i], p)) && Monitors(At(run[j], p))
    requires forall k :: i <= k <= j ==> Monitors(At(run[k], p))
    requires forall k :: i <= k < j ==> !steps[k].Acquire? && !steps[k].Renew?
    requires At(run[i], p).pending == None && At(run[i], p).c.lastRenewal == Some(run[i].lease.renew)
    ensures run[j].lease.renew == run[i].lease.renew && At(run[j], p).c == At(run[i], p).c
    ensures At(run[j], p).pending.Some? ==> At(run[j], p).pending.value.renew == Some(run[j].lease.renew)
    decreases j
  {
    if i < j {
      assert Monitors(At(run[j - 1], p));
      assert Enabled(config, skew, run[j - 1], steps[j - 1]);
      assert run[j] == Next(config, skew, run[j - 1], steps[j - 1]);
      hide Run, Enabled, Next, Monitors;
      RereadingExtendsNothing(config, skew, run, steps, i, j - 1, p);
      RereadStep(config, skew, run[j - 1], steps[j - 1], p);
    }
  }

  /** A renewal that is read and judged in time does extend it, by as much as is left of the Lease. */
  lemma RenewalExtends(config: Config, skew: int, s: Election, p: string, renew: int, system: int)
    requires config.Valid() && s.lease.holder == Some(p) && Monitors(At(s, p)) && At(s, p).c.identity == p
    requires At(s, p).c.config == config && At(s, p).c.lastRenewal == Some(s.lease.renew) && s.lease.renew < renew
    requires At(s, p).c.uid == Some("lease")
    requires At(s, p).c.transitions == None || At(s, p).c.transitions == Some(s.lease.transitions)
    requires s.now < At(s, p).c.deadline && s.now - system <= skew && InRange(config, renew, system)
    requires system - renew < config.Duration() - config.Grace() / 2
    ensures Enabled(config, skew, s, Renew(p, renew))
    ensures var s1 := Next(config, skew, s, Renew(p, renew));
            && Enabled(config, skew, s1, Read(p))
            && var s2 := Next(config, skew, s1, Read(p));
               && Enabled(config, skew, s2, Evaluate(p, system))
               && var s3 := Next(config, skew, s2, Evaluate(p, system));
                  && Monitors(At(s3, p)) && At(s3, p).c.lastRenewal == Some(renew)
                  && At(s3, p).c.deadline == s.now + config.durationSeconds * 1_000_000_000
                                             - config.graceSeconds * 500_000_000 - Max(0, system - renew)
                  && (At(s, p).Accepting? ==> At(s3, p).Accepting?)
  {
    var s1 := Next(config, skew, s, Renew(p, renew));
    var s2 := Next(config, skew, s1, Read(p));
    assert At(s1, p) == At(s, p) && At(s2, p).pending == Some(Seen(config, s1.lease));
  }

  // ---- when the clocks are too far apart ---------------------------------------------------

  lemma Extend(config: Config, skew: int, run: seq<Election>, steps: seq<Step>, step: Step)
    returns (longer: seq<Election>, more: seq<Step>)
    requires Run(config, skew, run, steps) && Enabled(config, skew, run[|steps|], step)
    ensures Run(config, skew, longer, more) && |longer| == |run| + 1 && |more| == |steps| + 1
    ensures longer[|more|] == Next(config, skew, run[|steps|], step)
  {
    longer, more := run + [Next(config, skew, run[|steps|], step)], steps + [step];
    forall i | 0 <= i < |more|
      ensures Enabled(config, skew, longer[i], more[i]) && longer[i + 1] == Next(config, skew, longer[i], more[i])
    {
      if i < |steps| {
        assert longer[i] == run[i] && longer[i + 1] == run[i + 1] && more[i] == steps[i];
      }
    }
  }

  ghost predicate AlwaysExclusive(config: Config, retiring: bool, skew: int) {
    forall run: seq<Election>, steps: seq<Step>, i: nat ::
      Run(config, skew, run, steps) && i < |run| ==> Exclusive(retiring, run[i])
  }

  /** A process acquires at `renew`, begins to confirm and reads the Lease. */
  lemma ReadsItsOwn(config: Config, skew: int, run: seq<Election>, steps: seq<Step>, p: string, renew: int, late: int)
    returns (longer: seq<Election>, more: seq<Step>)
    requires Run(config, skew, run, steps) && 0 <= late <= skew
    requires At(run[|steps|], p) == Standby && renew == run[|steps|].now - late
    requires run[|steps|].lease.holder == None || Expired(config, run[|steps|])
    ensures Run(config, skew, longer, more) && |longer| == |run| + 3 && |more| == |steps| + 3
    ensures var s, last := run[|steps|], longer[|more|];
            && last.now == s.now && last.lease == Lease(Some(p), renew, s.lease.transitions + 1)
            && At(last, p) == Confirming(Begun(p, config, s.now), Some(Seen(config, last.lease)))
            && last.processes.Keys == s.processes.Keys + {p}
            && forall q :: q != p ==> At(last, q) == At(s, q)
  {
    assert |run| == |steps| + 1;
    hide Run, Begun, Seen;
    longer, more := Extend(config, skew, run, steps, Acquire(p, renew));
    longer, more := Extend(config, skew, longer, more, Begin(p));
    longer, more := Extend(config, skew, longer, more, Read(p));
  }

  /** Its own renewal, judged at the clock reading it was stamped with, is believed for as long as possible. */
  lemma JudgedAtOnce(config: Config, p: string, now: int, lease: Lease, renew: int)
    requires config.Valid() && lease.holder == Some(p) && lease.renew == renew
    requires renew + config.Duration() <= SYSTEM_TIME_MAX
    ensures var c, v, k := Begun(p, config, now), Seen(config, lease), Clocks(now, renew, now, now);
            && Believed(c, v, k) && Judged(c, v, k).lastRenewal == Some(renew)
            && Judged(c, v, k).deadline == now + config.Duration() - config.Grace() / 2
  {
  }

  /** A process that acquires at `renew` and reads `late` behind opens its gate in five steps. */
  lemma Opens(config: Config, skew: int, run: seq<Election>, steps: seq<Step>, p: string, renew: int, late: int)
    returns (longer: seq<Election>, more: seq<Step>)
    requires config.Valid() && Run(config, skew, run, steps) && 0 <= late <= skew
    requires run[|steps|].now + config.Duration() <= SYSTEM_TIME_MAX
    requires At(run[|steps|], p) == Standby && renew == run[|steps|].now - late
    requires run[|steps|].lease.holder == None || Expired(config, run[|steps|])
    ensures Run(config, skew, longer, more) && |more| == |steps| + 5
    ensures var s, last := run[|steps|], longer[|more|];
            && last.now == s.now && last.lease.renew == renew
            && At(last, p).Accepting? && At(last, p).c.lastRenewal == Some(renew)
            && At(last, p).c.deadline == s.now + config.Duration() - config.Grace() / 2
            && last.processes.Keys == s.processes.Keys + {p}
            && forall q :: q != p ==> At(last, q) == At(s, q)
  {
    assert |run| == |steps| + 1;
    hide Run, Judged, Believed;
    var run3, steps3 := ReadsItsOwn(config, skew, run, steps, p, renew, late);
    JudgedAtOnce(config, p, run[|steps|].now, run3[|steps3|].lease, renew);
    var run4, steps4 := Extend(config, skew, run3, steps3, Evaluate(p, renew));
    longer, more := Extend(config, skew, run4, steps4, Open(p));
  }

  lemma Overlap(config: Config, retiring: bool, skew: int)
    requires config.Valid() && config.Grace() / 2 - Tail(config, retiring) <= skew
    ensures !AlwaysExclusive(config, retiring, skew)
  {
    var late := config.Grace() / 2 - Tail(config, retiring);
    var idle := Election(0, Lease(None, 0, 0), map[]);
    assert Run(config, skew, [idle], []);
    hide Run;
    var run0, steps0 := Opens(config, skew, [idle], [], "old", -late, late);
    var run, steps := Extend(config, skew, run0, steps0, Tick(config.Duration() - config.Grace() / 2));
    assert run[|steps|].processes.Keys == {"old"};
    if retiring {
      run, steps := Extend(config, skew, run, steps, Stop("old"));
      assert run[|steps|].processes.Keys == {"old"};
      run, steps := Extend(config, skew, run, steps, Tick(config.Duration() - config.Grace() / 4));
    }
    assert At(run[|steps|], "new") == Standby;
    var now := run[|steps|].now;
    run, steps := Opens(config, skew, run, steps, "new", now, 0);
    assert Working(retiring, At(run[|steps|], "old")) && Working(retiring, At(run[|steps|], "new"));
    assert !Exclusive(retiring, run[|steps|]);
  }

  /**
   * Two open gates never coexist exactly when every clock reading lags by less than half the grace
   * period, and two processes with an open or draining gate never coexist exactly when it lags by
   * less than a quarter.
   */
  lemma ExclusiveIffClocksAgree(config: Config, retiring: bool, skew: int)
    requires config.Valid()
    ensures AlwaysExclusive(config, retiring, skew) <==> skew < config.Grace() / 2 - Tail(config, retiring)
  {
    if config.Grace() / 2 - Tail(config, retiring) <= skew {
      Overlap(config, retiring, skew);
    } else {
      forall run: seq<Election>, steps: seq<Step>, i: nat | Run(config, skew, run, steps) && i < |run|
        ensures Exclusive(retiring, run[i])
      {
        RunKeepsInv(config, retiring, skew, run, steps, i);
        forall p, q | Working(retiring, At(run[i], p)) && Working(retiring, At(run[i], q)) ensures p == q {
          WorkingHolds(config, retiring, run[i], p);
          WorkingHolds(config, retiring, run[i], q);
        }
      }
    }
  }
}
