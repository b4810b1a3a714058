/** controller/src/activation.rs: one admission of a changed configuration, stopped at any point. */
module Activation {
  import opened Base

  /** The fields of an activation ticket, parsed; `createdAt` is absent when missing or unreadable. */
  datatype Data = Data(configurationHash: string, previous: string, token: string, hostClean: bool,
                       createdAt: Option<int>)

  datatype Consumption = Unset | False | True | Garbled

  /** A stored ticket; `issue` numbers the operator's writes, `version` every write. */
  datatype Ticket = Ticket(issue: nat, version: nat, data: Data, consumed: Consumption)

  datatype State = State(version: nat, hash: Option<string>, rollback: bool)

  const MAX_TICKET_AGE_SECONDS := 600

  function HashOf(state: Option<State>): Option<string> {
    if state.Some? then state.value.hash else None
  }

  /** How a ticket names the configuration it replaces; no configuration is named by the empty text. */
  function Named(hash: Option<string>): string {
    if hash.Some? then hash.value else ""
  }

  /** Everything `validate_ticket` asks; the age is in whole seconds. */
  predicate ValidTicket(t: Ticket, desired: string, token: string, current: Option<string>, now: int) {
    && token != "" && t.data.configurationHash == desired && t.data.token == token && t.data.hostClean
    && t.data.previous == Named(current)
    && t.data.createdAt.Some? && 0 <= now - t.data.createdAt.value <= MAX_TICKET_AGE_SECONDS
    && t.consumed != Garbled
  }

  /** The ticket spelled out: from this hash to that one, for this token and a clean host, at most 600 seconds old. */
  predicate Grants(t: Ticket, from: Option<string>, to: string, token: string, now: int) {
    && t.data.configurationHash == to && t.data.previous == (if from.Some? then from.value else "")
    && t.data.token == token && token != "" && t.data.hostClean && t.consumed != Garbled
    && t.data.createdAt.Some? && t.data.createdAt.value <= now <= t.data.createdAt.value + 600
  }

  /**
   * What `writes` writes of an admission leave: the ticket is marked, unless it was marked before, then the state
   * is written, unlocked, and then the ticket goes.
   */
  ghost predicate StoppedAfter(before: Option<State>, ticket: Ticket, desired: string, writes: nat,
                               after: Option<State>, left: Option<Ticket>, ok: bool) {
    var first := if ticket.consumed == True then 0 else 1;
    && (if writes <= first then after == before
        else after.Some? && after.value.hash == Some(desired) && !after.value.rollback)
    && (if writes < first then left == Some(ticket)
        else if writes > first + 1 then left == None
        else left.Some? && left.value == ticket.(consumed := True, version := left.value.version))
    && (ok <==> writes > first + 1)
  }

  /** An admission of `desired` can go through: the ticket allows exactly this change and nothing locks the state. */
  predicate Admissible(state: Option<State>, ticket: Option<Ticket>, desired: string, token: string, now: int) {
    && !(state.Some? && state.value.rollback)
    && ticket.Some? && ValidTicket(ticket.value, desired, token, HashOf(state), now)
  }

  class ConfigMaps {
    var state: Option<State>
    var ticket: Option<Ticket>
    var next: nat

    /**
     * `admit`, alone with the store and stopped after `writes` writes. It changes the hash only if
     * admissible with a clean inventory, and wherever it stops the change is done or still admissible.
     * Not stopped, it admits another configuration exactly with a ticket that names both, made out to this
     * token for a clean host, at most 600 seconds old and with a readable consumption mark.
     */
    method Admit(desired: string, token: string, creationValid: bool, clean: bool, now: int, writes: nat)
      returns (ok: bool)
      modifies this
      ensures HashOf(state) == HashOf(old(state)) || HashOf(state) == Some(desired)
      ensures HashOf(state) != HashOf(old(state)) ==>
              creationValid && clean && Admissible(old(state), old(ticket), desired, token, now)
      ensures Admissible(old(state), old(ticket), desired, token, now) ==>
                HashOf(state) == Some(desired) || Admissible(state, ticket, desired, token, now)
      ensures creationValid && clean && writes >= 3 && Admissible(old(state), old(ticket), desired, token, now) ==>
                ok && HashOf(state) == Some(desired) && (HashOf(old(state)) == Some(desired) || ticket.None?)
      ensures writes >= 3 && HashOf(old(state)) != Some(desired)
              && (old(state).Some? ==> !old(state).value.rollback) ==>
                (ok <==> && creationValid && clean && old(ticket).Some?
                         && Grants(old(ticket).value, HashOf(old(state)), desired, token, now))
      ensures creationValid && clean && HashOf(old(state)) != Some(desired)
              && Admissible(old(state), old(ticket), desired, token, now) ==>
                StoppedAfter(old(state), old(ticket).value, desired, writes, state, ticket, ok)
      ensures old(state).Some? && !old(state).value.rollback && HashOf(old(state)) == Some(desired) ==>
                ok && state == old(state) && ticket == old(ticket)
      ensures old(state).Some? && old(state).value.rollback ==> !ok && state == old(state) && ticket == old(ticket)
    {
      if state.Some? && state.value.rollback {
        return false;
      }
      if HashOf(state) == Some(desired) {
        return true;
      }
      if !creationValid || ticket.None? || !ValidTicket(ticket.value, desired, token, HashOf(state), now) || !clean {
        return false;
      }
      var left := writes;
      if ticket.value.consumed != True {
        if left == 0 {
          return false;
        }
        ticket := Some(ticket.value.(consumed := True, version := next));
        next, left := next + 1, left - 1;
      }
      if left == 0 {
        return false;
      }
      state := Some(State(next, Some(desired), false));
      next, left := next + 1, left - 1;
      if left == 0 {
        return false;
      }
      ticket := None;
      return true;
    }
  }
}

/** Any number of concurrent and crashing admissions, with an operator who issues tickets and locks. */
module ActivationRuns {
  import opened Base
  import opened Activation

  type Pid = nat

  datatype Request = Request(desired: string, token: string)

  datatype Process =
    | Idle
    | ReadState(request: Request, state: Option<State>)
    | Validated(request: Request, state: Option<State>, ticket: Ticket)
    | FoundClean(request: Request, state: Option<State>, ticket: Ticket)
    | Consumed(request: Request, state: Option<State>, ticket: Ticket)
    | Accepted(ticket: Ticket)                                       // the state is written, the ticket to delete

  /** `issued` holds the data of every ticket the operator wrote, by issue number. */
  datatype Store = Store(state: Option<State>, ticket: Option<Ticket>, next: nat, issued: seq<Data>,
                         clean: bool, now: int, processes: map<Pid, Process>)

  function At(s: Store, p: Pid): Process {
    if p in s.processes then s.processes[p] else Idle
  }

  function Move(s: Store, p: Pid, to: Process): Store {
    s.(processes := s.processes[p := to])
  }

  datatype Step =
    | Start(p: Pid, request: Request, creationValid: bool)
    | ReadTicket(p: Pid)
    | CheckInventory(p: Pid)
    | Consume(p: Pid)
    | WriteState(p: Pid)
    | DeleteTicket(p: Pid)
    | Crash(p: Pid)
    | IssueTicket(data: Data, consumed: Consumption)
    | DropTicket
    | Lock(on: bool)
    | World(clean: bool, to: int)

  predicate Enabled(s: Store, step: Step) {
    match step
    case Start(p, _, _) => At(s, p).Idle?
    case ReadTicket(p) => At(s, p).ReadState?
    case CheckInventory(p) => At(s, p).Validated?
    case Consume(p) => At(s, p).FoundClean?
    case WriteState(p) => At(s, p).Consumed?
    case DeleteTicket(p) => At(s, p).Accepted?
    case World(_, to) => s.now <= to
    case _ => true
  }

  /** The version the process read is still the stored one, or there still is none. */
  predicate StillStored(read: Option<State>, stored: Option<State>) {
    (read.None? && stored.None?) || (read.Some? && stored.Some? && read.value.version == stored.value.version)
  }

  function Next(s: Store, step: Step): Store
    requires Enabled(s, step)
  {
    match step
    case Start(p, request, creationValid) =>
      if (s.state.Some? && s.state.value.rollback) || HashOf(s.state) == Some(request.desired) || !creationValid then s
      else Move(s, p, ReadState(request, s.state))
    case ReadTicket(p) =>
      var me := At(s, p);
      if s.ticket.Some? && ValidTicket(s.ticket.value, me.request.desired, me.request.token, HashOf(me.state), s.now)
      then Move(s, p, Validated(me.request, me.state, s.ticket.value)) else Move(s, p, Idle)
    case CheckInventory(p) =>
      var me := At(s, p);
      Move(s, p, if s.clean then FoundClean(me.request, me.state, me.ticket) else Idle)
    case Consume(p) =>
      var me := At(s, p);
      if me.ticket.consumed == True then Move(s, p, Consumed(me.request, me.state, me.ticket))
      else if s.ticket.Some? && s.ticket.value.version == me.ticket.version then
        var marked := me.ticket.(consumed := True, version := s.next);
        Move(s.(ticket := Some(marked), next := s.next + 1), p, Consumed(me.request, me.state, marked))
      else Move(s, p, Idle)
    case WriteState(p) =>
      var me := At(s, p);
      if StillStored(me.state, s.state)
      then Move(s.(state := Some(State(s.next, Some(me.request.desired), false)), next := s.next + 1), p,
                Accepted(me.ticket))
      else Move(s, p, Idle)
    case DeleteTicket(p) =>
      var gone := s.ticket.Some? && s.ticket.value.version == At(s, p).ticket.version;
      Move(s.(ticket := if gone then None else s.ticket), p, Idle)
    case Crash(p) => Move(s, p, Idle)
    case IssueTicket(data, consumed) =>
      s.(ticket := Some(Ticket(|s.issued|, s.next, data, consumed)), next := s.next + 1, issued := s.issued + [data])
    case DropTicket => s.(ticket := None)
    case Lock(on) => s.(state := Some(State(s.next, HashOf(s.state), on)), next := s.next + 1)
    case World(clean, to) => s.(clean := clean, now := to)
  }

  ghost predicate Run(run: seq<Store>, steps: seq<Step>) {
    && |run| == |steps| + 1 && run[0].processes == map[] && run[0].ticket.None? && run[0].issued == []
    && (run[0].state.Some? ==> run[0].state.value.version < run[0].next)
    && forall i :: 0 <= i < |steps| ==> Enabled(run[i], steps[i]) && run[i + 1] == Next(run[i], steps[i])
  }

  /** Step `i` writes the state. */
  predicate Writes(run: seq<Store>, steps: seq<Step>, i: nat)
    requires i < |steps| < |run|
  {
    steps[i].WriteState? && At(run[i], steps[i].p).Consumed? && StillStored(At(run[i], steps[i].p).state, run[i].state)
  }

  function Writer(run: seq<Store>, steps: seq<Step>, i: nat): Process
    requires i < |steps| < |run| && Writes(run, steps, i)
  {
    At(run[i], steps[i].p)
  }

  // ---- the invariant -----------------------------------------------------------------------

  predicate HasTicket(p: Process) {
    p.Validated? || p.FoundClean? || p.Consumed?
  }

  /** A ticket is one of those issued, with the operator's data, and its version names its content. */
  predicate Issued(s: Store, t: Ticket) {
    && t.issue < |s.issued| && s.issued[t.issue] == t.data && t.version < s.next
    && (s.ticket.Some? && s.ticket.value.version == t.version ==> s.ticket.value == t)
  }

  /** A reading of the state: its version names its content. */
  predicate PastState(s: Store, read: Option<State>) {
    && (read.Some? ==> read.value.version < s.next)
    && (read.Some? && s.state.Some? && s.state.value.version == read.value.version ==> s.state == read)
  }

  predicate Unlocked(state: Option<State>) {
    state.Some? ==> !state.value.rollback
  }

  predicate ProcessInv(s: Store, p: Process) {
    match p
    case Idle => true
    case ReadState(request, state) =>
      PastState(s, state) && HashOf(state) != Some(request.desired) && Unlocked(state)
    case Accepted(ticket) => Issued(s, ticket)
    case _ =>
      && Unlocked(p.state) && PastState(s, p.state) && HashOf(p.state) != Some(p.request.desired) && Issued(s, p.ticket)
      && p.ticket.data.configurationHash == p.request.desired && p.ticket.data.previous == Named(HashOf(p.state))
      && p.ticket.data.token == p.request.token && p.request.token != "" && p.ticket.data.hostClean
  }

  ghost predicate Inv(s: Store) {
    && PastState(s, s.state) && (s.ticket.Some? ==> Issued(s, s.ticket.value))
    && forall p :: ProcessInv(s, At(s, p))
  }

  /** Versions and issues are only added; a changed state has a new version. */
  predicate Grows(s: Store, s': Store) {
    && s.next <= s'.next && s.issued <= s'.issued
    && (s'.state == s.state || (s'.state.Some? && s.next <= s'.state.value.version < s'.next))
    && (s'.ticket == s.ticket || s'.ticket.None? || s.next <= s'.ticket.value.version)
  }

  lemma StepGrows(s: Store, step: Step)
    requires Enabled(s, step)
    ensures Grows(s, Next(s, step))
  {
  }

  lemma ReadingsStay(s: Store, s': Store, read: Option<State>)
    requires Grows(s, s') && PastState(s, read)
    ensures PastState(s', read)
  {
  }

  lemma IssuedStays(s: Store, s': Store, t: Ticket)
    requires Grows(s, s') && Issued(s, t)
    ensures Issued(s', t)
  {
  }

  lemma ProcessStays(s: Store, s': Store, p: Process)
    requires Grows(s, s') && ProcessInv(s, p)
    ensures ProcessInv(s', p)
  {
    hide PastState, Issued, Grows;
    if p.ReadState? || HasTicket(p) {
      ReadingsStay(s, s', p.state);
    }
    if p.Accepted? || HasTicket(p) {
      IssuedStays(s, s', p.ticket);
    }
  }

  /** The process that takes the step, in its new place. */
  lemma MoverKeepsInv(s: Store, step: Step, p: Pid)
    requires Inv(s) && Enabled(s, step) && Grows(s, Next(s, step))
    requires step.Start? || step.ReadTicket? || step.CheckInventory? || step.Consume? || step.WriteState?
             || step.DeleteTicket?
    requires p == step.p
    ensures ProcessInv(Next(s, step), At(Next(s, step), p))
  {
    hide PastState, Grows, Issued;
    var s' := Next(s, step);
    assert ProcessInv(s, At(s, p));
    ProcessStays(s, s', At(s, p));
    ReadingsStay(s, s', s.state);
    if step.ReadTicket? && s.ticket.Some? {
      IssuedStays(s, s', s.ticket.value);
    } else if step.Consume? {
      MarkedIsIssued(s, step);
    }
  }

  /** A consumed ticket is still the one issued. */
  lemma MarkedIsIssued(s: Store, step: Step)
    requires Inv(s) && step.Consume? && Enabled(s, step)
    ensures var s' := Next(s, step);
            At(s', step.p).Consumed? ==>
              Issued(s', At(s', step.p).ticket) && (s'.ticket.Some? ==> Issued(s', s'.ticket.value))
  {
    assert ProcessInv(s, At(s, step.p));
  }

  lemma StepKeepsInv(s: Store, step: Step)
    requires Inv(s) && Enabled(s, step)
    ensures Inv(Next(s, step))
  {
    hide PastState, Issued, Grows;
    var s' := Next(s, step);
    StepGrows(s, step);
    forall p ensures ProcessInv(s', At(s', p)) {
      assert ProcessInv(s, At(s, p));
      if At(s', p) == At(s, p) || At(s', p).Idle? {
        ProcessStays(s, s', At(s, p));
      } else {
        MoverKeepsInv(s, step, p);
      }
    }
    StoredKept(s, step);
  }

  lemma StoredKept(s: Store, step: Step)
    requires Inv(s) && Enabled(s, step)
    ensures var s' := Next(s, step); PastState(s', s'.state) && (s'.ticket.Some? ==> Issued(s', s'.ticket.value))
  {
    if step.Consume? {
      MarkedIsIssued(s, step);
    }
  }

  lemma {:induction false} RunKeepsInv(run: seq<Store>, steps: seq<Step>, i: nat)
    requires Run(run, steps) && i < |run|
    ensures Inv(run[i])
    decreases i
  {
    if i > 0 {
      RunKeepsInv(run, steps, i - 1);
      StepKeepsInv(run[i - 1], steps[i - 1]);
    }
  }

  // ---- every change is authorised ----------------------------------------------------------

  lemma OnlyWritesChangeTheHash(run: seq<Store>, steps: seq<Step>, i: nat)
    requires Run(run, steps) && i < |steps| && HashOf(run[i + 1].state) != HashOf(run[i].state)
    ensures Writes(run, steps, i)
  {
  }

  /** The inventory check of the call that is under way at `i`. */
  lemma {:induction false} CheckedAt(run: seq<Store>, steps: seq<Step>, i: nat, p: Pid) returns (k: nat)
    requires Run(run, steps) && i < |run| && (At(run[i], p).FoundClean? || At(run[i], p).Consumed?)
    ensures k < i && steps[k] == CheckInventory(p) && run[k].clean && At(run[k], p).Validated?
    ensures At(run[k], p).state == At(run[i], p).state && At(run[k], p).request == At(run[i], p).request
    ensures At(run[k], p).ticket.issue == At(run[i], p).ticket.issue
            && At(run[k], p).ticket.data == At(run[i], p).ticket.data
    decreases i
  {
    assert run[i] == Next(run[i - 1], steps[i - 1]);
    if steps[i - 1] == CheckInventory(p) {
      k := i - 1;
    } else {
      k := CheckedAt(run, steps, i - 1, p);
    }
  }

  /** The ticket that a validated call read, and when. */
  lemma {:induction false} ReadAt(run: seq<Store>, steps: seq<Step>, i: nat, p: Pid) returns (j: nat)
    requires Run(run, steps) && i < |run| && At(run[i], p).Validated?
    ensures j < i && steps[j] == ReadTicket(p) && run[j].ticket == Some(At(run[i], p).ticket)
    ensures At(run[j], p) == ReadState(At(run[i], p).request, At(run[i], p).state)
    ensures ValidTicket(At(run[i], p).ticket, At(run[i], p).request.desired, At(run[i], p).request.token,
                        HashOf(At(run[i], p).state), run[j].now)
    decreases i
  {
    assert run[i] == Next(run[i - 1], steps[i - 1]);
    if steps[i - 1] == ReadTicket(p) {
      j := i - 1;
    } else {
      j := ReadAt(run, steps, i - 1, p);
    }
  }

  /** The state that the call read first, and when. */
  lemma {:induction false} StartedAt(run: seq<Store>, steps: seq<Step>, i: nat, p: Pid) returns (a: nat)
    requires Run(run, steps) && i < |run| && At(run[i], p).ReadState?
    ensures a < i && steps[a].Start? && steps[a].creationValid && run[a].state == At(run[i], p).state
    ensures run[a].state.Some? ==> !run[a].state.value.rollback
    decreases i
  {
    assert run[i] == Next(run[i - 1], steps[i - 1]);
    if steps[i - 1].Start? && steps[i - 1].p == p {
      a := i - 1;
    } else {
      a := StartedAt(run, steps, i - 1, p);
    }
  }

  /**
   * The stored hash moves only in a write whose call read, in this order, the state it replaces, a
   * fresh ticket naming exactly the old and the new hash, and a clean inventory.
   */
  lemma ChangeIsAuthorised(run: seq<Store>, steps: seq<Step>, i: nat) returns (a: nat, j: nat, k: nat)
    requires Run(run, steps) && i < |steps| && Writes(run, steps, i)
    ensures var w, p := Writer(run, steps, i), steps[i].p;
            && a < j < k < i && steps[a].Start? && steps[a].creationValid
            && steps[j] == ReadTicket(p) && steps[k] == CheckInventory(p)
            && run[a].state == w.state && HashOf(run[i].state) == HashOf(w.state)
            && HashOf(run[i + 1].state) == Some(w.request.desired) && HashOf(run[i].state) != Some(w.request.desired)
            && Unlocked(run[i].state) && Unlocked(run[i + 1].state)
            && run[j].ticket.Some? && run[j].ticket.value.issue == w.ticket.issue
            && run[j].ticket.value.data == w.ticket.data
            && Grants(run[j].ticket.value, HashOf(run[i].state), w.request.desired, w.request.token, run[j].now)
            && run[k].clean && (run[a].state.Some? ==> !run[a].state.value.rollback)
  {
    var p := steps[i].p;
    RunKeepsInv(run, steps, i);
    assert ProcessInv(run[i], At(run[i], p));
    k := CheckedAt(run, steps, i, p);
    j := ReadAt(run, steps, k, p);
    a := StartedAt(run, steps, j, p);
  }

  /** The ticket of a call about to write was stored as consumed, by this call or before it. */
  lemma {:induction false} ConsumedAt(run: seq<Store>, steps: seq<Step>, i: nat, p: Pid) returns (m: nat)
    requires Run(run, steps) && i < |run| && At(run[i], p).Consumed?
    ensures m <= i && run[m].ticket == Some(At(run[i], p).ticket) && At(run[i], p).ticket.consumed == True
    decreases i
  {
    assert run[i] == Next(run[i - 1], steps[i - 1]);
    if steps[i - 1] != Consume(p) {
      m := ConsumedAt(run, steps, i - 1, p);
    } else if At(run[i - 1], p).ticket.consumed != True {
      m := i;
    } else {
      var k := CheckedExactly(run, steps, i - 1, p);
      m := ReadAt(run, steps, k, p);
    }
  }

  lemma {:induction false} CheckedExactly(run: seq<Store>, steps: seq<Step>, i: nat, p: Pid) returns (k: nat)
    requires Run(run, steps) && i < |run| && At(run[i], p).FoundClean?
    ensures k < i && At(run[k], p).Validated? && At(run[k], p).ticket == At(run[i], p).ticket
    decreases i
  {
    assert run[i] == Next(run[i - 1], steps[i - 1]);
    if steps[i - 1] == CheckInventory(p) {
      k := i - 1;
    } else {
      k := CheckedExactly(run, steps, i - 1, p);
    }
  }

  /** No state is written under a ticket that had not been stored as consumed. */
  lemma ConsumedBeforeWritten(run: seq<Store>, steps: seq<Step>, i: nat) returns (m: nat)
    requires Run(run, steps) && i < |steps| && Writes(run, steps, i)
    ensures m <= i && run[m].ticket == Some(Writer(run, steps, i).ticket) && run[m].ticket.value.consumed == True
  {
    m := ConsumedAt(run, steps, i, steps[i].p);
  }

  /** An admission that ends deletes the ticket it used and no other: a newly issued one survives. */
  lemma OnlyTheUsedTicketIsDeleted(run: seq<Store>, steps: seq<Step>, i: nat)
    requires Run(run, steps) && i < |steps| && steps[i].DeleteTicket?
    requires run[i].ticket.Some? && run[i + 1].ticket.None?
    ensures run[i].ticket == Some(At(run[i], steps[i].p).ticket)
  {
    RunKeepsInv(run, steps, i);
    assert ProcessInv(run[i], At(run[i], steps[i].p));
  }

  // ---- the lock ----------------------------------------------------------------------------

  lemma LockedStep(s: Store, step: Step)
    requires Inv(s) && Enabled(s, step) && !Unlocked(s.state) && step != Lock(false)
    ensures Next(s, step).state == s.state || (step == Lock(true) && HashOf(Next(s, step).state) == HashOf(s.state))
    ensures !Unlocked(Next(s, step).state)
  {
    if step.WriteState? {
      assert ProcessInv(s, At(s, step.p));
    }
  }

  /** From the lock to its lifting the hash stays as it is, whatever calls were under way. */
  lemma {:induction false} LockHolds(run: seq<Store>, steps: seq<Step>, i: nat, j: nat)
    requires Run(run, steps) && i <= j < |run| && !Unlocked(run[i].state)
    requires forall k :: i <= k < j ==> steps[k] != Lock(false)
    ensures HashOf(run[j].state) == HashOf(run[i].state) && !Unlocked(run[j].state)
    decreases j
  {
    hide Enabled, Next, ProcessInv, Issued;
    if i < j {
      LockHolds(run, steps, i, j - 1);
      RunKeepsInv(run, steps, j - 1);
      LockedStep(run[j - 1], steps[j - 1]);
    }
  }

  // ---- an admission that goes through ------------------------------------------------------

  /** The store after some steps, if each of them is possible. */
  function After(s: Store, steps: seq<Step>): Option<Store>
    decreases |steps|
  {
    if steps == [] then Some(s)
    else if Enabled(s, steps[0]) then After(Next(s, steps[0]), steps[1..]) else None
  }

  lemma AfterOne(s: Store, step: Step, rest: seq<Step>)
    requires Enabled(s, step)
    ensures After(s, [step] + rest) == After(Next(s, step), rest)
  {
    hide Enabled, Next;
    assert ([step] + rest)[1..] == rest;
  }

  /** From the reading of the state to the deletion of the ticket, with nobody in between. */
  function Admission(p: Pid, request: Request): seq<Step> {
    [Start(p, request, true)] + ([ReadTicket(p)] + ([CheckInventory(p)] +
      ([Consume(p)] + ([WriteState(p)] + ([DeleteTicket(p)] + [])))))
  }

  lemma ReadsAndChecks(s: Store, p: Pid, request: Request)
    requires Inv(s) && At(s, p).Idle? && s.clean && HashOf(s.state) != Some(request.desired)
    requires Admissible(s.state, s.ticket, request.desired, request.token, s.now)
    ensures Enabled(s, Start(p, request, true))
    ensures var s1 := Next(s, Start(p, request, true));
            && Enabled(s1, ReadTicket(p))
            && var s2 := Next(s1, ReadTicket(p));
               && Enabled(s2, CheckInventory(p))
               && var s3 := Next(s2, CheckInventory(p));
                  && s3.state == s.state && s3.ticket == s.ticket && s3.issued == s.issued
                  && At(s3, p) == FoundClean(request, s.state, s.ticket.value)
  {
  }

  lemma ConsumesAndWrites(s: Store, p: Pid)
    requires At(s, p).FoundClean? && At(s, p).state == s.state && s.ticket == Some(At(s, p).ticket)
    ensures Enabled(s, Consume(p))
    ensures var s1 := Next(s, Consume(p));
            && Enabled(s1, WriteState(p))
            && var s2 := Next(s1, WriteState(p));
               && Enabled(s2, DeleteTicket(p))
               && var s3 := Next(s2, DeleteTicket(p));
                  && HashOf(s3.state) == Some(At(s, p).request.desired) && Unlocked(s3.state) && s3.ticket.None?
                  && At(s3, p).Idle?
                  && s3.issued == s.issued
  {
  }

  /** An admissible change is carried out by a call that nothing disturbs, also with a ticket consumed before. */
  lemma AdmissionGoesThrough(s: Store, p: Pid, request: Request)
    requires Inv(s) && At(s, p).Idle? && s.clean && HashOf(s.state) != Some(request.desired)
    requires Admissible(s.state, s.ticket, request.desired, request.token, s.now)
    ensures var last := After(s, Admission(p, request));
            && last.Some? && HashOf(last.value.state) == Some(request.desired) && Unlocked(last.value.state)
            && last.value.ticket.None? && At(last.value, p).Idle?
  {
    ReadsAndChecks(s, p, request);
    hide Enabled, Next, Inv, Admissible;
    var s1 := Next(s, Start(p, request, true));
    var s2 := Next(s1, ReadTicket(p));
    var s3 := Next(s2, CheckInventory(p));
    ConsumesAndWrites(s3, p);
    var s4 := Next(s3, Consume(p));
    var s5 := Next(s4, WriteState(p));
    AfterOne(s5, DeleteTicket(p), []);
    AfterOne(s4, WriteState(p), [DeleteTicket(p)] + []);
    AfterOne(s3, Consume(p), [WriteState(p)] + ([DeleteTicket(p)] + []));
    AfterOne(s2, CheckInventory(p), [Consume(p)] + ([WriteState(p)] + ([DeleteTicket(p)] + [])));
    AfterOne(s1, ReadTicket(p), [CheckInventory(p)] + ([Consume(p)] + ([WriteState(p)] + ([DeleteTicket(p)] + []))));
    AfterOne(s, Start(p, request, true), [ReadTicket(p)] + ([CheckInventory(p)] +
      ([Consume(p)] + ([WriteState(p)] + ([DeleteTicket(p)] + [])))));
  }

  /** A call that consumed its ticket and crashed before the write can be made again with the same ticket. */
  lemma CrashIsRecovered(s: Store, p: Pid, request: Request)
    requires Inv(s) && At(s, p).Consumed? && s.clean && HashOf(s.state) != Some(request.desired)
    requires Admissible(s.state, s.ticket, request.desired, request.token, s.now)
    ensures var last := After(s, [Crash(p)] + Admission(p, request));
            last.Some? && HashOf(last.value.state) == Some(request.desired) && last.value.ticket.None?
  {
    StepKeepsInv(s, Crash(p));
    AfterOne(s, Crash(p), Admission(p, request));
    AdmissionGoesThrough(Next(s, Crash(p)), p, request);
    hide After, Admission;
  }

  /** A new ticket from the operator, and then the change. */
  lemma NewTicketAdmits(s: Store, p: Pid, request: Request)
    requires Inv(s) && At(s, p).Idle? && s.clean && Unlocked(s.state) && request.token != ""
    requires HashOf(s.state) != Some(request.desired)
    ensures var data := Data(request.desired, Named(HashOf(s.state)), request.token, true, Some(s.now));
            var last := After(s, [IssueTicket(data, Unset)] + Admission(p, request));
            && last.Some? && HashOf(last.value.state) == Some(request.desired) && last.value.ticket.None?
            && last.value.issued == s.issued + [data]
  {
    var data := Data(request.desired, Named(HashOf(s.state)), request.token, true, Some(s.now));
    var step := IssueTicket(data, Unset);
    StepKeepsInv(s, step);
    AfterOne(s, step, Admission(p, request));
    AdmissionGoesThrough(Next(s, step), p, request);
    AdmissionKeepsIssued(Next(s, step), p, request);
    hide After, Admission;
  }

  lemma {:induction false} AfterIssues(s: Store, steps: seq<Step>)
    requires After(s, steps).Some? && forall i :: 0 <= i < |steps| ==> !steps[i].IssueTicket?
    ensures After(s, steps).value.issued == s.issued
    decreases |steps|
  {
    if steps != [] {
      assert Next(s, steps[0]).issued == s.issued;
      hide Next, Enabled;
      AfterIssues(Next(s, steps[0]), steps[1..]);
    }
  }

  lemma AdmissionKeepsIssued(s: Store, p: Pid, request: Request)
    requires After(s, Admission(p, request)).Some?
    ensures After(s, Admission(p, request)).value.issued == s.issued
  {
    AfterIssues(s, Admission(p, request));
  }

  // ---- no ticket authorises two changes ----------------------------------------------------

  lemma {:induction false} VersionsGrow(run: seq<Store>, steps: seq<Step>, i: nat, j: nat)
    requires Run(run, steps) && i <= j < |run|
    ensures run[i].next <= run[j].next && run[i].issued <= run[j].issued
    ensures run[i].state.Some? ==> run[j].state.Some? && run[i].state.value.version <= run[j].state.value.version
    decreases j
  {
    hide Next, Enabled, ProcessInv, Issued;
    if i < j {
      VersionsGrow(run, steps, i, j - 1);
      RunKeepsInv(run, steps, j - 1);
      StepGrows(run[j - 1], steps[j - 1]);
    }
  }

  lemma {:induction false} IssuesGrow(run: seq<Store>, steps: seq<Step>, i: nat, j: nat)
    requires Run(run, steps) && i <= j < |run| && run[i].ticket.Some? && run[j].ticket.Some?
    ensures run[i].ticket.value.issue <= run[j].ticket.value.issue
    decreases j
  {
    hide Next, Enabled, ProcessInv;
    if i < j {
      RunKeepsInv(run, steps, i);
      RunKeepsInv(run, steps, j - 1);
      VersionsGrow(run, steps, i, j - 1);
      if steps[j - 1].IssueTicket? {
        NewIssue(run[j - 1], steps[j - 1]);
      } else {
        SameIssue(run[j - 1], steps[j - 1]);
        IssuesGrow(run, steps, i, j - 1);
      }
    }
  }

  lemma NewIssue(s: Store, step: Step)
    requires Enabled(s, step) && step.IssueTicket?
    ensures Next(s, step).ticket.Some? && Next(s, step).ticket.value.issue == |s.issued|
  {
  }

  lemma SameIssue(s: Store, step: Step)
    requires Inv(s) && Enabled(s, step) && !step.IssueTicket? && Next(s, step).ticket.Some?
    ensures s.ticket.Some? && s.ticket.value.issue == Next(s, step).ticket.value.issue
  {
    if step.Consume? {
      assert ProcessInv(s, At(s, step.p));
    }
  }

  /** Between two writes nothing moves the hash. */
  lemma {:induction false} HashStays(run: seq<Store>, steps: seq<Step>, i: nat, j: nat)
    requires Run(run, steps) && i <= j < |run| && forall m :: i <= m < j ==> !Writes(run, steps, m)
    ensures HashOf(run[j].state) == HashOf(run[i].state)
    decreases j
  {
    if i < j {
      HashStays(run, steps, i, j - 1);
      if HashOf(run[j].state) != HashOf(run[j - 1].state) {
        OnlyWritesChangeTheHash(run, steps, j - 1);
      }
    }
  }

  /** A call whose write still fits read the state after the last write, and its ticket after that. */
  lemma LaterTicket(run: seq<Store>, steps: seq<Step>, i: nat, j: nat)
    requires Run(run, steps) && i < j < |steps| && Writes(run, steps, i) && Writes(run, steps, j)
    ensures Writer(run, steps, i).ticket.issue <= Writer(run, steps, j).ticket.issue
  {
    var _, bi, _ := ChangeIsAuthorised(run, steps, i);
    var a, b, _ := ChangeIsAuthorised(run, steps, j);
    VersionsGrow(run, steps, i + 1, j);
    RunKeepsInv(run, steps, a);
    if a <= i {
      VersionsGrow(run, steps, a, i);
    }
    assert i < a;
    IssuesGrow(run, steps, bi, b);
  }

  lemma NextTicket(run: seq<Store>, steps: seq<Step>, i: nat, j: nat)
    requires Run(run, steps) && i < j < |steps| && Writes(run, steps, i) && Writes(run, steps, j)
    requires forall m :: i < m < j ==> !Writes(run, steps, m)
    ensures Writer(run, steps, i).ticket.issue != Writer(run, steps, j).ticket.issue
  {
    HashStays(run, steps, i + 1, j);
    RunKeepsInv(run, steps, i);
    RunKeepsInv(run, steps, j);
    VersionsGrow(run, steps, i, j);
    var wi, wj := Writer(run, steps, i), Writer(run, steps, j);
    assert ProcessInv(run[i], wi) && ProcessInv(run[j], wj);
    assert HashOf(run[j].state) == Some(wi.request.desired) == Some(wi.ticket.data.configurationHash);
    assert HashOf(run[j].state) == HashOf(wj.state) != Some(wj.ticket.data.configurationHash);
  }

  /** The tickets that successive changes used were issued one after the other: none serves twice. */
  lemma {:induction false} NoTicketServesTwice(run: seq<Store>, steps: seq<Step>, i: nat, j: nat)
    requires Run(run, steps) && i < j < |steps| && Writes(run, steps, i) && Writes(run, steps, j)
    ensures Writer(run, steps, i).ticket.issue < Writer(run, steps, j).ticket.issue
    decreases j - i
  {
    LaterTicket(run, steps, i, j);
    if m :| i < m < j && Writes(run, steps, m) {
      NoTicketServesTwice(run, steps, i, m);
      NoTicketServesTwice(run, steps, m, j);
    } else {
      NextTicket(run, steps, i, j);
    }
  }
}
