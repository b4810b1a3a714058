/** controller/src/status.rs: what a Tenant status update computes from one reading of the Tenant. */
module TenantStatus {
  import opened Base

  datatype Intent = Intent(namespace: string, name: string, tenantUid: string)

  datatype Capability = Capability(available: bool, reason: string, namespace: string, namespaceUid: string,
                                   catalogUid: string, storageNamespaceUid: Option<string>)

  /** The CatalogCreate condition; its reason is the outcome of creation so far. */
  datatype Condition = Condition(ready: bool, reason: string, message: string, generation: int)

  /** The status fields these updates touch; `rest` stands for all others. */
  datatype Status = Status(observedGeneration: Option<int>, condition: Option<Condition>, intent: Option<Intent>,
                           capability: Option<Capability>, rest: int)

  datatype Tenant = Tenant(uid: string, name: string, version: nat, generation: int, spec: string,
                           deletion: Option<int>, finalizer: bool, published: Option<Status>) {
    /** An absent status reads as the default one. */
    function Fields(): Status {
      if published.Some? then published.value else NOTHING
    }
  }

  const NOTHING := Status(None, None, None, None, 0)

  const NO_CAPABILITY := Capability(false, "", "", "", "", None)

  datatype Op =
    | CloseWithoutIntent
    | Record(intent: Intent)
    | SetOutcome(intent: Intent, from: string, to: string)
    | RecordNamespaces(intent: Intent, namespaceUid: string, storageUid: Option<string>)

  predicate SameIdentity(original: Tenant, current: Tenant) {
    && current.uid != "" && current.uid == original.uid && current.generation == original.generation
    && current.spec == original.spec && current.deletion == original.deletion
  }

  function Outcome(s: Status): Option<string> {
    if s.condition.Some? then Some(s.condition.value.reason) else None
  }

  function DatabaseNamespace(name: string): string {
    "tenant-db-" + name
  }

  /** What each operation checks of the caller's Tenant before it reads or writes anything. */
  predicate MayBegin(op: Op, t: Tenant) {
    match op
    case CloseWithoutIntent => t.deletion.Some? && t.finalizer
    case Record(intent) =>
      t.deletion.None? && t.finalizer && intent == Intent(DatabaseNamespace(t.name), t.name, t.uid)
    case SetOutcome(intent, _, to) =>
      && t.Fields().intent == Some(intent) && t.finalizer
      && !((to == "Unknown" || to == "Preparing" || to == "Prepared") && t.deletion.Some?)
    case RecordNamespaces(_, _, _) => true
  }

  function WithCondition(s: Status, t: Tenant, ready: bool, reason: string, message: string): Status {
    s.(condition := Some(Condition(ready, reason, message, t.generation)))
  }

  /** The closure each operation hands to the update loop; no value where it returns an error. */
  function Mutate(op: Op, original: Tenant, s: Status): Option<Status> {
    match op
    case CloseWithoutIntent =>
      if s.intent.Some? || !(Outcome(s) == None || Outcome(s) == Some("Closed")) then None
      else Some(WithCondition(s, original, false, "Closed", "Tenant deletion forbids catalog CREATE"))
    case Record(intent) =>
      if s.intent.Some? && s.intent.value != intent then None
      else if s.intent.Some? then Some(s)
      else Some(WithCondition(s.(intent := Some(intent)), original, false, "Prepared",
                              "Catalog CREATE has not been issued"))
    case SetOutcome(intent, from, to) =>
      if s.intent != Some(intent) || Outcome(s) != Some(from) then None
      else Some(WithCondition(s, original, to == "Observed", to, "Catalog CREATE outcome"))
    case RecordNamespaces(intent, namespaceUid, storageUid) =>
      if s.intent != Some(intent) || Outcome(s) != Some("Preparing") then None
      else
        var c := if s.capability.Some? then s.capability.value else NO_CAPABILITY;
        if || c.catalogUid != "" || (c.namespaceUid != "" && c.namespaceUid != namespaceUid)
           || (c.storageNamespaceUid.Some? && c.storageNamespaceUid != storageUid)
        then None
        else
          var named := c.(namespace := intent.namespace, namespaceUid := namespaceUid,
                          storageNamespaceUid := storageUid, available := false, reason := "CatalogNotReady");
          Some(WithCondition(s.(capability := Some(named)), original, false, "Namespaced",
                             "Catalog namespace identities persisted before CREATE"))
  }

  datatype Plan = Refuse | Keep | Patch(status: Status)

  /** One round of the loop up to its patch: refused, nothing to change, or the status to write. */
  function Planned(op: Op, original: Tenant, current: Tenant): Plan {
    if !SameIdentity(original, current) then Refuse
    else
      var mutated := Mutate(op, original, current.Fields());
      if mutated.None? then Refuse
      else
        var status := mutated.value.(observedGeneration := Some(current.generation));
        if current.published == Some(status) || (current.published.None? && status == NOTHING) then Keep
        else Patch(status)
  }

  const RETRIES := 4

  class TenantApi {
    var stored: Option<Tenant>
    var next: nat
    /** Every stored value there has been, up to the present one. */
    ghost var history: seq<Option<Tenant>>

    /** No version is issued twice. */
    ghost predicate Valid()
      reads this
    {
      && history != [] && history[|history| - 1] == stored
      && (forall i :: 0 <= i < |history| && history[i].Some? ==> history[i].value.version < next)
      && forall i, j :: 0 <= i < j < |history| && history[i].Some? && history[j].Some? ==>
           history[i].value.version == history[j].value.version ==> history[i] == history[j]
    }

    /** Others act; the caller learns only that history is kept and versions stay unique. */
    method Interfere(ghost alone: bool)
      requires Valid()
      modifies this
      ensures Valid() && old(history) <= history && history != []
      ensures alone ==> stored == old(stored) && next == old(next)
    {
    }

    /** GET after others acted. */
    method Read(ghost alone: bool) returns (current: Option<Tenant>)
      requires Valid()
      modifies this
      ensures Valid() && old(history) <= history && current in history
    {
      Interfere(alone);
      current := stored;
    }

    /** PATCH of the status subresource, conditioned on the UID and version of an earlier reading. */
    method PatchStatus(current: Tenant, status: Status) returns (ok: bool)
      requires Valid() && Some(current) in history
      modifies this
      ensures Valid()
      ensures ok <==> old(stored) == Some(current)
      ensures ok ==> stored == Some(current.(published := Some(status), version := old(next)))
      ensures history == if ok then old(history) + [stored] else old(history)
      ensures old(history[|history| - 1] == stored) && (!ok ==> stored == old(stored))
    {
      ok := stored.Some? && stored.value.uid == current.uid && stored.value.version == current.version;
      if ok {
        stored := Some(stored.value.(published := Some(status), version := next));
        next := next + 1;
        history := history + [stored];
      }
    }

    /**
     * `mutate_status`: at most five rounds, each on a new reading, others acting in between.
     * Success rests on one reading `base` with the caller's identity: it had the wanted status
     * already, or the very value read was replaced by one that differs from it in the wanted status.
     * Undisturbed, the call succeeds unless the operation refuses, and the wanted status is stored.
     */
    method MutateStatus(op: Op, original: Tenant, ghost alone: bool)
      returns (ok: bool, ghost base: Tenant, ghost at: nat, ghost rounds: nat)
      requires Valid() && Some(original) in history
      modifies this
      ensures Valid() && old(history) <= history && rounds <= 5
      ensures ok ==> Some(base) in history && Planned(op, original, base) != Refuse
      ensures ok ==> base.uid == original.uid != "" && base.generation == original.generation
                     && base.spec == original.spec && base.deletion == original.deletion
      ensures alone && old(stored) == Some(original) ==>
                match Planned(op, original, original)
                case Refuse => !ok && stored == old(stored)
                case Keep => ok && stored == old(stored)
                case Patch(status) => ok && stored == Some(original.(published := Some(status), version := old(next)))
      ensures ok && Planned(op, original, base).Patch? ==>
                && |old(history)| <= at + 1 < |history| && history[at] == Some(base)
                && history[at + 1].Some?
                && history[at + 1].value == base.(published := Some(Planned(op, original, base).status),
                                                  version := history[at + 1].value.version)
    {
      hide Planned, SameIdentity, Valid;
      var current := original;
      base, at, rounds := original, 0, 0;
      for attempt := 0 to RETRIES + 1
        invariant Valid() && old(history) <= history
        invariant base == current && Some(base) in history && rounds == attempt
        invariant alone && old(stored) == Some(original) ==>
                    attempt == 0 && current == original && stored == old(stored) && next == old(next)
      {
        rounds := rounds + 1;
        var plan := Planned(op, original, current);
        if plan == Refuse {
          return false, base, at, rounds;
        }
        SamePlan(op, original, current);
        if plan == Keep {
          return true, base, at, rounds;
        }
        Interfere(alone);
        at := |history| - 1;
        var patched := PatchStatus(current, plan.status);
        if patched {
          return true, base, at, rounds;
        }
        if attempt == RETRIES {
          return false, base, at, rounds;
        }
        var latest := Read(alone);
        if latest.None? {
          return false, base, at, rounds;
        }
        current := latest.value;
        base := current;
      }
      return false, base, at, rounds;
    }
  }

  lemma SamePlan(op: Op, original: Tenant, current: Tenant)
    ensures Planned(op, original, current) != Refuse ==>
              && current.uid == original.uid != "" && current.generation == original.generation
              && current.spec == original.spec && current.deletion == original.deletion
  {
  }
}

/** Any number of such updates, the Tenant's deletion and other writers, interleaved. */
module IntentRuns {
  import opened Base
  import opened TenantStatus

  type CallId = nat

  datatype Call =
    | Idle
    | Holding(tenant: Tenant)                                            // read, nothing begun
    | Active(op: Op, original: Tenant, current: Tenant, attempt: nat)
    | Conflicted(op: Op, original: Tenant, attempt: nat)                 // refused with 409, must read again

  /** The Tenant as last stored; once `gone` it answers no more reads or writes. */
  datatype Server = Server(stored: Tenant, gone: bool, next: nat, calls: map<CallId, Call>)

  function At(s: Server, c: CallId): Call {
    if c in s.calls then s.calls[c] else Idle
  }

  function Set(s: Server, c: CallId, call: Call): Server {
    s.(calls := s.calls[c := call])
  }

  function Write(s: Server, t: Tenant): Server {
    s.(stored := t.(version := s.next), next := s.next + 1)
  }

  datatype Step =
    | Read(c: CallId)
    | Begin(c: CallId, op: Op)
    | Attempt(c: CallId)
    | Lost(c: CallId)                     // the patch arrives but its answer does not
    | Retry(c: CallId)
    | RequestDeletion(time: int)
    | Touch(rest: int, capability: Option<Capability>, generation: Option<int>, finalizer: bool)   // every other writer
    | Vanish

  predicate Fits(s: Server, t: Tenant) {
    !s.gone && s.stored.uid == t.uid && s.stored.version == t.version
  }

  function Plan(s: Server, c: CallId): TenantStatus.Plan
    requires At(s, c).Active?
  {
    Planned(At(s, c).op, At(s, c).original, At(s, c).current)
  }

  /** The call's next round patches the stored Tenant. */
  predicate Patches(s: Server, c: CallId) {
    At(s, c).Active? && Plan(s, c).Patch? && Fits(s, At(s, c).current)
  }

  predicate Enabled(s: Server, step: Step) {
    match step
    case Read(c) => At(s, c).Idle? && !s.gone
    case Begin(c, op) => At(s, c).Holding? && MayBegin(op, At(s, c).tenant)
    case Attempt(c) => At(s, c).Active?
    case Lost(c) => Patches(s, c)
    case Retry(c) => At(s, c).Conflicted? && !s.gone
    case RequestDeletion(_) => !s.gone && s.stored.deletion.None?
    case Touch(_, _, _, _) => !s.gone
    case Vanish => !s.gone && s.stored.deletion.Some?
  }

  function Next(s: Server, step: Step): Server
    requires Enabled(s, step)
  {
    match step
    case Read(c) => Set(s, c, Holding(s.stored))
    case Begin(c, op) => Set(s, c, Active(op, At(s, c).tenant, At(s, c).tenant, 0))
    case Attempt(c) =>
      if Patches(s, c) then Write(Set(s, c, Idle), s.stored.(published := Some(Plan(s, c).status)))
      else if Plan(s, c).Patch? && At(s, c).attempt < RETRIES
      then Set(s, c, Conflicted(At(s, c).op, At(s, c).original, At(s, c).attempt))
      else Set(s, c, Idle)
    case Lost(c) => Write(Set(s, c, Idle), s.stored.(published := Some(Plan(s, c).status)))
    case Retry(c) => Set(s, c, Active(At(s, c).op, At(s, c).original, s.stored, At(s, c).attempt + 1))
    case RequestDeletion(time) => Write(s, s.stored.(deletion := Some(time), generation := s.stored.generation + 1))
    case Touch(rest, capability, generation, finalizer) =>
      Write(s, s.stored.(finalizer := finalizer,
                         published := Some(s.stored.Fields().(rest := rest, capability := capability,
                                                              observedGeneration := generation))))
    case Vanish => s.(gone := true)
  }

  /** A Tenant as created: not deleting, no intent, no outcome; nobody has read it. */
  ghost predicate Created(s: Server) {
    && s.calls == map[] && !s.gone && s.stored.version < s.next && s.stored.deletion.None?
    && s.stored.Fields().intent.None? && s.stored.Fields().condition.None?
  }

  ghost predicate Run(run: seq<Server>, steps: seq<Step>) {
    && |run| == |steps| + 1 && Created(run[0])
    && forall i :: 0 <= i < |steps| ==> Enabled(run[i], steps[i]) && run[i + 1] == Next(run[i], steps[i])
  }

  /** The call `op` returns success at step `i`. */
  predicate Succeeds(run: seq<Server>, steps: seq<Step>, i: nat, op: Op)
    requires i < |steps| < |run|
  {
    && steps[i].Attempt? && At(run[i], steps[i].c).Active? && At(run[i], steps[i].c).op == op
    && (Plan(run[i], steps[i].c) == Keep || Patches(run[i], steps[i].c))
  }

  // ---- the invariant -----------------------------------------------------------------------

  /** Creation was closed without an intent, which only happens to a Tenant being deleted. */
  predicate Closed(t: Tenant) {
    t.Fields().intent.None? && Outcome(t.Fields()) == Some("Closed")
  }

  predicate Sound(t: Tenant) {
    && (Closed(t) ==> t.deletion.Some?)
    && (t.Fields().intent.None? ==> Outcome(t.Fields()) == None || Outcome(t.Fields()) == Some("Closed"))
  }

  /** What an earlier value of the Tenant still says about a later one. */
  predicate Later(earlier: Tenant, later: Tenant) {
    && (earlier.deletion.Some? ==> later.deletion == earlier.deletion)
    && (earlier.Fields().intent.Some? ==> later.Fields().intent == earlier.Fields().intent)
    && (Closed(earlier) ==> Closed(later))
    && (earlier.version == later.version ==> earlier == later)
  }

  predicate PastReading(s: Server, t: Tenant) {
    Sound(t) && t.version < s.next && Later(t, s.stored)
  }

  predicate CallInv(s: Server, call: Call) {
    match call
    case Idle => true
    case Holding(t) => PastReading(s, t)
    case Active(op, original, current, _) =>
      PastReading(s, original) && PastReading(s, current) && MayBegin(op, original)
    case Conflicted(op, original, _) => PastReading(s, original) && MayBegin(op, original)
  }

  ghost predicate Inv(s: Server) {
    PastReading(s, s.stored) && forall c :: CallInv(s, At(s, c))
  }

  /** A write that a call makes follows from the value it replaces. */
  lemma WriteFollows(op: Op, original: Tenant, t: Tenant, next: nat)
    requires Sound(t) && t.version < next && MayBegin(op, original) && Planned(op, original, t).Patch?
    ensures var written := t.(published := Some(Planned(op, original, t).status), version := next);
            Sound(written) && Later(t, written)
  {
  }

  lemma LaterTransitive(a: Tenant, b: Tenant, c: Tenant)
    requires Later(a, b) && Later(b, c) && a.version < c.version
    ensures Later(a, c)
  {
  }

  lemma SameVersion(s: Server, t: Tenant)
    requires PastReading(s, t) && Fits(s, t)
    ensures s.stored == t
  {
  }

  lemma OthersFollow(s: Server, step: Step)
    requires Inv(s) && Enabled(s, step) && (step.RequestDeletion? || step.Touch?)
    ensures Sound(Next(s, step).stored) && Later(s.stored, Next(s, step).stored)
  {
  }

  ghost predicate Follows(s: Server, s': Server) {
    && s.next <= s'.next
    && (s'.stored == s.stored
        || (s'.stored.version == s.next < s'.next && Sound(s'.stored) && Later(s.stored, s'.stored)))
  }

  lemma StoredAfter(s: Server, step: Step)
    requires Inv(s) && Enabled(s, step)
    ensures Follows(s, Next(s, step))
  {
    hide Planned, Sound, Later, MayBegin;
    if step.Lost? || (step.Attempt? && Patches(s, step.c)) {
      var call := At(s, step.c);
      assert CallInv(s, call);
      SameVersion(s, call.current);
      WriteFollows(call.op, call.original, s.stored, s.next);
    } else if step.RequestDeletion? || step.Touch? {
      OthersFollow(s, step);
    }
  }

  lemma PastStays(s: Server, s': Server, t: Tenant)
    requires Follows(s, s') && PastReading(s, t)
    ensures PastReading(s', t)
  {
    if s'.stored != s.stored {
      LaterTransitive(t, s.stored, s'.stored);
    }
  }

  lemma CallStays(s: Server, step: Step, c: CallId)
    requires Inv(s) && Enabled(s, step) && Follows(s, Next(s, step))
    ensures CallInv(Next(s, step), At(Next(s, step), c))
  {
    hide Planned, Sound, Later, MayBegin, PastReading, Follows;
    var s' := Next(s, step);
    assert CallInv(s, At(s, c));
    PastStays(s, s', s.stored);
    match At(s, c)
    case Idle =>
    case Holding(t) => PastStays(s, s', t);
    case Active(_, original, current, _) => PastStays(s, s', original); PastStays(s, s', current);
    case Conflicted(_, original, _) => PastStays(s, s', original);
  }

  lemma StepKeepsInv(s: Server, step: Step)
    requires Inv(s) && Enabled(s, step)
    ensures Inv(Next(s, step))
  {
    hide Enabled, Next, CallInv, Closed;
    StoredAfter(s, step);
    PastStays(s, Next(s, step), s.stored);
    forall c ensures CallInv(Next(s, step), At(Next(s, step), c)) {
      CallStays(s, step, c);
    }
  }

  lemma {:induction false} RunKeepsInv(run: seq<Server>, steps: seq<Step>, i: nat)
    requires Run(run, steps) && i < |run|
    ensures Inv(run[i])
    decreases i
  {
    if i > 0 {
      RunKeepsInv(run, steps, i - 1);
      StepKeepsInv(run[i - 1], steps[i - 1]);
    }
  }

  // ---- what every run keeps ----------------------------------------------------------------

  lemma {:induction false} LaterAlong(run: seq<Server>, steps: seq<Step>, i: nat, j: nat)
    requires Run(run, steps) && i <= j < |run|
    ensures PastReading(run[j], run[i].stored)
    decreases j
  {
    if i < j {
      RunKeepsInv(run, steps, j - 1);
      StoredAfter(run[j - 1], steps[j - 1]);
      LaterAlong(run, steps, i, j - 1);
      PastStays(run[j - 1], run[j], run[i].stored);
    } else {
      RunKeepsInv(run, steps, i);
    }
  }

  /** A recorded intent never changes and is never removed. */
  lemma IntentNeverChanges(run: seq<Server>, steps: seq<Step>, i: nat, j: nat)
    requires Run(run, steps) && i <= j < |run| && run[i].stored.Fields().intent.Some?
    ensures run[j].stored.Fields().intent == run[i].stored.Fields().intent
  {
    LaterAlong(run, steps, i, j);
  }

  /** What a successful call leaves behind: the creation closed, or the intent recorded. */
  lemma SuccessMeans(run: seq<Server>, steps: seq<Step>, i: nat, op: Op)
    requires Run(run, steps) && i < |steps| && Succeeds(run, steps, i, op)
    ensures op == CloseWithoutIntent ==> Closed(run[i + 1].stored)
    ensures op.Record? ==> run[i + 1].stored.Fields().intent == Some(op.intent)
  {
    RunKeepsInv(run, steps, i);
    var call := At(run[i], steps[i].c);
    assert CallInv(run[i], call);
    if Patches(run[i], steps[i].c) {
      SameVersion(run[i], call.current);
    }
  }

  /** Once creation was closed without an intent, the Tenant never had one and never will. */
  lemma ClosedForGood(run: seq<Server>, steps: seq<Step>, i: nat, j: nat)
    requires Run(run, steps) && i < |steps| && j < |run| && Succeeds(run, steps, i, CloseWithoutIntent)
    ensures run[j].stored.Fields().intent.None?
  {
    SuccessMeans(run, steps, i, CloseWithoutIntent);
    if i + 1 <= j {
      LaterAlong(run, steps, i + 1, j);
    } else {
      LaterAlong(run, steps, j, i + 1);
    }
  }

  /** At most one of closing and recording ever succeeds, whatever their order. */
  lemma DecidedOnce(run: seq<Server>, steps: seq<Step>, i: nat, j: nat, intent: Intent)
    requires Run(run, steps) && i < |steps| && j < |steps|
    ensures !(Succeeds(run, steps, i, CloseWithoutIntent) && Succeeds(run, steps, j, Record(intent)))
  {
    if Succeeds(run, steps, j, Record(intent)) {
      SuccessMeans(run, steps, j, Record(intent));
      if Succeeds(run, steps, i, CloseWithoutIntent) {
        ClosedForGood(run, steps, i, j + 1);
      }
    }
  }

  // ---- what a call began with, and what it writes ------------------------------------------

  function FirstReading(call: Call): Option<Tenant> {
    match call
    case Idle => None
    case Holding(t) => Some(t)
    case Active(_, original, _, _) => Some(original)
    case Conflicted(_, original, _) => Some(original)
  }

  /** What a call holds as its first reading was stored when it read it. */
  lemma {:induction false} ReadBefore(run: seq<Server>, steps: seq<Step>, i: nat, c: CallId) returns (j: nat)
    requires Run(run, steps) && i < |run| && FirstReading(At(run[i], c)).Some?
    ensures j < i && steps[j] == Read(c) && run[j].stored == FirstReading(At(run[i], c)).value
    decreases i
  {
    hide Planned, MayBegin;
    assert i > 0 && Enabled(run[i - 1], steps[i - 1]) && run[i] == Next(run[i - 1], steps[i - 1]);
    if steps[i - 1] == Read(c) {
      j := i - 1;
    } else {
      j := ReadBefore(run, steps, i - 1, c);
    }
  }

  /**
   * A call that succeeds began with a stored Tenant that allowed it: deleting and finalized for closing; not
   * deleting, finalized and under its own names for recording; with this intent for an outcome, and no way back
   * to an early one once the Tenant is deleting.
   */
  lemma SuccessBeganWith(run: seq<Server>, steps: seq<Step>, i: nat, op: Op) returns (j: nat)
    requires Run(run, steps) && i < |steps| && Succeeds(run, steps, i, op)
    ensures j < i && steps[j] == Read(steps[i].c)
    ensures var t := run[j].stored;
            match op
            case CloseWithoutIntent => t.deletion.Some? && t.finalizer
            case Record(intent) =>
              && t.deletion.None? && t.finalizer && intent.namespace == "tenant-db-" + t.name
              && intent.name == t.name && intent.tenantUid == t.uid
            case SetOutcome(intent, _, to) =>
              && t.finalizer && t.published.Some? && t.published.value.intent == Some(intent)
              && (t.deletion.Some? ==> to != "Unknown" && to != "Preparing" && to != "Prepared")
            case RecordNamespaces(_, _, _) => true
  {
    RunKeepsInv(run, steps, i);
    assert CallInv(run[i], At(run[i], steps[i].c));
    j := ReadBefore(run, steps, i, steps[i].c);
    hide Planned, Run;
  }

  /**
   * A write replaces exactly the value it was computed from, under the same identity. It touches the intent,
   * the CatalogCreate condition and the observed generation, for namespaces the capability, and nothing else.
   */
  lemma WriteIsExact(run: seq<Server>, steps: seq<Step>, i: nat)
    requires Run(run, steps) && i < |steps| && steps[i].Attempt? && Patches(run[i], steps[i].c)
    ensures var call, before, after := At(run[i], steps[i].c), run[i].stored, run[i + 1].stored;
            var past, written := before.Fields(), after.Fields();
            && after == before.(published := Some(written), version := after.version)
            && before.uid == call.original.uid && before.generation == call.original.generation
            && before.spec == call.original.spec && before.deletion == call.original.deletion
            && written.rest == past.rest && (!call.op.RecordNamespaces? ==> written.capability == past.capability)
            && written.observedGeneration == Some(before.generation)
            && match call.op
               case CloseWithoutIntent =>
                 && past.intent == None == written.intent && (Outcome(past) == None || Outcome(past) == Some("Closed"))
                 && Shows(written, false, "Closed", before.generation)
               case Record(intent) =>
                 && written.intent == Some(intent)
                 && if past.intent == None then Shows(written, false, "Prepared", before.generation)
                    else past.intent == Some(intent) && written.condition == past.condition
               case SetOutcome(intent, from, to) =>
                 && past.intent == Some(intent) == written.intent && Outcome(past) == Some(from)
                 && Shows(written, to == "Observed", to, before.generation)
               case RecordNamespaces(intent, namespaceUid, storageUid) =>
                 && past.intent == Some(intent) == written.intent && Outcome(past) == Some("Preparing")
                 && Shows(written, false, "Namespaced", before.generation)
                 && Unclaimed(past.capability, namespaceUid, storageUid)
                 && written.capability == Some(Capability(false, "CatalogNotReady", intent.namespace, namespaceUid, "",
                                                          storageUid))
  {
    RunKeepsInv(run, steps, i);
    var call := At(run[i], steps[i].c);
    assert CallInv(run[i], call);
    SameVersion(run[i], call.current);
  }

  /** No catalog and no other namespaces are on record. */
  predicate Unclaimed(c: Option<Capability>, namespaceUid: string, storageUid: Option<string>) {
    c.Some? ==>
      && c.value.catalogUid == "" && (c.value.namespaceUid == "" || c.value.namespaceUid == namespaceUid)
      && (c.value.storageNamespaceUid == None || c.value.storageNamespaceUid == storageUid)
  }

  /** Exactly when an operation refuses a reading. */
  lemma RefusedIff(op: Op, original: Tenant, t: Tenant)
    ensures Planned(op, original, t) == Refuse <==>
            || t.uid == "" || t.uid != original.uid || t.generation != original.generation
            || t.spec != original.spec || t.deletion != original.deletion
            || match op
               case CloseWithoutIntent =>
                 t.Fields().intent != None || Outcome(t.Fields()) !in {None, Some("Closed")}
               case Record(intent) => t.Fields().intent !in {None, Some(intent)}
               case SetOutcome(intent, from, _) =>
                 t.Fields().intent != Some(intent) || Outcome(t.Fields()) != Some(from)
               case RecordNamespaces(intent, namespaceUid, storageUid) =>
                 || t.Fields().intent != Some(intent) || Outcome(t.Fields()) != Some("Preparing")
                 || !Unclaimed(t.Fields().capability, namespaceUid, storageUid)
  {
  }

  // ---- conflicts and retries ---------------------------------------------------------------

  /** Somebody else writes, and the call's patch comes too late. */
  function Disturbed(s: Server, c: CallId): Server
    requires !s.gone && At(s, c).Active?
  {
    var touched := Next(s, Touch(0, None, None, s.stored.finalizer));
    Next(touched, Attempt(c))
  }

  /** A conflict makes a call read again, up to four times; the fifth ends it with nothing written by it. */
  lemma ConflictRound(s: Server, c: CallId)
    requires Inv(s) && !s.gone && At(s, c).Active? && Plan(s, c).Patch?
    ensures var call, after := At(s, c), Disturbed(s, c);
            && after.stored == Next(s, Touch(0, None, None, s.stored.finalizer)).stored && !after.gone
            && if call.attempt < 4
               then && At(after, c) == Conflicted(call.op, call.original, call.attempt)
                    && Enabled(after, Retry(c))
                    && At(Next(after, Retry(c)), c) == Active(call.op, call.original, after.stored, call.attempt + 1)
               else At(after, c) == Idle
  {
    hide Planned, MayBegin;
    assert CallInv(s, At(s, c));
    var touched := Next(s, Touch(0, None, None, s.stored.finalizer));
    assert touched.stored.version != At(s, c).current.version;
  }

  function Rounds(s: Server, c: CallId, n: nat): Server
    requires !s.gone && At(s, c).Active?
    decreases n
  {
    if n == 0 then s
    else
      var after := Disturbed(s, c);
      if Enabled(after, Retry(c)) then Rounds(Next(after, Retry(c)), c, n - 1) else after
  }

  /** What others write into their own fields does not make an operation refuse. */
  lemma StillPatches(op: Op, original: Tenant, t: Tenant, version: nat)
    requires Planned(op, original, t).Patch?
    ensures Planned(op, original, t.(published := Some(t.Fields().(rest := 0, capability := None,
                                                                     observedGeneration := None)),
                                     version := version)).Patch?
  {
  }

  lemma OneRound(s: Server, c: CallId)
    requires Inv(s) && !s.gone && At(s, c).Active? && At(s, c).attempt < 4 && At(s, c).current == s.stored
    requires Plan(s, c).Patch?
    ensures var after := Next(Disturbed(s, c), Retry(c));
            && Enabled(Disturbed(s, c), Retry(c)) && Inv(after) && !after.gone && At(after, c).Active?
            && At(after, c).attempt == At(s, c).attempt + 1 && At(after, c).op == At(s, c).op
            && At(after, c).original == At(s, c).original
            && At(after, c).current == after.stored && Plan(after, c).Patch?
  {
    ConflictRound(s, c);
    StillPatches(At(s, c).op, At(s, c).original, s.stored, s.next);
    hide Planned, MayBegin;
    var touch := Touch(0, None, None, s.stored.finalizer);
    StepKeepsInv(s, touch);
    StepKeepsInv(Next(s, touch), Attempt(c));
    StepKeepsInv(Disturbed(s, c), Retry(c));
    hide Inv;
  }

  /** Through up to four conflicts a call goes on and its next undisturbed patch is stored; a fifth ends it. */
  lemma {:induction false} LastsFourConflicts(s: Server, c: CallId, n: nat)
    requires Inv(s) && !s.gone && At(s, c).Active? && At(s, c).attempt + n <= 4 && At(s, c).current == s.stored
    requires Plan(s, c).Patch?
    ensures var last := Rounds(s, c, n);
            && !last.gone && At(last, c).Active? && At(last, c).attempt == At(s, c).attempt + n
            && At(last, c).op == At(s, c).op && Patches(last, c)
            && (At(last, c).attempt == 4 ==> At(Disturbed(last, c), c) == Idle)
    decreases n
  {
    hide Planned, MayBegin;
    if n == 0 {
      ConflictRound(s, c);
    } else {
      OneRound(s, c);
      hide Inv, Next, Disturbed, Enabled;
      LastsFourConflicts(Next(Disturbed(s, c), Retry(c)), c, n - 1);
    }
  }

  predicate Shows(s: Status, ready: bool, reason: string, generation: int) {
    && s.condition.Some? && s.condition.value.ready == ready && s.condition.value.reason == reason
    && s.condition.value.generation == generation
  }

  // ---- outcome updates as compare-and-set --------------------------------------------------

  /** At step `i` the stored outcome was `from` under this intent, and became `to`. */
  predicate SwapsAt(run: seq<Server>, i: nat, intent: Intent, from: string, to: string)
    requires i + 1 < |run|
  {
    && run[i].stored.Fields().intent == Some(intent) && Outcome(run[i].stored.Fields()) == Some(from)
    && Outcome(run[i + 1].stored.Fields()) == Some(to)
  }

  ghost predicate AlwaysSwaps(intent: Intent, from: string, to: string) {
    forall run: seq<Server>, steps: seq<Step>, i: nat ::
      Run(run, steps) && i < |steps| && Succeeds(run, steps, i, SetOutcome(intent, from, to)) ==>
        SwapsAt(run, i, intent, from, to)
  }

  lemma ProperSwap(run: seq<Server>, steps: seq<Step>, i: nat, intent: Intent, from: string, to: string)
    requires Run(run, steps) && i < |steps| && Succeeds(run, steps, i, SetOutcome(intent, from, to)) && from != to
    ensures SwapsAt(run, i, intent, from, to)
  {
    RunKeepsInv(run, steps, i);
    var call := At(run[i], steps[i].c);
    assert CallInv(run[i], call);
    assert Plan(run[i], steps[i].c).Patch?;
    SameVersion(run[i], call.current);
  }

  lemma Extend(run: seq<Server>, steps: seq<Step>, step: Step) returns (longer: seq<Server>, more: seq<Step>)
    requires Run(run, steps) && Enabled(run[|steps|], step)
    ensures Run(longer, more) && |more| == |steps| + 1 && more == steps + [step]
    ensures longer[|more|] == Next(run[|steps|], step) && longer[|steps|] == run[|steps|]
  {
    hide Enabled, Next;
    longer, more := run + [Next(run[|steps|], step)], steps + [step];
    forall i | 0 <= i < |more| ensures Enabled(longer[i], more[i]) && longer[i + 1] == Next(longer[i], more[i]) {
      if i < |steps| {
        assert longer[i] == run[i] && longer[i + 1] == run[i + 1] && more[i] == steps[i];
      }
    }
  }

  /** A call that reads, begins and patches undisturbed. */
  lemma Completes(run: seq<Server>, steps: seq<Step>, c: CallId, op: Op) returns (longer: seq<Server>, more: seq<Step>)
    requires Run(run, steps)
    requires var s := run[|steps|]; At(s, c).Idle? && !s.gone && MayBegin(op, s.stored)
    requires Planned(op, run[|steps|].stored, run[|steps|].stored).Patch?
    ensures Run(longer, more)
    ensures var s, last := run[|steps|], longer[|more|];
            && last.stored == s.stored.(published := Some(Planned(op, s.stored, s.stored).status), version := s.next)
            && !last.gone && At(last, c).Idle? && forall d :: d != c ==> At(last, d) == At(s, d)
  {
    hide Planned, MayBegin;
    var run1, steps1 := Extend(run, steps, Read(c));
    var run2, steps2 := Extend(run1, steps1, Begin(c, op));
    longer, more := Extend(run2, steps2, Attempt(c));
  }

  /** A Tenant with no intent, deleted, has its creation closed. */
  lemma ClosingHappens(uid: string, name: string)
    returns (run: seq<Server>, steps: seq<Step>)
    requires uid != ""
    ensures Run(run, steps) && Closed(run[|steps|].stored) && run[|steps|].stored.deletion.Some?
  {
    hide Planned, MayBegin;
    var t := Tenant(uid, name, 0, 1, "", None, true, None);
    run, steps := Extend([Server(t, false, 1, map[])], [], RequestDeletion(0));
    ClosingIsPlanned(run[|steps|].stored);
    run, steps := Completes(run, steps, 0, CloseWithoutIntent);
  }

  lemma ClosingIsPlanned(t: Tenant)
    requires t.uid != "" && t.deletion.Some? && t.finalizer && t.published.None?
    ensures MayBegin(CloseWithoutIntent, t) && Planned(CloseWithoutIntent, t, t).Patch?
    ensures Closed(t.(published := Some(Planned(CloseWithoutIntent, t, t).status)))
  {
  }

  /** A whole creation: intent, preparation, namespaces and the observed catalog, one call after another. */
  lemma CreationHappens(intent: Intent, namespaceUid: string, storageUid: Option<string>)
    returns (run: seq<Server>, steps: seq<Step>)
    requires intent.namespace == DatabaseNamespace(intent.name) && intent.tenantUid != ""
    ensures Run(run, steps)
    ensures var status := run[|steps|].stored.Fields();
            && status.intent == Some(intent) && Shows(status, true, "Observed", 1)
            && status.capability == Some(Capability(false, "CatalogNotReady", intent.namespace, namespaceUid, "",
                                                    storageUid))
  {
    var t := Tenant(intent.tenantUid, intent.name, 0, 1, "", None, true, None);
    run, steps := Completes([Server(t, false, 1, map[])], [], 0, Record(intent));
    run, steps := Completes(run, steps, 0, SetOutcome(intent, "Prepared", "Preparing"));
    run, steps := Completes(run, steps, 0, RecordNamespaces(intent, namespaceUid, storageUid));
    run, steps := Completes(run, steps, 0, SetOutcome(intent, "Namespaced", "Observed"));
  }

  /** With `from == to`, a call holding an old reading succeeds after the outcome has moved on. */
  lemma StaleNoOp(intent: Intent, outcome: string)
    requires intent.namespace == DatabaseNamespace(intent.name) && intent.tenantUid != ""
    ensures !AlwaysSwaps(intent, outcome, outcome)
  {
    var other := outcome + "?";
    var t := Tenant(intent.tenantUid, intent.name, 0, 1, "", None, true, None);
    var run0, steps0 := Completes([Server(t, false, 1, map[])], [], 0, Record(intent));
    var run1, steps1 := Completes(run0, steps0, 0, SetOutcome(intent, "Prepared", outcome));
    var run2, steps2 := Extend(run1, steps1, Read(1));
    var run3, steps3 := Completes(run2, steps2, 0, SetOutcome(intent, outcome, other));
    var run4, steps4 := Extend(run3, steps3, Begin(1, SetOutcome(intent, outcome, outcome)));
    var run, steps := Extend(run4, steps4, Attempt(1));
    var i := |steps4|;
    assert Plan(run[i], 1) == Keep;
    assert Succeeds(run, steps, i, SetOutcome(intent, outcome, outcome));
    assert Outcome(run[i].stored.Fields()) == Some(other) != Some(outcome);
  }

  /** For every recordable intent, success means an atomic compare-and-set exactly when the outcomes differ. */
  lemma SwapsIffOutcomesDiffer(intent: Intent, from: string, to: string)
    requires intent.namespace == DatabaseNamespace(intent.name) && intent.tenantUid != ""
    ensures AlwaysSwaps(intent, from, to) <==> from != to
  {
    if from == to {
      StaleNoOp(intent, from);
    } else {
      forall run: seq<Server>, steps: seq<Step>, i: nat
        | Run(run, steps) && i < |steps| && Succeeds(run, steps, i, SetOutcome(intent, from, to))
        ensures SwapsAt(run, i, intent, from, to)
      {
        ProperSwap(run, steps, i, intent, from, to);
      }
    }
  }
}
