/**
 * One catalog object shared by administrators, status writers and the Tenant's drain:
 * database-controller/src/status.rs and `drain_catalog` in database-runtime/src/catalog_runtime.rs.
 * Every controller write carries the version it was computed from.
 */
module CatalogRuns {
  import opened Base
  import opened Catalog

  type Actor = nat

  /** `owned`: name, namespace and the one owner reference are the ones the drain asks for. */
  datatype Object = Object(version: nat, spec: Spec, status: Option<Status>, owned: bool, finalizer: bool,
                           deleting: bool)

  /** The server: the object, if it still exists, the next version, and what each actor last read. */
  datatype Server = Server(stored: Option<Object>, next: nat, seen: map<Actor, Object>)

  /** `guard` and the write's own precondition: the object is still the one the actor read. */
  predicate Current(s: Server, a: Actor) {
    s.stored.Some? && a in s.seen && s.seen[a].version == s.stored.value.version
  }

  function Written(s: Server, o: Object): Server {
    s.(stored := Some(o.(version := s.next)), next := s.next + 1)
  }

  /** What every controller write asks of the catalog: the Tenant's own, with its finalizer, nobody deleting it. */
  predicate Drainable(o: Object) {
    o.owned && o.finalizer && !o.deleting
  }

  // ---- what the writers compute ------------------------------------------------------------

  /** `new_status`: a status for an entry that exists, or the removal of one that does not. */
  function NewStatus(o: Object, uid: string, next: Option<EntryStatus>): (r: Option<Status>)
    ensures r.Some? <==> if next.Some? then next.value.logicalUid == uid && uid in o.spec.entries
                         else uid !in o.spec.entries
    ensures r.Some? ==> forall other :: other != uid ==>
              (other in r.value.entries <==> o.status.Some? && other in o.status.value.entries)
              && (other in r.value.entries ==> r.value.entries[other] == o.status.value.entries[other])
    ensures r.Some? ==> (uid in r.value.entries <==> next.Some?)
                        && (next.Some? ==> r.value.entries[uid] == next.value)
  {
    var entries := if o.status.Some? then o.status.value.entries else map[];
    match next
    case Some(status) =>
      if status.logicalUid != uid || uid !in o.spec.entries then None else Some(Status(entries[uid := status]))
    case None =>
      if uid in o.spec.entries then None else Some(Status(entries - {uid}))
  }

  function Without(spec: Spec, uid: string): Spec {
    spec.(entries := spec.entries - {uid})
  }

  predicate Removable(o: Object, uid: string) {
    uid in o.spec.entries && o.spec.entries[uid].deleting && Proven(o.status, uid)
  }

  function ClosedSpec(spec: Spec): Spec {
    spec.(closed := true,
          entries := map uid | uid in spec.entries :: spec.entries[uid].(deleting := true))
  }

  predicate AllDeleting(spec: Spec) {
    forall uid :: uid in spec.entries ==> spec.entries[uid].deleting
  }

  predicate StatusEmpty(status: Option<Status>) {
    status.Some? ==> status.value.entries == map[]
  }

  // ---- the machine -------------------------------------------------------------------------

  datatype Step =
    | Read(a: Actor)
    | Edit(spec: Spec)                                             // any administrator, through admission
    | UpdateStatus(a: Actor, uid: string, status: Option<EntryStatus>)
    | RemoveSpec(a: Actor, uid: string)
    | Close(a: Actor)
    | Unfinalize(a: Actor)
    | Delete(a: Actor)
    | RequestDeletion                                              // anyone's DELETE call

  ghost predicate Admits(o: Object, next: Spec) {
    TransitionAllowed(o.spec, o.status, next)
  }

  /** The schema bound on a stored status and the rule on its entries. */
  ghost predicate StatusAdmitted(status: Status) {
    |status.entries| <= DATABASE_LIMIT && StatusRule(status)
  }

  ghost predicate Enabled(s: Server, step: Step) {
    && s.stored.Some?
    && var o := s.stored.value;
       match step
       case Read(_) => true
       case Edit(spec) => Admits(o, spec)
       case UpdateStatus(a, uid, status) =>
         && Current(s, a) && Drainable(s.seen[a]) && NewStatus(s.seen[a], uid, status).Some?
         && StatusAdmitted(NewStatus(s.seen[a], uid, status).value)
       case RemoveSpec(a, uid) =>
         && Current(s, a) && Drainable(s.seen[a]) && Removable(s.seen[a], uid)
         && Admits(o, Without(s.seen[a].spec, uid))
       case Close(a) =>
         && Current(s, a) && Drainable(s.seen[a])
         && !(s.seen[a].spec.closed && AllDeleting(s.seen[a].spec)) && Admits(o, ClosedSpec(s.seen[a].spec))
       case Unfinalize(a) =>
         && Current(s, a) && Drainable(s.seen[a])
         && s.seen[a].spec.closed && AllDeleting(s.seen[a].spec)
         && s.seen[a].spec.entries == map[] && StatusEmpty(s.seen[a].status)
       case Delete(a) => Current(s, a) && !s.seen[a].finalizer
       case RequestDeletion => true
  }

  ghost function Next(s: Server, step: Step): Server
    requires Enabled(s, step)
  {
    var o := s.stored.value;
    match step
    case Read(a) => s.(seen := s.seen[a := o])
    case Edit(spec) => Written(s, o.(spec := spec))
    case UpdateStatus(a, uid, status) => Written(s, o.(status := NewStatus(s.seen[a], uid, status)))
    case RemoveSpec(a, uid) => Written(s, o.(spec := Without(s.seen[a].spec, uid)))
    case Close(a) => Written(s, o.(spec := ClosedSpec(s.seen[a].spec)))
    case Unfinalize(a) =>
      // The response carries the new version, which the deletion that follows is conditioned on.
      var written := Written(s, o.(finalizer := false));
      written.(seen := written.seen[a := written.stored.value])
    case Delete(a) => s.(stored := None)
    case RequestDeletion => if o.finalizer then Written(s, o.(deleting := true)) else s.(stored := None)
  }

  /** A catalog as it is created: nothing in it, its finalizer set, nobody has read it. */
  ghost predicate Created(s: Server) {
    && s.stored.Some? && s.seen == map[] && s.stored.value.version < s.next
    && ValidSpec(s.stored.value.spec) && s.stored.value.spec.entries == map[] && !s.stored.value.spec.closed
    && s.stored.value.status == None && s.stored.value.owned && s.stored.value.finalizer && !s.stored.value.deleting
  }

  ghost predicate Run(run: seq<Server>, steps: seq<Step>) {
    && |run| == |steps| + 1 && Created(run[0])
    && forall i :: 0 <= i < |steps| ==> Enabled(run[i], steps[i]) && run[i + 1] == Next(run[i], steps[i])
  }

  // ---- the invariant -----------------------------------------------------------------------

  ghost predicate Sound(o: Object) {
    && ValidSpec(o.spec) && (o.spec.closed ==> AllDeleting(o.spec))
    && (o.status.Some? ==> StatusAdmitted(o.status.value))
    && (!o.finalizer ==> o.spec.closed && o.spec.entries == map[])
  }

  /** A version names one content: whatever was read at the stored version is what is stored. */
  ghost predicate Inv(s: Server) {
    && (s.stored.Some? ==> Sound(s.stored.value) && s.stored.value.version < s.next)
    && forall a :: a in s.seen ==>
         && s.seen[a].version < s.next
         && (s.stored.Some? && s.seen[a].version == s.stored.value.version ==> s.seen[a] == s.stored.value)
  }

  lemma StepKeepsInv(s: Server, step: Step)
    requires Inv(s) && Enabled(s, step)
    ensures Inv(Next(s, step))
  {
    hide ValidSpec, StatusRule;
    var o := s.stored.value;
    if step.Edit? && !o.finalizer {
      assert step.spec.entries.Keys <= o.spec.entries.Keys;
      assert step.spec.entries == map[];
    }
  }

  lemma {:induction false} RunKeepsInv(run: seq<Server>, steps: seq<Step>, i: nat)
    requires Run(run, steps) && i < |run|
    ensures Inv(run[i])
    decreases i
  {
    if i > 0 {
      RunKeepsInv(run, steps, i - 1);
      StepKeepsInv(run[i - 1], steps[i - 1]);
      assert run[i] == Next(run[i - 1], steps[i - 1]);
    }
  }

  // ---- removals and deletion ---------------------------------------------------------------

  predicate Listed(s: Server, uid: string) {
    s.stored.Some? && uid in s.stored.value.spec.entries
  }

  /** The step from `i` takes `uid` out of a catalog that stores its proof. */
  predicate RemovedWithProof(run: seq<Server>, i: nat, uid: string)
    requires i + 1 < |run|
  {
    Listed(run[i], uid) && !Listed(run[i + 1], uid) && Removable(run[i].stored.value, uid)
  }

  lemma StepRemovesWithProof(s: Server, step: Step, uid: string)
    requires Inv(s) && Enabled(s, step) && Listed(s, uid) && !Listed(Next(s, step), uid)
    ensures Removable(s.stored.value, uid)
  {
    hide ValidSpec, StatusRule, Proven;
    var o := s.stored.value;
    if step.Edit? {
      assert EntryAllowed(o.spec, o.status, step.spec, uid);
    }
  }

  /** Every removal of a logical UID happens from a state that stores its terminal proof with nothing pending. */
  lemma EveryRemovalIsProven(run: seq<Server>, steps: seq<Step>, i: nat, uid: string)
    requires Run(run, steps) && i < |steps| && Listed(run[i], uid) && !Listed(run[i + 1], uid)
    ensures RemovedWithProof(run, i, uid)
  {
    RunKeepsInv(run, steps, i);
    StepRemovesWithProof(run[i], steps[i], uid);
  }

  lemma UnfinalizedWhenEmpty(s: Server, step: Step)
    requires Inv(s) && Enabled(s, step) && s.stored.value.finalizer
    requires Next(s, step).stored.None? || !Next(s, step).stored.value.finalizer
    ensures var o := s.stored.value;
            && o.spec.closed && o.spec.entries == map[] && (o.status.Some? ==> o.status.value.entries == map[])
            && o.owned && !o.deleting && Next(s, step).stored.Some?
  {
    hide ValidSpec, StatusRule, TransitionAllowed;
  }

  /**
   * The finalizer goes before the catalog does, and only from the Tenant's own catalog, closed, with no entry
   * and no status left, that nobody has asked to delete.
   */
  lemma FinalizerGoesWhenEmpty(run: seq<Server>, steps: seq<Step>, i: nat)
    requires Run(run, steps) && i < |steps| && run[i].stored.Some? && run[i].stored.value.finalizer
    requires run[i + 1].stored.None? || !run[i + 1].stored.value.finalizer
    ensures var o := run[i].stored.value;
            && o.spec.closed && o.spec.entries == map[] && (o.status.Some? ==> o.status.value.entries == map[])
            && o.owned && !o.deleting && run[i + 1].stored.Some?
  {
    RunKeepsInv(run, steps, i);
    UnfinalizedWhenEmpty(run[i], steps[i]);
  }

  lemma DeletedWhenEmpty(s: Server, step: Step)
    requires Inv(s) && Enabled(s, step) && Next(s, step).stored.None?
    ensures s.stored.value.spec.entries == map[] && s.stored.value.spec.closed
  {
  }

  lemma {:induction false} RemovalBefore(run: seq<Server>, steps: seq<Step>, i: nat, j: nat, uid: string)
    requires Run(run, steps) && i <= j < |run| && Listed(run[i], uid) && !Listed(run[j], uid)
    ensures exists k :: i <= k < j && RemovedWithProof(run, k, uid)
    decreases j
  {
    if Listed(run[j - 1], uid) {
      EveryRemovalIsProven(run, steps, j - 1, uid);
      assert RemovedWithProof(run, j - 1, uid);
    } else {
      RemovalBefore(run, steps, i, j - 1, uid);
    }
  }

  /** Whoever deletes the catalog, every entry it ever accepted was removed with its proof before. */
  lemma DrainedMeansProvenAbsence(run: seq<Server>, steps: seq<Step>, i: nat, j: nat, uid: string)
    requires Run(run, steps) && i <= j < |steps| && Listed(run[i], uid)
    requires run[j].stored.Some? && run[j + 1].stored.None?
    ensures run[j].stored.value.spec.closed && run[j].stored.value.spec.entries == map[]
    ensures exists k :: i <= k < j && RemovedWithProof(run, k, uid)
  {
    RunKeepsInv(run, steps, j);
    DeletedWhenEmpty(run[j], steps[j]);
    RemovalBefore(run, steps, i, j, uid);
  }

  lemma StepKeepsClosed(s: Server, step: Step)
    requires Inv(s) && Enabled(s, step) && s.stored.value.spec.closed && Next(s, step).stored.Some?
    ensures Next(s, step).stored.value.spec.closed
    ensures Next(s, step).stored.value.spec.entries.Keys <= s.stored.value.spec.entries.Keys
  {
    hide ValidSpec, StatusRule, Proven;
  }

  lemma StaysGone(run: seq<Server>, steps: seq<Step>, j: nat)
    requires Run(run, steps) && 0 < j < |run| && run[j].stored.Some?
    ensures run[j - 1].stored.Some?
  {
    assert Enabled(run[j - 1], steps[j - 1]);
  }

  /** A closed catalog stays closed and its key set only shrinks. */
  lemma {:induction false} ClosedStaysClosed(run: seq<Server>, steps: seq<Step>, i: nat, j: nat)
    requires Run(run, steps) && i <= j < |run| && run[i].stored.Some? && run[j].stored.Some?
    requires run[i].stored.value.spec.closed
    ensures run[j].stored.value.spec.closed
    ensures run[j].stored.value.spec.entries.Keys <= run[i].stored.value.spec.entries.Keys
    decreases j
  {
    hide Enabled, Next, Sound;
    if i < j {
      StaysGone(run, steps, j);
      ClosedStaysClosed(run, steps, i, j - 1);
      RunKeepsInv(run, steps, j - 1);
      StepKeepsClosed(run[j - 1], steps[j - 1]);
      assert run[j] == Next(run[j - 1], steps[j - 1]);
    }
  }

  // ---- what no edit changes ----------------------------------------------------------------

  lemma StepKeepsEntry(s: Server, step: Step, uid: string)
    requires Inv(s) && Enabled(s, step) && Listed(s, uid) && Listed(Next(s, step), uid)
    ensures var before, after := s.stored.value.spec.entries[uid], Next(s, step).stored.value.spec.entries[uid];
            && after.name == before.name && after.instances == before.instances
            && (before.deleting ==> after.deleting)
  {
    hide ValidSpec, StatusRule, Proven;
    if step.Edit? {
      assert EntryAllowed(s.stored.value.spec, s.stored.value.status, step.spec, uid);
    }
  }

  /** As long as an entry is listed its name and its instances never change, and its deletion is never taken back. */
  lemma {:induction false} EntriesNeverChange(run: seq<Server>, steps: seq<Step>, i: nat, j: nat, uid: string)
    requires Run(run, steps) && i <= j < |run| && Listed(run[i], uid) && Listed(run[j], uid)
    requires forall k :: i <= k <= j ==> Listed(run[k], uid)
    ensures var before, after := run[i].stored.value.spec.entries[uid], run[j].stored.value.spec.entries[uid];
            && after.name == before.name && after.instances == before.instances
            && (before.deleting ==> after.deleting)
    decreases j
  {
    hide Enabled, Next, Sound;
    if i < j {
      assert Listed(run[j - 1], uid);
      assert Enabled(run[j - 1], steps[j - 1]) && run[j] == Next(run[j - 1], steps[j - 1]);
      RunKeepsInv(run, steps, j - 1);
      EntriesNeverChange(run, steps, i, j - 1, uid);
      StepKeepsEntry(run[j - 1], steps[j - 1], uid);
    }
  }

  lemma StepKeepsTenant(s: Server, step: Step)
    requires Inv(s) && Enabled(s, step) && Next(s, step).stored.Some?
    ensures var before, after := s.stored.value.spec, Next(s, step).stored.value.spec;
            after.tenantName == before.tenantName && after.tenantUid == before.tenantUid
  {
    hide ValidSpec, StatusRule, Proven, EntryAllowed;
  }

  /** The catalog names its Tenant once and for all. */
  lemma {:induction false} TenantNeverChanges(run: seq<Server>, steps: seq<Step>, i: nat, j: nat)
    requires Run(run, steps) && i <= j < |run| && run[i].stored.Some? && run[j].stored.Some?
    ensures run[j].stored.value.spec.tenantName == run[i].stored.value.spec.tenantName
    ensures run[j].stored.value.spec.tenantUid == run[i].stored.value.spec.tenantUid
    decreases j
  {
    hide Enabled, Next, Sound;
    if i < j {
      StaysGone(run, steps, j);
      TenantNeverChanges(run, steps, i, j - 1);
      RunKeepsInv(run, steps, j - 1);
      StepKeepsTenant(run[j - 1], steps[j - 1]);
      assert run[j] == Next(run[j - 1], steps[j - 1]);
    }
  }

  /** At any time at most three statuses, each under its own logical UID, and no terminal proof with pending work. */
  lemma StatusesAreTheirOwn(run: seq<Server>, steps: seq<Step>, i: nat)
    requires Run(run, steps) && i < |run| && run[i].stored.Some? && run[i].stored.value.status.Some?
    ensures var entries := run[i].stored.value.status.value.entries;
            && |entries| <= 3
            && forall uid :: uid in entries ==>
                 && entries[uid].logicalUid == uid
                 && (entries[uid].finalization.Some? && entries[uid].finalization.value.terminalVerified ==>
                       entries[uid].finalization.value.pending == [])
  {
    RunKeepsInv(run, steps, i);
  }

  /** At any time at most three databases of one to three instances, with names of their own. */
  lemma AlwaysWithinBounds(run: seq<Server>, steps: seq<Step>, i: nat)
    requires Run(run, steps) && i < |run| && run[i].stored.Some?
    ensures var entries := run[i].stored.value.spec.entries;
            && |entries| <= 3
            && (forall uid :: uid in entries ==> |uid| == 36 && 1 <= |entries[uid].name| <= 30
                                                 && 1 <= entries[uid].instances <= 3)
            && forall a, b :: a in entries && b in entries && a != b ==> entries[a].name != entries[b].name
  {
    RunKeepsInv(run, steps, i);
    var entries := run[i].stored.value.spec.entries;
    forall uid | uid in entries
      ensures |uid| == 36 && 1 <= |entries[uid].name| <= 30 && 1 <= entries[uid].instances <= 3
    {
      assert ValidEntry(uid, entries[uid]);
    }
  }

  // ---- the writers' own checks are as strong as admission ----------------------------------

  lemma FewerEntries(spec: Spec, uid: string)
    requires ValidSpec(spec)
    ensures ValidSpec(Without(spec, uid))
  {
    hide ValidName, ValidLogicalUid;
    var less := Without(spec, uid);
    SubsetSize(less.entries.Keys, spec.entries.Keys);
    assert |less.entries| == |less.entries.Keys| && |spec.entries| == |spec.entries.Keys|;
    forall other | other in less.entries ensures ValidEntry(other, less.entries[other]) {
      assert ValidEntry(other, spec.entries[other]);
    }
  }

  /** Admission never refuses a removal that `remove_spec` let through. */
  lemma RemovalPassesAdmission(o: Object, uid: string)
    requires Sound(o) && Removable(o, uid)
    ensures Admits(o, Without(o.spec, uid))
  {
    hide ValidSpec, Proven, StatusRule;
    FewerEntries(o.spec, uid);
    var less := Without(o.spec, uid);
    forall other | other in o.spec.entries ensures EntryAllowed(o.spec, o.status, less, other) {
      if other != uid {
        assert other in less.entries && less.entries[other] == o.spec.entries[other];
      }
    }
    assert forall other :: other in less.entries ==>
      other in o.spec.entries && less.entries[other] == o.spec.entries[other];
  }

  lemma ClosedSpecValid(spec: Spec)
    requires ValidSpec(spec)
    ensures ValidSpec(ClosedSpec(spec))
  {
    hide ValidName, ValidLogicalUid;
    var closed := ClosedSpec(spec);
    assert closed.entries.Keys == spec.entries.Keys;
    assert |closed.entries| == |closed.entries.Keys| && |spec.entries| == |spec.entries.Keys|;
    forall other | other in closed.entries ensures ValidEntry(other, closed.entries[other]) {
      assert ValidEntry(other, spec.entries[other]);
    }
  }

  /** Nor the patch with which the drain closes the catalog. */
  lemma ClosingPassesAdmission(o: Object)
    requires Sound(o)
    ensures Admits(o, ClosedSpec(o.spec))
  {
    hide ValidSpec, Proven, StatusRule;
    ClosedSpecValid(o.spec);
  }

  // ---- a pass of the drain, run alone ------------------------------------------------------

  /** What one pass leaves; `crash` stops it between the finalizer patch and the deletion. */
  function Drained(s: Server, a: Actor, crash: bool): Server {
    if s.stored.None? then s else
      var o := s.stored.value;
      var read := s.(seen := s.seen[a := o]);
      if o.deleting || !o.finalizer || !o.owned then read
      else if !(o.spec.closed && AllDeleting(o.spec)) then Written(read, o.(spec := ClosedSpec(o.spec)))
      else if o.spec.entries != map[] || !StatusEmpty(o.status) then read
      else
        var written := Written(read, o.(finalizer := false));
        var bare := written.(seen := written.seen[a := written.stored.value]);
        if crash then bare else bare.(stored := None)
  }

  ghost predicate Path(from: Server, steps: seq<Step>, to: Server)
    decreases |steps|
  {
    if steps == [] then from == to else Enabled(from, steps[0]) && Path(Next(from, steps[0]), steps[1..], to)
  }

  lemma OneStep(s: Server, step: Step, to: Server)
    requires Enabled(s, step) && to == Next(s, step)
    ensures Path(s, [step], to)
  {
    hide Enabled, Next;
    assert [step][1..] == [];
    assert Path(to, [], to);
  }

  lemma Before(s: Server, step: Step, steps: seq<Step>, to: Server)
    requires Enabled(s, step) && Path(Next(s, step), steps, to)
    ensures Path(s, [step] + steps, to)
  {
    hide Enabled, Next;
    assert ([step] + steps)[1..] == steps;
  }

  function PassSteps(s: Server, a: Actor, crash: bool): seq<Step> {
    if s.stored.None? then [] else
      var o := s.stored.value;
      if o.deleting || !o.finalizer || !o.owned then [Read(a)]
      else if !(o.spec.closed && AllDeleting(o.spec)) then [Read(a)] + [Close(a)]
      else if o.spec.entries != map[] || !StatusEmpty(o.status) then [Read(a)]
      else [Read(a)] + ([Unfinalize(a)] + if crash then [] else [Delete(a)])
  }

  lemma TwoSteps(s: Server, first: Step, second: Step, to: Server)
    requires Enabled(s, first) && Enabled(Next(s, first), second) && to == Next(Next(s, first), second)
    ensures Path(s, [first] + [second], to)
  {
    hide Enabled, Next;
    OneStep(Next(s, first), second, to);
    Before(s, first, [second], to);
  }

  lemma CloseAfterRead(s: Server, a: Actor)
    requires s.stored.Some? && Drainable(s.stored.value)
    requires !(s.stored.value.spec.closed && AllDeleting(s.stored.value.spec))
    requires Admits(s.stored.value, ClosedSpec(s.stored.value.spec))
    ensures Enabled(s, Read(a)) && Enabled(Next(s, Read(a)), Close(a))
    ensures Next(Next(s, Read(a)), Close(a)) == Drained(s, a, false)
  {
    hide Admits, AllDeleting, ClosedSpec;
  }

  lemma ClosingPass(s: Server, a: Actor)
    requires Inv(s) && s.stored.Some? && Drainable(s.stored.value)
    requires !(s.stored.value.spec.closed && AllDeleting(s.stored.value.spec))
    ensures Path(s, [Read(a)] + [Close(a)], Drained(s, a, false))
  {
    ClosingPassesAdmission(s.stored.value);
    hide *;
    CloseAfterRead(s, a);
    TwoSteps(s, Read(a), Close(a), Drained(s, a, false));
  }

  lemma DeleteAfterRead(s: Server, a: Actor)
    requires s.stored.Some? && Drainable(s.stored.value)
    requires s.stored.value.spec.closed && s.stored.value.spec.entries == map[] && StatusEmpty(s.stored.value.status)
    ensures Enabled(s, Read(a)) && Enabled(Next(s, Read(a)), Unfinalize(a))
    ensures Next(Next(s, Read(a)), Unfinalize(a)) == Drained(s, a, true)
    ensures Enabled(Drained(s, a, true), Delete(a)) && Next(Drained(s, a, true), Delete(a)) == Drained(s, a, false)
  {
    hide StatusEmpty, ClosedSpec;
  }

  lemma DeletingPass(s: Server, a: Actor, crash: bool)
    requires s.stored.Some? && Drainable(s.stored.value)
    requires s.stored.value.spec.closed && s.stored.value.spec.entries == map[] && StatusEmpty(s.stored.value.status)
    ensures Path(s, [Read(a)] + ([Unfinalize(a)] + if crash then [] else [Delete(a)]), Drained(s, a, crash))
  {
    hide *;
    DeleteAfterRead(s, a);
    var read, end := Next(s, Read(a)), Drained(s, a, crash);
    if crash {
      OneStep(read, Unfinalize(a), end);
      assert [Unfinalize(a)] + [] == [Unfinalize(a)];
    } else {
      TwoSteps(read, Unfinalize(a), Delete(a), end);
    }
    Before(s, Read(a), [Unfinalize(a)] + if crash then [] else [Delete(a)], end);
  }

  /** A pass is nothing but steps of the machine, so every run theorem covers it. */
  lemma PassIsARun(s: Server, a: Actor, crash: bool)
    requires Inv(s)
    ensures Path(s, PassSteps(s, a, crash), Drained(s, a, crash))
  {
    if s.stored.Some? {
      var o := s.stored.value;
      if !o.deleting && o.owned && o.finalizer && !(o.spec.closed && AllDeleting(o.spec)) {
        hide Path;
        ClosingPass(s, a);
      } else if !o.deleting && o.owned && o.finalizer && o.spec.entries == map[] && StatusEmpty(o.status) {
        hide Path;
        DeletingPass(s, a, crash);
      } else {
        OneStep(s, Read(a), Next(s, Read(a)));
      }
    }
  }

  class CatalogServer {
    var stored: Option<Object>
    var next: nat
    var seen: map<Actor, Object>

    ghost function State(): Server
      reads this
    {
      Server(stored, next, seen)
    }

    method Write(o: Object)
      modifies `stored, `next
      ensures State() == Written(old(State()), o)
    {
      stored := Some(o.(version := next));
      next := next + 1;
    }

    /** `drain_catalog` on the recorded catalog: refused, still waiting, or the catalog is gone. */
    method DrainPass(a: Actor, crash: bool) returns (r: Result<bool, ()>)
      modifies this
      ensures State() == Drained(old(State()), a, crash)
      ensures r == Ok(true) <==> old(stored).None?
      ensures r.Err? <==> && old(stored).Some? && !old(stored).value.deleting
                          && !(old(stored).value.owned && old(stored).value.finalizer)
    {
      if stored.None? {
        return Ok(true);
      }
      var catalog := stored.value;
      seen := seen[a := catalog];
      if catalog.deleting {
        return Ok(false);
      }
      if !catalog.owned || !catalog.finalizer {
        return Err(());
      }
      if !catalog.spec.closed || exists uid :: uid in catalog.spec.entries && !catalog.spec.entries[uid].deleting {
        Write(catalog.(spec := ClosedSpec(catalog.spec)));
        return Ok(false);
      }
      if catalog.spec.entries != map[] || (catalog.status.Some? && catalog.status.value.entries != map[]) {
        return Ok(false);
      }
      Write(catalog.(finalizer := false));
      seen := seen[a := stored.value];
      if !crash {
        stored := None;
      }
      return Ok(false);
    }
  }

  function Passes(s: Server, a: Actor, n: nat): Server
    decreases n
  {
    if n == 0 then s else Passes(Drained(s, a, false), a, n - 1)
  }

  predicate Finished(s: Server, a: Actor, n: nat) {
    Passes(s, a, n).stored.None?
  }

  lemma {:induction false} StuckPasses(s: Server, a: Actor, n: nat)
    requires s.stored.Some? && (s.stored.value.deleting || !s.stored.value.finalizer || !s.stored.value.owned)
    ensures Passes(s, a, n).stored == s.stored
    decreases n
  {
    if n > 0 {
      StuckPasses(Drained(s, a, false), a, n - 1);
    }
  }

  /**
   * Undisturbed, the passes delete an emptied catalog exactly while it is drainable. A pass stopped between
   * the two writes, or somebody else's DELETE, leaves a catalog that no later pass will finish.
   */
  lemma DrainFinishesIff(s: Server, a: Actor)
    requires s.stored.Some? && s.stored.value.spec.entries == map[] && StatusEmpty(s.stored.value.status)
    ensures (exists n :: Finished(s, a, n)) <==> Drainable(s.stored.value)
    ensures s.stored.value.spec.closed && Drainable(s.stored.value) ==>
              forall n :: !Finished(Drained(s, a, true), a, n)
  {
    var o := s.stored.value;
    if Drainable(o) {
      var once := Drained(s, a, false);
      var twice := Drained(once, a, false);
      assert ClosedSpec(o.spec).entries == map[];
      assert Passes(s, a, 2) == Passes(once, a, 1) == twice;
      assert Finished(s, a, 2);
      if o.spec.closed {
        forall n: nat ensures !Finished(Drained(s, a, true), a, n) {
          StuckPasses(Drained(s, a, true), a, n);
        }
      }
    } else {
      forall n: nat ensures !Finished(s, a, n) {
        StuckPasses(s, a, n);
      }
    }
  }

  // ---- when a catalog can still go ---------------------------------------------------------

  lemma {:induction false} PathThen(from: Server, first: seq<Step>, mid: Server, second: seq<Step>, to: Server)
    requires Path(from, first, mid) && Path(mid, second, to)
    ensures Path(from, first + second, to)
    decreases |first|
  {
    hide Enabled, Next;
    if first == [] {
      assert first + second == second;
    } else {
      PathThen(Next(from, first[0]), first[1..], mid, second, to);
      assert (first + second)[1..] == first[1..] + second;
    }
  }

  function Terminal(uid: string): EntryStatus {
    EntryStatus(uid, Some(Proof(true, [])))
  }

  function Observed(o: Object): map<string, EntryStatus> {
    if o.status.Some? then o.status.value.entries else map[]
  }

  /** What is left to do: an entry takes a proof and a removal, a status without an entry a pruning. */
  function ToDrain(o: Object): nat {
    2 * |o.spec.entries| + |Observed(o)|
  }

  /** A status whose entry is gone is pruned. */
  lemma Pruned(s: Server, a: Actor, uid: string) returns (t: Server)
    requires Inv(s) && s.stored.Some? && Drainable(s.stored.value)
    requires uid in Observed(s.stored.value) && uid !in s.stored.value.spec.entries
    ensures Path(s, [Read(a)] + [UpdateStatus(a, uid, None)], t) && t.stored.Some?
    ensures var o, q := s.stored.value, t.stored.value;
            q == o.(version := q.version, status := q.status) && ToDrain(q) < ToDrain(o)
  {
    hide ValidSpec, StatusRule;
    var o := s.stored.value;
    var less := NewStatus(o, uid, None).value;
    assert less.entries.Keys == o.status.value.entries.Keys - {uid};
    assert |less.entries| == |less.entries.Keys| && |o.status.value.entries| == |o.status.value.entries.Keys|;
    FewerStatuses(o.status.value, less);
    var read := Next(s, Read(a));
    t := Next(read, UpdateStatus(a, uid, None));
    TwoSteps(s, Read(a), UpdateStatus(a, uid, None), t);
  }

  lemma FewerStatuses(status: Status, less: Status)
    requires StatusRule(status)
    requires forall uid :: uid in less.entries ==> uid in status.entries && less.entries[uid] == status.entries[uid]
    ensures StatusRule(less)
  {
  }

  lemma MoreStatuses(o: Object, uid: string)
    requires Sound(o) && uid in o.spec.entries && Observed(o).Keys <= o.spec.entries.Keys
    ensures var r := NewStatus(o, uid, Some(Terminal(uid)));
            && r.Some? && StatusAdmitted(r.value) && Proven(r, uid)
            && |r.value.entries| <= |Observed(o)| + 1
  {
    hide ValidName, ValidEntry, UniqueNames;
    var more := NewStatus(o, uid, Some(Terminal(uid))).value;
    assert more.entries == Observed(o)[uid := Terminal(uid)];
    assert more.entries.Keys == Observed(o).Keys + {uid};
    assert |more.entries| == |more.entries.Keys| && |o.spec.entries| == |o.spec.entries.Keys|
        && |Observed(o)| == |Observed(o).Keys|;
    SubsetSize(more.entries.Keys, o.spec.entries.Keys);
    assert |Observed(o).Keys + {uid}| <= |Observed(o).Keys| + 1;
  }

  /** An entry of a closed catalog is proven absent and removed. */
  lemma ProvenAndRemoved(s: Server, a: Actor, uid: string) returns (steps: seq<Step>, t: Server)
    requires Inv(s) && s.stored.Some? && Drainable(s.stored.value) && s.stored.value.spec.closed
    requires uid in s.stored.value.spec.entries && Observed(s.stored.value).Keys <= s.stored.value.spec.entries.Keys
    ensures Path(s, steps, t) && t.stored.Some?
    ensures var o, q := s.stored.value, t.stored.value;
            q == o.(version := q.version, spec := Without(o.spec, uid), status := q.status) && ToDrain(q) < ToDrain(o)
  {
    hide ValidSpec, StatusRule, Proven;
    var o := s.stored.value;
    MoreStatuses(o, uid);
    var update := UpdateStatus(a, uid, Some(Terminal(uid)));
    assert AllDeleting(o.spec);
    var read := Next(s, Read(a));
    var proven := Next(read, update);
    StepKeepsInv(s, Read(a));
    StepKeepsInv(read, update);
    TwoSteps(s, Read(a), update, proven);
    assert Removable(proven.stored.value, uid);
    RemovalPassesAdmission(proven.stored.value, uid);
    var again := Next(proven, Read(a));
    t := Next(again, RemoveSpec(a, uid));
    TwoSteps(proven, Read(a), RemoveSpec(a, uid), t);
    PathThen(s, [Read(a)] + [update], proven, [Read(a)] + [RemoveSpec(a, uid)], t);
    steps := ([Read(a)] + [update]) + ([Read(a)] + [RemoveSpec(a, uid)]);
    assert t.stored.value.spec.entries.Keys == o.spec.entries.Keys - {uid};
    assert |t.stored.value.spec.entries| == |t.stored.value.spec.entries.Keys|
        && |o.spec.entries| == |o.spec.entries.Keys|;
  }

  lemma {:induction false} PathKeepsInv(s: Server, steps: seq<Step>, t: Server)
    requires Inv(s) && Path(s, steps, t)
    ensures Inv(t)
    decreases |steps|
  {
    hide Enabled, Next, Inv;
    if steps != [] {
      StepKeepsInv(s, steps[0]);
      PathKeepsInv(Next(s, steps[0]), steps[1..], t);
    }
  }

  /** A closed catalog is emptied entry by entry and then deleted. */
  lemma {:induction false} Emptied(s: Server, a: Actor) returns (steps: seq<Step>, t: Server)
    requires Inv(s) && s.stored.Some? && Drainable(s.stored.value) && s.stored.value.spec.closed
    ensures Path(s, steps, t) && t.stored.None?
    decreases ToDrain(s.stored.value)
  {
    var o := s.stored.value;
    var first: seq<Step>, mid: Server;
    if Observed(o) == map[] && o.spec.entries == map[] {
      DeletingPass(s, a, false);
      steps, t := PassSteps(s, a, false), Drained(s, a, false);
      return;
    }
    if uid :| uid in Observed(o) && uid !in o.spec.entries {
      mid := Pruned(s, a, uid);
      first := [Read(a)] + [UpdateStatus(a, uid, None)];
    } else {
      var entry := SomeKey(o);
      first, mid := ProvenAndRemoved(s, a, entry);
    }
    hide Enabled, Next, Sound, Path;
    PathKeepsInv(s, first, mid);
    steps, t := Emptied(mid, a);
    PathThen(s, first, mid, steps, t);
    steps := first + steps;
  }

  lemma SomeKey(o: Object) returns (uid: string)
    requires o.spec.entries != map[] || Observed(o) != map[]
    requires forall k :: k in Observed(o) ==> k in o.spec.entries
    ensures uid in o.spec.entries
  {
    assert o.spec.entries == map[] ==> Observed(o) == map[];
    uid :| uid in o.spec.entries;
  }

  lemma Deletable(s: Server, a: Actor) returns (steps: seq<Step>, t: Server)
    requires Inv(s) && s.stored.Some? && Drainable(s.stored.value)
    ensures Path(s, steps, t) && t.stored.None?
  {
    if s.stored.value.spec.closed {
      steps, t := Emptied(s, a);
    } else {
      ClosingPass(s, a);
      var closed := Drained(s, a, false);
      hide Enabled, Next, Sound, Path;
      PathKeepsInv(s, [Read(a)] + [Close(a)], closed);
      steps, t := Emptied(closed, a);
      PathThen(s, [Read(a)] + [Close(a)], closed, steps, t);
      steps := ([Read(a)] + [Close(a)]) + steps;
    }
  }

  /** Its finalizer is there and no controller will touch it again. */
  predicate Stuck(s: Server) {
    s.stored.Some? && s.stored.value.finalizer && !Drainable(s.stored.value)
  }

  lemma StaysStuck(s: Server, step: Step)
    requires Inv(s) && Stuck(s) && Enabled(s, step)
    ensures Stuck(Next(s, step))
  {
    hide ValidSpec, StatusRule, Proven, TransitionAllowed;
  }

  lemma {:induction false} StuckForGood(s: Server, steps: seq<Step>, t: Server)
    requires Inv(s) && Stuck(s) && Path(s, steps, t)
    ensures Stuck(t)
    decreases |steps|
  {
    hide Enabled, Next, Inv;
    if steps != [] {
      StepKeepsInv(s, steps[0]);
      StaysStuck(s, steps[0]);
      StuckForGood(Next(s, steps[0]), steps[1..], t);
    }
  }

  ghost predicate CanGo(s: Server) {
    exists steps, t: Server :: Path(s, steps, t) && t.stored.None?
  }

  /**
   * From any state, whatever it lists and whatever was observed, somebody can still get the catalog deleted
   * exactly when its finalizer is gone already, or it is the Tenant's own and nobody has asked to delete it.
   * A DELETE call before the drain has finished leaves it terminating for good.
   */
  lemma CanGoIff(s: Server)
    requires Inv(s) && s.stored.Some?
    ensures CanGo(s) <==> !s.stored.value.finalizer || Drainable(s.stored.value)
  {
    if !s.stored.value.finalizer {
      OneStep(s, RequestDeletion, Next(s, RequestDeletion));
    } else if Drainable(s.stored.value) {
      var steps, t := Deletable(s, 0);
    } else {
      forall steps, t: Server | Path(s, steps, t) ensures t.stored.Some? {
        StuckForGood(s, steps, t);
      }
    }
  }

  // ---- whose proof it was ------------------------------------------------------------------

  /** Any steps from a given state on. */
  ghost predicate Continues(s: Server, run: seq<Server>, steps: seq<Step>) {
    && |run| == |steps| + 1 && run[0] == s
    && forall i :: 0 <= i < |steps| ==> Enabled(run[i], steps[i]) && run[i + 1] == Next(run[i], steps[i])
  }

  /** Step `m` stores a terminal proof for `uid`. */
  predicate WritesProof(run: seq<Server>, steps: seq<Step>, m: nat, uid: string)
    requires m < |steps| < |run|
  {
    && steps[m].UpdateStatus? && steps[m].uid == uid
    && run[m + 1].stored.Some? && Proven(run[m + 1].stored.value.status, uid)
  }

  /** The entry `uid` stays listed up to step `i`, which removes it. */
  ghost predicate RemovedAt(run: seq<Server>, i: nat, uid: string)
    requires i + 1 < |run|
  {
    (forall k :: 0 <= k <= i ==> Listed(run[k], uid)) && !Listed(run[i + 1], uid)
  }

  /** From `s` on, the listed entry is removed only with a proof written while it is listed. */
  ghost predicate OwnProofOnly(s: Server, uid: string) {
    forall run: seq<Server>, steps: seq<Step>, i: nat ::
      Continues(s, run, steps) && i < |steps| && RemovedAt(run, i, uid) ==>
        exists m: nat :: m < i && WritesProof(run, steps, m, uid)
  }

  lemma {:induction false} ContinuesInv(s: Server, run: seq<Server>, steps: seq<Step>, i: nat)
    requires Inv(s) && Continues(s, run, steps) && i < |run|
    ensures Inv(run[i])
    decreases i
  {
    hide Enabled, Next, Sound;
    if i > 0 {
      ContinuesInv(s, run, steps, i - 1);
      StepKeepsInv(run[i - 1], steps[i - 1]);
    }
  }

  /** A step that makes an entry proven is a status write for that entry. */
  lemma StepProves(s: Server, step: Step, uid: string)
    requires Inv(s) && Enabled(s, step) && Listed(s, uid) && Next(s, step).stored.Some?
    requires !Proven(s.stored.value.status, uid) && Proven(Next(s, step).stored.value.status, uid)
    ensures step.UpdateStatus? && step.uid == uid
  {
    hide ValidSpec, StatusRule, TransitionAllowed;
  }

  lemma {:induction false} ProofAppears(s: Server, run: seq<Server>, steps: seq<Step>, i: nat, uid: string)
    requires Inv(s) && Listed(s, uid) && !Proven(s.stored.value.status, uid) && Continues(s, run, steps) && i < |run|
    requires Listed(run[i], uid) && forall k :: 0 <= k <= i ==> Listed(run[k], uid)
    requires forall m: nat :: m < i ==> !WritesProof(run, steps, m, uid)
    ensures !Proven(run[i].stored.value.status, uid)
    decreases i
  {
    hide Enabled, Next, Proven, Sound;
    if i > 0 {
      ProofAppears(s, run, steps, i - 1, uid);
      ContinuesInv(s, run, steps, i - 1);
      assert Listed(run[i - 1], uid) && Listed(run[i], uid) && !WritesProof(run, steps, i - 1, uid);
      if Proven(run[i].stored.value.status, uid) {
        StepProves(run[i - 1], steps[i - 1], uid);
      }
    }
  }

  lemma UnprovenMeansOwn(s: Server, uid: string)
    requires Inv(s) && Listed(s, uid) && !Proven(s.stored.value.status, uid)
    ensures OwnProofOnly(s, uid)
  {
    hide Enabled, Next, Proven, Sound;
    forall run: seq<Server>, steps: seq<Step>, i: nat
      | Continues(s, run, steps) && i < |steps| && RemovedAt(run, i, uid)
      ensures exists m: nat :: m < i && WritesProof(run, steps, m, uid)
    {
      ContinuesInv(s, run, steps, i);
      assert Listed(run[i], uid);
      StepRemovesWithProof(run[i], steps[i], uid);
      if forall m: nat :: m < i ==> !WritesProof(run, steps, m, uid) {
        ProofAppears(s, run, steps, i, uid);
      }
    }
  }

  function Marked(spec: Spec, uid: string): Spec
    requires uid in spec.entries
  {
    spec.(entries := spec.entries[uid := spec.entries[uid].(deleting := true)])
  }

  lemma MarkedValid(spec: Spec, uid: string)
    requires ValidSpec(spec) && uid in spec.entries
    ensures ValidSpec(Marked(spec, uid))
  {
    hide ValidName, ValidLogicalUid;
    var marked := Marked(spec, uid);
    assert marked.entries.Keys == spec.entries.Keys;
    assert |marked.entries| == |marked.entries.Keys| && |spec.entries| == |spec.entries.Keys|;
    forall other | other in marked.entries ensures ValidEntry(other, marked.entries[other]) {
      assert ValidEntry(other, spec.entries[other]);
    }
    assert forall a :: a in marked.entries ==> marked.entries[a].name == spec.entries[a].name;
  }

  lemma MarkingAdmitted(o: Object, uid: string)
    requires Sound(o) && uid in o.spec.entries && !o.spec.entries[uid].deleting
    ensures Admits(o, Marked(o.spec, uid))
  {
    hide ValidSpec, StatusRule, Proven;
    MarkedValid(o.spec, uid);
    var marked := Marked(o.spec, uid);
    forall other | other in o.spec.entries ensures EntryAllowed(o.spec, o.status, marked, other) {
      assert other != uid ==> marked.entries[other] == o.spec.entries[other];
    }
    assert !o.spec.closed;
  }

  /** The two edits with which an entry that meets an old proof is gone at once. */
  lemma ProvenMeansOld(s: Server, uid: string)
    requires Inv(s) && Listed(s, uid) && Proven(s.stored.value.status, uid)
    ensures !OwnProofOnly(s, uid)
  {
    hide ValidSpec, StatusRule, Proven, Admits;
    var o := s.stored.value;
    var run, steps := [s], [];
    var i: nat := 0;
    if !o.spec.entries[uid].deleting {
      MarkingAdmitted(o, uid);
      var step := Edit(Marked(o.spec, uid));
      run, steps, i := [s, Next(s, step)], [step], 1;
      StepKeepsInv(s, step);
    }
    var last := run[i];
    RemovalPassesAdmission(last.stored.value, uid);
    var step := Edit(Without(last.stored.value.spec, uid));
    run, steps := run + [Next(last, step)], steps + [step];
    assert Continues(s, run, steps) && RemovedAt(run, i, uid);
    assert forall m: nat :: m < i ==> !WritesProof(run, steps, m, uid);
  }

  /**
   * A listed entry is removed only with a proof of its own exactly when no terminal proof is stored under
   * its UID. For an entry that was just added this means: no proof was left from an earlier one.
   */
  lemma OwnProofIff(s: Server, uid: string)
    requires Inv(s) && Listed(s, uid)
    ensures OwnProofOnly(s, uid) <==> !Proven(s.stored.value.status, uid)
  {
    if Proven(s.stored.value.status, uid) {
      ProvenMeansOld(s, uid);
    } else {
      UnprovenMeansOwn(s, uid);
    }
  }

  lemma Extend(run: seq<Server>, steps: seq<Step>, step: Step) returns (longer: seq<Server>, more: seq<Step>)
    requires Run(run, steps) && Enabled(run[|steps|], step)
    ensures Run(longer, more) && |more| == |steps| + 1 && longer[|more|] == Next(run[|steps|], step)
    ensures longer[|steps|] == run[|steps|] && longer[0] == run[0]
  {
    hide Enabled, Next, Created;
    longer, more := run + [Next(run[|steps|], step)], steps + [step];
    forall i | 0 <= i < |more| ensures Enabled(longer[i], more[i]) && longer[i + 1] == Next(longer[i], more[i]) {
      if i < |steps| {
        assert longer[i] == run[i] && longer[i + 1] == run[i + 1] && more[i] == steps[i];
      }
    }
  }

  /** The catalog with one entry, already marked for deletion. */
  function WithEntry(spec: Spec, uid: string, name: string): Spec {
    spec.(entries := map[uid := Entry(name, 1, true)])
  }

  lemma AddingAdmitted(o: Object, uid: string, name: string)
    requires ValidSpec(o.spec) && o.spec.entries == map[] && !o.spec.closed && ValidLogicalUid(uid) && ValidName(name)
    ensures Admits(o, WithEntry(o.spec, uid, name))
  {
    hide ValidLogicalUid, ValidName, Proven;
    assert |WithEntry(o.spec, uid, name).entries| == 1;
  }

  /** An entry is added, proven, removed and added again before its status is pruned: it meets the old proof. */
  lemma ReaddedEntryMeetsOldProof(s: Server, uid: string, name: string) returns (run: seq<Server>, steps: seq<Step>)
    requires Created(s) && ValidLogicalUid(uid) && ValidName(name)
    ensures Run(run, steps) && |steps| > 0 && run[0] == s
    ensures !Listed(run[|steps| - 1], uid) && Listed(run[|steps|], uid) && !OwnProofOnly(run[|steps|], uid)
  {
    hide ValidSpec, ValidLogicalUid, ValidName, Admits, Sound, OwnProofOnly;
    var o := s.stored.value;
    var filled := WithEntry(o.spec, uid, name);
    AddingAdmitted(o, uid, name);
    run, steps := Extend([s], [], Edit(filled));
    run, steps := Extend(run, steps, Read(0));
    var update := UpdateStatus(0, uid, Some(Terminal(uid)));
    assert NewStatus(run[|steps|].seen[0], uid, Some(Terminal(uid))) == Some(Status(map[uid := Terminal(uid)]));
    assert |map[uid := Terminal(uid)]| == 1;
    run, steps := Extend(run, steps, update);
    var proven := run[|steps|].stored.value;
    assert proven.spec == filled && Removable(proven, uid);
    RunKeepsInv(run, steps, |steps|);
    RemovalPassesAdmission(proven, uid);
    run, steps := Extend(run, steps, Edit(Without(filled, uid)));
    var removed := run[|steps|].stored.value;
    assert removed.spec == o.spec;
    AddingAdmitted(removed, uid, name);
    run, steps := Extend(run, steps, Edit(filled));
    RunKeepsInv(run, steps, |steps|);
    OwnProofIff(run[|steps|], uid);
  }
}
