/**
 * Allocators, finalizers and providers at once: a slot is not free while its old owner has residue.
 * Every API call of a pass is a step of its own, and so is the reading of every part of the residue.
 */
module SlotReuse {
  import opened Base
  import opened Slots
  import opened Leases
  import opened LeaseServer
  import opened LeaseCalls
  import opened Teardown

  /** The parts of a Tenant in the order a pass reads them. */
  datatype Part =
    | NamespacePart | RootPart(root: Root) | SecretPart | DescendantPart(kind: nat)
    | ContainersPart | VolumePart

  const PARTS: seq<Part> :=
    [NamespacePart, RootPart(Cluster), RootPart(DevCluster), RootPart(KamajiControlPlane),
     RootPart(KubeadmConfigTemplate), RootPart(DevMachineTemplate), RootPart(MachineDeployment), SecretPart,
     DescendantPart(0), DescendantPart(1), DescendantPart(2), DescendantPart(3), ContainersPart, VolumePart]

  /** There are four kinds of provider descendants. */
  predicate Real(part: Part) {
    part.DescendantPart? ==> part.kind < 4
  }

  /** A piece of residue belongs to a Tenant UID and uses the slot behind one Lease name. */
  datatype Piece = Piece(uid: string, part: Part, lease: string)

  datatype Pass =
    | Reading(items: seq<Lease>, left: seq<Part>, seen: bool)
    | Releasing(claimSeen: bool)
    | Fetching(intent: Intent)
    | Removing(live: Lease, intent: Intent)
    | Completed

  /** An allocation under way, with the slot it has decided to create a Lease for. */
  datatype Allocator = Allocator(c: Context, decided: Option<Slot>)

  /** A finalizer pass works for one Tenant with the allocation its status recorded. */
  datatype Call = Call(c: Context, bound: Option<Allocation>, pass: Pass)

  datatype Sys = Sys(
    store: Store, serial: Id, residue: set<Piece>,
    deleting: set<string>, released: set<string>,
    passes: map<nat, Call>, allocators: map<nat, Allocator>)

  datatype Step =
    | DeleteTenant(uid: string)
    | BeginAllocate(id: nat, c: Context)
    | ListSlots(id: nat, items: seq<Lease>)
    | CreateLease(id: nat)
    | EndAllocate(id: nat)
    | Provision(piece: Piece)
    | Shrink(piece: Piece)
    | Foreign(store: Store)
    | BeginPass(id: nat, c: Context, bound: Option<Allocation>, items: seq<Lease>)
    | ReadPart(id: nat)
    | Decide(id: nat)
    | ListAgain(id: nat, items: seq<Lease>)
    | GetLease(id: nat)
    | DeleteLease(id: nat)
    | RemoveFinalizer(id: nat)
    | EndPass(id: nat)

  ghost predicate HasPart(s: Sys, uid: string, part: Part) {
    exists lease :: Piece(uid, part, lease) in s.residue
  }

  ghost predicate NoResidue(s: Sys, uid: string) {
    forall piece :: piece in s.residue ==> piece.uid != uid
  }

  predicate HasUid(l: Lease) {
    l.annotations.Some? && TenantUidKey in l.annotations.value
  }

  /** Other users of the namespace touch only Leases without a Tenant UID. */
  ghost predicate ForeignWrite(s: Sys, after: Store, serial': Id) {
    && Evolves(s.store, s.serial, after, serial')
    && (forall n :: n in s.store && HasUid(s.store[n]) ==> n in after && after[n] == s.store[n])
    && (forall n :: n in after && HasUid(after[n]) ==> n in s.store && s.store[n] == after[n])
  }

  function Advance(s: Sys, id: nat, pass: Pass): Sys
    requires id in s.passes
  {
    s.(passes := s.passes[id := s.passes[id].(pass := pass)])
  }

  function Drop(s: Sys, id: nat): Sys {
    s.(passes := s.passes - {id})
  }

  predicate Allocating(s: Sys, uid: string) {
    exists id :: id in s.allocators && s.allocators[id].c.tenantUid == uid
  }

  predicate Finalizing(s: Sys, uid: string) {
    exists id :: id in s.passes && s.passes[id].c.tenantUid == uid
  }

  function Decided(s: Sys, id: nat, decided: Option<Slot>): Sys
    requires id in s.allocators
  {
    s.(allocators := s.allocators[id := s.allocators[id].(decided := decided)])
  }

  /**
   * One step. With `serialized` a Tenant's allocation and finalizer pass never overlap, which is what one
   * reconciliation at a time under one leader gives. An allocation begins with a Tenant that was not
   * deleting when it was read; whether it still is not is never asked again, so its CREATE may well come
   * after the deletion was requested. Only an allocation without a recorded slot ever creates.
   */
  ghost predicate Next(lib: Lib, serialized: bool, s: Sys, step: Step, s': Sys) {
    match step
    case DeleteTenant(uid) => s' == s.(deleting := s.deleting + {uid})
    case BeginAllocate(id, c) =>
      && id !in s.allocators && c.tenantUid !in s.deleting && (serialized ==> !Finalizing(s, c.tenantUid))
      && s' == s.(allocators := s.allocators[id := Allocator(c, None)])
    case ListSlots(id, items) =>
      && id in s.allocators && Listing(items, s.store)
      && var d := DecideClaim(lib, s.allocators[id].c, items, None);
         d.Ok? && d.value.Create? && s' == Decided(s, id, Some(d.value.slot))
    case CreateLease(id) =>
      && id in s.allocators && s.allocators[id].decided.Some?
      && var name := LeaseName(lib, s.allocators[id].decided.value.slotId);
         if name in s.store then s' == Decided(s, id, None)
         else s' == Decided(s, id, None).(
                store := s.store[name := Stored(NewLease(lib, s.allocators[id].c, s.allocators[id].decided.value),
                                                s.serial, s.serial + 1)],
                serial := s.serial + 2)
    case EndAllocate(id) => s' == s.(allocators := s.allocators - {id})
    case Provision(piece) =>
      && piece.uid !in s.deleting && Real(piece.part)
      && piece.lease in s.store && Carries(s.store[piece.lease], piece.uid)
      && s' == s.(residue := s.residue + {piece})
    case Shrink(piece) => s' == s.(residue := s.residue - {piece})
    case Foreign(after) =>
      ForeignWrite(s, after, s'.serial) && s' == s.(store := after, serial := s'.serial)
    case BeginPass(id, c, bound, items) =>
      && id !in s.passes && c.tenantUid in s.deleting && (serialized ==> !Allocating(s, c.tenantUid))
      && Listing(items, s.store)
      && s' == s.(passes := s.passes[id := Call(c, bound, Reading(items, PARTS, false))])
    case ReadPart(id) =>
      && id in s.passes && s.passes[id].pass.Reading? && s.passes[id].pass.left != []
      && var pass, uid := s.passes[id].pass, s.passes[id].c.tenantUid;
         s' == Advance(s, id, pass.(left := pass.left[1..], seen := pass.seen || HasPart(s, uid, pass.left[0])))
    case Decide(id) =>
      && id in s.passes && s.passes[id].pass.Reading? && s.passes[id].pass.left == [] && !s.passes[id].pass.seen
      && var call := s.passes[id];
         var d := DecideRelease(lib, call.c, call.pass.items, call.bound, true);
         d.Ok? && s' == Advance(s, id, Releasing(d.value.Delete?))
    case ListAgain(id, items) =>
      && id in s.passes && s.passes[id].pass.Releasing? && Listing(items, s.store)
      && var call := s.passes[id];
         var d := DecideRelease(lib, call.c, items, call.bound, true);
         && d.Ok?
         && if d.value.Delete? then s' == Advance(s, id, Fetching(d.value.intent))
            else d.value.Complete? && !call.pass.claimSeen && s' == Advance(s, id, Completed)
    case GetLease(id) =>
      && id in s.passes && s.passes[id].pass.Fetching? && s.passes[id].pass.intent.name in s.store
      && var call := s.passes[id];
         var live := s.store[call.pass.intent.name];
         var d := DecideRelease(lib, call.c, [live], call.bound, true);
         d.Ok? && d.value.Delete? && d.value.intent.uid == call.pass.intent.uid
         && s' == Advance(s, id, Removing(live, d.value.intent))
    case DeleteLease(id) =>
      && id in s.passes && s.passes[id].pass.Removing?
      && var i := s.passes[id].pass.intent;
         i.name in s.store && s.store[i.name].uid == Some(i.uid) && s.store[i.name].version == Some(i.version)
         && s' == Drop(s.(store := s.store - {i.name}), id)
    case RemoveFinalizer(id) =>
      && id in s.passes && s.passes[id].pass.Completed? && s.passes[id].bound.None?
      && s' == Drop(s.(released := s.released + {s.passes[id].c.tenantUid}), id)
    case EndPass(id) => s' == Drop(s, id)
  }

  ghost predicate Initial(s: Sys) {
    && WellFormed(s.store, s.serial) && s.residue == {} && s.deleting == {} && s.released == {}
    && s.passes == map[] && s.allocators == map[]
  }

  ghost predicate Run(lib: Lib, serialized: bool, run: seq<Sys>, steps: seq<Step>) {
    && |run| == |steps| + 1 && Initial(run[0])
    && forall i :: 0 <= i < |steps| ==> Next(lib, serialized, run[i], steps[i], run[i + 1])
  }

  // ---- the invariant -----------------------------------------------------------------------

  /** The slot of every piece of residue is still claimed by the Tenant it belongs to. */
  ghost predicate SlotsHeld(s: Sys) {
    forall piece :: piece in s.residue ==> piece.lease in s.store && Carries(s.store[piece.lease], piece.uid)
  }

  /** What a pass knows stays true: deletion is for ever and a deleting Tenant's residue only shrinks. */
  ghost predicate PassKnows(lib: Lib, serialized: bool, s: Sys, call: Call) {
    var uid := call.c.tenantUid;
    && uid in s.deleting
    && match call.pass
       case Reading(items, left, seen) =>
         && |left| <= |PARTS| && left == PARTS[|PARTS| - |left|..]
         && (!seen ==> forall piece :: piece in s.residue && piece.uid == uid ==> piece.part in left)
       case Releasing(_) => NoResidue(s, uid)
       case Fetching(_) => NoResidue(s, uid)
       case Removing(live, intent) =>
         && NoResidue(s, uid) && Carries(live, uid)
         && (intent.name in s.store && s.store[intent.name].version == Some(intent.version) ==>
               s.store[intent.name] == live)
         && intent.version < s.serial
       case Completed => NoResidue(s, uid) && (serialized ==> NoCarrier(s.store, uid))
  }

  /** No Tenant has an allocation and a finalizer pass under way at once. */
  ghost predicate OneAtATime(s: Sys) {
    forall a, p :: a in s.allocators && p in s.passes ==> s.allocators[a].c.tenantUid != s.passes[p].c.tenantUid
  }

  ghost predicate Inv(lib: Lib, serialized: bool, s: Sys) {
    && WellFormed(s.store, s.serial) && SlotsHeld(s) && (serialized ==> OneAtATime(s))
    && (forall piece :: piece in s.residue ==> Real(piece.part))
    && (forall id :: id in s.passes ==> PassKnows(lib, serialized, s, s.passes[id]))
  }

  /** What any step may do to the things a pass has looked at. */
  ghost predicate Undisturbed(serialized: bool, s: Sys, s': Sys) {
    && s.deleting <= s'.deleting && s.serial <= s'.serial
    && (forall piece :: piece in s'.residue ==> piece in s.residue || piece.uid !in s.deleting)
    && (forall n :: n in s'.store ==>
          || (n in s.store && s'.store[n] == s.store[n])
          || (&& s'.store[n].version.Some? && s'.store[n].version.value >= s.serial
              && (serialized ==> forall p :: p in s.passes ==> !Carries(s'.store[n], s.passes[p].c.tenantUid))))
  }

  lemma CreateUndisturbed(lib: Lib, serialized: bool, s: Sys, id: nat, s': Sys)
    requires Next(lib, serialized, s, CreateLease(id), s') && WellFormed(s.store, s.serial)
    requires serialized ==> OneAtATime(s)
    ensures Undisturbed(serialized, s, s') && WellFormed(s'.store, s'.serial)
  {
    CreatedFor(lib, s.allocators[id].c, s.allocators[id].decided.value, s.serial);
    hide LeaseName, NewLease, Stored, Carries;
  }

  /** Deletion, serial numbers and residue only move one way. */
  lemma StepOneWay(lib: Lib, serialized: bool, s: Sys, step: Step, s': Sys)
    requires Next(lib, serialized, s, step, s') && !step.CreateLease?
    ensures s.deleting <= s'.deleting && s.serial <= s'.serial
    ensures forall piece :: piece in s'.residue ==> piece in s.residue || piece.uid !in s.deleting
    ensures !step.Foreign? ==> s'.serial == s.serial
    ensures !step.Foreign? && !step.DeleteLease? ==> s'.store == s.store
    ensures step.DeleteLease? ==> exists n :: s'.store == s.store - {n}
  {
    hide LeaseName, DecideRelease, DecideClaim, HasPart, Listing, NewLease, Stored, PARTS;
  }

  lemma StepUndisturbed(lib: Lib, serialized: bool, s: Sys, step: Step, s': Sys)
    requires Next(lib, serialized, s, step, s') && WellFormed(s.store, s.serial) && (serialized ==> OneAtATime(s))
    ensures Undisturbed(serialized, s, s') && WellFormed(s'.store, s'.serial)
  {
    if step.CreateLease? {
      hide *;
      CreateUndisturbed(lib, serialized, s, step.id, s');
    } else {
      StepOneWay(lib, serialized, s, step, s');
      hide OneAtATime;
      if step.Foreign? {
        assert ForeignWrite(s, step.store, s'.serial);
      } else {
        hide Next;
      }
    }
  }

  lemma CreatedFor(lib: Lib, c: Context, slot: Slot, serial: Id)
    requires serial > 0
    ensures var l := Stored(NewLease(lib, c, slot), serial, serial + 1);
            && Stamped(l, LeaseName(lib, slot.slotId), serial + 2) && l.version == Some(serial + 1)
            && forall uid :: Carries(l, uid) <==> uid == c.tenantUid
  {
    hide LeaseName;
  }

  /** Where an allocation and a pass come from. */
  lemma StepActors(lib: Lib, s: Sys, step: Step, s': Sys, id: nat)
    requires Next(lib, true, s, step, s')
    ensures id in s'.allocators ==>
              || (id in s.allocators && s'.allocators[id].c == s.allocators[id].c)
              || (step.BeginAllocate? && s'.allocators[id].c == step.c)
    ensures id in s'.passes ==>
              (id in s.passes && s'.passes[id].c == s.passes[id].c) || (step.BeginPass? && s'.passes[id].c == step.c)
    ensures step.BeginAllocate? ==> s'.passes == s.passes && !Finalizing(s, step.c.tenantUid)
    ensures step.BeginPass? ==> s'.allocators == s.allocators && !Allocating(s, step.c.tenantUid)
  {
    hide LeaseName, DecideRelease, DecideClaim, HasPart, Listing, NewLease, Stored, PARTS, Allocating, Finalizing;
  }

  lemma StepOneAtATime(lib: Lib, s: Sys, step: Step, s': Sys)
    requires Next(lib, true, s, step, s') && OneAtATime(s)
    ensures OneAtATime(s')
  {
    hide Next;
    forall a, p | a in s'.allocators && p in s'.passes
      ensures s'.allocators[a].c.tenantUid != s'.passes[p].c.tenantUid
    {
      StepActors(lib, s, step, s', a);
      StepActors(lib, s, step, s', p);
    }
  }

  lemma UndisturbedPass(lib: Lib, serialized: bool, s: Sys, s': Sys, id: nat)
    requires id in s.passes && Undisturbed(serialized, s, s') && PassKnows(lib, serialized, s, s.passes[id])
    ensures PassKnows(lib, serialized, s', s.passes[id])
  {
    hide PARTS;
  }

  /** Only a finished deletion frees a slot, and it frees the slot of a Tenant without residue. */
  lemma StepHoldsSlots(lib: Lib, serialized: bool, s: Sys, step: Step, s': Sys)
    requires Inv(lib, serialized, s) && Next(lib, serialized, s, step, s')
    ensures SlotsHeld(s')
  {
    hide LeaseName, DecideRelease, DecideClaim, HasPart, PARTS, NewLease, Stored;
    if step.DeleteLease? {
      var call := s.passes[step.id];
      assert PassKnows(lib, serialized, s, call);
    } else if step.Foreign? {
      assert forall piece :: piece in s.residue ==> HasUid(s.store[piece.lease]);
    }
  }

  /** A pass leaves no part out. */
  lemma EveryPartIsRead(part: Part)
    ensures Real(part) <==> part in PARTS
  {
    if Real(part) {
      match part
      case NamespacePart => assert PARTS[0] == part;
      case RootPart(Cluster) => assert PARTS[1] == part;
      case RootPart(DevCluster) => assert PARTS[2] == part;
      case RootPart(KamajiControlPlane) => assert PARTS[3] == part;
      case RootPart(KubeadmConfigTemplate) => assert PARTS[4] == part;
      case RootPart(DevMachineTemplate) => assert PARTS[5] == part;
      case RootPart(MachineDeployment) => assert PARTS[6] == part;
      case SecretPart => assert PARTS[7] == part;
      case DescendantPart(kind) => assert PARTS[8 + kind] == part;
      case ContainersPart => assert PARTS[12] == part;
      case VolumePart => assert PARTS[13] == part;
    }
  }

  lemma BegunPass(lib: Lib, serialized: bool, s: Sys, c: Context, bound: Option<Allocation>, items: seq<Lease>)
    requires Inv(lib, serialized, s) && c.tenantUid in s.deleting
    ensures PassKnows(lib, serialized, s, Call(c, bound, Reading(items, PARTS, false)))
  {
    forall piece | piece in s.residue ensures piece.part in PARTS {
      EveryPartIsRead(piece.part);
    }
    hide PARTS;
    assert PARTS[0..] == PARTS;
  }

  lemma ListedPass(lib: Lib, serialized: bool, s: Sys, call: Call, items: seq<Lease>)
    requires PassKnows(lib, serialized, s, call) && call.pass.Releasing? && Listing(items, s.store)
    requires var d := DecideRelease(lib, call.c, items, call.bound, true); d.Ok? && d.value.Complete?
    ensures PassKnows(lib, serialized, s, call.(pass := Completed))
  {
    hide PARTS, DecideRelease;
    ReleaseDecisionMeaning(lib, call.c, items, call.bound, true);
    NoListedCarrier(s.store, items, call.c.tenantUid);
  }

  lemma FetchedPass(lib: Lib, serialized: bool, s: Sys, call: Call, live: Lease, intent: Intent)
    requires WellFormed(s.store, s.serial) && PassKnows(lib, serialized, s, call) && call.pass.Fetching?
    requires call.pass.intent.name in s.store && live == s.store[call.pass.intent.name]
    requires DecideRelease(lib, call.c, [live], call.bound, true) == Ok(Delete(intent))
    ensures PassKnows(lib, serialized, s, call.(pass := Removing(live, intent)))
  {
    hide PARTS, DecideRelease, LeaseName;
    ReleaseDecisionMeaning(lib, call.c, [live], call.bound, true);
    var a, l :| ReleaseWitness(lib, call.c, [live], intent, a, l);
    CarriersMember([live], call.c.tenantUid, l);
  }

  lemma ReadPass(lib: Lib, serialized: bool, s: Sys, call: Call)
    requires PassKnows(lib, serialized, s, call) && call.pass.Reading? && call.pass.left != []
    ensures var pass, uid := call.pass, call.c.tenantUid;
            PassKnows(lib, serialized, s,
                      call.(pass := pass.(left := pass.left[1..], seen := pass.seen || HasPart(s, uid, pass.left[0]))))
  {
    LearnPart(lib, serialized, s, call, call.pass.left);
    hide PARTS, HasPart;
  }

  /** A pass depends on the rest of the state only. */
  lemma SameBelow(lib: Lib, serialized: bool, s: Sys, s': Sys, call: Call)
    requires PassKnows(lib, serialized, s, call) && s' == s.(passes := s'.passes)
    ensures PassKnows(lib, serialized, s', call)
  {
    hide PARTS;
  }

  lemma DecidedPass(lib: Lib, serialized: bool, s: Sys, call: Call, claimSeen: bool)
    requires PassKnows(lib, serialized, s, call) && call.pass.Reading? && call.pass.left == [] && !call.pass.seen
    ensures PassKnows(lib, serialized, s, call.(pass := Releasing(claimSeen)))
  {
    hide PARTS;
  }

  lemma FetchingPass(lib: Lib, serialized: bool, s: Sys, call: Call, intent: Intent)
    requires PassKnows(lib, serialized, s, call) && call.pass.Releasing?
    ensures PassKnows(lib, serialized, s, call.(pass := Fetching(intent)))
  {
  }

  /** The knowledge a pass gains by its own steps. */
  lemma ActingPass(lib: Lib, serialized: bool, s: Sys, step: Step, s': Sys, id: nat)
    requires Inv(lib, serialized, s) && Next(lib, serialized, s, step, s')
    requires id in s'.passes && (id !in s.passes || s'.passes[id] != s.passes[id])
    ensures PassKnows(lib, serialized, s', s'.passes[id])
  {
    hide DecideRelease, LeaseName, HasPart, PARTS, PassKnows, WellFormed, SlotsHeld, Listing;
    PassesOnly(lib, serialized, s, step, s', id);
    if step.BeginPass? {
      BegunPass(lib, serialized, s, step.c, step.bound, step.items);
    } else if step.ReadPart? {
      ReadPass(lib, serialized, s, s.passes[id]);
    } else if step.Decide? {
      DecidedPass(lib, serialized, s, s.passes[id], s'.passes[id].pass.claimSeen);
    } else if step.GetLease? {
      FetchedPass(lib, serialized, s, s.passes[id], s'.passes[id].pass.live, s'.passes[id].pass.intent);
    } else if s'.passes[id].pass.Completed? {
      ListedPass(lib, serialized, s, s.passes[id], step.items);
    } else {
      FetchingPass(lib, serialized, s, s.passes[id], s'.passes[id].pass.intent);
    }
    SameBelow(lib, serialized, s, s', s'.passes[id]);
  }

  lemma PassesOnly(lib: Lib, serialized: bool, s: Sys, step: Step, s': Sys, id: nat)
    requires Next(lib, serialized, s, step, s')
    requires id in s'.passes && (id !in s.passes || s'.passes[id] != s.passes[id])
    ensures s' == s.(passes := s'.passes)
    ensures step.BeginPass? || step.ReadPart? || step.ListAgain? || step.GetLease? || step.Decide?
  {
    hide DecideRelease, LeaseName, HasPart, PARTS;
  }

  lemma LearnPart(lib: Lib, serialized: bool, s: Sys, call: Call, left: seq<Part>)
    requires PassKnows(lib, serialized, s, call) && call.pass.Reading? && left == call.pass.left && left != []
    ensures left[1..] == PARTS[|PARTS| - |left[1..]|..]
    ensures !call.pass.seen && !HasPart(s, call.c.tenantUid, left[0]) ==>
              forall piece :: piece in s.residue && piece.uid == call.c.tenantUid ==> piece.part in left[1..]
  {
    hide PARTS;
    if !call.pass.seen && !HasPart(s, call.c.tenantUid, left[0]) {
      forall piece | piece in s.residue && piece.uid == call.c.tenantUid ensures piece.part in left[1..] {
        assert piece == Piece(call.c.tenantUid, piece.part, piece.lease);
        assert left == [left[0]] + left[1..];
      }
    }
  }

  lemma StepKeepsInv(lib: Lib, serialized: bool, s: Sys, step: Step, s': Sys)
    requires Inv(lib, serialized, s) && Next(lib, serialized, s, step, s')
    ensures Inv(lib, serialized, s')
  {
    hide Next, PassKnows, PARTS, Undisturbed, SlotsHeld, OneAtATime;
    if serialized {
      StepOneAtATime(lib, s, step, s');
    }
    KnownParts(lib, serialized, s, step, s');
    StepUndisturbed(lib, serialized, s, step, s');
    StepHoldsSlots(lib, serialized, s, step, s');
    forall id | id in s'.passes ensures PassKnows(lib, serialized, s', s'.passes[id]) {
      if id in s.passes && s'.passes[id] == s.passes[id] {
        UndisturbedPass(lib, serialized, s, s', id);
      } else {
        ActingPass(lib, serialized, s, step, s', id);
      }
    }
  }

  lemma KnownParts(lib: Lib, serialized: bool, s: Sys, step: Step, s': Sys)
    requires Inv(lib, serialized, s) && Next(lib, serialized, s, step, s')
    ensures forall piece :: piece in s'.residue ==> Real(piece.part)
  {
    hide PARTS, PassKnows, DecideRelease, HasPart, LeaseName;
  }

  lemma {:induction false} RunKeepsInv(lib: Lib, serialized: bool, run: seq<Sys>, steps: seq<Step>, i: nat)
    requires Run(lib, serialized, run, steps) && i < |run|
    ensures Inv(lib, serialized, run[i])
    decreases i
  {
    if i > 0 {
      RunKeepsInv(lib, serialized, run, steps, i - 1);
      StepKeepsInv(lib, serialized, run[i - 1], steps[i - 1], run[i]);
    }
  }

  /** In every interleaving the slot of existing residue is claimed by its owner, and by nobody else. */
  lemma NoReuseOverResidue(lib: Lib, serialized: bool, run: seq<Sys>, steps: seq<Step>, i: nat, piece: Piece)
    requires Run(lib, serialized, run, steps) && i < |run| && piece in run[i].residue
    ensures piece.lease in run[i].store && Carries(run[i].store[piece.lease], piece.uid)
    ensures forall other :: other in run[i].residue && other.lease == piece.lease ==> other.uid == piece.uid
  {
    RunKeepsInv(lib, serialized, run, steps, i);
  }

  /** The finalizer goes only when neither residue nor, with serialized allocation, a Lease remains. */
  lemma FinalizerGoesLast(lib: Lib, serialized: bool, run: seq<Sys>, steps: seq<Step>, i: nat)
    requires Run(lib, serialized, run, steps) && i < |steps| && steps[i].RemoveFinalizer?
    ensures steps[i].id in run[i].passes
    ensures NoResidue(run[i], run[i].passes[steps[i].id].c.tenantUid)
    ensures serialized ==> NoCarrier(run[i].store, run[i].passes[steps[i].id].c.tenantUid)
    ensures run[i].passes[steps[i].id].bound.None?
  {
    RunKeepsInv(lib, serialized, run, steps, i);
    assert Next(lib, serialized, run[i], steps[i], run[i + 1]);
    assert PassKnows(lib, serialized, run[i], run[i].passes[steps[i].id]);
  }

  /** A pass that has proved the residue gone and finds the Tenant's Lease to delete deletes exactly that one. */
  lemma ReleaseFreesTheSlot(lib: Lib, serialized: bool, s: Sys, id: nat, items: seq<Lease>, intent: Intent)
    requires Inv(lib, serialized, s) && id in s.passes && s.passes[id].pass.Releasing? && Listing(items, s.store)
    requires DecideRelease(lib, s.passes[id].c, items, s.passes[id].bound, true) == Ok(Delete(intent))
    ensures Carrying(s.store, s.passes[id].c.tenantUid) == {intent.name} && intent.name in s.store
    ensures var fetching := Advance(s, id, Fetching(intent));
            var removing := Advance(s, id, Removing(s.store[intent.name], intent));
            && Next(lib, serialized, s, ListAgain(id, items), fetching)
            && Next(lib, serialized, fetching, GetLease(id), removing)
            && Next(lib, serialized, removing, DeleteLease(id), Drop(s.(store := s.store - {intent.name}), id))
  {
    hide DecideRelease, PARTS, LeaseName, PassKnows, Next, SlotsHeld, OneAtATime, Listing;
    DeletesItsOwn(lib, s.passes[id].c, s.store, items, s.passes[id].bound, intent, s.serial);
    ListedStep(lib, serialized, s, id, items, intent);
    FetchedStep(lib, serialized, s, id, intent);
    DeletedStep(lib, serialized, s, id, intent);
  }

  lemma ListedStep(lib: Lib, serialized: bool, s: Sys, id: nat, items: seq<Lease>, intent: Intent)
    requires id in s.passes && s.passes[id].pass.Releasing? && Listing(items, s.store)
    requires DecideRelease(lib, s.passes[id].c, items, s.passes[id].bound, true) == Ok(Delete(intent))
    ensures Next(lib, serialized, s, ListAgain(id, items), Advance(s, id, Fetching(intent)))
  {
    hide DecideRelease, PARTS, LeaseName, Listing;
  }

  lemma FetchedStep(lib: Lib, serialized: bool, s: Sys, id: nat, intent: Intent)
    requires id in s.passes && intent.name in s.store
    requires DecideRelease(lib, s.passes[id].c, [s.store[intent.name]], s.passes[id].bound, true) == Ok(Delete(intent))
    ensures Next(lib, serialized, Advance(s, id, Fetching(intent)), GetLease(id),
                 Advance(s, id, Removing(s.store[intent.name], intent)))
  {
    hide DecideRelease, PARTS, LeaseName;
    var fetching := Advance(s, id, Fetching(intent));
    assert Advance(fetching, id, Removing(s.store[intent.name], intent))
        == Advance(s, id, Removing(s.store[intent.name], intent));
  }

  lemma DeletedStep(lib: Lib, serialized: bool, s: Sys, id: nat, intent: Intent)
    requires id in s.passes && intent.name in s.store
    requires s.store[intent.name].uid == Some(intent.uid) && s.store[intent.name].version == Some(intent.version)
    ensures Next(lib, serialized, Advance(s, id, Removing(s.store[intent.name], intent)), DeleteLease(id),
                 Drop(s.(store := s.store - {intent.name}), id))
  {
    hide DecideRelease, PARTS, LeaseName;
    var removing := Advance(s, id, Removing(s.store[intent.name], intent));
    assert Drop(removing.(store := s.store - {intent.name}), id) == Drop(s.(store := s.store - {intent.name}), id);
  }

  // ---- and exactly then --------------------------------------------------------------------

  /** Whoever loses the finalizer holds no Lease. */
  ghost predicate NoLeaseOutlives(lib: Lib, serialized: bool) {
    forall run: seq<Sys>, steps: seq<Step>, i: nat ::
      Run(lib, serialized, run, steps) && i < |steps| && steps[i].RemoveFinalizer? ==>
        steps[i].id in run[i].passes && NoCarrier(run[i].store, run[i].passes[steps[i].id].c.tenantUid)
  }

  const LATE_SLOT := Slot("b", 0, "", "", "")

  const LATE := Context("tenants", OtherKey("owner"), "lab", "a", "u", "s", "f", [LATE_SLOT])

  /** A Tenant whose deletion is requested while its allocation has decided on a slot. */
  function Straddle(allocators: map<nat, Allocator>, passes: map<nat, Call>): Sys {
    Sys(map[], 1, {}, {"u"}, {}, passes, allocators)
  }

  function Deciding(): map<nat, Allocator> {
    map[0 := Allocator(LATE, Some(LATE_SLOT))]
  }

  function Passing(pass: Pass): map<nat, Call> {
    map[0 := Call(LATE, None, pass)]
  }

  lemma LateDecisions(lib: Lib)
    ensures DecideRelease(lib, LATE, [], None, true) == Ok(Complete)
    ensures DecideClaim(lib, LATE, [], None) == Ok(Create(LATE_SLOT))
  {
    assert LATE.slots[0] == LATE_SLOT && ValidContext(lib, LATE);
    assert FirstFree(lib, LATE.slots, []) == Some(LATE_SLOT);
  }

  lemma Extend(lib: Lib, serialized: bool, run: seq<Sys>, steps: seq<Step>, step: Step, s': Sys)
    returns (longer: seq<Sys>, more: seq<Step>)
    requires Run(lib, serialized, run, steps) && Next(lib, serialized, run[|steps|], step, s')
    ensures Run(lib, serialized, longer, more) && |more| == |steps| + 1 && more == steps + [step]
    ensures longer[|more|] == s' && longer[|steps|] == run[|steps|]
  {
    hide Next, Initial;
    longer, more := run + [s'], steps + [step];
  }

  /** Read, listed, decided, and only then deleted: with or without serialization. */
  lemma DeletedWhileDeciding(lib: Lib, serialized: bool) returns (run: seq<Sys>, steps: seq<Step>)
    ensures Run(lib, serialized, run, steps) && run[|steps|] == Straddle(Deciding(), map[])
  {
    LateDecisions(lib);
    hide DecideClaim, PARTS;
    var start := Sys(map[], 1, {}, {}, {}, map[], map[]);
    var begun := start.(allocators := map[0 := Allocator(LATE, None)]);
    var decided := start.(allocators := Deciding());
    run, steps := Extend(lib, serialized, [start], [], BeginAllocate(0, LATE), begun);
    run, steps := Extend(lib, serialized, run, steps, ListSlots(0, []), decided);
    run, steps := Extend(lib, serialized, run, steps, DeleteTenant("u"), Straddle(Deciding(), map[]));
  }

  function LateStore(lib: Lib): Store {
    map[LeaseName(lib, "b") := Stored(NewLease(lib, LATE, LATE_SLOT), 1, 2)]
  }

  /** Even serialized, a Lease can be created for a Tenant that is already being deleted. */
  lemma CreatedAfterDeletion(lib: Lib, serialized: bool) returns (run: seq<Sys>, steps: seq<Step>)
    ensures Run(lib, serialized, run, steps) && "u" in run[|steps|].deleting && !NoCarrier(run[|steps|].store, "u")
  {
    run, steps := DeletedWhileDeciding(lib, serialized);
    var created := Straddle(map[0 := Allocator(LATE, None)], map[]).(store := LateStore(lib), serial := 3);
    LateLease(lib);
    hide LeaseName, NewLease, Stored, PARTS;
    run, steps := Extend(lib, serialized, run, steps, CreateLease(0), created);
  }

  lemma LateLease(lib: Lib)
    ensures !NoCarrier(LateStore(lib), "u")
  {
    hide LeaseName;
    assert Carries(LateStore(lib)[LeaseName(lib, "b")], "u");
  }

  lemma {:induction false} StraddleRead(lib: Lib, k: nat) returns (run: seq<Sys>, steps: seq<Step>)
    requires k <= |PARTS|
    ensures Run(lib, false, run, steps)
    ensures run[|steps|] == Straddle(Deciding(), Passing(Reading([], PARTS[k..], false)))
  {
    if k == 0 {
      run, steps := DeletedWhileDeciding(lib, false);
      hide PARTS;
      assert PARTS[0..] == PARTS;
      run, steps := Extend(lib, false, run, steps, BeginPass(0, LATE, None, []),
                           Straddle(Deciding(), Passing(Reading([], PARTS, false))));
    } else {
      run, steps := StraddleRead(lib, k - 1);
      hide PARTS;
      assert PARTS[k - 1..][1..] == PARTS[k..];
      assert !HasPart(run[|steps|], "u", PARTS[k - 1]);
      run, steps := Extend(lib, false, run, steps, ReadPart(0),
                           Straddle(Deciding(), Passing(Reading([], PARTS[k..], false))));
    }
  }

  function LateCreate(lib: Lib): Sys {
    Straddle(map[0 := Allocator(LATE, None)], Passing(Completed)).(store := LateStore(lib), serial := 3)
  }

  lemma StraddleDecides(lib: Lib)
    ensures Next(lib, false, Straddle(Deciding(), Passing(Reading([], PARTS[|PARTS|..], false))), Decide(0),
                 Straddle(Deciding(), Passing(Releasing(false))))
    ensures Next(lib, false, Straddle(Deciding(), Passing(Releasing(false))), ListAgain(0, []),
                 Straddle(Deciding(), Passing(Completed)))
  {
    LateDecisions(lib);
    hide PARTS, DecideRelease;
  }

  lemma StraddleEnds(lib: Lib)
    ensures Next(lib, false, Straddle(Deciding(), Passing(Completed)), CreateLease(0), LateCreate(lib))
    ensures Next(lib, false, LateCreate(lib), RemoveFinalizer(0), Drop(LateCreate(lib).(released := {"u"}), 0))
  {
    hide LeaseName, NewLease, Stored, PARTS;
  }

  /** An allocation that overlaps the last pass creates its Lease after that pass's last look. */
  lemma StraddlingCreate(lib: Lib) returns (run: seq<Sys>, steps: seq<Step>)
    ensures Run(lib, false, run, steps) && steps != [] && steps[|steps| - 1] == RemoveFinalizer(0)
    ensures run[|steps| - 1] == LateCreate(lib) && !NoCarrier(LateCreate(lib).store, "u")
  {
    run, steps := StraddleRead(lib, |PARTS|);
    StraddleDecides(lib);
    StraddleEnds(lib);
    LateLease(lib);
    hide PARTS, Next, Initial, LateStore;
    run, steps := Extend(lib, false, run, steps, Decide(0), Straddle(Deciding(), Passing(Releasing(false))));
    run, steps := Extend(lib, false, run, steps, ListAgain(0, []), Straddle(Deciding(), Passing(Completed)));
    run, steps := Extend(lib, false, run, steps, CreateLease(0), LateCreate(lib));
    run, steps := Extend(lib, false, run, steps, RemoveFinalizer(0), Drop(LateCreate(lib).(released := {"u"}), 0));
  }

  /** No Lease outlives its Tenant's finalizer exactly when allocation and finalizer pass do not overlap. */
  lemma FinalizerGoesLastIffSerialized(lib: Lib, serialized: bool)
    ensures NoLeaseOutlives(lib, serialized) <==> serialized
  {
    if serialized {
      forall run: seq<Sys>, steps: seq<Step>, i: nat
        | Run(lib, serialized, run, steps) && i < |steps| && steps[i].RemoveFinalizer?
        ensures steps[i].id in run[i].passes && NoCarrier(run[i].store, run[i].passes[steps[i].id].c.tenantUid)
      {
        FinalizerGoesLast(lib, serialized, run, steps, i);
      }
    } else {
      var run, steps := StraddlingCreate(lib);
      assert steps[|steps| - 1].RemoveFinalizer?;
    }
  }
}
