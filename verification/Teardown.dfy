/** controller/src/finalize.rs: one teardown pass over a deleting Local Tenant. */
module Teardown {
  import opened Base
  import opened Leases
  import opened LeaseServer
  import opened LeaseCalls

  /** The management roots in the order they are listed; the Cluster comes first. */
  datatype Root =
    Cluster | DevCluster | KamajiControlPlane | KubeadmConfigTemplate | DevMachineTemplate | MachineDeployment

  const OTHER_ROOTS: seq<Root> :=
    [DevCluster, KamajiControlPlane, KubeadmConfigTemplate, DevMachineTemplate, MachineDeployment]

  datatype Presence = Absent | Live | Terminating

  /** What is left of a Tenant. A root in the map exists; it maps to whether it is terminating. */
  datatype Residue = Residue(
    namespace: Presence, roots: map<Root, bool>, secret: bool, descendants: bool,
    workers: bool, loadBalancer: bool, volume: bool)

  datatype Status = Status(
    deletingPhase: bool, foundationHash: Option<string>, clusterUid: Option<string>, allocation: Option<Allocation>)

  datatype World = World(residue: Residue, status: Status, store: Store, finalizer: bool)

  predicate AnyResidue(r: Residue) {
    || r.namespace != Absent || r.roots != map[] || r.secret || r.descendants
    || r.workers || r.loadBalancer || r.volume
  }

  const NOTHING_LEFT := Residue(Absent, map[], false, false, false, false, false)

  /** Nothing of the seven kinds is left. */
  lemma NothingLeft(r: Residue)
    ensures !AnyResidue(r) <==> r == Residue(Absent, map[], false, false, false, false, false)
  {
  }

  /** Teardown only takes away: nothing appears and nothing stops terminating. */
  predicate Shrinks(r: Residue, s: Residue) {
    && (r.namespace == Absent ==> s.namespace == Absent)
    && (r.namespace == Terminating ==> s.namespace != Live)
    && s.roots.Keys <= r.roots.Keys
    && (forall k :: k in s.roots && r.roots[k] ==> s.roots[k])
    && (s.secret ==> r.secret) && (s.descendants ==> r.descendants) && (s.workers ==> r.workers)
    && (s.loadBalancer ==> r.loadBalancer) && (s.volume ==> r.volume)
  }

  function LiveRoots(r: Residue): set<Root> {
    set k | k in r.roots && !r.roots[k]
  }

  function Count(b: bool): nat {
    if b then 1 else 0
  }

  function Unset(v: Option<string>): bool {
    NonEmpty(v).None?
  }

  /** The writes still possible: a Lease weighs two, because deleting it leaves an allocation to clear. */
  function Measure(w: World, uid: string): nat {
    var held := Carrying(w.store, uid);
    2 * |held| + |LiveRoots(w.residue)| + Count(w.residue.namespace == Live) + Count(w.residue.volume)
    + Count(!w.status.deletingPhase) + Count(Unset(w.status.foundationHash)) + Count(Unset(w.status.clusterUid))
    + Count(w.status.allocation.Some? == (held == {})) + Count(w.finalizer)
  }

  /** Everything that has to be on record before anything is taken away. */
  predicate Recorded(w: World, c: Context) {
    && w.status.deletingPhase
    && (AnyResidue(w.residue) ==> !Unset(w.status.foundationHash))
    && (Cluster in w.residue.roots ==> !Unset(w.status.clusterUid))
    && (Carrying(w.store, c.tenantUid) != {} ==> !Unset(w.status.foundationHash) && w.status.allocation.Some?)
  }

  /** The residue of a Tenant goes in order: the Cluster, other roots, the volume, the Namespace. */
  predicate InOrder(r: Residue, s: Residue) {
    && (forall k :: k in r.roots && k != Cluster && (k !in s.roots || s.roots[k] != r.roots[k]) ==> Cluster !in r.roots)
    && (r.volume != s.volume ==> r.roots == map[] && !r.descendants && !r.workers && !r.loadBalancer)
    && (r.namespace != s.namespace ==> r == Residue(Live, map[], false, false, false, false, false))
    && r.secret == s.secret && r.descendants == s.descendants
    && r.workers == s.workers && r.loadBalancer == s.loadBalancer
  }

  /** `a` is what the Tenant's only Lease is bound to. */
  ghost predicate Claimed(lib: Lib, c: Context, store: Store, a: Allocation) {
    exists n :: n in store && Carrying(store, c.tenantUid) == {n}
                && AnnotatedAllocation(lib, store[n]) == Ok(a) && BoundTo(lib, c, a, store[n])
  }

  /** A status patch makes one entry: the phase, a binding that was missing, or the claimed allocation. */
  ghost predicate OneEntry(lib: Lib, c: Context, w: World, st: Status) {
    || st == w.status.(deletingPhase := true)
    || (Unset(w.status.foundationHash) && st == w.status.(foundationHash := Some(c.foundationHash)))
    || (Unset(w.status.clusterUid) && st == w.status.(clusterUid := st.clusterUid) && !Unset(st.clusterUid))
    || (w.status.allocation.None? && st.allocation.Some? && st == w.status.(allocation := st.allocation)
        && Claimed(lib, c, w.store, st.allocation.value))
    || (w.status.allocation.Some? && st == w.status.(allocation := None))
  }

  /** What one pass may do, whatever it found. */
  ghost predicate SafePass(lib: Lib, c: Context, w: World, w': World) {
    && (w' != w ==> Measure(w', c.tenantUid) < Measure(w, c.tenantUid))
    && (|| w' == w.(status := w'.status) || w' == w.(residue := w'.residue)
        || w' == w.(store := w'.store) || w' == w.(finalizer := w'.finalizer))
    && (w'.residue != w.residue ==> Recorded(w, c) && Shrinks(w.residue, w'.residue) && InOrder(w.residue, w'.residue))
    && (w'.store != w.store ==>
          && Recorded(w, c) && w.residue == NOTHING_LEFT
          && exists n :: Carrying(w.store, c.tenantUid) == {n} && w'.store == w.store - {n})
    && (w'.status != w.status ==> OneEntry(lib, c, w, w'.status))
    && (w.status.allocation.Some? && w'.status.allocation != w.status.allocation ==>
          w.residue == NOTHING_LEFT && Carrying(w.store, c.tenantUid) == {})
    && (w'.finalizer != w.finalizer ==>
          && w.finalizer && w.residue == NOTHING_LEFT
          && Carrying(w.store, c.tenantUid) == {} && w.status.allocation.None?)
  }

  /** The entries a pass makes in the status before it takes anything away, in this order. */
  datatype Edit = MarkDeleting | BindFoundation | BindCluster | RecordAllocation

  const EDITS := [MarkDeleting, BindFoundation, BindCluster, RecordAllocation]

  predicate Wanted(edit: Edit, st: Status, r: Residue, decision: Release, recovered: Option<Allocation>) {
    match edit
    case MarkDeleting => !st.deletingPhase
    case BindFoundation => Unset(st.foundationHash) && (AnyResidue(r) || decision.Delete?)
    case BindCluster => Cluster in r.roots && Unset(st.clusterUid)
    case RecordAllocation => st.allocation.None? && !decision.Complete? && recovered.Some?
  }

  function Edited(edit: Edit, st: Status, c: Context, clusterUid: string, recovered: Option<Allocation>): Status {
    match edit
    case MarkDeleting => st.(deletingPhase := true)
    case BindFoundation => st.(foundationHash := Some(c.foundationHash))
    case BindCluster => st.(clusterUid := Some(clusterUid))
    case RecordAllocation => st.(allocation := recovered)
  }

  /** The first edit that is wanted. */
  ghost predicate FirstWanted(i: nat, st: Status, r: Residue, decision: Release, recovered: Option<Allocation>) {
    && i < |EDITS| && Wanted(EDITS[i], st, r, decision, recovered)
    && forall j :: 0 <= j < i ==> !Wanted(EDITS[j], st, r, decision, recovered)
  }

  /** The root whose turn it is: the Cluster before all others, then the order of the list. */
  ghost predicate FirstRoot(r: Residue, k: Root) {
    && k in r.roots && (k != Cluster ==> Cluster !in r.roots)
    && forall i, j :: 0 <= j < i < |OTHER_ROOTS| && OTHER_ROOTS[i] == k ==> OTHER_ROOTS[j] !in r.roots
  }

  predicate Quiet(r: Residue) {
    r.roots == map[] && !r.descendants && !r.workers && !r.loadBalancer
  }

  function WithoutRoot(r: Residue, k: Root, gone: bool): Residue {
    r.(roots := if gone then r.roots - {k} else r.roots[k := true])
  }

  /** The one removal whose turn has come; what is terminating, or not the controller's to remove, is waited for. */
  ghost predicate Removes(r: Residue, s: Residue, gone: bool) {
    || (exists k :: FirstRoot(r, k) && !r.roots[k] && s == WithoutRoot(r, k, gone))
    || (Quiet(r) && r.volume && s == r.(volume := false))
    || (Quiet(r) && !r.volume && !r.secret && r.namespace == Live
        && s == r.(namespace := if gone then Absent else Terminating))
  }

  /** The deletion, the foundation, the Cluster and the claimed slot are in the status. */
  predicate OnRecord(c: Context, w: World) {
    && w.status.deletingPhase && w.status.foundationHash.Some? && w.status.foundationHash != Some("")
    && (Cluster in w.residue.roots ==> w.status.clusterUid.Some? && w.status.clusterUid != Some(""))
    && ((exists n :: n in w.store && Carries(w.store[n], c.tenantUid)) ==> w.status.allocation.Some?)
  }

  /** Leases, allocation and finalizer go only when nothing is left, residue only when all is on record. */
  predicate GoesLast(c: Context, w: World, w': World) {
    && (w'.store != w.store || w'.finalizer != w.finalizer
        || (w.status.allocation.Some? && w'.status.allocation != w.status.allocation) ==>
          w.residue == Residue(Absent, map[], false, false, false, false, false))
    && (w'.residue != w.residue ==> OnRecord(c, w))
  }

  /** With everything on record, a live Cluster, a volume left alone, and a Namespace left alone go. */
  predicate TurnComes(c: Context, gone: bool, w: World, w': World) {
    OnRecord(c, w) ==>
      && (Cluster in w.residue.roots && !w.residue.roots[Cluster] ==>
            w'.residue == w.residue.(roots := if gone then w.residue.roots - {Cluster}
                                              else w.residue.roots[Cluster := true]))
      && (w.residue.roots == map[] && !w.residue.descendants && !w.residue.workers && !w.residue.loadBalancer
          && w.residue.volume ==>
            w'.residue == w.residue.(volume := false))
      && (w.residue == Residue(Live, map[], false, false, false, false, false) ==>
            w'.residue == w.residue.(namespace := if gone then Absent else Terminating))
  }

  class Finalizer {
    var api: LeaseApi
    var residue: Residue
    var status: Status
    var finalizer: bool

    constructor (api: LeaseApi, residue: Residue, status: Status)
      ensures this.api == api && this.residue == residue && this.status == status && finalizer
    {
      this.api, this.residue, this.status, finalizer := api, residue, status, true;
    }

    ghost function State(): World
      reads this, api
    {
      World(residue, status, api.store, finalizer)
    }

    /** The first edit that is wanted, or none; only a Cluster without a UID is an error. */
    method Record(c: Context, clusterUid: string, decision: Release, recovered: Option<Allocation>)
      returns (r: Result<Option<Status>, Error>)
      ensures r == Ok(None) <==>
              forall i :: 0 <= i < |EDITS| ==> !Wanted(EDITS[i], status, residue, decision, recovered)
      ensures r.Err? <==> clusterUid == "" && FirstWanted(2, status, residue, decision, recovered)
      ensures r.Ok? && r.value.Some? ==>
                exists i: nat :: i < |EDITS| && FirstWanted(i, status, residue, decision, recovered)
                                 && r.value.value == Edited(EDITS[i], status, c, clusterUid, recovered)
    {
      hide AnyResidue, Unset;
      if !status.deletingPhase {
        assert FirstWanted(0, status, residue, decision, recovered);
        return Ok(Some(status.(deletingPhase := true)));
      }
      if Unset(status.foundationHash) && (AnyResidue(residue) || decision.Delete?) {
        assert FirstWanted(1, status, residue, decision, recovered);
        return Ok(Some(status.(foundationHash := Some(c.foundationHash))));
      }
      if Cluster in residue.roots && Unset(status.clusterUid) {
        assert FirstWanted(2, status, residue, decision, recovered);
        if clusterUid == "" {
          return Err(ClaimError("missing resource UID"));
        }
        return Ok(Some(status.(clusterUid := Some(clusterUid))));
      }
      if status.allocation.None? && !decision.Complete? && recovered.Some? {
        assert FirstWanted(3, status, residue, decision, recovered);
        return Ok(Some(status.(allocation := recovered)));
      }
      return Ok(None);
    }

    /** The removal whose turn has come, if there is one: the API server removes it or marks it terminating. */
    method RemoveNext(gone: bool) returns (wrote: bool)
      modifies this`residue
      ensures wrote ==> Removes(old(residue), residue, gone)
      ensures !wrote ==> residue == old(residue) && forall s :: !Removes(old(residue), s, gone)
    {
      if Cluster in residue.roots {
        OnlyFirstRoot(residue, Cluster, gone);
        wrote := DeleteRoot(Cluster, gone);
        return;
      }
      for i := 0 to |OTHER_ROOTS|
        invariant residue == old(residue)
        invariant forall k :: 0 <= k < i ==> OTHER_ROOTS[k] !in residue.roots
      {
        if OTHER_ROOTS[i] in residue.roots {
          OrderIsFixed(i);
          OnlyFirstRoot(residue, OTHER_ROOTS[i], gone);
          wrote := DeleteRoot(OTHER_ROOTS[i], gone);
          return;
        }
      }
      assert forall k :: k in OTHER_ROOTS ==> k !in residue.roots;
      EveryRoot();
      assert forall k :: k !in residue.roots;
      assert residue.roots == map[];
      if residue.descendants || residue.workers || residue.loadBalancer {
        return false;
      }
      if residue.volume {
        residue := residue.(volume := false);
        return true;
      }
      if residue.secret || residue.namespace != Live {
        return false;
      }
      residue := residue.(namespace := if gone then Absent else Terminating);
      return true;
    }

    /** Deletes a root exactly when it is not terminating already. */
    method DeleteRoot(k: Root, gone: bool) returns (wrote: bool)
      requires k in residue.roots
      modifies this`residue
      ensures wrote <==> !old(residue).roots[k]
      ensures residue == if wrote then WithoutRoot(old(residue), k, gone) else old(residue)
    {
      wrote := !residue.roots[k];
      if wrote {
        residue := residue.(roots := if gone then residue.roots - {k} else residue.roots[k := true]);
      }
    }

    /** The release of the Lease by its identity, read once more before it is deleted. */
    method DeleteLease(lib: Lib, c: Context, items: seq<Lease>) returns (wrote: bool)
      requires api.Valid() && Listing(items, api.store)
      requires var d := DecideRelease(lib, c, items, status.allocation, true); d.Ok? && d.value.Delete?
      modifies api
      ensures api.Valid() && wrote
      ensures exists n :: Carrying(old(api.store), c.tenantUid) == {n} && api.store == old(api.store) - {n}
    {
      hide BoundTo, ValidAllocation, DecideRelease;
      ReleaseDecisionMeaning(lib, c, items, status.allocation, true);
      var intent := DecideRelease(lib, c, items, status.allocation, true).value.intent;
      ghost var a, l :| ReleaseWitness(lib, c, items, intent, a, l);
      ListedCarriers(api.store, items, c.tenantUid, l);
      var live := api.GetOpt(intent.name);
      ReleaseDecisionOnOne(lib, c, items, status.allocation, l);
      var again := DecideRelease(lib, c, [live.value], status.allocation, true);
      BoundIdentity(lib, c, a, l);
      wrote := api.Delete(again.value.intent.name, again.value.intent.uid, again.value.intent.version);
    }

    /** Without residue: delete the Lease, or clear the allocation, or let the Tenant go. */
    method Finish(lib: Lib, c: Context, items: seq<Lease>) returns (wrote: bool)
      requires api.Valid() && Listing(items, api.store) && Recorded(State(), c) && !AnyResidue(residue)
      requires DecideRelease(lib, c, items, status.allocation, true).Ok?
      modifies this, api
      ensures api == old(api) && api.Valid()
      ensures SafePass(lib, c, old(State()), State()) && (wrote <==> State() != old(State()))
      ensures old(finalizer) ==> wrote
    {
      ReleaseDecisionMeaning(lib, c, items, status.allocation, true);
      NoListedCarrier(api.store, items, c.tenantUid);
      ghost var before := State();
      hide DecideRelease, Recorded, AnyResidue, Measure;
      if DecideRelease(lib, c, items, status.allocation, true).value.Delete? {
        wrote := DeleteLease(lib, c, items);
        LeasePass(lib, c, before, State());
        return;
      }
      NoneCarrying(api.store, c.tenantUid);
      if status.allocation.Some? {
        status := status.(allocation := None);
        ClearingPass(lib, c, before);
        return true;
      }
      wrote := finalizer;
      finalizer := false;
      LastPass(lib, c, before);
    }

    /**
     * One pass with nobody else writing: at most one mutation, and each brings the end nearer. A checked
     * pass that writes nothing has residue left of which nothing is its own to remove now. Leases, allocation
     * and finalizer go only when nothing at all is left, residue only when everything is on record, and what
     * is next in order goes when its turn has come.
     */
    method Reconcile(lib: Lib, c: Context, checked: bool, clusterUid: string, gone: bool) returns (wrote: bool)
      requires api.Valid()
      modifies this, api
      ensures api == old(api) && api.Valid()
      ensures PassStep(lib, c, checked && clusterUid != "", old(State()), State())
      ensures wrote <==> State() != old(State())
      ensures GoesLast(c, old(State()), State())
      ensures checked && clusterUid != "" && CanDecide(lib, c, old(State())) ==>
                TurnComes(c, gone, old(State()), State())
    {
      hide SafePass, DecideRelease, RecoverAllocation, AnyResidue, Recorded, Wanted, FirstWanted, Edited, Removes,
        Carrying, Claimed, OnRecord, TurnComes;
      IdlePass(lib, c, State());
      SafeGoesLast(lib, c, State());
      if !checked {
        return false;
      }
      var items := api.List();
      var present := AnyResidue(residue);
      var decision := DecideRelease(lib, c, items, status.allocation, !present);
      if decision.Err? {
        return false;
      }
      ReleaseDecisionMeaning(lib, c, items, status.allocation, !present);
      DecidedRelease(lib, c, items, status.allocation, !present, api.store);
      ghost var before := State();
      var recovered := RecoverAllocation(lib, c, items).value;
      ClusterIsResidue(status, residue, decision.value, recovered);
      var patch := Record(c, clusterUid, decision.value, recovered);
      if patch.Err? {
        return false;
      }
      if patch.value.Some? {
        ghost var i: nat :| i < |EDITS| && FirstWanted(i, status, residue, decision.value, recovered)
          && patch.value.value == Edited(EDITS[i], status, c, clusterUid, recovered);
        StatusPass(lib, c, before, clusterUid, recovered, decision.value, i);
        EditBeforeRecord(c, gone, before, recovered, decision.value, i, patch.value.value);
        status := patch.value.value;
        return true;
      }
      NothingToRecord(c, before, recovered, decision.value);
      if present {
        wrote := RemoveNext(gone);
        if wrote {
          RemovalShrinks(before.residue, residue, gone);
        } else {
          NothingInTurn(residue, gone);
        }
        ResiduePass(lib, c, before, residue, wrote);
        RemovedInTurn(c, gone, before, residue);
        return;
      }
      wrote := Finish(lib, c, items);
      NothingInTheWay(c, gone, before, State());
    }
  }

  lemma IdlePass(lib: Lib, c: Context, w: World)
    ensures SafePass(lib, c, w, w)
  {
  }

  lemma StatusPass(lib: Lib, c: Context, w: World, clusterUid: string, recovered: Option<Allocation>,
                   decision: Release, i: nat)
    requires ValidIdentity(c) && (recovered.None? <==> Carrying(w.store, c.tenantUid) == {})
    requires recovered.Some? ==> Claimed(lib, c, w.store, recovered.value)
    requires FirstWanted(i, w.status, w.residue, decision, recovered) && (i == 2 ==> clusterUid != "")
    ensures SafePass(lib, c, w, w.(status := Edited(EDITS[i], w.status, c, clusterUid, recovered)))
    ensures Edited(EDITS[i], w.status, c, clusterUid, recovered) != w.status
  {
    hide Shrinks, InOrder, Recorded, AnyResidue;
    assert i == 0 || i == 1 || i == 2 || i == 3;
  }

  lemma SafeGoesLast(lib: Lib, c: Context, w: World)
    ensures forall w' :: SafePass(lib, c, w, w') ==> GoesLast(c, w, w')
  {
    hide Measure, InOrder, Shrinks;
    forall w' | SafePass(lib, c, w, w') && w'.residue != w.residue ensures OnRecord(c, w) {
      if n :| n in w.store && Carries(w.store[n], c.tenantUid) {
        assert n in Carrying(w.store, c.tenantUid);
      }
      NothingLeft(w.residue);
      if w.residue == NOTHING_LEFT {
        NothingFromNothing(w'.residue);
      }
    }
  }

  lemma NothingFromNothing(r: Residue)
    requires Shrinks(NOTHING_LEFT, r)
    ensures r == NOTHING_LEFT
  {
    assert r.roots.Keys == {};
  }

  /** An edit is made only while something is not on record. */
  lemma EditBeforeRecord(c: Context, gone: bool, w: World, recovered: Option<Allocation>, decision: Release, i: nat,
                         st: Status)
    requires FirstWanted(i, w.status, w.residue, decision, recovered)
    requires recovered.Some? ==> Carrying(w.store, c.tenantUid) != {}
    ensures TurnComes(c, gone, w, w.(status := st))
  {
    assert i == 0 || i == 1 || i == 2 || i == 3;
    assert !OnRecord(c, w);
  }

  lemma RemovedInTurn(c: Context, gone: bool, w: World, r: Residue)
    requires Removes(w.residue, r, gone) || (r == w.residue && forall s :: !Removes(w.residue, s, gone))
    ensures TurnComes(c, gone, w, w.(residue := r))
  {
    var before := w.residue;
    if Cluster in before.roots && !before.roots[Cluster] {
      assert FirstRoot(before, Cluster) by {
        assert forall i :: 0 <= i < |OTHER_ROOTS| ==> OTHER_ROOTS[i] != Cluster;
      }
      assert Removes(before, WithoutRoot(before, Cluster, gone), gone);
      hide Quiet;
    } else if before.roots == map[] && Quiet(before) {
      assert forall k :: !FirstRoot(before, k);
      assert before.volume ==> Removes(before, before.(volume := false), gone);
      assert before == Residue(Live, map[], false, false, false, false, false) ==>
        Removes(before, before.(namespace := if gone then Absent else Terminating), gone);
    }
  }

  lemma NothingInTheWay(c: Context, gone: bool, w: World, w': World)
    requires !AnyResidue(w.residue)
    ensures TurnComes(c, gone, w, w')
  {
  }

  lemma ClusterIsResidue(st: Status, r: Residue, decision: Release, recovered: Option<Allocation>)
    ensures FirstWanted(2, st, r, decision, recovered) ==> AnyResidue(r)
    ensures forall i: nat ::
              FirstWanted(i, st, r, decision, recovered) && FirstWanted(2, st, r, decision, recovered) ==> i == 2
  {
  }

  lemma NoneCarrying(store: Store, uid: string)
    ensures NoCarrier(store, uid) ==> Carrying(store, uid) == {}
  {
  }

  lemma LeasePass(lib: Lib, c: Context, w: World, w': World)
    requires Recorded(w, c) && !AnyResidue(w.residue) && w' == w.(store := w'.store)
    requires exists n :: Carrying(w.store, c.tenantUid) == {n} && w'.store == w.store - {n}
    ensures SafePass(lib, c, w, w') && w' != w
  {
    var n :| Carrying(w.store, c.tenantUid) == {n} && w'.store == w.store - {n};
    assert Carrying(w'.store, c.tenantUid) == {};
  }

  lemma ClearingPass(lib: Lib, c: Context, w: World)
    requires !AnyResidue(w.residue) && Carrying(w.store, c.tenantUid) == {} && w.status.allocation.Some?
    ensures SafePass(lib, c, w, w.(status := w.status.(allocation := None)))
  {
  }

  lemma LastPass(lib: Lib, c: Context, w: World)
    requires !AnyResidue(w.residue) && Carrying(w.store, c.tenantUid) == {} && w.status.allocation.None?
    ensures SafePass(lib, c, w, w.(finalizer := false))
  {
  }

  lemma OrderIsFixed(i: nat)
    requires i < |OTHER_ROOTS|
    ensures OTHER_ROOTS[i] != Cluster
    ensures forall j :: 0 <= j < |OTHER_ROOTS| && OTHER_ROOTS[j] == OTHER_ROOTS[i] ==> j == i
  {
  }

  /** When a root has its turn, nothing else has. */
  lemma OnlyFirstRoot(r: Residue, k: Root, gone: bool)
    requires FirstRoot(r, k)
    ensures !r.roots[k] ==> Removes(r, WithoutRoot(r, k, gone), gone)
    ensures r.roots[k] ==> forall s :: !Removes(r, s, gone)
  {
    forall other | FirstRoot(r, other) ensures other == k {
      if other != Cluster && k != Cluster {
        var i := RootIndex(other);
        var j := RootIndex(k);
      }
    }
  }

  lemma RootIndex(k: Root) returns (i: nat)
    requires k != Cluster
    ensures i < |OTHER_ROOTS| && OTHER_ROOTS[i] == k
  {
    i := if k == DevCluster then 0 else if k == KamajiControlPlane then 1 else if k == KubeadmConfigTemplate then 2
         else if k == DevMachineTemplate then 3 else 4;
  }

  lemma RootShrinks(r: Residue, k: Root, gone: bool)
    requires FirstRoot(r, k) && !r.roots[k]
    ensures var s := WithoutRoot(r, k, gone); Shrinks(r, s) && InOrder(r, s) && RemovalWeight(s) < RemovalWeight(r)
  {
    assert LiveRoots(WithoutRoot(r, k, gone)) == LiveRoots(r) - {k};
  }

  /** A removal takes away one thing, in order, and leaves less to remove. */
  lemma RemovalShrinks(r: Residue, s: Residue, gone: bool)
    requires Removes(r, s, gone)
    ensures Shrinks(r, s) && InOrder(r, s) && RemovalWeight(s) < RemovalWeight(r)
  {
    hide WithoutRoot;
    if k :| FirstRoot(r, k) && !r.roots[k] && s == WithoutRoot(r, k, gone) {
      hide Shrinks, InOrder, RemovalWeight;
      RootShrinks(r, k, gone);
    } else {
      assert LiveRoots(r) == {} == LiveRoots(s);
    }
  }

  lemma ResiduePass(lib: Lib, c: Context, w: World, r: Residue, wrote: bool)
    requires Recorded(w, c) && Shrinks(w.residue, r) && InOrder(w.residue, r)
    requires if wrote then RemovalWeight(r) < RemovalWeight(w.residue) else r == w.residue
    ensures SafePass(lib, c, w, w.(residue := r)) && (wrote <==> r != w.residue)
  {
  }

  lemma NothingToRecord(c: Context, w: World, recovered: Option<Allocation>, decision: Release)
    requires recovered.None? <==> Carrying(w.store, c.tenantUid) == {}
    requires decision.Complete? ==> Carrying(w.store, c.tenantUid) == {}
    requires !AnyResidue(w.residue) && Carrying(w.store, c.tenantUid) != {} ==> decision.Delete?
    requires forall i :: 0 <= i < |EDITS| ==> !Wanted(EDITS[i], w.status, w.residue, decision, recovered)
    ensures Recorded(w, c)
  {
    hide AnyResidue, Unset, Carrying;
    assert !Wanted(EDITS[0], w.status, w.residue, decision, recovered);
    assert !Wanted(EDITS[1], w.status, w.residue, decision, recovered);
    assert !Wanted(EDITS[2], w.status, w.residue, decision, recovered);
    assert !Wanted(EDITS[3], w.status, w.residue, decision, recovered);
  }

  function RemovalWeight(r: Residue): nat {
    |LiveRoots(r)| + Count(r.namespace == Live) + Count(r.volume)
  }

  lemma EveryRoot()
    ensures forall k: Root :: k == Cluster || k in OTHER_ROOTS
  {
  }

  /** Residue of which nothing is the controller's to remove now. */
  ghost predicate Waits(r: Residue) {
    AnyResidue(r) && forall s, gone :: !Removes(r, s, gone)
  }

  /** Whether something has its turn does not depend on how fast the API server removes it. */
  lemma NothingInTurn(r: Residue, gone: bool)
    requires forall s :: !Removes(r, s, gone)
    ensures forall s, any :: !Removes(r, s, any)
  {
    forall s, any | Removes(r, s, any) ensures false {
      if k :| FirstRoot(r, k) && !r.roots[k] && s == WithoutRoot(r, k, any) {
        assert Removes(r, WithoutRoot(r, k, gone), gone);
      } else if r.volume {
        assert Removes(r, r.(volume := false), gone);
      } else {
        assert Removes(r, r.(namespace := if gone then Absent else Terminating), gone);
      }
    }
  }

  ghost predicate CanDecide(lib: Lib, c: Context, w: World) {
    Decidable(lib, c, w.store, w.status.allocation, !AnyResidue(w.residue))
  }

  /** What an accepted decision says about the Tenant's own Leases. */
  lemma DecidedRelease(lib: Lib, c: Context, items: seq<Lease>, bound: Option<Allocation>, absent: bool, store: Store)
    requires (exists serial :: WellFormed(store, serial)) && Listing(items, store)
    requires DecideRelease(lib, c, items, bound, absent).Ok?
    ensures ValidIdentity(c) && RecoverAllocation(lib, c, items).Ok?
    ensures RecoverAllocation(lib, c, items).value.None? <==> Carrying(store, c.tenantUid) == {}
    ensures RecoverAllocation(lib, c, items).value.Some? ==>
              Claimed(lib, c, store, RecoverAllocation(lib, c, items).value.value)
    ensures var d := DecideRelease(lib, c, items, bound, absent).value;
            && (d.Complete? ==> Carrying(store, c.tenantUid) == {})
            && (absent && Carrying(store, c.tenantUid) != {} ==> d.Delete?)
  {
    assert RecoverAllocation(lib, c, items).Ok? && ValidIdentity(c);
    RecoveredCarrier(lib, c, items, store);
    RecoverMeaning(lib, c, items);
    ReleaseDecisionMeaning(lib, c, items, bound, absent);
    hide RecoverAllocation, DecideRelease, ValidIdentity;
  }

  /** The recovery reads off whether the Tenant holds a Lease. */
  lemma RecoveredCarrier(lib: Lib, c: Context, items: seq<Lease>, store: Store)
    requires (exists serial :: WellFormed(store, serial)) && Listing(items, store)
    requires RecoverAllocation(lib, c, items).Ok?
    ensures RecoverAllocation(lib, c, items).value.None? <==> Carrying(store, c.tenantUid) == {}
    ensures RecoverAllocation(lib, c, items).value.Some? ==>
              Claimed(lib, c, store, RecoverAllocation(lib, c, items).value.value)
  {
    RecoverMeaning(lib, c, items);
    var carriers := Carriers(items, c.tenantUid);
    if carriers == [] {
      NoListedCarrier(store, items, c.tenantUid);
    } else {
      assert carriers == [carriers[0]];
      ListedCarriers(store, items, c.tenantUid, carriers[0]);
    }
  }

  // ---- whole teardowns ---------------------------------------------------------------------

  /** Between passes the providers finish their own deletions and other Tenants' Leases come and go. */
  ghost predicate Background(c: Context, w: World, w': World) {
    && Shrinks(w.residue, w'.residue) && w'.status == w.status && w'.finalizer == w.finalizer
    && Carrying(w'.store, c.tenantUid) == Carrying(w.store, c.tenantUid)
  }

  /** A pass, clear when ownership and the Cluster's UID are not in doubt, or something else. */
  datatype Turn = Pass(clear: bool) | Elsewhere

  /** What a pass leaves, as `Reconcile` states it. */
  ghost predicate PassStep(lib: Lib, c: Context, clear: bool, w: World, w': World) {
    && SafePass(lib, c, w, w')
    && (clear && w' == w && w.finalizer && CanDecide(lib, c, w) ==> Waits(w.residue))
  }

  ghost predicate Teardowns(lib: Lib, c: Context, run: seq<World>, turns: seq<Turn>) {
    && |run| == |turns| + 1
    && forall i :: 0 <= i < |turns| ==>
         if turns[i].Pass? then PassStep(lib, c, turns[i].clear, run[i], run[i + 1])
         else Background(c, run[i], run[i + 1])
  }

  /** The passes that wrote. */
  ghost function Writes(run: seq<World>, turns: seq<Turn>): nat
    requires |run| == |turns| + 1
  {
    if turns == [] then 0
    else
      var n := |turns| - 1;
      Writes(run[..n + 1], turns[..n]) + Count(turns[n].Pass? && run[n + 1] != run[n])
  }

  lemma BackgroundMeasure(c: Context, w: World, w': World)
    requires Background(c, w, w')
    ensures Measure(w', c.tenantUid) <= Measure(w, c.tenantUid)
  {
    SubsetSize(LiveRoots(w'.residue), LiveRoots(w.residue));
  }

  /** The number of writes of a deletion is bounded from its start, however long it takes. */
  lemma {:induction false} WritesAreBounded(lib: Lib, c: Context, run: seq<World>, turns: seq<Turn>)
    requires Teardowns(lib, c, run, turns)
    ensures Writes(run, turns) + Measure(run[|turns|], c.tenantUid) <= Measure(run[0], c.tenantUid)
  {
    if turns != [] {
      var n := |turns| - 1;
      WritesAreBounded(lib, c, run[..n + 1], turns[..n]);
      hide Measure, PassStep, Background;
      assert run[n + 1] == run[|turns|];
      if turns[n].Pass? {
        MeasureFalls(lib, c, turns[n].clear, run[n], run[n + 1]);
      } else {
        BackgroundMeasure(c, run[n], run[n + 1]);
      }
    }
  }

  lemma MeasureFalls(lib: Lib, c: Context, clear: bool, w: World, w': World)
    requires PassStep(lib, c, clear, w, w')
    ensures w' != w ==> Measure(w', c.tenantUid) < Measure(w, c.tenantUid)
  {
  }

  /** With one Lease at most, a deletion takes at most fifteen writes. */
  lemma FifteenWrites(c: Context, w: World)
    requires |Carrying(w.store, c.tenantUid)| <= 1
    ensures Measure(w, c.tenantUid) <= 15
  {
    var all := {Cluster, DevCluster, KamajiControlPlane, KubeadmConfigTemplate, DevMachineTemplate, MachineDeployment};
    forall k | k in LiveRoots(w.residue) ensures k in all {
      assert k.Cluster? || k.DevCluster? || k.KamajiControlPlane? || k.KubeadmConfigTemplate?
          || k.DevMachineTemplate? || k.MachineDeployment?;
    }
    SubsetSize(LiveRoots(w.residue), all);
  }

  // ---- and it comes to an end --------------------------------------------------------------

  ghost predicate InOrderNow(lib: Lib, c: Context, w: World) {
    LeaseInOrder(lib, c, w.store, w.status.allocation, !AnyResidue(w.residue))
  }

  /** The Tenant's Lease stays in order under the controller's own passes. */
  lemma PassKeepsOrder(lib: Lib, c: Context, w: World, w': World)
    requires SafePass(lib, c, w, w') && InOrderNow(lib, c, w)
    ensures InOrderNow(lib, c, w')
  {
    hide AnyResidue, Measure, Recorded, ValidIdentity, ValidAllocation, AnnotatedAllocation;
    if w'.store != w.store {
      NothingLeft(w.residue);
      var n :| Carrying(w.store, c.tenantUid) == {n} && w'.store == w.store - {n};
      DeletedKeepsOrder(lib, c, w, w', n);
    } else if w'.status.allocation != w.status.allocation {
      RecordKeepsOrder(lib, c, w, w');
    } else {
      ShrinkingKeepsOrder(lib, c, w, w');
    }
  }

  lemma ShrinkingKeepsOrder(lib: Lib, c: Context, w: World, w': World)
    requires InOrderNow(lib, c, w) && w'.store == w.store && w'.status.allocation == w.status.allocation
    requires Shrinks(w.residue, w'.residue)
    ensures InOrderNow(lib, c, w')
  {
    assert AnyResidue(w'.residue) ==> AnyResidue(w.residue);
    hide AnyResidue, ValidIdentity, ValidAllocation, OwnLease, LeaseName;
  }

  lemma DeletedKeepsOrder(lib: Lib, c: Context, w: World, w': World, n: string)
    requires InOrderNow(lib, c, w) && Carrying(w.store, c.tenantUid) == {n} && !AnyResidue(w.residue)
    requires w' == w.(store := w.store - {n})
    ensures InOrderNow(lib, c, w')
  {
    hide AnyResidue, ValidIdentity, ValidAllocation, AnnotatedAllocation, LeaseName;
    assert n in Carrying(w.store, c.tenantUid);
    assert forall m :: m in w'.store ==> m !in Carrying(w.store, c.tenantUid);
    assert Carrying(w'.store, c.tenantUid) == {};
  }

  lemma RecordKeepsOrder(lib: Lib, c: Context, w: World, w': World)
    requires InOrderNow(lib, c, w) && w' == w.(status := w'.status) && OneEntry(lib, c, w, w'.status)
    requires w'.status.allocation != w.status.allocation
    requires w.status.allocation.Some? ==> !AnyResidue(w.residue)
    ensures InOrderNow(lib, c, w')
  {
    hide AnyResidue, ValidIdentity, LeaseName;
    if w'.status.allocation.Some? {
      var a := w'.status.allocation.value;
      var n :| n in w.store && Carrying(w.store, c.tenantUid) == {n}
        && AnnotatedAllocation(lib, w.store[n]) == Ok(a) && BoundTo(lib, c, a, w.store[n]);
      assert n in Carrying(w.store, c.tenantUid) && n == LeaseName(lib, a.slotId);
      assert OwnLease(lib, c, w.store[n], Some(a));
      forall m | m in w.store && Carries(w.store[m], c.tenantUid) ensures m == n {
        assert m in Carrying(w.store, c.tenantUid);
      }
    } else {
      hide AnnotatedAllocation, BoundTo, ValidAllocation;
      forall m | m in w.store && Carries(w.store[m], c.tenantUid) ensures OwnLease(lib, c, w.store[m], None) {
        assert OwnLease(lib, c, w.store[m], w.status.allocation);
      }
    }
  }

  /** The passes that were clear, had a finalizer to remove and nothing to wait for. */
  ghost function Busy(run: seq<World>, turns: seq<Turn>): nat
    requires |run| == |turns| + 1
  {
    if turns == [] then 0
    else
      var n := |turns| - 1;
      Busy(run[..n + 1], turns[..n])
      + Count(turns[n].Pass? && turns[n].clear && run[n].finalizer && !Waits(run[n].residue))
  }

  /** Nobody else brings the Tenant's Lease out of order. */
  ghost predicate LeftInOrder(lib: Lib, c: Context, run: seq<World>, turns: seq<Turn>)
    requires |run| == |turns| + 1
  {
    && InOrderNow(lib, c, run[0])
    && forall i :: 0 <= i < |turns| && turns[i].Elsewhere? && InOrderNow(lib, c, run[i]) ==>
         InOrderNow(lib, c, run[i + 1])
  }

  lemma {:induction false} StaysInOrder(lib: Lib, c: Context, run: seq<World>, turns: seq<Turn>, i: nat)
    requires Teardowns(lib, c, run, turns) && LeftInOrder(lib, c, run, turns) && i < |run|
    ensures InOrderNow(lib, c, run[i])
    decreases i
  {
    if i > 0 {
      hide InOrderNow, SafePass, Background, CanDecide, Waits;
      StaysInOrder(lib, c, run, turns, i - 1);
      assert run[i] == run[i - 1 + 1];
      if turns[i - 1].Pass? {
        assert PassStep(lib, c, turns[i - 1].clear, run[i - 1], run[i]);
        PassKeepsOrder(lib, c, run[i - 1], run[i]);
      }
    }
  }

  lemma Shorter(lib: Lib, c: Context, run: seq<World>, turns: seq<Turn>)
    requires turns != [] && Teardowns(lib, c, run, turns) && LeftInOrder(lib, c, run, turns)
    ensures var n := |turns| - 1;
            Teardowns(lib, c, run[..n + 1], turns[..n]) && LeftInOrder(lib, c, run[..n + 1], turns[..n])
  {
    hide InOrderNow, PassStep, Background;
  }

  lemma BusyPassWrites(lib: Lib, c: Context, w: World, w': World)
    requires PassStep(lib, c, true, w, w') && InOrderNow(lib, c, w) && w.finalizer && !Waits(w.residue)
    ensures w' != w
  {
    InOrderIsDecidable(lib, c, w.store, w.status.allocation, !AnyResidue(w.residue));
    hide LeaseInOrder, SafePass, Waits, Decidable, AnyResidue;
  }

  lemma {:induction false} BusyPassesWrite(lib: Lib, c: Context, run: seq<World>, turns: seq<Turn>)
    requires Teardowns(lib, c, run, turns) && LeftInOrder(lib, c, run, turns)
    ensures Busy(run, turns) <= Writes(run, turns)
  {
    if turns != [] {
      var n := |turns| - 1;
      StaysInOrder(lib, c, run, turns, n);
      Shorter(lib, c, run, turns);
      hide InOrderNow, PassStep, Background, Waits, LeftInOrder;
      BusyPassesWrite(lib, c, run[..n + 1], turns[..n]);
      if turns[n].Pass? && turns[n].clear && run[n].finalizer && !Waits(run[n].residue) {
        BusyPassWrites(lib, c, run[n], run[n + 1]);
      }
    }
  }

  /** Nothing of the Tenant is left: no residue, no Lease that carries its UID, no allocation in its status. */
  predicate NothingRemains(c: Context, w: World) {
    && w.residue == Residue(Absent, map[], false, false, false, false, false)
    && (forall n :: n in w.store ==> !Carries(w.store[n], c.tenantUid)) && w.status.allocation.None?
  }

  lemma PassAfterLast(lib: Lib, c: Context, w: World, w': World)
    requires SafePass(lib, c, w, w') && !w'.finalizer && (w.finalizer || NothingRemains(c, w))
    ensures NothingRemains(c, w')
  {
    hide Measure, Recorded, InOrder, AnnotatedAllocation, BoundTo;
    if w.finalizer {
      forall n | n in w.store ensures !Carries(w.store[n], c.tenantUid) {
        assert n !in Carrying(w.store, c.tenantUid);
      }
    } else {
      assert Carrying(w.store, c.tenantUid) == {};
      if w'.residue != w.residue {
        NothingFromNothing(w'.residue);
      }
    }
  }

  /** However long a teardown goes on, once the finalizer is gone nothing of the Tenant is left or comes back. */
  lemma {:induction false} GoneMeansNothingRemains(lib: Lib, c: Context, run: seq<World>, turns: seq<Turn>, i: nat)
    requires Teardowns(lib, c, run, turns) && i < |run| && run[0].finalizer && !run[i].finalizer
    ensures NothingRemains(c, run[i])
    decreases i
  {
    hide SafePass;
    var w, w' := run[i - 1], run[i - 1 + 1];
    if !w.finalizer {
      GoneMeansNothingRemains(lib, c, run, turns, i - 1);
    }
    if turns[i - 1].Pass? {
      PassAfterLast(lib, c, w, w');
    } else {
      NothingFromNothing(w'.residue);
      forall n | n in w'.store ensures !Carries(w'.store[n], c.tenantUid) {
        assert Carrying(w.store, c.tenantUid) == {};
        assert n !in Carrying(w'.store, c.tenantUid);
      }
    }
  }

  /**
   * While the Tenant's Lease is left in order, every clear pass with nothing to wait for brings the end nearer:
   * after as many of them as the measure allows the finalizer is gone, and nothing of the Tenant remains.
   */
  lemma TeardownEnds(lib: Lib, c: Context, run: seq<World>, turns: seq<Turn>)
    requires Teardowns(lib, c, run, turns) && LeftInOrder(lib, c, run, turns)
    ensures Busy(run, turns) + Measure(run[|turns|], c.tenantUid) <= Measure(run[0], c.tenantUid) <= 15
    ensures Busy(run, turns) >= 15 ==> !run[|turns|].finalizer
    ensures Busy(run, turns) >= 15 && run[0].finalizer ==> NothingRemains(c, run[|turns|])
  {
    BusyPassesWrite(lib, c, run, turns);
    WritesAreBounded(lib, c, run, turns);
    FifteenWrites(c, run[0]);
    if run[0].finalizer && !run[|turns|].finalizer {
      GoneMeansNothingRemains(lib, c, run, turns, |turns|);
    }
    hide Busy, Writes, Teardowns, NothingRemains;
  }
}
