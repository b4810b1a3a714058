/**
 * controller/src/azure_allocation.rs: claims from rotating catalogs. The networks of live Azure Leases
 * stay disjoint although each catalog is validated only against itself and against the live Leases.
 */
module AzureRuns {
  import opened Base
  import opened Ipv4
  import opened Slots
  import opened AzureCatalog
  import opened Leases
  import opened LeaseServer

  predicate AzureName(name: string) {
    AZURE_PREFIX <= name
  }

  predicate HasNets(lib: Lib, l: Lease) {
    && Annotation(l, PodCidrKey).Some? && lib.text.net(Annotation(l, PodCidrKey).value).Some?
    && Annotation(l, ServiceCidrKey).Some? && lib.text.net(Annotation(l, ServiceCidrKey).value).Some?
  }

  /** The pod and service networks written on a Lease. */
  function LeaseNets(lib: Lib, l: Lease): (nets: seq<Net>)
    requires HasNets(lib, l)
    ensures |nets| == 2
  {
    NetsOf(lib.text, [Annotation(l, PodCidrKey).value, Annotation(l, ServiceCidrKey).value])
  }

  function SlotNets(lib: Lib, s: AzureSlot): (nets: seq<Net>)
    ensures |nets| == 2
  {
    NetsOf(lib.text, [s.podCidr, s.serviceCidr])
  }

  predicate Clear(a: seq<Net>, b: seq<Net>) {
    forall i, j :: 0 <= i < |a| && 0 <= j < |b| ==> !Overlaps(a[i], b[j])
  }

  /** The same slot in name and in both texts: the Lease is a claim of this very slot. */
  predicate Exact(lib: Lib, show: Net -> string, l: Lease, s: AzureSlot)
    requires HasNets(lib, l)
  {
    && l.name == Some(LeaseName(lib, s.slotId))
    && s.podCidr == show(LeaseNets(lib, l)[0]) && s.serviceCidr == show(LeaseNets(lib, l)[1])
  }

  /** Every live Azure Lease is an exact claim of a catalog slot or clear of it. */
  predicate ActiveClaimsClear(lib: Lib, show: Net -> string, d: Document, items: seq<Lease>) {
    forall i :: 0 <= i < |items| && items[i].name.Some? && AzureName(items[i].name.value) ==>
      && HasNets(lib, items[i])
      && forall k :: 0 <= k < |d.slots| ==>
           Exact(lib, show, items[i], d.slots[k]) || Clear(LeaseNets(lib, items[i]), SlotNets(lib, d.slots[k]))
  }

  /** The Lease and the slot are the same claim, or no address is in both. */
  ghost predicate SameOrApart(lib: Lib, show: Net -> string, l: Lease, s: AzureSlot)
    requires HasNets(lib, l)
  {
    var pod, service := LeaseNets(lib, l)[0], LeaseNets(lib, l)[1];
    || (l.name == Some(LeaseName(lib, s.slotId)) && show(pod) == s.podCidr && show(service) == s.serviceCidr)
    || forall a: nat :: !((Contains(pod, a) || Contains(service, a))
                          && (Contains(NetOf(lib.text, s.podCidr), a) || Contains(NetOf(lib.text, s.serviceCidr), a)))
  }

  lemma ClearMeaning(lib: Lib, l: Lease, s: AzureSlot)
    requires HasNets(lib, l)
    ensures var pod, service := LeaseNets(lib, l)[0], LeaseNets(lib, l)[1];
            Clear(LeaseNets(lib, l), SlotNets(lib, s)) <==>
              forall a: nat :: !((Contains(pod, a) || Contains(service, a))
                                 && (Contains(NetOf(lib.text, s.podCidr), a)
                                     || Contains(NetOf(lib.text, s.serviceCidr), a)))
  {
    hide Contains, Overlaps, NetOf, HasNets;
    var x, y := LeaseNets(lib, l), SlotNets(lib, s);
    assert y[0] == NetOf(lib.text, s.podCidr) && y[1] == NetOf(lib.text, s.serviceCidr);
    forall i, j | 0 <= i < 2 && 0 <= j < 2 ensures Overlaps(x[i], y[j]) <==> ShareAddress(x[i], y[j]) {
      DisjointIffNoSharedAddress(x[i], y[j]);
    }
    if Clear(x, y) {
      forall a: nat, i, j | 0 <= i < 2 && 0 <= j < 2 ensures !(Contains(x[i], a) && Contains(y[j], a)) {
        assert !Overlaps(x[i], y[j]);
      }
    } else {
      var i, j :| 0 <= i < 2 && 0 <= j < 2 && Overlaps(x[i], y[j]);
      var a: nat :| Contains(x[i], a) && Contains(y[j], a);
    }
  }

  /** The check passes exactly when every live Azure Lease is, for each slot, its claim or has no address in common. */
  lemma ActiveClaimsMeaning(lib: Lib, show: Net -> string, d: Document, items: seq<Lease>)
    ensures ActiveClaimsClear(lib, show, d, items) <==>
            forall i :: 0 <= i < |items| && items[i].name.Some? && "tenant-azure-slot-" <= items[i].name.value ==>
              && HasNets(lib, items[i])
              && forall k :: 0 <= k < |d.slots| ==> SameOrApart(lib, show, items[i], d.slots[k])
  {
    hide LeaseName, Clear, HasNets, LeaseNets;
    forall i, k | 0 <= i < |items| && 0 <= k < |d.slots| && HasNets(lib, items[i])
      ensures SameOrApart(lib, show, items[i], d.slots[k]) <==>
              Exact(lib, show, items[i], d.slots[k]) || Clear(LeaseNets(lib, items[i]), SlotNets(lib, d.slots[k]))
    {
      ClearMeaning(lib, items[i], d.slots[k]);
    }
    hide SameOrApart, Exact;
  }

  datatype Phase = Checked | Creating(index: nat)

  datatype ClaimCall = ClaimCall(c: Context, d: Document, phase: Phase)

  datatype Sys = Sys(store: Store, serial: Id, claims: map<nat, ClaimCall>)

  datatype Step =
    | BeginClaim(id: nat, c: Context, d: Document, items: seq<Lease>)
    | ListSlots(id: nat, items: seq<Lease>)
    | CreateSlot(id: nat)
    | EndClaim(id: nat)
    | ReleaseName(name: string)
    | ForeignWrite(store: Store)

  /** Any number of claims may be under way at a time, each from its own catalog. */
  ghost predicate Next(lib: Lib, show: Net -> string, s: Sys, step: Step, s': Sys) {
    match step
    case BeginClaim(id, c, d, items) =>
      && id !in s.claims
      && AzureCatalog.Accepts(lib.text, d) && c.slots == Pool(d.slots)
      && Listing(items, s.store) && ActiveClaimsClear(lib, show, d, items)
      && s' == s.(claims := s.claims[id := ClaimCall(c, d, Checked)])
    case ListSlots(id, items) =>
      && id in s.claims && s.claims[id].phase.Checked? && Listing(items, s.store)
      && var decision := DecideClaim(lib, s.claims[id].c, items, None);
         && decision.Ok? && decision.value.Create?
         && exists k: nat :: && k < |s.claims[id].c.slots| && decision.value.slot == s.claims[id].c.slots[k]
                             && s' == s.(claims := s.claims[id := s.claims[id].(phase := Creating(k))])
    case CreateSlot(id) =>
      && id in s.claims && s.claims[id].phase.Creating? && s.claims[id].phase.index < |s.claims[id].c.slots|
      && var call := s.claims[id];
         var slot := call.c.slots[call.phase.index];
         var name := LeaseName(lib, slot.slotId);
         if name in s.store then s' == s.(claims := s.claims[id := call.(phase := Checked)])
         else s' == Sys(s.store[name := Stored(NewLease(lib, call.c, slot), s.serial, s.serial + 1)],
                        s.serial + 2, s.claims - {id})
    case EndClaim(id) => s' == s.(claims := s.claims - {id})
    case ReleaseName(name) => s' == s.(store := s.store - {name})
    case ForeignWrite(after) =>
      && (forall n :: AzureName(n) ==> (n in after <==> n in s.store) && (n in after ==> after[n] == s.store[n]))
      && WellFormed(after, s'.serial) && s' == s.(store := after, serial := s'.serial)
  }

  ghost predicate Initial(s: Sys) {
    WellFormed(s.store, s.serial) && s.claims == map[] && forall n :: n in s.store ==> !AzureName(n)
  }

  ghost predicate Run(lib: Lib, show: Net -> string, run: seq<Sys>, steps: seq<Step>) {
    && |run| == |steps| + 1 && Initial(run[0])
    && forall i :: 0 <= i < |steps| ==> Next(lib, show, run[i], steps[i], run[i + 1])
  }

  /** A slot of one catalog and a slot of the other have one Lease name or no address in common. */
  ghost predicate Compatible(lib: Lib, d: Document, e: Document) {
    forall k, m :: 0 <= k < |d.slots| && 0 <= m < |e.slots| ==>
      || LeaseName(lib, d.slots[k].slotId) == LeaseName(lib, e.slots[m].slotId)
      || Clear(SlotNets(lib, d.slots[k]), SlotNets(lib, e.slots[m]))
  }

  /** Claims that are under way together come from compatible catalogs. */
  ghost predicate Coexist(lib: Lib, s: Sys) {
    forall a, b :: a in s.claims && b in s.claims && a != b ==> Compatible(lib, s.claims[a].d, s.claims[b].d)
  }

  /** Each live Azure Lease has two disjoint networks and shares none with another. */
  ghost predicate Separated(lib: Lib, store: Store) {
    && (forall n :: n in store && AzureName(n) ==>
          HasNets(lib, store[n]) && Disjoint(LeaseNets(lib, store[n])[0], LeaseNets(lib, store[n])[1]))
    && (forall m, n :: m in store && n in store && m != n && AzureName(m) && AzureName(n) ==>
          Clear(LeaseNets(lib, store[m]), LeaseNets(lib, store[n])))
  }

  /** What the check at the start of a claim established still holds. */
  ghost predicate StillClear(lib: Lib, store: Store, call: ClaimCall) {
    CatalogClear(lib, store, call.c, call.d)
  }

  ghost predicate CatalogClear(lib: Lib, store: Store, c: Context, d: Document) {
    && AzureCatalog.Accepts(lib.text, d) && c.slots == Pool(d.slots)
    && (forall n, k :: n in store && AzureName(n) && 0 <= k < |d.slots| ==>
          && HasNets(lib, store[n])
          && (n == LeaseName(lib, d.slots[k].slotId) || Clear(LeaseNets(lib, store[n]), SlotNets(lib, d.slots[k]))))
  }

  ghost predicate Inv(lib: Lib, s: Sys) {
    && WellFormed(s.store, s.serial) && Separated(lib, s.store)
    && (forall id :: id in s.claims ==> StillClear(lib, s.store, s.claims[id]))
  }

  lemma CheckedClear(lib: Lib, show: Net -> string, d: Document, items: seq<Lease>, store: Store, c: Context,
                     serial: Id)
    requires WellFormed(store, serial) && Listing(items, store) && ActiveClaimsClear(lib, show, d, items)
    requires AzureCatalog.Accepts(lib.text, d) && c.slots == Pool(d.slots)
    ensures StillClear(lib, store, ClaimCall(c, d, Checked))
  {
    hide AzureCatalog.Accepts, Clear, LeaseName, AzureName;
    forall n, k | n in store && AzureName(n) && 0 <= k < |d.slots|
      ensures HasNets(lib, store[n])
      ensures n == LeaseName(lib, d.slots[k].slotId) || Clear(LeaseNets(lib, store[n]), SlotNets(lib, d.slots[k]))
    {
      var i :| 0 <= i < |items| && items[i] == store[n];
    }
  }

  /** The networks of a Lease built for a catalog slot are the slot's own. */
  lemma CreatedNets(lib: Lib, c: Context, d: Document, k: nat, uid: Id, version: Id)
    requires RejectsEmpty(lib) && AzureCatalog.Accepts(lib.text, d) && k < |d.slots|
    ensures var l := Stored(NewLease(lib, c, PoolSlot(d.slots[k])), uid, version);
            && HasNets(lib, l) && LeaseNets(lib, l) == SlotNets(lib, d.slots[k])
            && Disjoint(LeaseNets(lib, l)[0], LeaseNets(lib, l)[1])
            && AzureName(LeaseName(lib, d.slots[k].slotId))
  {
    var s := d.slots[k];
    assert SlotShape(lib.text, s);
    assert s.podCidr != "" && s.serviceCidr != "";
    var nets := DocumentNets(lib.text, d);
    hide Disjoint;
    assert nets[2 * k] == NetOf(lib.text, s.podCidr) && nets[2 * k + 1] == NetOf(lib.text, s.serviceCidr);
    assert Disjoint(nets[2 * k], nets[2 * k + 1]);
    var l := Stored(NewLease(lib, c, PoolSlot(s)), uid, version);
    assert Annotation(l, PodCidrKey) == Some(s.podCidr) && Annotation(l, ServiceCidrKey) == Some(s.serviceCidr);
  }

  lemma ClearSymmetric(a: seq<Net>, b: seq<Net>)
    requires Clear(a, b)
    ensures Clear(b, a)
  {
    forall i, j | 0 <= i < |b| && 0 <= j < |a| ensures !Overlaps(b[i], a[j]) {
      assert !Overlaps(a[j], b[i]);
    }
  }

  lemma AddedLease(lib: Lib, store: Store, name: string, l: Lease)
    requires Separated(lib, store) && name !in store && HasNets(lib, l)
    requires Disjoint(LeaseNets(lib, l)[0], LeaseNets(lib, l)[1])
    requires forall n :: n in store && AzureName(n) ==> Clear(LeaseNets(lib, store[n]), LeaseNets(lib, l))
    ensures Separated(lib, store[name := l])
  {
    hide Disjoint, Clear, AzureName;
    var after := store[name := l];
    forall m, n | m in after && n in after && m != n && AzureName(m) && AzureName(n)
      ensures HasNets(lib, after[m]) && HasNets(lib, after[n])
      ensures Clear(LeaseNets(lib, after[m]), LeaseNets(lib, after[n]))
    {
      if m == name {
        ClearSymmetric(LeaseNets(lib, after[n]), LeaseNets(lib, l));
      }
    }
  }

  lemma CreatedSeparated(lib: Lib, store: Store, serial: Id, call: ClaimCall, k: nat)
    requires RejectsEmpty(lib) && WellFormed(store, serial) && Separated(lib, store) && StillClear(lib, store, call)
    requires k < |call.c.slots| && LeaseName(lib, call.c.slots[k].slotId) !in store
    ensures var name := LeaseName(lib, call.c.slots[k].slotId);
            var after := store[name := Stored(NewLease(lib, call.c, call.c.slots[k]), serial, serial + 1)];
            Separated(lib, after) && WellFormed(after, serial + 2)
  {
    hide AzureCatalog.Accepts, Clear, Disjoint, LeaseName, AzureName, HasNets, LeaseNets, Separated;
    var name := LeaseName(lib, call.c.slots[k].slotId);
    var l := Stored(NewLease(lib, call.c, call.c.slots[k]), serial, serial + 1);
    CreatedNets(lib, call.c, call.d, k, serial, serial + 1);
    AddedLease(lib, store, name, l);
  }

  /** A claim of a compatible catalog stays clear of the Lease created for slot `k` of another. */
  lemma CreatedClear(lib: Lib, store: Store, serial: Id, call: ClaimCall, k: nat, other: ClaimCall)
    requires RejectsEmpty(lib) && StillClear(lib, store, call) && k < |call.c.slots|
    requires StillClear(lib, store, other) && Compatible(lib, call.d, other.d)
    ensures var name := LeaseName(lib, call.c.slots[k].slotId);
            StillClear(lib, store[name := Stored(NewLease(lib, call.c, call.c.slots[k]), serial, serial + 1)], other)
  {
    hide AzureCatalog.Accepts, Clear, Disjoint, LeaseName, AzureName, HasNets, LeaseNets, NewLease, Stored;
    CreatedNets(lib, call.c, call.d, k, serial, serial + 1);
    var name := LeaseName(lib, call.c.slots[k].slotId);
    var after := store[name := Stored(NewLease(lib, call.c, call.c.slots[k]), serial, serial + 1)];
    forall n, m | n in after && AzureName(n) && 0 <= m < |other.d.slots|
      ensures HasNets(lib, after[n])
      ensures n == LeaseName(lib, other.d.slots[m].slotId)
              || Clear(LeaseNets(lib, after[n]), SlotNets(lib, other.d.slots[m]))
    {
    }
  }

  lemma CreateKeepsInv(lib: Lib, show: Net -> string, s: Sys, id: nat, s': Sys)
    requires RejectsEmpty(lib) && Inv(lib, s) && Coexist(lib, s) && Next(lib, show, s, CreateSlot(id), s')
    ensures Inv(lib, s')
  {
    hide CatalogClear, Separated, LeaseName, WellFormed, NewLease, Stored, Compatible;
    var call := s.claims[id];
    var k := call.phase.index;
    var name := LeaseName(lib, call.c.slots[k].slotId);
    assert StillClear(lib, s.store, call);
    if name !in s.store {
      CreatedSeparated(lib, s.store, s.serial, call, k);
      forall a | a in s'.claims ensures StillClear(lib, s'.store, s'.claims[a]) {
        CreatedClear(lib, s.store, s.serial, call, k, s.claims[a]);
      }
    }
  }

  /** Releases and foreign writes take Azure Leases away at most. */
  lemma FewerLeases(lib: Lib, s: Sys, s': Sys)
    requires Inv(lib, s) && WellFormed(s'.store, s'.serial) && s'.claims == s.claims
    requires forall n :: n in s'.store && AzureName(n) ==> n in s.store && s'.store[n] == s.store[n]
    ensures Inv(lib, s')
  {
    hide AzureCatalog.Accepts, Clear, Disjoint, LeaseName, AzureName, HasNets, LeaseNets;
    forall id | id in s'.claims ensures StillClear(lib, s'.store, s'.claims[id]) {
      assert StillClear(lib, s.store, s.claims[id]);
    }
  }

  lemma StepKeepsInv(lib: Lib, show: Net -> string, s: Sys, step: Step, s': Sys)
    requires RejectsEmpty(lib) && Inv(lib, s) && Coexist(lib, s) && Next(lib, show, s, step, s')
    ensures Inv(lib, s')
  {
    hide LeaseName, AzureName, DecideClaim, Separated, AzureCatalog.Accepts, ActiveClaimsClear, CatalogClear, Coexist;
    if step.CreateSlot? {
      CreateKeepsInv(lib, show, s, step.id, s');
    } else if step.BeginClaim? {
      CheckedClear(lib, show, step.d, step.items, s.store, step.c, s.serial);
    } else if step.ReleaseName? || step.ForeignWrite? {
      FewerLeases(lib, s, s');
    }
  }

  lemma InitialInv(lib: Lib, s: Sys)
    requires Initial(s)
    ensures Inv(lib, s)
  {
    hide AzureName;
  }

  lemma {:induction false} RunKeepsInv(lib: Lib, show: Net -> string, run: seq<Sys>, steps: seq<Step>, i: nat)
    requires RejectsEmpty(lib) && Run(lib, show, run, steps) && i < |run|
    requires forall j :: 0 <= j < i ==> Coexist(lib, run[j])
    ensures Inv(lib, run[i])
    decreases i
  {
    hide Next, Inv, Initial, Coexist;
    if i == 0 {
      InitialInv(lib, run[0]);
    } else {
      RunKeepsInv(lib, show, run, steps, i - 1);
      StepKeepsInv(lib, show, run[i - 1], steps[i - 1], run[i]);
    }
  }

  /** Two Leases with an address in common. */
  ghost predicate Collide(lib: Lib, a: Lease, b: Lease) {
    && HasNets(lib, a) && HasNets(lib, b)
    && exists i, j, x: nat :: 0 <= i < 2 && 0 <= j < 2
         && Contains(LeaseNets(lib, a)[i], x) && Contains(LeaseNets(lib, b)[j], x)
  }

  /** No address belongs to two live Azure Leases, whichever catalogs they were claimed from. */
  ghost predicate AddressesApart(lib: Lib, store: Store) {
    forall m, n :: m in store && n in store && m != n && AzureName(m) && AzureName(n) ==>
      HasNets(lib, store[m]) && HasNets(lib, store[n]) && !Collide(lib, store[m], store[n])
  }

  /** Clear networks are exactly those without a common address. */
  lemma ClearMeansNoCollision(lib: Lib, a: Lease, b: Lease)
    requires HasNets(lib, a) && HasNets(lib, b)
    ensures Clear(LeaseNets(lib, a), LeaseNets(lib, b)) <==> !Collide(lib, a, b)
  {
    hide Contains, Overlaps, HasNets;
    var x, y := LeaseNets(lib, a), LeaseNets(lib, b);
    forall i, j | 0 <= i < 2 && 0 <= j < 2 ensures Overlaps(x[i], y[j]) <==> ShareAddress(x[i], y[j]) {
      DisjointIffNoSharedAddress(x[i], y[j]);
    }
    if !Clear(x, y) {
      var i, j :| 0 <= i < 2 && 0 <= j < 2 && Overlaps(x[i], y[j]);
      var address: nat :| Contains(x[i], address) && Contains(y[j], address);
      assert Collide(lib, a, b);
    }
  }

  lemma SeparatedMeansApart(lib: Lib, store: Store)
    requires Separated(lib, store)
    ensures AddressesApart(lib, store)
  {
    hide AzureName, Clear, Collide, HasNets, LeaseNets;
    forall m, n | m in store && n in store && m != n && AzureName(m) && AzureName(n)
      ensures HasNets(lib, store[m]) && HasNets(lib, store[n]) && !Collide(lib, store[m], store[n])
    {
      ClearMeansNoCollision(lib, store[m], store[n]);
    }
  }

  /** Over any catalogs, claims and releases, compatible claims keep all live networks apart. */
  lemma CompatibleClaimsStayApart(lib: Lib, show: Net -> string, run: seq<Sys>, steps: seq<Step>, i: nat)
    requires RejectsEmpty(lib) && Run(lib, show, run, steps) && i < |run|
    requires forall j :: 0 <= j < i ==> Coexist(lib, run[j])
    ensures AddressesApart(lib, run[i].store)
  {
    RunKeepsInv(lib, show, run, steps, i);
    SeparatedMeansApart(lib, run[i].store);
  }

  /** With one claim at a time any sequence of catalogs will do. */
  lemma CatalogRotationsStayApart(lib: Lib, show: Net -> string, run: seq<Sys>, steps: seq<Step>, i: nat)
    requires RejectsEmpty(lib) && Run(lib, show, run, steps) && i < |run|
    requires forall j :: 0 <= j < i ==> |run[j].claims| <= 1
    ensures AddressesApart(lib, run[i].store)
  {
    forall j | 0 <= j < i ensures Coexist(lib, run[j]) {
      forall a, b | a in run[j].claims && b in run[j].claims ensures a == b {
        assert |run[j].claims.Keys - {a}| == |run[j].claims| - 1;
        assert b !in run[j].claims.Keys - {a};
      }
    }
    CompatibleClaimsStayApart(lib, show, run, steps, i);
  }

  lemma SlotNetsAt(lib: Lib, d: Document, k: nat, i: nat)
    requires k < |d.slots| && i < 2
    ensures 2 * k + i < |DocumentNets(lib.text, d)|
            && SlotNets(lib, d.slots[k])[i] == DocumentNets(lib.text, d)[2 * k + i]
  {
    var slot := d.slots[k];
    assert NetsOf(lib.text, CidrTexts(Pool(d.slots)))[2 * k + i]
      == NetOf(lib.text, CidrTexts(Pool(d.slots))[2 * k + i]);
    assert Pool(d.slots)[k] == PoolSlot(slot);
  }

  /** An accepted catalog is compatible with itself: its networks are pairwise disjoint. */
  lemma OneCatalogIsCompatible(lib: Lib, d: Document)
    requires AzureCatalog.Accepts(lib.text, d)
    ensures Compatible(lib, d, d)
  {
    hide LeaseName, DocumentNets, SlotNets, Disjoint, Overlaps;
    forall k, m | 0 <= k < |d.slots| && 0 <= m < |d.slots| && k != m
      ensures Clear(SlotNets(lib, d.slots[k]), SlotNets(lib, d.slots[m]))
    {
      forall i, j | 0 <= i < 2 && 0 <= j < 2
        ensures !Overlaps(SlotNets(lib, d.slots[k])[i], SlotNets(lib, d.slots[m])[j])
      {
        SlotNetsAt(lib, d, k, i);
        SlotNetsAt(lib, d, m, j);
        var nets := DocumentNets(lib.text, d);
        DisjointIffNoSharedAddress(nets[2 * k + i], nets[2 * m + j]);
        DisjointSymmetric(nets[2 * k + i], nets[2 * m + j]);
      }
    }
  }

  lemma CompatibleSymmetric(lib: Lib, d: Document, e: Document)
    requires Compatible(lib, d, e)
    ensures Compatible(lib, e, d)
  {
    hide LeaseName, SlotNets, Clear;
    forall k, m | 0 <= k < |e.slots| && 0 <= m < |d.slots|
      ensures LeaseName(lib, e.slots[k].slotId) == LeaseName(lib, d.slots[m].slotId)
              || Clear(SlotNets(lib, e.slots[k]), SlotNets(lib, d.slots[m]))
    {
      if LeaseName(lib, e.slots[k].slotId) != LeaseName(lib, d.slots[m].slotId) {
        ClearSymmetric(SlotNets(lib, d.slots[m]), SlotNets(lib, e.slots[k]));
      }
    }
  }

  /** Every claim of the run is from one of two catalogs. */
  ghost predicate ClaimsFrom(steps: seq<Step>, d: Document, e: Document) {
    forall i :: 0 <= i < |steps| && steps[i].BeginClaim? ==> steps[i].d == d || steps[i].d == e
  }

  lemma {:induction false} ClaimedDocuments(lib: Lib, show: Net -> string, run: seq<Sys>, steps: seq<Step>,
                                            d: Document, e: Document, i: nat, id: nat)
    requires Run(lib, show, run, steps) && ClaimsFrom(steps, d, e) && i < |run| && id in run[i].claims
    ensures run[i].claims[id].d == d || run[i].claims[id].d == e
    decreases i
  {
    hide LeaseName, AzureName, DecideClaim, AzureCatalog.Accepts, ActiveClaimsClear, Listing, WellFormed;
    if i > 0 {
      assert Next(lib, show, run[i - 1], steps[i - 1], run[i - 1 + 1]);
      if id in run[i - 1].claims {
        ClaimedDocuments(lib, show, run, steps, d, e, i - 1, id);
      }
    }
  }

  ghost predicate AlwaysApart(lib: Lib, show: Net -> string, d: Document, e: Document) {
    forall run: seq<Sys>, steps: seq<Step>, i: nat ::
      Run(lib, show, run, steps) && ClaimsFrom(steps, d, e) && i < |run| ==> AddressesApart(lib, run[i].store)
  }

  lemma CompatibleIsEnough(lib: Lib, show: Net -> string, d: Document, e: Document)
    requires RejectsEmpty(lib) && AzureCatalog.Accepts(lib.text, d) && AzureCatalog.Accepts(lib.text, e)
    requires Compatible(lib, d, e)
    ensures AlwaysApart(lib, show, d, e)
  {
    OneCatalogIsCompatible(lib, d);
    OneCatalogIsCompatible(lib, e);
    CompatibleSymmetric(lib, d, e);
    hide AzureCatalog.Accepts, Compatible, AddressesApart;
    forall run: seq<Sys>, steps: seq<Step>, i: nat
      | Run(lib, show, run, steps) && ClaimsFrom(steps, d, e) && i < |run|
      ensures AddressesApart(lib, run[i].store)
    {
      forall j | 0 <= j < i ensures Coexist(lib, run[j]) {
        forall a | a in run[j].claims ensures run[j].claims[a].d == d || run[j].claims[a].d == e {
          ClaimedDocuments(lib, show, run, steps, d, e, j, a);
        }
      }
      CompatibleClaimsStayApart(lib, show, run, steps, i);
    }
  }
}
