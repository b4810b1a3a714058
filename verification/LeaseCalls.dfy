/** The Lease API as the controllers use it: list, get, create, and delete by exact identity. */
module LeaseServer {
  import opened Base
  import opened Leases

  type Store = map<string, Lease>

  /** A stored Lease sits under its own name and carries identifiers issued before `serial`. */
  predicate Stamped(l: Lease, name: string, serial: Id) {
    && l.name == Some(name)
    && HasId(l.uid) && l.uid.value < serial
    && HasId(l.version) && l.version.value < serial
  }

  ghost predicate WellFormed(store: Store, serial: Id) {
    serial > 0 && forall n :: n in store ==> Stamped(store[n], n, serial)
  }

  /** Any sequence of writes by anyone: what is new or changed carries a version issued since. */
  ghost predicate Evolves(before: Store, serial: Id, after: Store, serial': Id) {
    && serial <= serial' && WellFormed(after, serial')
    && forall n :: n in after ==> (n in before && after[n] == before[n]) || after[n].version.value >= serial
  }

  /** An unfiltered list response: every stored Lease once, in any order. */
  ghost predicate Listing(items: seq<Lease>, store: Store) {
    && (forall i :: 0 <= i < |items| ==>
          items[i].name.Some? && items[i].name.value in store && store[items[i].name.value] == items[i])
    && (forall n :: n in store ==> store[n] in items)
    && (forall i, j :: 0 <= i < j < |items| ==> items[i].name != items[j].name)
  }

  class LeaseApi {
    var store: Store
    var serial: Id
    /** Every store there has been, up to the present one. */
    ghost var history: seq<Store>
    /** The Leases removed through this handle, as opposed to by others. */
    ghost var deleted: seq<Lease>

    ghost predicate Valid()
      reads this
    {
      WellFormed(store, serial) && history != [] && history[|history| - 1] == store
    }

    /**
     * Others act: the caller learns only that identifiers are never reused and history is kept. A caller who
     * is `alone` finds everything as it was.
     */
    method Interfere(ghost alone: bool)
      requires Valid()
      modifies this
      ensures Valid() && Evolves(old(store), old(serial), store, serial)
      ensures old(history) <= history && deleted == old(deleted)
      ensures alone ==> store == old(store) && serial == old(serial)
    {
    }

    method List() returns (items: seq<Lease>)
      requires Valid()
      ensures Listing(items, store)
    {
      items := [];
      var left := store.Keys;
      while left != {}
        invariant left <= store.Keys
        invariant forall i :: 0 <= i < |items| ==>
                    items[i].name.Some? && items[i].name.value in store - left && store[items[i].name.value] == items[i]
        invariant forall i, j :: 0 <= i < j < |items| ==> items[i].name != items[j].name
        invariant forall n :: n in store && n !in left ==> store[n] in items
        decreases left
      {
        var n :| n in left;
        items := items + [store[n]];
        left := left - {n};
      }
    }

    method GetOpt(name: string) returns (l: Option<Lease>)
      ensures l == if name in store then Some(store[name]) else None
    {
      l := if name in store then Some(store[name]) else None;
    }

    /** CREATE is atomic on the name. */
    method Create(l: Lease) returns (created: Option<Lease>)
      requires Valid() && l.name.Some?
      modifies this
      ensures Valid() && deleted == old(deleted)
      ensures created.None? <==> l.name.value in old(store)
      ensures created.None? ==> store == old(store) && serial == old(serial) && history == old(history)
      ensures created.Some? ==> && created.value == Stored(l, old(serial), old(serial) + 1)
                                && store == old(store)[l.name.value := created.value] && serial == old(serial) + 2
                                && history == old(history) + [store]
    {
      if l.name.value in store {
        return None;
      }
      created := Some(Stored(l, serial, serial + 1));
      store := store[l.name.value := created.value];
      serial := serial + 2;
      history := history + [store];
    }

    /** DELETE with UID and resourceVersion preconditions. */
    method Delete(name: string, uid: Id, version: Id) returns (ok: bool)
      requires Valid()
      modifies this
      ensures Valid() && serial == old(serial)
      ensures ok <==>
              name in old(store) && old(store)[name].uid == Some(uid) && old(store)[name].version == Some(version)
      ensures ok ==> && store == old(store) - {name} && history == old(history) + [store]
                     && deleted == old(deleted) + [old(store)[name]]
      ensures !ok ==> store == old(store) && history == old(history) && deleted == old(deleted)
    {
      ok := name in store && store[name].uid == Some(uid) && store[name].version == Some(version);
      if ok {
        deleted := deleted + [store[name]];
        store := store - {name};
        history := history + [store];
      }
    }
  }
}

/** `allocate` and `release` from controller/src/allocation.rs, with others acting between any two API calls. */
module LeaseCalls {
  import opened Base
  import opened Slots
  import opened Leases
  import opened LeaseServer

  /** In `store` the slot's Lease is exactly this Tenant's claim and its UID occurs nowhere else. */
  ghost predicate SlotWitness(lib: Lib, c: Context, store: Store, s: Slot) {
    var n := LeaseName(lib, s.slotId);
    && n in store && BoundTo(lib, c, AllocationOf(s), store[n])
    && forall m :: m in store && Carries(store[m], c.tenantUid) ==> m == n
  }

  lemma ListedClaim(lib: Lib, c: Context, store: Store, items: seq<Lease>, claim: Claim, l: Lease, serial: Id)
    requires WellFormed(store, serial) && Listing(items, store) && ClaimWitness(lib, c, items, claim, l)
    ensures SlotWitness(lib, c, store, claim.slot)
    ensures l.name.Some? && l.name.value in store && store[l.name.value] == l
  {
    hide BoundTo, LeaseName;
    CarriersMember(items, c.tenantUid, l);
    assert l.name == Some(LeaseName(lib, claim.slot.slotId)) by {
      BoundName(lib, c, AllocationOf(claim.slot), l);
    }
    forall m | m in store && Carries(store[m], c.tenantUid) ensures m == l.name.value {
      CarriersMember(items, c.tenantUid, store[m]);
      assert store[m] in Carriers(items, c.tenantUid);
      assert store[m] == l;
    }
  }

  lemma BoundName(lib: Lib, c: Context, a: Allocation, l: Lease)
    requires BoundTo(lib, c, a, l)
    ensures l.name == Some(LeaseName(lib, a.slotId)) && l.annotations == Some(Annotations(c, a))
    ensures Carries(l, c.tenantUid)
  {
  }

  /** One iteration's reaction to an inventory that already holds the Tenant's claim. */
  method ConfirmExisting(api: LeaseApi, lib: Lib, c: Context, found: Claim, ghost alone: bool)
    returns (r: Result<Claim, Error>)
    requires api.Valid()
    modifies api
    ensures api.Valid() && old(api.history) <= api.history && api.deleted == old(api.deleted)
    ensures r.Ok? ==> r.value.slot == found.slot
    ensures alone ==> api.store == old(api.store)
    ensures var n := LeaseName(lib, found.slot.slotId);
            alone && n in old(api.store) && BoundTo(lib, c, AllocationOf(found.slot), old(api.store)[n]) ==>
              r == Ok(Claim(found.slot, old(api.store)[n].uid.value, old(api.store)[n].version.value))
  {
    hide BoundTo, LeaseName;
    api.Interfere(alone);
    var live := api.GetOpt(LeaseName(lib, found.slot.slotId));
    if live.None? {
      return Err(Missing);
    }
    r := ClaimOf(lib, c, found.slot, live.value);
  }

  /** The list that must confirm a created Lease as the Tenant's only one. */
  method ConfirmCreated(api: LeaseApi, lib: Lib, c: Context, slot: Slot, created: Lease, ghost alone: bool)
    returns (r: Result<Claim, Error>)
    requires api.Valid()
    modifies api
    ensures api.Valid() && old(api.history) <= api.history && api.deleted == old(api.deleted)
    ensures r.Ok? ==> r.value.slot in c.slots && SlotWitness(lib, c, api.store, r.value.slot)
    ensures alone ==> api.store == old(api.store)
    ensures alone && created.name.Some? && created.name.value in old(api.store)
            && old(api.store)[created.name.value] == created && BoundTo(lib, c, AllocationOf(slot), created)
            && ValidContext(lib, c) && slot in c.slots && Settled(lib, c, old(api.store)) ==>
              r == Ok(Claim(slot, created.uid.value, created.version.value))
  {
    hide BoundTo, ValidContext, DecideClaim, SlotWitness, Settled;
    var verified := ClaimOf(lib, c, slot, created);
    if verified.Err? {
      return Err(verified.error);
    }
    api.Interfere(alone);
    var recent := api.List();
    var decision := DecideClaim(lib, c, recent, None);
    if alone && created.name.Some? && created.name.value in api.store && api.store[created.name.value] == created
       && ValidContext(lib, c) && slot in c.slots && Settled(lib, c, api.store) {
      FindsItsClaim(lib, c, api.store, recent, None, slot, created);
    }
    if decision.Err? {
      return Err(decision.error);
    }
    if decision.value.Existing? && decision.value.claim.leaseUid == verified.value.leaseUid {
      ClaimDecisionMeaning(lib, c, recent, None);
      ghost var l :| ClaimWitness(lib, c, recent, decision.value.claim, l);
      ListedClaim(lib, c, api.store, recent, decision.value.claim, l, api.serial);
      return Ok(decision.value.claim);
    }
    return Err(ClaimError(LeaseName(lib, slot.slotId)));
  }

  /** A name taken by someone else in the meantime; only a broken claim of this Tenant stops the search. */
  method RecheckTaken(api: LeaseApi, lib: Lib, c: Context, slot: Slot, ghost alone: bool)
    returns (r: Result<(), Error>)
    requires api.Valid()
    modifies api
    ensures api.Valid() && old(api.history) <= api.history && api.deleted == old(api.deleted)
  {
    api.Interfere(alone);
    var live := api.GetOpt(LeaseName(lib, slot.slotId));
    if live.Some? && Carries(live.value, c.tenantUid) {
      var claim := ClaimOf(lib, c, slot, live.value);
      if claim.Err? {
        return Err(claim.error);
      }
    }
    return Ok(());
  }

  /** One attempt at a free slot: created and confirmed, or refused, or taken by someone else in the meantime. */
  method TryCreate(api: LeaseApi, lib: Lib, c: Context, slot: Slot, ghost alone: bool)
    returns (r: Option<Result<Claim, Error>>)
    requires api.Valid()
    modifies api
    ensures api.Valid() && old(api.history) <= api.history && api.deleted == old(api.deleted)
    ensures r.Some? && r.value.Ok? ==>
              r.value.value.slot in c.slots && SlotWitness(lib, c, api.store, r.value.value.slot)
    ensures var n := LeaseName(lib, slot.slotId);
            alone && ValidContext(lib, c) && slot in c.slots && Settled(lib, c, old(api.store))
            && NoCarrier(old(api.store), c.tenantUid) && n !in old(api.store) ==>
              && r == Some(Ok(Claim(slot, old(api.serial), old(api.serial) + 1)))
              && api.store == old(api.store)[n := Stored(NewLease(lib, c, slot), old(api.serial), old(api.serial) + 1)]
  {
    hide SlotWitness, ValidContext, Settled, BoundTo, LeaseName;
    ghost var before, serial := api.store, api.serial;
    api.Interfere(alone);
    var created := api.Create(NewLease(lib, c, slot));
    if created.Some? {
      if alone && Settled(lib, c, before) && NoCarrier(before, c.tenantUid) && slot in c.slots {
        CreatedIsSettled(lib, c, before, slot, serial);
      }
      var confirmed := ConfirmCreated(api, lib, c, slot, created.value, alone);
      return Some(confirmed);
    }
    var taken := RecheckTaken(api, lib, c, slot, alone);
    if taken.Err? {
      return Some(Err(taken.error));
    }
    return None;
  }

  lemma ListedExisting(lib: Lib, c: Context, store: Store, items: seq<Lease>, bound: Option<Allocation>, found: Claim,
                       serial: Id)
    requires WellFormed(store, serial) && Listing(items, store)
    requires DecideClaim(lib, c, items, bound) == Ok(Existing(found))
    ensures found.slot in c.slots && SlotWitness(lib, c, store, found.slot)
    ensures bound.Some? ==> AllocationOf(found.slot) == bound.value
  {
    ClaimDecisionMeaning(lib, c, items, bound);
    hide DecideClaim, WellFormed, Listing, SlotWitness;
    var l :| ClaimWitness(lib, c, items, found, l) && (bound.Some? ==> AllocationOf(found.slot) == bound.value);
    ListedClaim(lib, c, store, items, found, l, serial);
  }

  /** At most one Lease carries the Tenant's UID, bound to a slot of the pool; nobody else holds its name. */
  ghost predicate Settled(lib: Lib, c: Context, store: Store) {
    && (forall m, n :: m in store && n in store && Carries(store[m], c.tenantUid) && Carries(store[n], c.tenantUid) ==>
          m == n)
    && forall n :: n in store ==> Orderly(lib, c, store[n])
  }

  lemma SettledListing(lib: Lib, c: Context, store: Store, items: seq<Lease>)
    requires ValidContext(lib, c) && Listing(items, store) && Settled(lib, c, store)
    ensures MatchingClaim(lib, c, items).Ok?
  {
    hide Orderly, ValidContext, Carries;
    MatchingClaimMeaning(lib, c, items);
    var carriers := Carriers(items, c.tenantUid);
    var name := if carriers == [] then None else carriers[0].name;
    forall l | l in items && Carries(l, c.tenantUid) ensures l.name == name {
      CarriersMember(items, c.tenantUid, l);
      CarriersMember(items, c.tenantUid, carriers[0]);
    }
    FewCarriers(items, c.tenantUid, name);
  }

  /** With the Tenant's own Lease in a settled inventory, the decision is that claim. */
  lemma FindsItsClaim(lib: Lib, c: Context, store: Store, items: seq<Lease>, bound: Option<Allocation>, slot: Slot,
                      l: Lease)
    requires ValidContext(lib, c) && slot in c.slots && Listing(items, store) && Settled(lib, c, store)
    requires l.name.Some? && l.name.value in store && store[l.name.value] == l && BoundTo(lib, c, AllocationOf(slot), l)
    ensures DecideClaim(lib, c, items, bound) ==
            if bound.Some? && bound.value != AllocationOf(slot) then Err(StatusMismatch)
            else Ok(Existing(Claim(slot, l.uid.value, l.version.value)))
  {
    SettledListing(lib, c, store, items);
    MatchingClaimMeaning(lib, c, items);
    BoundName(lib, c, AllocationOf(slot), l);
    CarriersMember(items, c.tenantUid, l);
    var found := MatchingClaim(lib, c, items).value.value;
    assert found.0 == l;
    BoundName(lib, c, AllocationOf(found.1), l);
    hide BoundTo, LeaseName, Settled, Listing, Orderly;
    SameName(lib, c, slot, found.1);
  }

  lemma SameName(lib: Lib, c: Context, s: Slot, t: Slot)
    requires ValidContext(lib, c) && s in c.slots && t in c.slots
    requires LeaseName(lib, s.slotId) == LeaseName(lib, t.slotId)
    ensures s == t
  {
    hide LeaseName, ValidIdentity, DnsLabel;
  }

  /** The first slot of the pool whose name is free. */
  ghost predicate FirstFreeAt(lib: Lib, c: Context, store: Store, i: nat) {
    && i < |c.slots| && LeaseName(lib, c.slots[i].slotId) !in store
    && forall j :: 0 <= j < i ==> LeaseName(lib, c.slots[j].slotId) in store
  }

  lemma NamedIsStored(store: Store, items: seq<Lease>, name: string)
    requires Listing(items, store) && forall n :: n in store ==> store[n].name == Some(n)
    ensures FindNamed(items, name).Some? <==> name in store
  {
  }

  lemma {:induction false} FirstFreeFrom(lib: Lib, slots: seq<Slot>, items: seq<Lease>, store: Store, i: nat)
    requires Listing(items, store) && forall n :: n in store ==> store[n].name == Some(n)
    requires i <= |slots| && forall j :: 0 <= j < i ==> LeaseName(lib, slots[j].slotId) in store
    requires i < |slots| ==> LeaseName(lib, slots[i].slotId) !in store
    ensures FirstFree(lib, slots, items) == if i < |slots| then Some(slots[i]) else None
    decreases i
  {
    if slots != [] {
      hide LeaseName, Listing;
      NamedIsStored(store, items, LeaseName(lib, slots[0].slotId));
      if i > 0 {
        FirstFreeFrom(lib, slots[1..], items, store, i - 1);
      }
    }
  }

  lemma DecidesOnFirstFree(lib: Lib, c: Context, store: Store, items: seq<Lease>, i: nat)
    requires ValidContext(lib, c) && Listing(items, store) && Settled(lib, c, store) && NoCarrier(store, c.tenantUid)
    requires forall n :: n in store ==> store[n].name == Some(n)
    requires FirstFreeAt(lib, c, store, i)
            || (i == |c.slots| && forall j :: 0 <= j < i ==> LeaseName(lib, c.slots[j].slotId) in store)
    ensures DecideClaim(lib, c, items, None) == if i < |c.slots| then Ok(Create(c.slots[i])) else Err(Exhausted)
  {
    SettledListing(lib, c, store, items);
    MatchingClaimMeaning(lib, c, items);
    if Carriers(items, c.tenantUid) != [] {
      CarriersMember(items, c.tenantUid, Carriers(items, c.tenantUid)[0]);
    }
    hide LeaseName, Listing, Settled, ValidContext, Orderly;
    FirstFreeFrom(lib, c.slots, items, store, i);
  }

  lemma CreatedIsSettled(lib: Lib, c: Context, store: Store, slot: Slot, serial: Id)
    requires WellFormed(store, serial) && Settled(lib, c, store) && NoCarrier(store, c.tenantUid) && slot in c.slots
    ensures var l := Stored(NewLease(lib, c, slot), serial, serial + 1);
            Settled(lib, c, store[l.name.value := l]) && BoundTo(lib, c, AllocationOf(slot), l)
  {
    var l := Stored(NewLease(lib, c, slot), serial, serial + 1);
    assert BoundTo(lib, c, AllocationOf(slot), l);
    BoundName(lib, c, AllocationOf(slot), l);
    hide BoundTo, LeaseName;
  }

  /** What an undisturbed allocation does to a settled inventory. */
  ghost predicate AllocatedAlone(lib: Lib, c: Context, bound: Option<Allocation>, before: Store, serial: Id,
                                 after: Store, r: Result<Claim, Error>) {
    && (forall n :: n in before && Carries(before[n], c.tenantUid) ==>
          after == before && OwnClaim(lib, c, bound, before[n], r))
    && (NoCarrier(before, c.tenantUid) && bound.Some? ==> after == before && r == Err(Missing))
    && (NoCarrier(before, c.tenantUid) && bound.None? ==>
          && ((forall j :: 0 <= j < |c.slots| ==> LeaseName(lib, c.slots[j].slotId) in before) ==>
                after == before && r == Err(Exhausted))
          && forall i: nat :: FirstFreeAt(lib, c, before, i) ==>
               && r == Ok(Claim(c.slots[i], serial, serial + 1))
               && after == before[LeaseName(lib, c.slots[i].slotId) :=
                                  Stored(NewLease(lib, c, c.slots[i]), serial, serial + 1)])
  }

  ghost predicate OwnClaim(lib: Lib, c: Context, bound: Option<Allocation>, l: Lease, r: Result<Claim, Error>) {
    exists s :: s in c.slots && BoundTo(lib, c, AllocationOf(s), l)
                && r == if bound.Some? && bound.value != AllocationOf(s) then Err(StatusMismatch)
                        else Ok(Claim(s, l.uid.value, l.version.value))
  }

  /**
   * A return rests on one list, during the call, in which the claim is the Tenant's only Lease. Undisturbed, a
   * Tenant without a Lease gets the first slot whose name is free, and a Lease for it is stored. It lists at
   * most once more than there are slots.
   */
  method Allocate(api: LeaseApi, lib: Lib, c: Context, bound: Option<Allocation>, ghost alone: bool)
    returns (r: Result<Claim, Error>, ghost lists: nat)
    requires api.Valid()
    modifies api
    ensures api.Valid() && old(api.history) <= api.history && api.deleted == old(api.deleted)
    ensures r.Ok? ==> r.value.slot in c.slots && exists k ::
                      |old(api.history)| <= k + 1 <= |api.history| && SlotWitness(lib, c, api.history[k], r.value.slot)
    ensures r.Ok? && bound.Some? ==> AllocationOf(r.value.slot) == bound.value
    ensures lists <= |c.slots| + 1
    ensures alone && ValidContext(lib, c) && Settled(lib, c, old(api.store)) ==>
              AllocatedAlone(lib, c, bound, old(api.store), old(api.serial), api.store, r)
  {
    hide SlotWitness, ValidContext, DecideClaim, Settled, AllocatedAlone, BoundTo;
    lists := 0;
    ghost var before, serial := api.store, api.serial;
    ghost var settled := alone && ValidContext(lib, c) && Settled(lib, c, before);
    if !ValidContext(lib, c) {
      return Err(InvalidPool), lists;
    }
    for attempt := 0 to |c.slots| + 1
      invariant api.Valid() && old(api.history) <= api.history && api.deleted == old(api.deleted)
      invariant lists == attempt
      invariant settled ==> attempt == 0 && api.store == before && api.serial == serial
    {
      api.Interfere(alone);
      var inventory := api.List();
      lists := lists + 1;
      if settled {
        AloneDecides(lib, c, bound, before, serial, inventory);
      }
      var decision := DecideClaim(lib, c, inventory, bound);
      if decision.Err? {
        return Err(decision.error), lists;
      }
      if decision.value.Existing? {
        var found := decision.value.claim;
        ghost var k := |api.history| - 1;
        ListedExisting(lib, c, api.store, inventory, bound, found, api.serial);
        assert SlotWitness(lib, c, api.history[k], found.slot);
        r := ConfirmExisting(api, lib, c, found, alone);
        assert SlotWitness(lib, c, api.history[k], found.slot);
        return;
      }
      assert bound.None? by {
        ClaimDecisionMeaning(lib, c, inventory, bound);
      }
      var slot := decision.value.slot;
      var done := TryCreate(api, lib, c, slot, alone);
      if done.Some? {
        r := done.value;
        assert r.Ok? ==> SlotWitness(lib, c, api.history[|api.history| - 1], r.value.slot);
        return;
      }
    }
    return Err(Exhausted), lists;
  }

  /** The decision of an undisturbed call, and what each outcome of it amounts to. */
  lemma AloneDecides(lib: Lib, c: Context, bound: Option<Allocation>, store: Store, serial: Id, items: seq<Lease>)
    requires ValidContext(lib, c) && WellFormed(store, serial) && Settled(lib, c, store) && Listing(items, store)
    ensures var d := DecideClaim(lib, c, items, bound);
            && (d.Err? ==> AllocatedAlone(lib, c, bound, store, serial, store, Err(d.error)))
            && (d.Ok? && d.value.Existing? ==>
                  var n := LeaseName(lib, d.value.claim.slot.slotId);
                  && n in store && BoundTo(lib, c, AllocationOf(d.value.claim.slot), store[n])
                  && AllocatedAlone(lib, c, bound, store, serial, store,
                                    Ok(Claim(d.value.claim.slot, store[n].uid.value, store[n].version.value))))
            && (d.Ok? && d.value.Create? ==>
                  && bound.None? && NoCarrier(store, c.tenantUid) && d.value.slot in c.slots
                  && var n, l := LeaseName(lib, d.value.slot.slotId),
                                 Stored(NewLease(lib, c, d.value.slot), serial, serial + 1);
                     && n !in store
                     && AllocatedAlone(lib, c, bound, store, serial, store[n := l],
                                       Ok(Claim(d.value.slot, serial, serial + 1))))
  {
    if n :| n in store && Carries(store[n], c.tenantUid) {
      hide *;
      AloneDecidesOwn(lib, c, bound, store, serial, items, n);
    } else if bound.Some? {
      SettledListing(lib, c, store, items);
      MatchingClaimMeaning(lib, c, items);
      if Carriers(items, c.tenantUid) != [] {
        CarriersMember(items, c.tenantUid, Carriers(items, c.tenantUid)[0]);
      }
      hide LeaseName, BoundTo, ValidContext, Listing, Settled;
    } else {
      AloneDecidesFree(lib, c, store, serial, items);
    }
  }

  lemma AloneDecidesOwn(lib: Lib, c: Context, bound: Option<Allocation>, store: Store, serial: Id, items: seq<Lease>,
                        n: string)
    requires ValidContext(lib, c) && WellFormed(store, serial) && Settled(lib, c, store) && Listing(items, store)
    requires n in store && Carries(store[n], c.tenantUid)
    ensures var d := DecideClaim(lib, c, items, bound);
            && (d.Err? ==> AllocatedAlone(lib, c, bound, store, serial, store, Err(d.error)))
            && (d.Ok? ==>
                  && d.value.Existing? && n == LeaseName(lib, d.value.claim.slot.slotId)
                  && BoundTo(lib, c, AllocationOf(d.value.claim.slot), store[n])
                  && AllocatedAlone(lib, c, bound, store, serial, store,
                                    Ok(Claim(d.value.claim.slot, store[n].uid.value, store[n].version.value))))
  {
    assert Orderly(lib, c, store[n]);
    var slot :| slot in c.slots && BoundTo(lib, c, AllocationOf(slot), store[n]);
    BoundName(lib, c, AllocationOf(slot), store[n]);
    FindsItsClaim(lib, c, store, items, bound, slot, store[n]);
    hide DecideClaim, LeaseName, BoundTo, ValidContext, Listing, Orderly;
    assert forall m :: m in store && Carries(store[m], c.tenantUid) ==> m == n;
  }

  lemma SomeFirstFree(lib: Lib, c: Context, store: Store, i: nat) returns (first: nat)
    requires i <= |c.slots| && forall j :: 0 <= j < i ==> LeaseName(lib, c.slots[j].slotId) in store
    ensures first <= |c.slots| && forall j :: 0 <= j < first ==> LeaseName(lib, c.slots[j].slotId) in store
    ensures first < |c.slots| ==> FirstFreeAt(lib, c, store, first)
    decreases |c.slots| - i
  {
    hide LeaseName;
    if i == |c.slots| || LeaseName(lib, c.slots[i].slotId) !in store {
      first := i;
    } else {
      first := SomeFirstFree(lib, c, store, i + 1);
    }
  }

  lemma AloneDecidesFree(lib: Lib, c: Context, store: Store, serial: Id, items: seq<Lease>)
    requires ValidContext(lib, c) && WellFormed(store, serial) && Settled(lib, c, store) && Listing(items, store)
    requires NoCarrier(store, c.tenantUid)
    ensures var d := DecideClaim(lib, c, items, None);
            && (d.Err? ==> AllocatedAlone(lib, c, None, store, serial, store, Err(d.error)))
            && (d.Ok? ==> d.value.Create? && d.value.slot in c.slots)
            && (d.Ok? ==>
                  var n, l := LeaseName(lib, d.value.slot.slotId),
                              Stored(NewLease(lib, c, d.value.slot), serial, serial + 1);
                  && n !in store
                  && AllocatedAlone(lib, c, None, store, serial, store[n := l],
                                    Ok(Claim(d.value.slot, serial, serial + 1))))
  {
    var i := SomeFirstFree(lib, c, store, 0);
    DecidesOnFirstFree(lib, c, store, items, i);
    hide DecideClaim, LeaseName, ValidContext, Listing, Settled, NewLease, WellFormed, BoundTo;
    forall j | FirstFreeAt(lib, c, store, j) ensures j == i {
    }
  }

  // ---- agreement between any number of calls ----------------------------------------------

  /** No release: a Lease with a Tenant UID keeps its name and annotations. Everything else may change. */
  ghost predicate Persists(a: Store, b: Store) {
    forall n :: n in a && a[n].annotations.Some? && TenantUidKey in a[n].annotations.value ==>
      n in b && b[n].annotations == a[n].annotations
  }

  ghost predicate NoRelease(history: seq<Store>) {
    forall k :: 0 <= k < |history| - 1 ==> Persists(history[k], history[k + 1])
  }

  lemma {:induction false} PersistsAlong(history: seq<Store>, i: nat, j: nat)
    requires NoRelease(history) && i <= j < |history|
    ensures Persists(history[i], history[j])
    decreases j
  {
    if i < j {
      PersistsAlong(history, i, j - 1);
      assert Persists(history[j - 1], history[j - 1 + 1]);
    }
  }

  /** Two returns, each with its witness somewhere in one history without releases. */
  lemma AllocationAgreement(lib: Lib, history: seq<Store>, i: nat, c: Context, s: Slot, j: nat, d: Context, t: Slot)
    requires NoRelease(history) && i < |history| && j < |history|
    requires SlotWitness(lib, c, history[i], s) && SlotWitness(lib, d, history[j], t)
    ensures c.tenantUid == d.tenantUid ==> AllocationOf(s) == AllocationOf(t)
    ensures c.tenantUid != d.tenantUid ==> s.slotId != t.slotId
  {
    if j < i {
      AllocationAgreement(lib, history, j, d, t, i, c, s);
    } else {
      PersistsAlong(history, i, j);
      var m, n := LeaseName(lib, s.slotId), LeaseName(lib, t.slotId);
      BoundName(lib, c, AllocationOf(s), history[i][m]);
      BoundName(lib, d, AllocationOf(t), history[j][n]);
      hide LeaseName, BoundTo;
      if m == n {
        AnnotationsIdentify(c, AllocationOf(s), d, AllocationOf(t));
      }
    }
  }

  // ---- release -----------------------------------------------------------------------------

  ghost predicate NoCarrier(store: Store, uid: string) {
    forall n :: n in store ==> !Carries(store[n], uid)
  }

  /**
   * The only write is the deletion of a Lease bound to this Tenant in every marker, after the residue proof.
   * Undisturbed, and with the Tenant's Lease in order, that proof is all it takes for the Lease to go.
   */
  method ReleaseLease(api: LeaseApi, lib: Lib, c: Context, bound: Option<Allocation>, absent: bool, ghost alone: bool)
    returns (r: Result<Release, Error>)
    requires api.Valid()
    modifies api
    ensures api.Valid() && old(api.history) <= api.history
    ensures api.deleted == old(api.deleted) || exists l, a ::
              && api.deleted == old(api.deleted) + [l] && absent && r == Ok(Pending)
              && BoundTo(lib, c, a, l) && (bound.Some? ==> a == bound.value)
    ensures r == Ok(Complete) ==>
              absent && exists k ::
                |old(api.history)| <= k + 1 <= |api.history| && NoCarrier(api.history[k], c.tenantUid)
    ensures r.Ok? ==> !r.value.Delete?
    ensures alone && LeaseInOrder(lib, c, old(api.store), bound, absent) ==>
              && api.store == old(api.store) - (if absent then Carrying(old(api.store), c.tenantUid) else {})
              && r == Ok(if absent && Carrying(old(api.store), c.tenantUid) == {} then Complete else Pending)
  {
    hide DecideRelease, BoundTo, ValidIdentity, LeaseInOrder;
    ghost var before := api.store;
    InOrderIdentity(lib, c, before, bound, absent);
    if !ValidIdentity(c) {
      return Err(InvalidPool);
    }
    api.Interfere(alone);
    var inventory := api.List();
    ghost var settled := alone && LeaseInOrder(lib, c, before, bound, absent);
    if settled {
      DecidesInOrder(lib, c, before, bound, absent, inventory);
    }
    var decision := DecideRelease(lib, c, inventory, bound, absent);
    if decision.Err? {
      return Err(decision.error);
    }
    ReleaseDecisionMeaning(lib, c, inventory, bound, absent);
    if !decision.value.Delete? {
      NoListedCarrier(api.store, inventory, c.tenantUid);
      if settled && absent {
        assert Carrying(before, c.tenantUid) == {};
        assert before - {} == before;
      }
      assert decision.value.Complete? ==> NoCarrier(api.history[|api.history| - 1], c.tenantUid);
      return decision;
    }
    ghost var own := alone && absent && LeaseInOrder(lib, c, before, bound, absent);
    if own {
      DeletesItsOwn(lib, c, before, inventory, bound, decision.value.intent, api.serial);
    }
    r := DeleteDecided(api, lib, c, bound, absent, decision.value.intent, own);
  }

  /** The Lease to delete is read once more, decided on alone, and deleted by the identity it has then. */
  method DeleteDecided(api: LeaseApi, lib: Lib, c: Context, bound: Option<Allocation>, absent: bool, intent: Intent,
                       ghost own: bool)
    returns (r: Result<Release, Error>)
    requires api.Valid()
    requires own ==>
               && absent && intent.name in api.store
               && DecideRelease(lib, c, [api.store[intent.name]], bound, absent) == Ok(Delete(intent))
               && api.store[intent.name].uid == Some(intent.uid)
               && api.store[intent.name].version == Some(intent.version)
    modifies api
    ensures api.Valid() && old(api.history) <= api.history
    ensures api.deleted == old(api.deleted) || exists l, a ::
              && api.deleted == old(api.deleted) + [l] && absent && r == Ok(Pending)
              && BoundTo(lib, c, a, l) && (bound.Some? ==> a == bound.value)
    ensures r.Ok? ==> r == Ok(Pending)
    ensures own ==> api.store == old(api.store) - {intent.name} && r == Ok(Pending)
  {
    hide DecideRelease, BoundTo;
    api.Interfere(own);
    var live := api.GetOpt(intent.name);
    if live.None? {
      return if absent then Ok(Pending) else Err(Missing);
    }
    var recent := DecideRelease(lib, c, [live.value], bound, absent);
    if recent.Err? {
      return Err(recent.error);
    }
    if !recent.value.Delete? {
      return Ok(Pending);
    }
    if recent.value.intent.uid != intent.uid {
      return Err(ClaimError(intent.name));
    }
    ghost var a := ReleasableAlone(lib, c, live.value, bound, absent);
    api.Interfere(own);
    var done := api.Delete(recent.value.intent.name, recent.value.intent.uid, recent.value.intent.version);
    return if done then Ok(Pending) else Err(ApiError);
  }

  lemma InOrderIdentity(lib: Lib, c: Context, store: Store, bound: Option<Allocation>, absent: bool)
    ensures LeaseInOrder(lib, c, store, bound, absent) ==> ValidIdentity(c)
  {
  }

  /** What the decision to delete refers to, read again, is the Tenant's only Lease, and is decided on the same way. */
  lemma DeletesItsOwn(lib: Lib, c: Context, store: Store, items: seq<Lease>, bound: Option<Allocation>, intent: Intent,
                      serial: Id)
    requires WellFormed(store, serial) && Listing(items, store)
    requires DecideRelease(lib, c, items, bound, true) == Ok(Delete(intent))
    ensures Carrying(store, c.tenantUid) == {intent.name} && intent.name in store
    ensures DecideRelease(lib, c, [store[intent.name]], bound, true) == Ok(Delete(intent))
    ensures store[intent.name].uid == Some(intent.uid) && store[intent.name].version == Some(intent.version)
  {
    hide DecideRelease, BoundTo, ValidAllocation;
    ReleaseDecisionMeaning(lib, c, items, bound, true);
    var a, l :| ReleaseWitness(lib, c, items, intent, a, l);
    ListedCarriers(store, items, c.tenantUid, l);
    ReleaseDecisionOnOne(lib, c, items, bound, l);
    BoundIdentity(lib, c, a, l);
  }

  /** The Lease read alone and decided for deletion is itself bound, and the intent names its identifiers. */
  lemma ReleasableAlone(lib: Lib, c: Context, l: Lease, bound: Option<Allocation>, absent: bool)
    returns (a: Allocation)
    requires DecideRelease(lib, c, [l], bound, absent).Ok? && DecideRelease(lib, c, [l], bound, absent).value.Delete?
    ensures absent && BoundTo(lib, c, a, l) && (bound.Some? ==> a == bound.value)
    ensures DecideRelease(lib, c, [l], bound, absent).value.intent == Intent(NameOf(l), l.uid.value, l.version.value)
  {
    hide DecideRelease, BoundTo;
    var d := DecideRelease(lib, c, [l], bound, absent).value;
    ReleaseDecisionMeaning(lib, c, [l], bound, absent);
    var carrier: Lease;
    a, carrier :| ReleaseWitness(lib, c, [l], d.intent, a, carrier) && (bound.Some? ==> a == bound.value);
    CarriersMember([l], c.tenantUid, carrier);
  }

  lemma NoListedCarrier(store: Store, items: seq<Lease>, uid: string)
    requires Listing(items, store)
    ensures Carriers(items, uid) == [] ==> NoCarrier(store, uid)
  {
    forall n | n in store ensures Carriers(items, uid) == [] ==> !Carries(store[n], uid) {
      CarriersMember(items, uid, store[n]);
    }
  }

  // ---- Leases in order ----------------------------------------------------------------------

  function Carrying(store: Store, uid: string): set<string> {
    set n | n in store && Carries(store[n], uid)
  }

  lemma BoundIdentity(lib: Lib, c: Context, a: Allocation, l: Lease)
    requires BoundTo(lib, c, a, l)
    ensures l.name.Some? && l.uid.Some? && l.version.Some?
  {
  }

  /** No list of these Leases is refused. */
  ghost predicate Decidable(lib: Lib, c: Context, store: Store, bound: Option<Allocation>, absent: bool) {
    forall items :: Listing(items, store) ==> DecideRelease(lib, c, items, bound, absent).Ok?
  }

  /**
   * Leases are stored under their names. The Tenant holds at most one, complete and agreeing with the status;
   * nobody else holds its name or its recorded slot, and while it has residue the recorded Lease is there.
   */
  ghost predicate LeaseInOrder(lib: Lib, c: Context, store: Store, bound: Option<Allocation>, absent: bool) {
    && ValidIdentity(c) && |Carrying(store, c.tenantUid)| <= 1
    && (forall n :: n in store ==> store[n].name == Some(n))
    && (forall n :: n in store && Annotation(store[n], TenantKey) == Some(c.tenantName) ==>
          Carries(store[n], c.tenantUid))
    && (forall n :: n in store && Carries(store[n], c.tenantUid) ==> OwnLease(lib, c, store[n], bound))
    && (bound.Some? ==>
          && ValidAllocation(lib, bound.value) && (absent || Carrying(store, c.tenantUid) != {})
          && (LeaseName(lib, bound.value.slotId) in store ==>
                Carries(store[LeaseName(lib, bound.value.slotId)], c.tenantUid)))
  }

  ghost predicate OwnLease(lib: Lib, c: Context, l: Lease, bound: Option<Allocation>) {
    exists a :: AnnotatedAllocation(lib, l) == Ok(a) && BoundTo(lib, c, a, l) && (bound.Some? ==> a == bound.value)
  }

  lemma {:induction false} FewCarriers(items: seq<Lease>, uid: string, name: Option<string>)
    requires forall i, j :: 0 <= i < j < |items| ==> items[i].name != items[j].name
    requires forall l :: l in items && Carries(l, uid) ==> l.name == name
    ensures |Carriers(items, uid)| <= 1
  {
    if items != [] {
      hide Carries;
      FewCarriers(items[1..], uid, name);
      if Carries(items[0], uid) {
        var rest := Carriers(items[1..], uid);
        if rest != [] {
          CarriersMember(items[1..], uid, rest[0]);
        }
      }
    }
  }

  lemma {:induction false} NobodyHoldsTheName(lib: Lib, c: Context, todo: seq<Lease>, leases: seq<Lease>, absent: bool)
    requires forall l :: l in todo && Annotation(l, TenantKey) == Some(c.tenantName) ==>
               Annotation(l, TenantUidKey) == Some(c.tenantUid)
    ensures ScanNameHolders(lib, c, todo, leases, absent) == Ok(())
  {
    if todo != [] {
      hide Annotation;
      assert todo[0] in todo;
      NobodyHoldsTheName(lib, c, todo[1..], leases, absent);
    }
  }

  /** An inventory in order has one carrier at most, and it is the Tenant's own complete Lease. */
  lemma CarrierInOrder(lib: Lib, c: Context, store: Store, bound: Option<Allocation>, absent: bool, items: seq<Lease>)
    requires Listing(items, store) && LeaseInOrder(lib, c, store, bound, absent)
    ensures RecoverAllocation(lib, c, items).Ok?
    ensures var r := RecoverAllocation(lib, c, items).value;
            && (bound.Some? && r.Some? ==> r == bound) && (r.None? ==> Carriers(items, c.tenantUid) == [])
            && (r.Some? ==> |Carriers(items, c.tenantUid)| == 1
                            && BoundTo(lib, c, r.value, Carriers(items, c.tenantUid)[0]))
  {
    hide LeaseName, ValidAllocation, ValidIdentity, BoundTo, AnnotatedAllocation, Annotation, Carries;
    var held := Carrying(store, c.tenantUid);
    var name := if held == {} then None else var n :| n in held; Some(n);
    forall l | l in items && Carries(l, c.tenantUid) ensures l.name == name {
      assert l.name.value in held;
      OnlyOne(held, l.name.value, name.value);
    }
    FewCarriers(items, c.tenantUid, name);
    var carriers := Carriers(items, c.tenantUid);
    if carriers != [] {
      CarriersMember(items, c.tenantUid, carriers[0]);
      assert OwnLease(lib, c, carriers[0], bound);
    }
  }

  lemma OnlyOne(s: set<string>, a: string, b: string)
    requires |s| <= 1 && a in s && b in s
    ensures a == b
  {
    SubsetSize({a, b}, s);
  }

  lemma BoundInOrder(lib: Lib, c: Context, store: Store, bound: Allocation, absent: bool, items: seq<Lease>)
    requires Listing(items, store)
    requires LeaseInOrder(lib, c, store, Some(bound), absent) && RecoverAllocation(lib, c, items).Ok?
    ensures DecideBoundRelease(lib, c, items, bound, RecoverAllocation(lib, c, items).value, absent).Ok?
  {
    CarrierInOrder(lib, c, store, Some(bound), absent, items);
    var existing := RecoverAllocation(lib, c, items).value;
    var named := FindNamed(items, LeaseName(lib, bound.slotId));
    if existing.Some? {
      CarriersMember(items, c.tenantUid, Carriers(items, c.tenantUid)[0]);
    } else {
      NoListedCarrier(store, items, c.tenantUid);
    }
    if named.Some? {
      assert Carries(named.value, c.tenantUid);
      CarriersMember(items, c.tenantUid, named.value);
    }
    hide RecoverAllocation, ValidAllocation, LeaseName, ValidateSuccessor, AnnotatedAllocation, Carriers, OwnLease,
      Labels, Annotations;
  }

  lemma DecidesInOrder(lib: Lib, c: Context, store: Store, bound: Option<Allocation>, absent: bool, items: seq<Lease>)
    requires Listing(items, store) && LeaseInOrder(lib, c, store, bound, absent)
    ensures DecideRelease(lib, c, items, bound, absent).Ok?
  {
    CarrierInOrder(lib, c, store, bound, absent, items);
    forall l | l in items && Annotation(l, TenantKey) == Some(c.tenantName)
      ensures Annotation(l, TenantUidKey) == Some(c.tenantUid)
    {
      assert Carries(l, c.tenantUid);
    }
    NobodyHoldsTheName(lib, c, items, items, absent);
    if bound.Some? {
      BoundInOrder(lib, c, store, bound.value, absent, items);
    }
    hide RecoverAllocation, ScanNameHolders, DecideBoundRelease, ValidAllocation, LeaseName, OwnLease, Annotation,
      Carries;
  }

  /** Leases in order are never refused, so the pass can act on them. */
  lemma InOrderIsDecidable(lib: Lib, c: Context, store: Store, bound: Option<Allocation>, absent: bool)
    requires LeaseInOrder(lib, c, store, bound, absent)
    ensures Decidable(lib, c, store, bound, absent)
  {
    forall items | Listing(items, store) ensures DecideRelease(lib, c, items, bound, absent).Ok? {
      DecidesInOrder(lib, c, store, bound, absent, items);
    }
  }

  lemma ListedCarriers(store: Store, items: seq<Lease>, uid: string, l: Lease)
    requires (exists serial :: WellFormed(store, serial)) && Listing(items, store) && Carriers(items, uid) == [l]
    ensures l.name.Some? && l.name.value in store && store[l.name.value] == l && Carrying(store, uid) == {l.name.value}
  {
    CarriersMember(items, uid, l);
    forall n | n in store && Carries(store[n], uid) ensures n == l.name.value {
      CarriersMember(items, uid, store[n]);
    }
  }
}
