/** controller/src/allocation.rs: slot claims as exact Lease metadata, and the two decision functions. */
module Leases {
  import opened Base
  import opened Slots

  /** Label and annotation keys: the controller's own, which are distinct constants, and all others. */
  datatype Key =
    | TenantKey | TenantUidKey | SpecHashKey | FoundationKey | ResourceKey
    | SlotKey | EndpointKey | PodCidrKey | ServiceCidrKey | CatalogUidKey
    | OtherKey(text: string)

  type Markers = map<Key, string>

  /** A UID or resourceVersion as the serial number under which the server issued it; 0 is the empty text. */
  type Id = nat

  datatype Lease = Lease(
    name: Option<string>, namespace: Option<string>,
    labels: Option<Markers>, annotations: Option<Markers>,
    owners: nat, deleting: bool, emptySpec: bool,
    uid: Option<Id>, version: Option<Id>)

  datatype Allocation = Allocation(slotId: string, endpoint: string, podCidr: string, serviceCidr: string)

  type Digest = s: string | |s| == 64 witness "0000000000000000000000000000000000000000000000000000000000000000"

  /** The library functions that stay uninterpreted: address parsing and hex SHA-256. */
  datatype Lib = Lib(text: Text, digest: string -> Digest)

  datatype Context = Context(
    namespace: string, ownershipLabel: Key, labPrefix: string, tenantName: string,
    tenantUid: string, specHash: string, foundationHash: string, slots: seq<Slot>)

  datatype Error =
    InvalidPool | Duplicate | ClaimError(name: string) | NameHeld | StatusMismatch | Missing | Exhausted | ApiError

  datatype Claim = Claim(slot: Slot, leaseUid: Id, version: Id)

  datatype Intent = Intent(name: string, uid: Id, version: Id)

  datatype Release = Delete(intent: Intent) | Pending | Complete

  datatype Decision = Existing(claim: Claim) | Create(slot: Slot)

  const PREFIX := "tenant-slot-"
  const AZURE_PREFIX := "tenant-azure-slot-"

  function LeaseName(lib: Lib, slotId: string): string {
    var prefix := if "azure-" <= slotId then AZURE_PREFIX else PREFIX;
    prefix + lib.digest(slotId)[..63 - |prefix|]
  }

  function AllocationOf(s: Slot): Allocation {
    Allocation(s.slotId, s.endpoint, s.podCidr, s.serviceCidr)
  }

  predicate ValidIdentity(c: Context) {
    && c.namespace != "" && c.ownershipLabel != OtherKey("") && c.labPrefix != ""
    && c.tenantName != "" && c.tenantUid != "" && c.specHash != "" && c.foundationHash != ""
    && DnsLabel(c.namespace, 63) && DnsLabel(c.tenantName, 30)
    && c.ownershipLabel != SlotKey && c.ownershipLabel != TenantKey
  }

  predicate ValidContext(lib: Lib, c: Context) {
    && ValidIdentity(c)
    && c.slots != []
    && (forall i :: 0 <= i < |c.slots| ==> DnsLabel(c.slots[i].slotId, 63))
    && (forall i, j :: 0 <= i < j < |c.slots| ==>
          LeaseName(lib, c.slots[i].slotId) != LeaseName(lib, c.slots[j].slotId))
  }

  function Labels(c: Context, a: Allocation): Markers {
    map[c.ownershipLabel := c.labPrefix][SlotKey := a.slotId][TenantKey := c.tenantName]
  }

  function Annotations(c: Context, a: Allocation): Markers {
    map[TenantKey := c.tenantName, TenantUidKey := c.tenantUid, SpecHashKey := c.specHash,
        FoundationKey := c.foundationHash, ResourceKey := "allocation-lease", SlotKey := a.slotId,
        EndpointKey := a.endpoint, PodCidrKey := a.podCidr, ServiceCidrKey := a.serviceCidr]
  }

  function NewLease(lib: Lib, c: Context, s: Slot): Lease {
    Lease(Some(LeaseName(lib, s.slotId)), Some(c.namespace),
          Some(Labels(c, AllocationOf(s))), Some(Annotations(c, AllocationOf(s))),
          0, false, true, None, None)
  }

  /** What the API server stores for a CREATE: the object with a fresh UID and version. */
  function Stored(l: Lease, uid: Id, version: Id): Lease {
    l.(uid := Some(uid), version := Some(version))
  }

  // ---- reading a Lease ---------------------------------------------------------------------

  predicate HasId(id: Option<Id>) {
    id.Some? && id.value != 0
  }

  function NameOf(l: Lease): string {
    if l.name.Some? then l.name.value else ""
  }

  function Annotation(l: Lease, key: Key): Option<string> {
    if l.annotations.Some? && key in l.annotations.value then NonEmpty(Some(l.annotations.value[key])) else None
  }

  predicate Carries(l: Lease, uid: string) {
    l.annotations.Some? && TenantUidKey in l.annotations.value && l.annotations.value[TenantUidKey] == uid
  }

  /** The Leases of an inventory that carry a Tenant UID, in order. */
  function Carriers(leases: seq<Lease>, uid: string): (r: seq<Lease>) {
    if leases == [] then [] else
      (if Carries(leases[0], uid) then [leases[0]] else []) + Carriers(leases[1..], uid)
  }

  lemma {:induction false} CarriersMember(leases: seq<Lease>, uid: string, l: Lease)
    ensures l in Carriers(leases, uid) <==> l in leases && Carries(l, uid)
  {
    if leases != [] {
      CarriersMember(leases[1..], uid, l);
    }
  }

  function FindNamed(leases: seq<Lease>, name: string): (r: Option<Lease>)
    ensures r.Some? ==> r.value in leases && r.value.name == Some(name)
    ensures r.None? ==> forall l :: l in leases ==> l.name != Some(name)
  {
    if leases == [] then None
    else if leases[0].name == Some(name) then Some(leases[0])
    else FindNamed(leases[1..], name)
  }

  function FindSlot(lib: Lib, slots: seq<Slot>, name: Option<string>): (r: Option<Slot>)
    ensures r.Some? ==> r.value in slots && name == Some(LeaseName(lib, r.value.slotId))
  {
    if slots == [] then None
    else if name == Some(LeaseName(lib, slots[0].slotId)) then Some(slots[0])
    else FindSlot(lib, slots[1..], name)
  }

  predicate ValidAllocation(lib: Lib, a: Allocation) {
    && DnsLabel(a.slotId, 63)
    && lib.text.address(a.endpoint).Some?
    && IsPrefix(lib.text, a.podCidr) && IsPrefix(lib.text, a.serviceCidr)
  }

  /** Exactly the metadata the controller writes for this Tenant and slot, with an identity to delete by. */
  predicate BoundTo(lib: Lib, c: Context, a: Allocation, l: Lease) {
    && l.name == Some(LeaseName(lib, a.slotId)) && l.namespace == Some(c.namespace)
    && l.labels == Some(Labels(c, a)) && l.annotations == Some(Annotations(c, a))
    && l.owners == 0 && !l.deleting && l.emptySpec
    && HasId(l.uid) && HasId(l.version)
  }

  function ValidateClaim(lib: Lib, c: Context, a: Allocation, l: Lease): (r: Result<Intent, Error>)
    ensures r.Ok? <==> BoundTo(lib, c, a, l)
    ensures r.Ok? ==> r.value == Intent(NameOf(l), l.uid.value, l.version.value)
  {
    var name := LeaseName(lib, a.slotId);
    if || l.name != Some(name) || l.namespace != Some(c.namespace)
       || l.labels != Some(Labels(c, a)) || l.annotations != Some(Annotations(c, a))
       || l.owners > 0 || l.deleting || !l.emptySpec
    then Err(ClaimError(name))
    else if HasId(l.uid) && HasId(l.version) then
      Ok(Intent(name, l.uid.value, l.version.value))
    else Err(ClaimError(name))
  }

  function ClaimOf(lib: Lib, c: Context, s: Slot, l: Lease): (r: Result<Claim, Error>)
    ensures r.Ok? <==> BoundTo(lib, c, AllocationOf(s), l)
    ensures r.Ok? ==> r.value == Claim(s, l.uid.value, l.version.value)
  {
    var verified := ValidateClaim(lib, c, AllocationOf(s), l);
    if verified.Err? then Err(verified.error) else Ok(Claim(s, verified.value.uid, verified.value.version))
  }

  function AnnotatedAllocation(lib: Lib, l: Lease): Result<Allocation, Error> {
    var slot, endpoint := Annotation(l, SlotKey), Annotation(l, EndpointKey);
    var pod, service := Annotation(l, PodCidrKey), Annotation(l, ServiceCidrKey);
    if slot.None? || endpoint.None? || pod.None? || service.None? then Err(ClaimError(NameOf(l)))
    else
      var a := Allocation(slot.value, endpoint.value, pod.value, service.value);
      if ValidAllocation(lib, a) then Ok(a) else Err(ClaimError(NameOf(l)))
  }

  function RecoverAllocation(lib: Lib, c: Context, leases: seq<Lease>): Result<Option<Allocation>, Error> {
    if !ValidIdentity(c) then Err(InvalidPool)
    else
      var matching := Carriers(leases, c.tenantUid);
      if |matching| > 1 then Err(Duplicate)
      else if |matching| == 0 then Ok(None)
      else
        var allocation := AnnotatedAllocation(lib, matching[0]);
        if allocation.Err? then Err(allocation.error)
        else
          var verified := ValidateClaim(lib, c, allocation.value, matching[0]);
          if verified.Err? then Err(verified.error) else Ok(Some(allocation.value))
  }

  // ---- claiming ----------------------------------------------------------------------------

  function MatchFrom(lib: Lib, c: Context, leases: seq<Lease>, found: Option<(Lease, Slot)>)
    : Result<Option<(Lease, Slot)>, Error>
  {
    if leases == [] then Ok(found)
    else
      var l := leases[0];
      if Carries(l, c.tenantUid) then
        var slot := FindSlot(lib, c.slots, l.name);
        if slot.None? then Err(ClaimError(NameOf(l)))
        else
          var claim := ClaimOf(lib, c, slot.value, l);
          if claim.Err? then Err(claim.error)
          else MatchFrom(lib, c, leases[1..], Some((l, slot.value)))
      else if l.annotations.Some? && TenantKey in l.annotations.value
              && l.annotations.value[TenantKey] == c.tenantName then Err(NameHeld)
      else MatchFrom(lib, c, leases[1..], found)
  }

  function MatchingClaim(lib: Lib, c: Context, leases: seq<Lease>): Result<Option<(Lease, Slot)>, Error> {
    if |Carriers(leases, c.tenantUid)| > 1 then Err(Duplicate) else MatchFrom(lib, c, leases, None)
  }

  function FirstFree(lib: Lib, slots: seq<Slot>, leases: seq<Lease>): (r: Option<Slot>)
    ensures r.Some? ==> r.value in slots && FindNamed(leases, LeaseName(lib, r.value.slotId)).None?
  {
    if slots == [] then None
    else if FindNamed(leases, LeaseName(lib, slots[0].slotId)).None? then Some(slots[0])
    else FirstFree(lib, slots[1..], leases)
  }

  function DecideClaim(lib: Lib, c: Context, leases: seq<Lease>, bound: Option<Allocation>): Result<Decision, Error> {
    if !ValidContext(lib, c) then Err(InvalidPool)
    else
      var existing := MatchingClaim(lib, c, leases);
      if existing.Err? then Err(existing.error)
      else if bound.Some? && existing.value.None? then Err(Missing)
      else if bound.Some? && AllocationOf(existing.value.value.1) != bound.value then Err(StatusMismatch)
      else if existing.value.Some? then
        var claim := ClaimOf(lib, c, existing.value.value.1, existing.value.value.0);
        if claim.Err? then Err(claim.error) else Ok(Existing(claim.value))
      else
        var free := FirstFree(lib, c.slots, leases);
        if free.Some? then Ok(Create(free.value)) else Err(Exhausted)
  }

  // ---- releasing ---------------------------------------------------------------------------

  function ValidateSuccessor(lib: Lib, c: Context, l: Lease, leases: seq<Lease>, a: Allocation): Result<(), Error> {
    var rotated := c.ownershipLabel == CatalogUidKey;
    var prefix := if !rotated then Some(c.labPrefix)
                  else if l.labels.Some? && c.ownershipLabel in l.labels.value
                  then NonEmpty(Some(l.labels.value[c.ownershipLabel])) else None;
    var foundation := if rotated then Annotation(l, FoundationKey) else Some(c.foundationHash);
    var name, uid, spec := Annotation(l, TenantKey), Annotation(l, TenantUidKey), Annotation(l, SpecHashKey);
    if prefix.None? || foundation.None? || name.None? || uid.None? || spec.None? then Err(ClaimError(NameOf(l)))
    else
      var successor := c.(labPrefix := prefix.value, foundationHash := foundation.value,
                          tenantName := name.value, tenantUid := uid.value, specHash := spec.value);
      if !ValidIdentity(successor) then Err(InvalidPool)
      else if ValidateClaim(lib, successor, a, l).Err? then Err(ValidateClaim(lib, successor, a, l).error)
      else if |Carriers(leases, successor.tenantUid)| != 1 then Err(Duplicate)
      else Ok(())
  }

  /** Leases that hold the Tenant's name for another UID must be complete claims of a successor. */
  function ScanNameHolders(lib: Lib, c: Context, todo: seq<Lease>, leases: seq<Lease>, absent: bool)
    : Result<(), Error>
  {
    if todo == [] then Ok(())
    else
      var l := todo[0];
      if Annotation(l, TenantKey) == Some(c.tenantName) && Annotation(l, TenantUidKey) != Some(c.tenantUid) then
        if !absent then Err(NameHeld)
        else
          var allocation := AnnotatedAllocation(lib, l);
          if allocation.Err? then Err(allocation.error)
          else if ValidateSuccessor(lib, c, l, leases, allocation.value).Err? then
            ValidateSuccessor(lib, c, l, leases, allocation.value)
          else ScanNameHolders(lib, c, todo[1..], leases, absent)
      else ScanNameHolders(lib, c, todo[1..], leases, absent)
  }

  function DecideBoundRelease(lib: Lib, c: Context, leases: seq<Lease>, bound: Allocation,
                              existing: Option<Allocation>, absent: bool): Result<Release, Error>
  {
    if !ValidAllocation(lib, bound) then Err(StatusMismatch)
    else if existing.Some? && existing.value != bound then Err(StatusMismatch)
    else
      var expected := LeaseName(lib, bound.slotId);
      var named := FindNamed(leases, expected);
      if named.Some? then
        var l := named.value;
        if Annotation(l, TenantUidKey).None? then Err(ClaimError(expected))
        else if !Carries(l, c.tenantUid) && absent && existing.None? then
          var successor := if c.ownershipLabel == CatalogUidKey then AnnotatedAllocation(lib, l) else Ok(bound);
          if successor.Err? then Err(successor.error)
          else if ValidateSuccessor(lib, c, l, leases, successor.value).Err? then
            Err(ValidateSuccessor(lib, c, l, leases, successor.value).error)
          else Ok(Complete)
        else
          var verified := ValidateClaim(lib, c, bound, l);
          if verified.Err? then Err(verified.error)
          else if existing.None? then Err(StatusMismatch)
          else if !absent then Ok(Pending)
          else Ok(Delete(verified.value))
      else if existing.Some? then Err(StatusMismatch)
      else if absent then Ok(Complete)
      else Err(Missing)
  }

  function DecideRelease(lib: Lib, c: Context, leases: seq<Lease>, bound: Option<Allocation>, absent: bool)
    : Result<Release, Error>
  {
    if !ValidIdentity(c) then Err(InvalidPool)
    else
      var existing := RecoverAllocation(lib, c, leases);
      if existing.Err? then Err(existing.error)
      else
        var scan := ScanNameHolders(lib, c, leases, leases, absent);
        if scan.Err? then Err(scan.error)
        else if bound.Some? then DecideBoundRelease(lib, c, leases, bound.value, existing.value, absent)
        else if existing.value.Some? then
          var verified := ValidateClaim(lib, c, existing.value.value, Carriers(leases, c.tenantUid)[0]);
          if verified.Err? then Err(verified.error)
          else if absent then Ok(Delete(verified.value)) else Ok(Pending)
        else if absent then Ok(Complete)
        else Ok(Pending)
  }

  // ---- what the decisions mean -------------------------------------------------------------

  /** Lease metadata determines the Tenant and the slot it was written for. */
  lemma AnnotationsIdentify(c: Context, a: Allocation, d: Context, b: Allocation)
    requires Annotations(c, a) == Annotations(d, b)
    ensures a == b && c.tenantUid == d.tenantUid && c.tenantName == d.tenantName
  {
    var m, n := Annotations(c, a), Annotations(d, b);
    assert m[SlotKey] == n[SlotKey] && m[EndpointKey] == n[EndpointKey];
    assert m[PodCidrKey] == n[PodCidrKey] && m[ServiceCidrKey] == n[ServiceCidrKey];
    assert m[TenantUidKey] == n[TenantUidKey] && m[TenantKey] == n[TenantKey];
  }

  /** So do its labels: the owning installation, the slot and the Tenant's name. */
  lemma LabelsIdentify(c: Context, a: Allocation, d: Context, b: Allocation)
    requires c.ownershipLabel == d.ownershipLabel && ValidIdentity(c) && Labels(c, a) == Labels(d, b)
    ensures a.slotId == b.slotId && c.labPrefix == d.labPrefix && c.tenantName == d.tenantName
  {
    var m, n := Labels(c, a), Labels(d, b);
    assert m[SlotKey] == n[SlotKey] && m[TenantKey] == n[TenantKey] && m[c.ownershipLabel] == n[c.ownershipLabel];
  }

  /**
   * A Lease name says which kind of slot it is for, and two slots of a kind share a name exactly when their
   * digests agree in all the digits that fit into a label of 63 characters.
   */
  lemma LeaseNamesIdentify(lib: Lib, s: string, t: string)
    ensures |LeaseName(lib, s)| == 63
    ensures LeaseName(lib, s) == LeaseName(lib, t) <==>
              && ("azure-" <= s <==> "azure-" <= t)
              && forall i :: 0 <= i < (if "azure-" <= s then 45 else 51) ==> lib.digest(s)[i] == lib.digest(t)[i]
  {
    var m, n := LeaseName(lib, s), LeaseName(lib, t);
    var a, b := lib.digest(s), lib.digest(t);
    assert |"tenant-slot-"| == 12 && |"tenant-azure-slot-"| == 18;
    var k := if "azure-" <= s then 18 else 12;
    assert m[7] == (if "azure-" <= s then 'a' else 's') && n[7] == if "azure-" <= t then 'a' else 's';
    assert m[k..] == a[..63 - k];
    if m == n {
      forall i | 0 <= i < 63 - k ensures a[i] == b[i] {
        assert m[k..][i] == a[i] && n[k..][i] == b[i];
      }
    }
    if ("azure-" <= s <==> "azure-" <= t) && forall i :: 0 <= i < 63 - k ==> a[i] == b[i] {
      assert a[..63 - k] == b[..63 - k];
    }
  }

  lemma SoleCarrier(leases: seq<Lease>, uid: string, l: Lease)
    requires l in leases && Carries(l, uid) && |Carriers(leases, uid)| <= 1
    ensures Carriers(leases, uid) == [l]
  {
    CarriersMember(leases, uid, l);
  }

  lemma {:induction false} MatchFromMeaning(lib: Lib, c: Context, leases: seq<Lease>, found: Option<(Lease, Slot)>)
    requires MatchFrom(lib, c, leases, found).Ok?
    ensures var r := MatchFrom(lib, c, leases, found).value;
            if Carriers(leases, c.tenantUid) == [] then r == found
            else && r.Some? && r.value.0 in Carriers(leases, c.tenantUid) && r.value.1 in c.slots
                 && BoundTo(lib, c, AllocationOf(r.value.1), r.value.0)
  {
    if leases != [] {
      var l := leases[0];
      if Carries(l, c.tenantUid) {
        MatchFromMeaning(lib, c, leases[1..], Some((l, FindSlot(lib, c.slots, l.name).value)));
      } else {
        MatchFromMeaning(lib, c, leases[1..], found);
      }
    }
  }

  ghost predicate DistinctNames(lib: Lib, slots: seq<Slot>) {
    forall i, j :: 0 <= i < j < |slots| ==> LeaseName(lib, slots[i].slotId) != LeaseName(lib, slots[j].slotId)
  }

  lemma {:induction false} FindSlotAt(lib: Lib, slots: seq<Slot>, k: nat)
    requires k < |slots| && DistinctNames(lib, slots)
    ensures FindSlot(lib, slots, Some(LeaseName(lib, slots[k].slotId))) == Some(slots[k])
  {
    hide LeaseName;
    if k > 0 {
      assert forall i, j :: 0 <= i < j < |slots[1..]| ==>
        slots[1..][i] == slots[i + 1] && slots[1..][j] == slots[j + 1];
      FindSlotAt(lib, slots[1..], k - 1);
    }
  }

  /** The Tenant's own Lease is bound to a slot of the pool; no other Lease holds the Tenant's name. */
  ghost predicate Orderly(lib: Lib, c: Context, l: Lease) {
    if Carries(l, c.tenantUid) then exists s :: s in c.slots && BoundTo(lib, c, AllocationOf(s), l)
    else !(l.annotations.Some? && TenantKey in l.annotations.value && l.annotations.value[TenantKey] == c.tenantName)
  }

  lemma OrderlyCarrier(lib: Lib, c: Context, l: Lease)
    requires ValidContext(lib, c) && Carries(l, c.tenantUid)
    ensures Orderly(lib, c, l) <==> var slot := FindSlot(lib, c.slots, l.name);
                                    slot.Some? && ClaimOf(lib, c, slot.value, l).Ok?
  {
    assert DistinctNames(lib, c.slots);
    hide LeaseName, ValidContext, DistinctNames, ClaimOf;
    if Orderly(lib, c, l) {
      var s :| s in c.slots && BoundTo(lib, c, AllocationOf(s), l);
      var k :| 0 <= k < |c.slots| && c.slots[k] == s;
      FindSlotAt(lib, c.slots, k);
    }
  }

  lemma {:induction false} MatchFromOk(lib: Lib, c: Context, leases: seq<Lease>, found: Option<(Lease, Slot)>)
    requires ValidContext(lib, c)
    ensures MatchFrom(lib, c, leases, found).Ok? <==> forall l :: l in leases ==> Orderly(lib, c, l)
  {
    hide ValidContext, BoundTo, FindSlot, LeaseName;
    if leases != [] {
      var l := leases[0];
      assert leases == [l] + leases[1..];
      assert forall x :: x in leases <==> x == l || x in leases[1..];
      if Carries(l, c.tenantUid) {
        OrderlyCarrier(lib, c, l);
        var slot := FindSlot(lib, c.slots, l.name);
        if slot.Some? {
          MatchFromOk(lib, c, leases[1..], Some((l, slot.value)));
        }
      } else {
        MatchFromOk(lib, c, leases[1..], found);
        assert l in leases && (Orderly(lib, c, l) || !(forall x :: x in leases ==> Orderly(lib, c, x)));
      }
    }
  }

  /**
   * The scan is refused exactly when the UID has several Leases or some Lease is out of order. Otherwise it
   * finds nothing exactly when there is no carrier, and else the one carrier with the slot it is bound to.
   */
  lemma MatchingClaimMeaning(lib: Lib, c: Context, leases: seq<Lease>)
    requires ValidContext(lib, c)
    ensures var r := MatchingClaim(lib, c, leases);
            && (r.Ok? <==> |Carriers(leases, c.tenantUid)| <= 1 && forall l :: l in leases ==> Orderly(lib, c, l))
            && (r.Ok? ==> (r.value.None? <==> Carriers(leases, c.tenantUid) == []))
            && (r.Ok? && r.value.Some? ==>
                  && Carriers(leases, c.tenantUid) == [r.value.value.0] && r.value.value.1 in c.slots
                  && BoundTo(lib, c, AllocationOf(r.value.value.1), r.value.value.0))
  {
    hide ValidContext, BoundTo, LeaseName, Orderly, MatchFrom, Carries;
    MatchFromOk(lib, c, leases, None);
    if MatchingClaim(lib, c, leases).Ok? {
      MatchFromMeaning(lib, c, leases, None);
      var r := MatchingClaim(lib, c, leases).value;
      if r.Some? {
        CarriersMember(leases, c.tenantUid, r.value.0);
        SoleCarrier(leases, c.tenantUid, r.value.0);
      }
    }
  }

  lemma {:induction false} MatchNeverBlamesPool(lib: Lib, c: Context, leases: seq<Lease>, found: Option<(Lease, Slot)>)
    ensures MatchFrom(lib, c, leases, found) != Err(InvalidPool)
  {
    hide LeaseName;
    if leases != [] {
      var slot := FindSlot(lib, c.slots, leases[0].name);
      if Carries(leases[0], c.tenantUid) && slot.Some? {
        MatchNeverBlamesPool(lib, c, leases[1..], Some((leases[0], slot.value)));
      } else {
        MatchNeverBlamesPool(lib, c, leases[1..], found);
      }
    }
  }

  /** The pool is refused exactly for a malformed name, an empty identifier, a clashing label or an unusable slot. */
  lemma PoolRefusedIff(lib: Lib, c: Context, leases: seq<Lease>, bound: Option<Allocation>)
    ensures DecideClaim(lib, c, leases, bound) == Err(InvalidPool) <==>
            || !DnsLabel(c.namespace, 63) || !DnsLabel(c.tenantName, 30)
            || c.labPrefix == "" || c.tenantUid == "" || c.specHash == "" || c.foundationHash == ""
            || c.ownershipLabel == OtherKey("") || c.ownershipLabel == SlotKey || c.ownershipLabel == TenantKey
            || |c.slots| == 0 || (exists i :: 0 <= i < |c.slots| && !DnsLabel(c.slots[i].slotId, 63))
            || exists i, j :: 0 <= i < j < |c.slots|
                 && LeaseName(lib, c.slots[i].slotId) == LeaseName(lib, c.slots[j].slotId)
  {
    hide LeaseName, DnsLabel;
    assert !DnsLabel("", 63) && !DnsLabel("", 30) by {
      NoEmptyLabel();
    }
    MatchNeverBlamesPool(lib, c, leases, None);
  }

  lemma NoEmptyLabel()
    ensures !DnsLabel("", 63) && !DnsLabel("", 30)
  {
  }

  /** `l` is the only Lease of the inventory with the Tenant's UID, and it is exactly this claim. */
  ghost predicate ClaimWitness(lib: Lib, c: Context, leases: seq<Lease>, claim: Claim, l: Lease) {
    && Carriers(leases, c.tenantUid) == [l]
    && claim.slot in c.slots && BoundTo(lib, c, AllocationOf(claim.slot), l)
    && claim == Claim(claim.slot, l.uid.value, l.version.value)
  }

  /** A claim needs an inventory in which the Tenant UID occurs once, or not at all. */
  lemma ClaimDecisionMeaning(lib: Lib, c: Context, leases: seq<Lease>, bound: Option<Allocation>)
    requires DecideClaim(lib, c, leases, bound).Ok?
    ensures var d := DecideClaim(lib, c, leases, bound).value;
            if d.Existing? then exists l :: ClaimWitness(lib, c, leases, d.claim, l)
                                            && (bound.Some? ==> AllocationOf(d.claim.slot) == bound.value)
            else && bound.None? && Carriers(leases, c.tenantUid) == [] && d.slot in c.slots
                 && FindNamed(leases, LeaseName(lib, d.slot.slotId)).None?
  {
    MatchFromMeaning(lib, c, leases, None);
    var found := MatchingClaim(lib, c, leases).value;
    if found.Some? {
      CarriersMember(leases, c.tenantUid, found.value.0);
      SoleCarrier(leases, c.tenantUid, found.value.0);
      assert ClaimWitness(lib, c, leases, ClaimOf(lib, c, found.value.1, found.value.0).value, found.value.0);
    }
  }

  /** `l` is the only Lease of the inventory with the Tenant's UID, bound to `a` in every marker. */
  ghost predicate ReleaseWitness(lib: Lib, c: Context, leases: seq<Lease>, intent: Intent, a: Allocation, l: Lease) {
    && Carriers(leases, c.tenantUid) == [l]
    && BoundTo(lib, c, a, l) && ValidAllocation(lib, a)
    && intent == Intent(NameOf(l), l.uid.value, l.version.value)
  }

  lemma RecoverMeaning(lib: Lib, c: Context, leases: seq<Lease>)
    requires RecoverAllocation(lib, c, leases).Ok?
    ensures var r := RecoverAllocation(lib, c, leases).value;
            var carriers := Carriers(leases, c.tenantUid);
            if r.None? then carriers == []
            else && |carriers| == 1 && carriers[0] in leases && Carries(carriers[0], c.tenantUid)
                 && BoundTo(lib, c, r.value, carriers[0]) && ValidAllocation(lib, r.value)
  {
    hide ValidIdentity, ValidAllocation, BoundTo;
    var carriers := Carriers(leases, c.tenantUid);
    if carriers != [] {
      CarriersMember(leases, c.tenantUid, carriers[0]);
    }
  }

  lemma BoundReleaseMeaning(lib: Lib, c: Context, leases: seq<Lease>, bound: Allocation, absent: bool)
    requires RecoverAllocation(lib, c, leases).Ok?
    requires DecideBoundRelease(lib, c, leases, bound, RecoverAllocation(lib, c, leases).value, absent).Ok?
    ensures var d := DecideBoundRelease(lib, c, leases, bound, RecoverAllocation(lib, c, leases).value, absent).value;
            && (d.Pending? <==> !absent)
            && (d.Complete? <==> absent && Carriers(leases, c.tenantUid) == [])
            && (d.Delete? ==> exists l :: ReleaseWitness(lib, c, leases, d.intent, bound, l))
  {
    RecoverMeaning(lib, c, leases);
    hide RecoverAllocation, AnnotatedAllocation, ValidateSuccessor, ValidAllocation, Carriers, LeaseName;
    var d := DecideBoundRelease(lib, c, leases, bound, RecoverAllocation(lib, c, leases).value, absent).value;
    if d.Delete? {
      var named := FindNamed(leases, LeaseName(lib, bound.slotId)).value;
      assert Carries(named, c.tenantUid);
      SoleCarrier(leases, c.tenantUid, named);
      assert ReleaseWitness(lib, c, leases, d.intent, bound, named);
    }
  }

  /** The three outcomes are decided by the residue proof and the carriers alone. */
  lemma ReleaseDecisionMeaning(lib: Lib, c: Context, leases: seq<Lease>, bound: Option<Allocation>, absent: bool)
    requires DecideRelease(lib, c, leases, bound, absent).Ok?
    ensures var d := DecideRelease(lib, c, leases, bound, absent).value;
            && (d.Pending? <==> !absent)
            && (d.Complete? <==> absent && Carriers(leases, c.tenantUid) == [])
            && (d.Delete? ==> exists a, l :: ReleaseWitness(lib, c, leases, d.intent, a, l)
                                             && (bound.Some? ==> a == bound.value))
  {
    hide RecoverAllocation, ScanNameHolders, DecideBoundRelease, ValidAllocation, BoundTo, ValidIdentity;
    if bound.Some? {
      BoundReleaseMeaning(lib, c, leases, bound.value, absent);
    } else {
      RecoverMeaning(lib, c, leases);
      var d := DecideRelease(lib, c, leases, bound, absent).value;
      if d.Delete? {
        assert ReleaseWitness(lib, c, leases, d.intent, RecoverAllocation(lib, c, leases).value.value,
                              Carriers(leases, c.tenantUid)[0]);
      }
    }
  }

  /** `l` is a full claim of another context `d` of the same kind: of the same installation unless catalogs rotate. */
  ghost predicate SuccessorClaim(lib: Lib, c: Context, l: Lease, leases: seq<Lease>, a: Allocation, d: Context) {
    && d.namespace == c.namespace && d.ownershipLabel == c.ownershipLabel
    && (c.ownershipLabel != CatalogUidKey ==> d.labPrefix == c.labPrefix && d.foundationHash == c.foundationHash)
    && ValidIdentity(d) && BoundTo(lib, d, a, l) && |Carriers(leases, d.tenantUid)| == 1
  }

  /** What a claim's annotations and labels say, read back. */
  lemma ClaimReadBack(lib: Lib, d: Context, a: Allocation, l: Lease)
    requires ValidIdentity(d) && BoundTo(lib, d, a, l)
    ensures Annotation(l, TenantKey) == Some(d.tenantName) && Annotation(l, TenantUidKey) == Some(d.tenantUid)
    ensures Annotation(l, SpecHashKey) == Some(d.specHash) && Annotation(l, FoundationKey) == Some(d.foundationHash)
    ensures Annotation(l, ResourceKey) == Some("allocation-lease")
    ensures l.labels.Some? && d.ownershipLabel in l.labels.value && l.labels.value[d.ownershipLabel] == d.labPrefix
  {
  }

  /** A Lease is a claim exactly when it is, to the last field, what a creation stores under some identity. */
  lemma ClaimIsWhatWasCreated(lib: Lib, c: Context, s: Slot, l: Lease)
    ensures ValidateClaim(lib, c, AllocationOf(s), l).Ok? <==>
            exists uid: Id, version: Id :: uid != 0 && version != 0 && l == Stored(NewLease(lib, c, s), uid, version)
  {
    hide LeaseName, Labels, Annotations;
    if ValidateClaim(lib, c, AllocationOf(s), l).Ok? {
      assert l == Stored(NewLease(lib, c, s), l.uid.value, l.version.value);
    }
  }

  /** A Lease is accepted as a successor's exactly when it is a full claim, its owner's only one. */
  lemma SuccessorMeaning(lib: Lib, c: Context, l: Lease, leases: seq<Lease>, a: Allocation)
    ensures ValidateSuccessor(lib, c, l, leases, a).Ok? <==> exists d :: SuccessorClaim(lib, c, l, leases, a, d)
  {
    hide LeaseName;
    if ValidateSuccessor(lib, c, l, leases, a).Ok? {
      hide BoundTo, Carriers, ValidIdentity;
      var rotated := c.ownershipLabel == CatalogUidKey;
      var d := c.(labPrefix := if rotated then l.labels.value[c.ownershipLabel] else c.labPrefix,
                  foundationHash := if rotated then Annotation(l, FoundationKey).value else c.foundationHash,
                  tenantName := Annotation(l, TenantKey).value, tenantUid := Annotation(l, TenantUidKey).value,
                  specHash := Annotation(l, SpecHashKey).value);
      assert SuccessorClaim(lib, c, l, leases, a, d);
    }
    if d :| SuccessorClaim(lib, c, l, leases, a, d) {
      ClaimReadBack(lib, d, a, l);
      SameButSlots(lib, d, d.(slots := c.slots), a, l);
      hide BoundTo, Carriers, Annotation, ValidateClaim;
      assert d.(slots := c.slots) == c.(labPrefix := d.labPrefix, foundationHash := d.foundationHash,
                                        tenantName := d.tenantName, tenantUid := d.tenantUid, specHash := d.specHash);
    }
  }

  lemma SameButSlots(lib: Lib, d: Context, e: Context, a: Allocation, l: Lease)
    requires e == d.(slots := e.slots)
    ensures ValidIdentity(e) == ValidIdentity(d) && BoundTo(lib, e, a, l) == BoundTo(lib, d, a, l)
  {
  }

  /**
   * A Tenant without a Lease, its residue gone, whose recorded slot has a Lease of another Tenant: the release is
   * complete exactly when that Lease is the other Tenant's full and only claim. Otherwise it is refused.
   */
  lemma CompleteOverSuccessorIff(lib: Lib, c: Context, leases: seq<Lease>, bound: Allocation, l: Lease)
    requires ValidAllocation(lib, bound) && FindNamed(leases, LeaseName(lib, bound.slotId)) == Some(l)
    requires Annotation(l, TenantUidKey).Some? && !Carries(l, c.tenantUid)
    ensures var d := DecideBoundRelease(lib, c, leases, bound, None, true);
            && (d == Ok(Complete) <==>
                  exists e, a :: SuccessorClaim(lib, c, l, leases, a, e)
                    && if c.ownershipLabel == CatalogUidKey then AnnotatedAllocation(lib, l) == Ok(a) else a == bound)
            && (d.Ok? ==> d == Ok(Complete))
  {
    hide ValidAllocation, LeaseName, ValidateSuccessor, AnnotatedAllocation, SuccessorClaim, Annotation;
    var annotated := AnnotatedAllocation(lib, l);
    var a := if c.ownershipLabel != CatalogUidKey then bound else if annotated.Ok? then annotated.value else bound;
    SuccessorMeaning(lib, c, l, leases, a);
  }

  /** What is recovered depends on the carriers alone. */
  lemma RecoverByCarriers(lib: Lib, c: Context, a: seq<Lease>, b: seq<Lease>)
    requires Carriers(a, c.tenantUid) == Carriers(b, c.tenantUid)
    ensures RecoverAllocation(lib, c, a) == RecoverAllocation(lib, c, b)
  {
    hide Carriers, AnnotatedAllocation, ValidateClaim, ValidIdentity;
  }

  lemma OwnLeaseScans(lib: Lib, c: Context, l: Lease)
    requires Carries(l, c.tenantUid) && ValidIdentity(c)
    ensures ScanNameHolders(lib, c, [l], [l], true) == Ok(())
    ensures Carriers([l], c.tenantUid) == [l]
  {
    assert [l][1..] == [] && Annotation(l, TenantUidKey) == Some(c.tenantUid);
    hide AnnotatedAllocation, ValidateSuccessor;
  }

  lemma BoundReleaseOnOne(lib: Lib, c: Context, bound: Allocation, existing: Option<Allocation>, l: Lease)
    requires ValidAllocation(lib, bound) && BoundTo(lib, c, bound, l) && existing == Some(bound)
    requires Carries(l, c.tenantUid) && ValidIdentity(c)
    ensures DecideBoundRelease(lib, c, [l], bound, existing, true)
            == Ok(Delete(Intent(NameOf(l), l.uid.value, l.version.value)))
  {
    hide ValidAllocation, LeaseName, ValidateSuccessor, AnnotatedAllocation;
    assert FindNamed([l], LeaseName(lib, bound.slotId)) == Some(l);
  }

  lemma ReleaseExisting(lib: Lib, c: Context, leases: seq<Lease>, bound: Allocation)
    requires var d := DecideRelease(lib, c, leases, Some(bound), true); d.Ok? && d.value.Delete?
    ensures RecoverAllocation(lib, c, leases) == Ok(Some(bound))
  {
    hide RecoverAllocation, ScanNameHolders, ValidAllocation, LeaseName, ValidateSuccessor, AnnotatedAllocation,
      ValidIdentity;
  }

  /** Re-deciding on the one Lease to be deleted, read again unchanged, gives the same deletion. */
  lemma ReleaseDecisionOnOne(lib: Lib, c: Context, leases: seq<Lease>, bound: Option<Allocation>, l: Lease)
    requires var d := DecideRelease(lib, c, leases, bound, true); d.Ok? && d.value.Delete?
    requires Carriers(leases, c.tenantUid) == [l]
    ensures DecideRelease(lib, c, [l], bound, true) == DecideRelease(lib, c, leases, bound, true)
  {
    hide RecoverAllocation, ScanNameHolders, DecideBoundRelease, ValidAllocation, BoundTo, ValidIdentity,
      ValidateClaim, Carriers;
    ReleaseDecisionMeaning(lib, c, leases, bound, true);
    CarriersMember(leases, c.tenantUid, l);
    OwnLeaseScans(lib, c, l);
    RecoverByCarriers(lib, c, leases, [l]);
    if bound.Some? {
      ReleaseExisting(lib, c, leases, bound.value);
      BoundReleaseOnOne(lib, c, bound.value, Some(bound.value), l);
    }
  }

  lemma {:induction false} CarriersAppend(a: seq<Lease>, b: seq<Lease>, uid: string)
    ensures Carriers(a + b, uid) == Carriers(a, uid) + Carriers(b, uid)
  {
    if a == [] {
      assert a + b == b;
    } else {
      hide Carries;
      CarriersAppend(a[1..], b, uid);
      assert (a + b)[0] == a[0] && (a + b)[1..] == a[1..] + b;
      var head := if Carries(a[0], uid) then [a[0]] else [];
      assert head + (Carriers(a[1..], uid) + Carriers(b, uid)) == head + Carriers(a[1..], uid) + Carriers(b, uid);
    }
  }

  /** The empty text is neither an address nor a network. */
  predicate RejectsEmpty(lib: Lib) {
    lib.text.address("").None? && lib.text.net("").None?
  }

  lemma CreatedAllocation(lib: Lib, c: Context, s: Slot, uid: Id, version: Id)
    requires RejectsEmpty(lib)
    ensures AnnotatedAllocation(lib, Stored(NewLease(lib, c, s), uid, version)) ==
            if ValidAllocation(lib, AllocationOf(s)) then Ok(AllocationOf(s))
            else Err(ClaimError(LeaseName(lib, s.slotId)))
  {
    hide LeaseName, DnsLabel, IsPrefix, Labels;
    var created := Stored(NewLease(lib, c, s), uid, version);
    assert Annotation(created, SlotKey) == NonEmpty(Some(s.slotId));
    assert Annotation(created, EndpointKey) == NonEmpty(Some(s.endpoint));
    assert Annotation(created, PodCidrKey) == NonEmpty(Some(s.podCidr));
    assert Annotation(created, ServiceCidrKey) == NonEmpty(Some(s.serviceCidr));
    EmptyIsInvalid(lib);
  }

  lemma EmptyIsInvalid(lib: Lib)
    requires RejectsEmpty(lib)
    ensures !DnsLabel("", 63) && !IsPrefix(lib.text, "")
  {
  }

  /** Writing a claim and recovering it: the slot comes back exactly when it is a valid allocation. */
  lemma RecoverWhatWasCreated(lib: Lib, c: Context, s: Slot, uid: Id, version: Id,
                              before: seq<Lease>, after: seq<Lease>)
    requires RejectsEmpty(lib) && ValidIdentity(c) && uid != 0 && version != 0
    requires Carriers(before, c.tenantUid) == [] && Carriers(after, c.tenantUid) == []
    ensures var leases := before + [Stored(NewLease(lib, c, s), uid, version)] + after;
            RecoverAllocation(lib, c, leases) == Ok(Some(AllocationOf(s))) <==> ValidAllocation(lib, AllocationOf(s))
  {
    hide ValidIdentity, ValidAllocation, LeaseName, AnnotatedAllocation;
    var created := Stored(NewLease(lib, c, s), uid, version);
    CarriersAppend(before + [created], after, c.tenantUid);
    CarriersAppend(before, [created], c.tenantUid);
    assert Carries(created, c.tenantUid);
    assert Carriers([created], c.tenantUid) == [created];
    assert BoundTo(lib, c, AllocationOf(s), created);
    CreatedAllocation(lib, c, s, uid, version);
  }
}
