/** The patch document of section 2 of RFC 7396, and exactly when applying it yields the intended value. */
module MergePatch {

  /** The member names that occur in a Tenant status. */
  datatype Key =
    | ObservedGeneration | Phase | Conditions | DatabaseCapability | CatalogCreateIntent | Provider
    | Available | Reason | Namespace | NamespaceUid | CatalogUid | StorageNamespaceUid
    | Name | TenantUid
    | Type | AllocationKey | NetworkAllocation | FoundationHash | ClusterUid
    | SlotId | Endpoint | PodCidr | ServiceCidr

  datatype Json =
    Null | Text(text: string) | Number(n: int) | Bool(b: bool)
    | List(items: seq<Json>) | Members(members: map<Key, Json>)

  function Fields(j: Json): map<Key, Json> {
    if j.Members? then j.members else map[]
  }

  function Child(j: Json, k: Key): Json {
    if k in Fields(j) then Fields(j)[k] else Null
  }

  /** A member with a null value removes the member; other members are merged; anything else replaces. */
  function Apply(target: Json, patch: Json): Json
    decreases patch
  {
    if !patch.Members? then patch
    else Members(map k | k in Fields(target).Keys + patch.members.Keys
                 && !(k in patch.members && patch.members[k].Null?) ::
                   if k in patch.members then Apply(Child(target, k), patch.members[k]) else Fields(target)[k])
  }

  /** One member of the result. */
  lemma ApplyMember(target: Json, patch: Json, k: Key)
    requires patch.Members?
    ensures var result := Apply(target, patch);
            && result.Members?
            && (k in result.members <==> if k in patch.members then !patch.members[k].Null? else k in Fields(target))
            && (k in result.members ==>
                  result.members[k] == if k in patch.members then Apply(Child(target, k), patch.members[k])
                                       else Fields(target)[k])
  {
  }

  /** No member at any depth is null: what serialisation with skipped options produces. */
  predicate Full(j: Json)
    decreases j
  {
    j.Members? ==> forall k :: k in j.members ==> !j.members[k].Null? && Full(j.members[k])
  }

  /** Every member stored at any depth below a member of the intended value is intended too. */
  predicate Covered(stored: Json, intended: Json)
    decreases intended
  {
    intended.Members? ==>
      && (forall k :: k in Fields(stored) ==> k in intended.members)
      && forall k :: k in intended.members ==> Covered(Child(stored, k), intended.members[k])
  }

  /** Patching with a full value yields exactly that value if and only if nothing stored was dropped from it. */
  lemma {:induction false} ExactIffCovered(stored: Json, intended: Json)
    requires Full(intended)
    ensures Apply(stored, intended) == intended <==> Covered(stored, intended)
    decreases intended
  {
    if intended.Members? {
      forall k | k in intended.members
        ensures Apply(Child(stored, k), intended.members[k]) == intended.members[k]
                <==> Covered(Child(stored, k), intended.members[k])
      {
        ExactIffCovered(Child(stored, k), intended.members[k]);
      }
      var result := Apply(stored, intended).members;
      forall k | k in intended.members
        ensures k in result && result[k] == Apply(Child(stored, k), intended.members[k])
      {
      }
      if Covered(stored, intended) {
        assert result == intended.members;
      }
      if result == intended.members {
        forall k | k in Fields(stored) ensures k in intended.members {
          assert k !in intended.members ==> k in result;
        }
        forall k | k in intended.members ensures Covered(Child(stored, k), intended.members[k]) {
          assert result[k] == intended.members[k];
        }
      }
    }
  }
}

/** controller/src/status.rs: publishing a Local Tenant's status as a merge patch. */
module StatusPatch {
  import opened Base
  import opened MergePatch
  import Leases
  import TenantStatus

  type Allocation = Leases.Allocation

  type Capability = TenantStatus.Capability

  type Intent = TenantStatus.Intent

  datatype Local = Local(allocation: Option<Allocation>, foundationHash: Option<string>, clusterUid: Option<string>)

  datatype Status = Status(observedGeneration: Option<int>, phase: Option<string>, conditions: seq<Json>,
                           capability: Option<Capability>, intent: Option<Intent>, provider: Option<Local>)

  // ---- serialisation: a member only for what is present -------------------------------------

  function Texts(v: Option<string>): Option<Json> {
    if v.Some? then Some(Text(v.value)) else None
  }

  function AllocationJson(a: Allocation): Json {
    Members(map[SlotId := Text(a.slotId), Endpoint := Text(a.endpoint), PodCidr := Text(a.podCidr),
                ServiceCidr := Text(a.serviceCidr)])
  }

  function IntentJson(i: Intent): Json {
    Members(map[Namespace := Text(i.namespace), Name := Text(i.name), TenantUid := Text(i.tenantUid)])
  }

  function CapabilityJson(c: Capability): Json {
    var always := map[Available := Bool(c.available), Reason := Text(c.reason), Namespace := Text(c.namespace),
                      NamespaceUid := Text(c.namespaceUid), CatalogUid := Text(c.catalogUid)];
    Members(if c.storageNamespaceUid.Some? then always[StorageNamespaceUid := Text(c.storageNamespaceUid.value)]
            else always)
  }

  function LocalField(l: Local, k: Key): Option<Json> {
    match k
    case Type => Some(Text("local"))
    case AllocationKey => if l.allocation.Some? then Some(AllocationJson(l.allocation.value)) else None
    case FoundationHash => Texts(l.foundationHash)
    case ClusterUid => Texts(l.clusterUid)
    case _ => None
  }

  const LOCAL_KEYS := {Type, AllocationKey, FoundationHash, ClusterUid}

  function LocalJson(l: Local): (j: Json)
    ensures j.Members?
  {
    Members(map k | k in LOCAL_KEYS && LocalField(l, k).Some? :: LocalField(l, k).value)
  }

  function StatusField(s: Status, k: Key): Option<Json> {
    match k
    case ObservedGeneration => if s.observedGeneration.Some? then Some(Number(s.observedGeneration.value)) else None
    case Phase => Texts(s.phase)
    case Conditions => if s.conditions != [] then Some(List(s.conditions)) else None
    case DatabaseCapability => if s.capability.Some? then Some(CapabilityJson(s.capability.value)) else None
    case CatalogCreateIntent => if s.intent.Some? then Some(IntentJson(s.intent.value)) else None
    case Provider => if s.provider.Some? then Some(LocalJson(s.provider.value)) else None
    case _ => None
  }

  const STATUS_KEYS := {ObservedGeneration, Phase, Conditions, DatabaseCapability, CatalogCreateIntent, Provider}

  function StatusJson(s: Status): (j: Json)
    ensures j.Members?
  {
    Members(map k | k in STATUS_KEYS && StatusField(s, k).Some? :: StatusField(s, k).value)
  }

  // ---- and back ----------------------------------------------------------------------------

  function TextAt(j: Json, k: Key): Option<string> {
    if Child(j, k).Text? then Some(Child(j, k).text) else None
  }

  function TextOr(j: Json, k: Key): string {
    if Child(j, k).Text? then Child(j, k).text else ""
  }

  function AllocationFrom(j: Json): Allocation {
    Leases.Allocation(TextOr(j, SlotId), TextOr(j, Endpoint), TextOr(j, PodCidr), TextOr(j, ServiceCidr))
  }

  function IntentFrom(j: Json): Intent {
    TenantStatus.Intent(TextOr(j, Namespace), TextOr(j, Name), TextOr(j, TenantUid))
  }

  function CapabilityFrom(j: Json): Capability {
    TenantStatus.Capability(Child(j, Available) == Bool(true), TextOr(j, Reason), TextOr(j, Namespace),
                            TextOr(j, NamespaceUid), TextOr(j, CatalogUid), TextAt(j, StorageNamespaceUid))
  }

  function LocalFrom(j: Json): Local {
    Local(if AllocationKey in Fields(j) then Some(AllocationFrom(Fields(j)[AllocationKey])) else None,
          TextAt(j, FoundationHash), TextAt(j, ClusterUid))
  }

  function StatusFrom(j: Json): Status {
    Status(if Child(j, ObservedGeneration).Number? then Some(Child(j, ObservedGeneration).n) else None,
           TextAt(j, Phase), if Child(j, Conditions).List? then Child(j, Conditions).items else [],
           if DatabaseCapability in Fields(j) then Some(CapabilityFrom(Fields(j)[DatabaseCapability])) else None,
           if CatalogCreateIntent in Fields(j) then Some(IntentFrom(Fields(j)[CatalogCreateIntent])) else None,
           if Provider in Fields(j) then Some(LocalFrom(Fields(j)[Provider])) else None)
  }

  lemma PartsReadBack(a: Allocation, i: Intent, c: Capability)
    ensures AllocationFrom(AllocationJson(a)) == a && IntentFrom(IntentJson(i)) == i
    ensures CapabilityFrom(CapabilityJson(c)) == c
  {
  }

  lemma LocalTextReadsBack(l: Local, k: Key)
    requires k == FoundationHash || k == ClusterUid
    ensures TextAt(LocalJson(l), k) == if k == FoundationHash then l.foundationHash else l.clusterUid
  {
    hide LocalJson, AllocationJson, Child;
    LocalMember(l, k);
  }

  lemma LocalAllocationReadsBack(l: Local)
    ensures l.allocation == if AllocationKey in Fields(LocalJson(l))
                            then Some(AllocationFrom(Fields(LocalJson(l))[AllocationKey])) else None
  {
    hide LocalJson, AllocationJson, AllocationFrom;
    LocalMember(l, AllocationKey);
    if l.allocation.Some? {
      PartsReadBack(l.allocation.value, TenantStatus.Intent("", "", ""), TenantStatus.NO_CAPABILITY);
    }
  }

  lemma LocalReadsBack(l: Local)
    ensures LocalFrom(LocalJson(l)) == l && Child(LocalJson(l), Type) == Text("local")
  {
    hide LocalJson, AllocationJson, AllocationFrom, TextAt;
    LocalTextReadsBack(l, FoundationHash);
    LocalTextReadsBack(l, ClusterUid);
    LocalAllocationReadsBack(l);
    LocalMember(l, Type);
  }

  /** Nothing of a status is lost or mixed up in the document that is sent. */
  lemma StatusReadsBack(s: Status)
    ensures StatusFrom(StatusJson(s)) == s
  {
    hide StatusJson, LocalJson, IntentJson, CapabilityJson, LocalFrom, IntentFrom, CapabilityFrom;
    StatusMember(s, ObservedGeneration);
    StatusMember(s, Phase);
    StatusMember(s, Conditions);
    StatusMember(s, DatabaseCapability);
    StatusMember(s, CatalogCreateIntent);
    StatusMember(s, Provider);
    if s.provider.Some? {
      LocalReadsBack(s.provider.value);
    }
    if s.intent.Some? {
      PartsReadBack(Leases.Allocation("", "", "", ""), s.intent.value, TenantStatus.NO_CAPABILITY);
    }
    if s.capability.Some? {
      PartsReadBack(Leases.Allocation("", "", "", ""), TenantStatus.Intent("", "", ""), s.capability.value);
    }
  }

  // ---- growing a status --------------------------------------------------------------------

  predicate Stays<T>(before: Option<T>, after: Option<T>) {
    before.Some? ==> after.Some?
  }

  predicate LocalGrows(before: Local, after: Local) {
    && Stays(before.allocation, after.allocation) && Stays(before.foundationHash, after.foundationHash)
    && Stays(before.clusterUid, after.clusterUid)
  }

  /** Fields are added or overwritten, none is dropped, at any depth. */
  predicate Grows(before: Status, after: Status) {
    && Stays(before.observedGeneration, after.observedGeneration) && Stays(before.phase, after.phase)
    && (before.conditions != [] ==> after.conditions != [])
    && Stays(before.capability, after.capability) && Stays(before.intent, after.intent)
    && Stays(before.provider, after.provider)
    && (before.capability.Some? ==>
          Stays(before.capability.value.storageNamespaceUid, after.capability.value.storageNamespaceUid))
    && (before.provider.Some? ==> LocalGrows(before.provider.value, after.provider.value))
  }

  lemma FullParts(s: Status)
    ensures s.capability.Some? ==> Full(CapabilityJson(s.capability.value))
    ensures s.intent.Some? ==> Full(IntentJson(s.intent.value))
    ensures s.provider.Some? ==> Full(LocalJson(s.provider.value))
  {
    if s.provider.Some? {
      var l := LocalJson(s.provider.value);
      forall k | k in l.members ensures !l.members[k].Null? && Full(l.members[k]) {
      }
    }
  }

  lemma StatusIsFull(s: Status)
    ensures Full(StatusJson(s))
  {
    FullParts(s);
    var j := StatusJson(s);
    forall k | k in j.members ensures !j.members[k].Null? && Full(j.members[k]) {
    }
  }

  lemma {:induction false} AbsentCovered(j: Json)
    ensures Covered(Null, j)
    decreases j
  {
    if j.Members? {
      forall k | k in j.members ensures Covered(Child(Null, k), j.members[k]) {
        AbsentCovered(j.members[k]);
      }
    }
  }

  /** Two objects whose members hold no objects: only the member names matter. */
  lemma FlatCovered(stored: Json, intended: Json)
    requires stored.Members? && intended.Members? && forall k :: k in intended.members ==> !intended.members[k].Members?
    ensures Covered(stored, intended) <==> stored.members.Keys <= intended.members.Keys
  {
  }

  lemma AllocationCovered(a: Allocation, b: Allocation)
    ensures Covered(AllocationJson(a), AllocationJson(b))
  {
    FlatCovered(AllocationJson(a), AllocationJson(b));
  }

  lemma IntentCovered(a: Intent, b: Intent)
    ensures Covered(IntentJson(a), IntentJson(b))
  {
    FlatCovered(IntentJson(a), IntentJson(b));
  }

  lemma CapabilityCovered(a: Capability, b: Capability)
    ensures Covered(CapabilityJson(a), CapabilityJson(b)) <==> Stays(a.storageNamespaceUid, b.storageNamespaceUid)
  {
    FlatCovered(CapabilityJson(a), CapabilityJson(b));
    assert StorageNamespaceUid in CapabilityJson(a).members <==> a.storageNamespaceUid.Some?;
    assert StorageNamespaceUid in CapabilityJson(b).members <==> b.storageNamespaceUid.Some?;
  }

  lemma LocalMember(l: Local, k: Key)
    ensures k in LocalJson(l).members <==> LocalField(l, k).Some?
    ensures LocalField(l, k).Some? ==> LocalJson(l).members[k] == LocalField(l, k).value == Child(LocalJson(l), k)
    ensures LocalField(l, k).None? ==> Child(LocalJson(l), k) == Null
  {
  }

  lemma LocalChildCovered(before: Local, after: Local, k: Key)
    requires LocalField(after, k).Some?
    ensures Covered(Child(LocalJson(before), k), LocalField(after, k).value)
  {
    hide LocalJson, AllocationJson, Child, Covered;
    LocalMember(before, k);
    if k == AllocationKey {
      if before.allocation.Some? {
        AllocationCovered(before.allocation.value, after.allocation.value);
      } else {
        AbsentCovered(AllocationJson(after.allocation.value));
      }
    } else {
      PlainCovered(Child(LocalJson(before), k), LocalField(after, k).value);
    }
  }

  lemma PlainCovered(stored: Json, intended: Json)
    requires !intended.Members?
    ensures Covered(stored, intended)
  {
  }

  lemma LocalCovered(before: Local, after: Local)
    ensures Covered(LocalJson(before), LocalJson(after)) <==> LocalGrows(before, after)
  {
    hide LocalJson, AllocationJson;
    forall k
      ensures k in LocalJson(before).members <==> LocalField(before, k).Some?
      ensures k in LocalJson(after).members <==> LocalField(after, k).Some?
    {
      LocalMember(before, k);
      LocalMember(after, k);
    }
    forall k | k in LocalJson(after).members
      ensures Covered(Child(LocalJson(before), k), LocalJson(after).members[k])
    {
      LocalMember(after, k);
      LocalChildCovered(before, after, k);
    }
    LocalKeysGrow(before, after);
  }

  lemma LocalKeysGrow(before: Local, after: Local)
    ensures LocalGrows(before, after) <==> forall k :: LocalField(before, k).Some? ==> LocalField(after, k).Some?
  {
    if forall k :: LocalField(before, k).Some? ==> LocalField(after, k).Some? {
      assert LocalField(before, AllocationKey).Some? ==> LocalField(after, AllocationKey).Some?;
      assert LocalField(before, FoundationHash).Some? ==> LocalField(after, FoundationHash).Some?;
      assert LocalField(before, ClusterUid).Some? ==> LocalField(after, ClusterUid).Some?;
    }
  }

  lemma StatusMember(s: Status, k: Key)
    ensures k in StatusJson(s).members <==> StatusField(s, k).Some?
    ensures StatusField(s, k).Some? ==> StatusJson(s).members[k] == StatusField(s, k).value == Child(StatusJson(s), k)
    ensures StatusField(s, k).None? ==> Child(StatusJson(s), k) == Null
  {
  }

  /** Whether one member of the status keeps what is stored under it. */
  predicate PartGrows(before: Status, after: Status, k: Key) {
    match k
    case DatabaseCapability =>
      before.capability.Some? && after.capability.Some? ==>
        Stays(before.capability.value.storageNamespaceUid, after.capability.value.storageNamespaceUid)
    case Provider =>
      before.provider.Some? && after.provider.Some? ==> LocalGrows(before.provider.value, after.provider.value)
    case _ => true
  }

  lemma StatusChildCovered(before: Status, after: Status, k: Key)
    requires StatusField(after, k).Some?
    ensures Covered(Child(StatusJson(before), k), StatusField(after, k).value) <==> PartGrows(before, after, k)
  {
    hide StatusJson, LocalJson, CapabilityJson, IntentJson, Child, Covered, LocalGrows;
    StatusMember(before, k);
    if StatusField(before, k).None? {
      AbsentCovered(StatusField(after, k).value);
    } else if k == DatabaseCapability {
      CapabilityCovered(before.capability.value, after.capability.value);
    } else if k == CatalogCreateIntent {
      IntentCovered(before.intent.value, after.intent.value);
    } else if k == Provider {
      LocalCovered(before.provider.value, after.provider.value);
    } else {
      PlainCovered(Child(StatusJson(before), k), StatusField(after, k).value);
    }
  }

  lemma StatusKeysGrow(before: Status, after: Status)
    ensures Grows(before, after) <==>
            forall k :: (StatusField(before, k).Some? ==> StatusField(after, k).Some?)
                        && (StatusField(after, k).Some? ==> PartGrows(before, after, k))
  {
    hide LocalJson, CapabilityJson, IntentJson, LocalGrows;
    if forall k :: (StatusField(before, k).Some? ==> StatusField(after, k).Some?)
                   && (StatusField(after, k).Some? ==> PartGrows(before, after, k)) {
      assert StatusField(before, ObservedGeneration).Some? ==> StatusField(after, ObservedGeneration).Some?;
      assert StatusField(before, Phase).Some? ==> StatusField(after, Phase).Some?;
      assert StatusField(before, Conditions).Some? ==> StatusField(after, Conditions).Some?;
      assert StatusField(before, DatabaseCapability).Some? ==> StatusField(after, DatabaseCapability).Some?;
      assert StatusField(before, CatalogCreateIntent).Some? ==> StatusField(after, CatalogCreateIntent).Some?;
      assert StatusField(before, Provider).Some? ==> StatusField(after, Provider).Some?;
    }
  }

  lemma StatusCovered(before: Status, after: Status)
    ensures Covered(StatusJson(before), StatusJson(after)) <==> Grows(before, after)
  {
    hide StatusJson, PartGrows, Grows, StatusField, Child;
    forall k
      ensures k in StatusJson(before).members <==> StatusField(before, k).Some?
      ensures k in StatusJson(after).members <==> StatusField(after, k).Some?
    {
      StatusMember(before, k);
      StatusMember(after, k);
    }
    forall k | k in StatusJson(after).members
      ensures Covered(Child(StatusJson(before), k), StatusJson(after).members[k]) <==> PartGrows(before, after, k)
    {
      StatusMember(after, k);
      StatusChildCovered(before, after, k);
    }
    StatusKeysGrow(before, after);
  }

  /** Publishing a status stores exactly that status if and only if it drops no stored field. */
  lemma PublishedExactlyIffGrown(before: Status, after: Status)
    ensures Apply(StatusJson(before), StatusJson(after)) == StatusJson(after) <==> Grows(before, after)
  {
    hide Apply, Covered, Full, StatusJson, Grows;
    StatusIsFull(after);
    ExactIffCovered(StatusJson(before), StatusJson(after));
    StatusCovered(before, after);
  }

  // ---- clearing the allocation -------------------------------------------------------------

  /** The patch with the two explicit nulls; indexing creates the provider object where there is none. */
  function Nulled(patch: Json): Json {
    var provider := Fields(Child(patch, Provider));
    Members(Fields(patch)[Provider := Members(provider[AllocationKey := Null][NetworkAllocation := Null])])
  }

  /** The stored value without the two members that the nulls remove. */
  function Dropped(stored: Json): Json {
    if Child(stored, Provider).Members?
    then
      var provider := Fields(Child(stored, Provider)) - {AllocationKey, NetworkAllocation};
      Members(Fields(stored)[Provider := Members(provider)])
    else stored
  }

  function Cleared(s: Status): Status {
    if s.provider.Some? then s.(provider := Some(s.provider.value.(allocation := None))) else s
  }

  lemma InnerNulls(target: Json, members: map<Key, Json>)
    requires AllocationKey !in members && NetworkAllocation !in members
    ensures Apply(target, Members(members[AllocationKey := Null][NetworkAllocation := Null]))
            == Apply(if target.Members? then Members(target.members - {AllocationKey, NetworkAllocation}) else target,
                     Members(members))
  {
    hide Apply;
    var nulls := members[AllocationKey := Null][NetworkAllocation := Null];
    var less := if target.Members? then Members(target.members - {AllocationKey, NetworkAllocation}) else target;
    ApplyMember(target, Members(nulls), AllocationKey);
    ApplyMember(less, Members(members), AllocationKey);
    var a, b := Apply(target, Members(nulls)).members, Apply(less, Members(members)).members;
    forall k ensures (k in a <==> k in b) && (k in a ==> a[k] == b[k]) {
      ApplyMember(target, Members(nulls), k);
      ApplyMember(less, Members(members), k);
    }
    assert a == b;
  }

  /** The two nulls act as if their members had not been stored. */
  lemma NullsDrop(stored: Json, patch: Json)
    requires stored.Members? && patch.Members? && Child(patch, Provider).Members?
    requires AllocationKey !in Fields(Child(patch, Provider)) && NetworkAllocation !in Fields(Child(patch, Provider))
    ensures Apply(stored, Nulled(patch)) == Apply(Dropped(stored), patch)
  {
    InnerNulls(Child(stored, Provider), Fields(Child(patch, Provider)));
    hide Apply;
    ApplyMember(stored, Nulled(patch), Provider);
    ApplyMember(Dropped(stored), patch, Provider);
    var a, b := Apply(stored, Nulled(patch)).members, Apply(Dropped(stored), patch).members;
    forall k ensures (k in a <==> k in b) && (k in a ==> a[k] == b[k]) {
      ApplyMember(stored, Nulled(patch), k);
      ApplyMember(Dropped(stored), patch, k);
    }
    assert a == b;
  }

  lemma DroppedIsCleared(s: Status)
    ensures Dropped(StatusJson(s)) == StatusJson(Cleared(s))
  {
    hide AllocationJson, CapabilityJson, IntentJson;
    StatusMember(s, Provider);
    if s.provider.Some? {
      LocalDropped(s.provider.value);
      hide LocalJson;
      var a, b := Dropped(StatusJson(s)).members, StatusJson(Cleared(s)).members;
      forall k ensures (k in a <==> k in b) && (k in a ==> a[k] == b[k]) {
        StatusMember(s, k);
        StatusMember(Cleared(s), k);
      }
      assert a == b;
    }
  }

  lemma LocalDropped(l: Local)
    ensures Members(LocalJson(l).members - {AllocationKey, NetworkAllocation}) == LocalJson(l.(allocation := None))
  {
    hide AllocationJson;
    var a, b := LocalJson(l).members - {AllocationKey, NetworkAllocation}, LocalJson(l.(allocation := None)).members;
    forall k ensures (k in a <==> k in b) && (k in a ==> a[k] == b[k]) {
    }
    assert a == b;
  }

  /** Why the nulls must meet a provider object without an allocation: they always take both members away. */
  lemma NulledProvider(stored: Json, patch: Json)
    requires patch.Members?
    ensures var result := Apply(stored, Nulled(patch));
            result.Members? && Provider in result.members && AllocationKey !in Fields(result.members[Provider])
  {
    assert Nulled(patch).members[Provider].members[AllocationKey] == Null;
  }

  /**
   * With the explicit nulls the stored status becomes the intended one if and only if the intended
   * one has a provider without an allocation and drops nothing else.
   */
  lemma ClearedExactlyIff(before: Status, after: Status)
    ensures Apply(StatusJson(before), Nulled(StatusJson(after))) == StatusJson(after)
            <==> after.provider.Some? && after.provider.value.allocation.None? && Grows(Cleared(before), after)
  {
    hide Apply, Covered, Full, Grows, Nulled, Dropped, LocalJson, StatusJson;
    NulledProvider(StatusJson(before), StatusJson(after));
    StatusMember(after, Provider);
    if after.provider.Some? {
      LocalMember(after.provider.value, AllocationKey);
      LocalMember(after.provider.value, NetworkAllocation);
      if after.provider.value.allocation.None? {
        NullsDrop(StatusJson(before), StatusJson(after));
        DroppedIsCleared(before);
        PublishedExactlyIffGrown(Cleared(before), after);
      }
    }
  }

  /** Teardown clears an allocation that is stored: the nulls make the result exact, and nothing else would. */
  lemma NullsAreNeeded(before: Status)
    requires before.provider.Some? && before.provider.value.allocation.Some?
    ensures Apply(StatusJson(before), Nulled(StatusJson(Cleared(before)))) == StatusJson(Cleared(before))
    ensures Apply(StatusJson(before), StatusJson(Cleared(before))) != StatusJson(Cleared(before))
  {
    hide Apply, Nulled, StatusJson;
    ClearedExactlyIff(before, Cleared(before));
    PublishedExactlyIffGrown(before, Cleared(before));
  }
}
