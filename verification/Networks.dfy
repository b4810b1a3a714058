/** Slot pools and the two network validators that admit them. */
module Slots {
  import opened Base
  import opened Ipv4

  /** One allocatable slot: an endpoint and the two networks that go with it. */
  datatype Slot = Slot(slotId: string, vipOrdinal: nat, endpoint: string, podCidr: string, serviceCidr: string)

  /** The text formats of the libraries: parsing stays uninterpreted. */
  datatype Text = Text(net: string -> Option<Net>, address: string -> Option<nat>)

  /** A network in canonical spelling, which is what `prefix` and `network` accept. */
  predicate IsPrefix(t: Text, value: string) {
    t.net(value).Some? && Canonical(t.net(value).value)
  }

  function NetOf(t: Text, value: string): Net {
    if t.net(value).Some? then t.net(value).value else Net(0, 0)
  }

  function NetsOf(t: Text, values: seq<string>): (nets: seq<Net>)
    ensures |nets| == |values|
    ensures forall i :: 0 <= i < |nets| ==> nets[i] == NetOf(t, values[i])
  {
    seq(|values|, i requires 0 <= i < |values| => NetOf(t, values[i]))
  }

  predicate AllPrefixes(t: Text, values: seq<string>) {
    forall i :: 0 <= i < |values| ==> IsPrefix(t, values[i])
  }

  /** Pod and service CIDRs of a pool in the order the validators visit them. */
  function CidrTexts(slots: seq<Slot>): (texts: seq<string>)
    ensures |texts| == 2 * |slots|
    ensures forall i :: 0 <= i < |slots| ==>
            texts[2 * i] == slots[i].podCidr && texts[2 * i + 1] == slots[i].serviceCidr
  {
    if slots == [] then [] else
      var last := slots[|slots| - 1];
      CidrTexts(slots[..|slots| - 1]) + [last.podCidr, last.serviceCidr]
  }

  lemma CidrTextsGrow(slots: seq<Slot>, i: nat)
    requires i < |slots|
    ensures CidrTexts(slots[..i + 1]) == CidrTexts(slots[..i]) + [slots[i].podCidr, slots[i].serviceCidr]
  {
    assert slots[..i + 1][..i] == slots[..i];
  }

  lemma {:induction false} CidrTextsPrefix(slots: seq<Slot>, i: nat)
    requires i <= |slots|
    ensures CidrTexts(slots[..i]) <= CidrTexts(slots)
  {
    if i == |slots| {
      assert slots[..i] == slots;
    } else {
      CidrTextsPrefix(slots[..|slots| - 1], i);
      assert slots[..|slots| - 1][..i] == slots[..i];
    }
  }

  /** A shorter list of networks inherits pairwise disjointness. */
  lemma PrefixOfNets(t: Text, first: seq<Net>, shorter: seq<string>, longer: seq<string>)
    requires shorter <= longer && PairwiseDisjoint(first + NetsOf(t, longer))
    ensures PairwiseDisjoint(first + NetsOf(t, shorter))
  {
    hide Disjoint;
    var a, b := first + NetsOf(t, shorter), first + NetsOf(t, longer);
    assert forall i :: 0 <= i < |a| ==> a[i] == b[i];
  }
}

/** controller/src/foundation.rs: the network and slot part of `validate_creation`. */
module Foundation {
  import opened Base
  import Blocks
  import opened Ipv4
  import opened Slots

  datatype Networks = Networks(subnet: string, reservedCidrs: seq<string>, allowedSubnets: seq<string>,
                               slots: seq<Slot>)

  datatype Reason =
    | NotPrefix(value: string)
    | DuplicateCidr(value: string)
    | ReservedOverlap
    | AllowedOmitsSubnet
    | NoSlots
    | SlotIdentity
    | NotEndpoint
    | EndpointPlacement
    | SlotOverlap(value: string)

  predicate SlotId(id: string) {
    && 0 < |id| <= 63
    && Lower(id[0])
    && (Lower(id[|id| - 1]) || Digit(id[|id| - 1]))
    && forall i :: 0 <= i < |id| ==> Lower(id[i]) || Digit(id[i]) || id[i] == '-'
  }

  function EndpointOf(t: Text, s: Slot): nat {
    if t.address(s.endpoint).Some? then t.address(s.endpoint).value else 0
  }

  /** Reserved networks, then the management subnet, then every slot network. */
  function AllNets(t: Text, f: Networks): seq<Net> {
    NetsOf(t, f.reservedCidrs) + [NetOf(t, f.subnet)] + NetsOf(t, CidrTexts(f.slots))
  }

  ghost predicate SlotAccepted(t: Text, f: Networks, s: Slot) {
    && SlotId(s.slotId)
    && t.address(s.endpoint).Some?
    && Contains(NetOf(t, f.subnet), EndpointOf(t, s))
    && (forall r :: 0 <= r < |f.reservedCidrs| ==> !Contains(NetOf(t, f.reservedCidrs[r]), EndpointOf(t, s)))
    && IsPrefix(t, s.podCidr) && IsPrefix(t, s.serviceCidr)
  }

  ghost predicate SlotsAccepted(t: Text, f: Networks, slots: seq<Slot>) {
    && (forall i :: 0 <= i < |slots| ==> SlotAccepted(t, f, slots[i]))
    && (forall i, j :: 0 <= i < j < |slots| ==>
          && slots[i].slotId != slots[j].slotId
          && slots[i].vipOrdinal != slots[j].vipOrdinal
          && EndpointOf(t, slots[i]) != EndpointOf(t, slots[j]))
  }

  /** What an accepted foundation promises, without any order of checking. */
  ghost predicate Accepts(t: Text, f: Networks) {
    && IsPrefix(t, f.subnet)
    && AllPrefixes(t, f.reservedCidrs)
    && AllPrefixes(t, f.allowedSubnets) && Distinct(NetsOf(t, f.allowedSubnets))
    && NetOf(t, f.subnet) in NetsOf(t, f.allowedSubnets)
    && f.slots != [] && SlotsAccepted(t, f, f.slots)
    && PairwiseDisjoint(AllNets(t, f))
  }

  function Prefix(t: Text, value: string): Result<Net, Reason> {
    if t.net(value).Some? && Canonical(t.net(value).value) then Ok(t.net(value).value) else Err(NotPrefix(value))
  }

  /** A text is accepted exactly when its size divides its address, and it denotes the block that starts there. */
  lemma PrefixIsABlock(t: Text, value: string, a: nat)
    ensures Prefix(t, value).Ok? <==> t.net(value).Some? && t.net(value).value.addr % Size(t.net(value).value) == 0
    ensures Prefix(t, value).Ok? ==>
              var n := Prefix(t, value).value; Contains(n, a) <==> n.addr <= a < n.addr + Size(n)
  {
    hide Pow2;
    if t.net(value).Some? {
      var n := t.net(value).value;
      Blocks.FloorOfMultiple(n.addr, Size(n));
      hide Blocks.Floor;
    }
  }

  method Cidrs(t: Text, values: seq<string>) returns (r: Result<seq<Net>, Reason>)
    ensures r.Ok? <==> AllPrefixes(t, values) && Distinct(NetsOf(t, values))
    ensures r.Ok? ==> r.value == NetsOf(t, values)
  {
    var result: seq<Net> := [];
    for i := 0 to |values|
      invariant result == NetsOf(t, values[..i])
      invariant AllPrefixes(t, values[..i]) && Distinct(result)
    {
      var net := Prefix(t, values[i]);
      if net.Err? {
        return Err(net.error);
      }
      if net.value in result {
        var k :| 0 <= k < i && result[k] == net.value;
        assert NetsOf(t, values)[k] == NetsOf(t, values)[i];
        return Err(DuplicateCidr(values[i]));
      }
      result := result + [net.value];
    }
    assert values[..|values|] == values;
    return Ok(result);
  }

  /** The reserved networks are disjoint from the subnet and, pairwise, from one another. */
  method CheckReserved(reserved: seq<Net>, subnet: Net) returns (ok: bool)
    ensures ok <==> PairwiseDisjoint(reserved + [subnet])
  {
    hide Disjoint;
    var all := reserved + [subnet];
    for index := 0 to |reserved|
      invariant forall i, j :: 0 <= i < j < index ==> Disjoint(reserved[i], reserved[j])
      invariant forall i :: 0 <= i < index ==> Disjoint(reserved[i], subnet)
    {
      if !Disjoint(reserved[index], subnet) {
        assert !Disjoint(all[index], all[|reserved|]);
        return false;
      }
      if p :| 0 <= p < index && !Disjoint(reserved[index], reserved[p]) {
        DisjointSymmetric(reserved[index], reserved[p]);
        assert !Disjoint(all[p], all[index]);
        return false;
      }
      forall p | 0 <= p < index ensures Disjoint(reserved[p], reserved[index]) {
        DisjointSymmetric(reserved[index], reserved[p]);
      }
    }
    return true;
  }

  /** The two networks of one slot, appended one after the other to the list already accepted. */
  method AddSlotNetworks(t: Text, networks: seq<Net>, s: Slot) returns (r: Result<seq<Net>, Reason>)
    requires PairwiseDisjoint(networks)
    ensures r.Ok? <==>
              && IsPrefix(t, s.podCidr) && IsPrefix(t, s.serviceCidr)
              && PairwiseDisjoint(networks + [NetOf(t, s.podCidr), NetOf(t, s.serviceCidr)])
    ensures r.Ok? ==> r.value == networks + [NetOf(t, s.podCidr), NetOf(t, s.serviceCidr)]
  {
    hide Disjoint;
    var values := [s.podCidr, s.serviceCidr];
    ghost var both := networks + [NetOf(t, s.podCidr), NetOf(t, s.serviceCidr)];
    var grown := networks;
    for v := 0 to 2
      invariant grown == both[..|networks| + v]
      invariant PairwiseDisjoint(grown)
      invariant forall k :: 0 <= k < v ==> IsPrefix(t, values[k])
    {
      var net := Prefix(t, values[v]);
      if net.Err? {
        return Err(net.error);
      }
      if exists e :: 0 <= e < |grown| && !Disjoint(grown[e], net.value) {
        var e :| 0 <= e < |grown| && !Disjoint(grown[e], net.value);
        assert !Disjoint(both[e], both[|networks| + v]);
        return Err(SlotOverlap(values[v]));
      }
      grown := grown + [net.value];
    }
    assert values[0] == s.podCidr && values[1] == s.serviceCidr;
    return Ok(grown);
  }

  /** Every check of one slot except its networks, against the slots already taken. */
  ghost predicate SlotJoins(t: Text, f: Networks, earlier: seq<Slot>, s: Slot) {
    && SlotId(s.slotId)
    && t.address(s.endpoint).Some?
    && Contains(NetOf(t, f.subnet), EndpointOf(t, s))
    && (forall r :: 0 <= r < |f.reservedCidrs| ==> !Contains(NetOf(t, f.reservedCidrs[r]), EndpointOf(t, s)))
    && (forall k :: 0 <= k < |earlier| ==>
          && earlier[k].slotId != s.slotId
          && earlier[k].vipOrdinal != s.vipOrdinal
          && EndpointOf(t, earlier[k]) != EndpointOf(t, s))
  }

  lemma SlotsAcceptedGrow(t: Text, f: Networks, slots: seq<Slot>, i: nat)
    requires i < |slots| && SlotsAccepted(t, f, slots[..i])
    ensures SlotsAccepted(t, f, slots[..i + 1]) <==>
              && SlotJoins(t, f, slots[..i], slots[i])
              && IsPrefix(t, slots[i].podCidr) && IsPrefix(t, slots[i].serviceCidr)
  {
    hide Contains, SlotId, IsPrefix;
    var earlier, grown, s := slots[..i], slots[..i + 1], slots[i];
    assert grown == earlier + [s];
    if SlotsAccepted(t, f, grown) {
      assert grown[i] == s && SlotAccepted(t, f, grown[i]);
      forall k | 0 <= k < i
        ensures earlier[k].slotId != s.slotId && earlier[k].vipOrdinal != s.vipOrdinal
        ensures EndpointOf(t, earlier[k]) != EndpointOf(t, s)
      {
        assert grown[k] == earlier[k];
      }
    }
  }

  lemma SlotsAcceptedPrefix(t: Text, f: Networks, i: nat)
    requires i <= |f.slots| && SlotsAccepted(t, f, f.slots)
    ensures SlotsAccepted(t, f, f.slots[..i])
  {
    hide SlotAccepted, EndpointOf;
  }

  /** The running sets hold exactly what the earlier slots put there. */
  ghost predicate Taken(t: Text, earlier: seq<Slot>, ids: set<string>, ordinals: set<nat>, endpoints: set<nat>) {
    && ids == (set k | 0 <= k < |earlier| :: earlier[k].slotId)
    && ordinals == (set k | 0 <= k < |earlier| :: earlier[k].vipOrdinal)
    && endpoints == (set k | 0 <= k < |earlier| :: EndpointOf(t, earlier[k]))
  }

  lemma TakenGrow(t: Text, slots: seq<Slot>, i: nat, ids: set<string>, ordinals: set<nat>, endpoints: set<nat>)
    requires i < |slots| && Taken(t, slots[..i], ids, ordinals, endpoints)
    ensures Taken(t, slots[..i + 1], ids + {slots[i].slotId}, ordinals + {slots[i].vipOrdinal},
                  endpoints + {EndpointOf(t, slots[i])})
  {
    hide EndpointOf;
    assert slots[..i + 1] == slots[..i] + [slots[i]];
  }

  method CheckSlot(t: Text, f: Networks, reserved: seq<Net>, subnet: Net, ghost earlier: seq<Slot>, s: Slot,
                   ids: set<string>, ordinals: set<nat>, endpoints: set<nat>)
    returns (r: Result<nat, Reason>)
    requires reserved == NetsOf(t, f.reservedCidrs) && subnet == NetOf(t, f.subnet)
    requires Taken(t, earlier, ids, ordinals, endpoints)
    ensures r.Ok? <==> SlotJoins(t, f, earlier, s)
    ensures r.Ok? ==> r.value == EndpointOf(t, s)
  {
    hide Contains, SlotId;
    if !SlotId(s.slotId) || s.slotId in ids || s.vipOrdinal in ordinals {
      return Err(SlotIdentity);
    }
    if t.address(s.endpoint).None? {
      return Err(NotEndpoint);
    }
    var endpoint := t.address(s.endpoint).value;
    if || !Contains(subnet, endpoint)
       || (exists n :: 0 <= n < |reserved| && Contains(reserved[n], endpoint))
       || endpoint in endpoints
    {
      return Err(EndpointPlacement);
    }
    return Ok(endpoint);
  }

  method ValidateSlots(t: Text, f: Networks, reserved: seq<Net>, subnet: Net) returns (r: Result<(), Reason>)
    requires reserved == NetsOf(t, f.reservedCidrs) && subnet == NetOf(t, f.subnet)
    requires PairwiseDisjoint(reserved + [subnet])
    ensures r.Ok? <==> SlotsAccepted(t, f, f.slots) && PairwiseDisjoint(AllNets(t, f))
  {
    hide Disjoint, Contains, SlotsAccepted, SlotJoins, Taken, CidrTexts;
    EmptyPool(t, f);
    var ids, ordinals, endpoints := {}, {}, {};
    var networks := reserved + [subnet];
    for i := 0 to |f.slots|
      invariant Taken(t, f.slots[..i], ids, ordinals, endpoints)
      invariant SlotsAccepted(t, f, f.slots[..i])
      invariant networks == reserved + [subnet] + NetsOf(t, CidrTexts(f.slots[..i]))
      invariant PairwiseDisjoint(networks)
    {
      var s := f.slots[i];
      SlotsAcceptedGrow(t, f, f.slots, i);
      var endpoint := CheckSlot(t, f, reserved, subnet, f.slots[..i], s, ids, ordinals, endpoints);
      if endpoint.Err? {
        if SlotsAccepted(t, f, f.slots) {
          SlotsAcceptedPrefix(t, f, i + 1);
        }
        return Err(endpoint.error);
      }
      CidrTextsGrow(f.slots, i);
      assert networks + [NetOf(t, s.podCidr), NetOf(t, s.serviceCidr)]
          == reserved + [subnet] + NetsOf(t, CidrTexts(f.slots[..i + 1]));
      var grown := AddSlotNetworks(t, networks, s);
      if grown.Err? {
        if SlotsAccepted(t, f, f.slots) && PairwiseDisjoint(AllNets(t, f)) {
          SlotsAcceptedPrefix(t, f, i + 1);
          CidrTextsPrefix(f.slots, i + 1);
          PrefixOfNets(t, reserved + [subnet], CidrTexts(f.slots[..i + 1]), CidrTexts(f.slots));
        }
        return Err(grown.error);
      }
      networks := grown.value;
      TakenGrow(t, f.slots, i, ids, ordinals, endpoints);
      ids, ordinals, endpoints := ids + {s.slotId}, ordinals + {s.vipOrdinal}, endpoints + {endpoint.value};
    }
    assert f.slots[..|f.slots|] == f.slots;
    return Ok(());
  }

  lemma EmptyPool(t: Text, f: Networks)
    ensures SlotsAccepted(t, f, f.slots[..0]) && Taken(t, f.slots[..0], {}, {}, {})
    ensures CidrTexts(f.slots[..0]) == []
  {
  }

  method ValidateCreation(t: Text, f: Networks) returns (r: Result<(), Reason>)
    ensures r.Ok? <==> Accepts(t, f)
  {
    hide Disjoint, Contains, SlotsAccepted;
    var subnet := Prefix(t, f.subnet);
    if subnet.Err? {
      return Err(subnet.error);
    }
    var reserved := Cidrs(t, f.reservedCidrs);
    if reserved.Err? {
      if AllPrefixes(t, f.reservedCidrs) && PairwiseDisjoint(AllNets(t, f)) {
        RejectedReserved(t, f);
        assert false;
      }
      return Err(reserved.error);
    }
    var separate := CheckReserved(reserved.value, subnet.value);
    if !separate {
      if PairwiseDisjoint(AllNets(t, f)) {
        RejectedReserved(t, f);
        assert false;
      }
      return Err(ReservedOverlap);
    }
    var allowed := Cidrs(t, f.allowedSubnets);
    if allowed.Err? {
      return Err(allowed.error);
    }
    if subnet.value !in allowed.value {
      return Err(AllowedOmitsSubnet);
    }
    if f.slots == [] {
      return Err(NoSlots);
    }
    r := ValidateSlots(t, f, reserved.value, subnet.value);
  }

  /** A foundation whose networks are pairwise disjoint also passes the earlier, partial tests. */
  lemma RejectedReserved(t: Text, f: Networks)
    requires AllPrefixes(t, f.reservedCidrs) && PairwiseDisjoint(AllNets(t, f))
    ensures Distinct(NetsOf(t, f.reservedCidrs))
    ensures PairwiseDisjoint(NetsOf(t, f.reservedCidrs) + [NetOf(t, f.subnet)])
  {
    var nets, reserved := AllNets(t, f), NetsOf(t, f.reservedCidrs);
    forall i, j | 0 <= i < j < |reserved| ensures reserved[i] != reserved[j] {
      assert Disjoint(nets[i], nets[j]);
      NotDisjointFromItself(nets[i]);
    }
    hide Disjoint;
    var shorter := reserved + [NetOf(t, f.subnet)];
    assert forall i :: 0 <= i < |shorter| ==> shorter[i] == nets[i];
  }

  /** Where the networks of a slot and the subnet stand in the list of all networks. */
  lemma NetworkPlaces(t: Text, f: Networks, n: nat)
    requires n < |f.slots|
    ensures var nets, base := AllNets(t, f), |f.reservedCidrs|;
            && base + 2 + 2 * n < |nets| && nets[base] == NetOf(t, f.subnet)
            && nets[base + 1 + 2 * n] == NetOf(t, f.slots[n].podCidr)
            && nets[base + 2 + 2 * n] == NetOf(t, f.slots[n].serviceCidr)
  {
    hide NetOf;
    var texts := CidrTexts(f.slots);
    assert texts[2 * n] == f.slots[n].podCidr && texts[2 * n + 1] == f.slots[n].serviceCidr;
  }

  lemma EndpointInSubnet(t: Text, f: Networks, s: nat)
    requires Accepts(t, f) && s < |f.slots|
    ensures Contains(NetOf(t, f.subnet), EndpointOf(t, f.slots[s]))
  {
    hide Contains, IsPrefix, NetOf, PairwiseDisjoint, AllNets;
    assert SlotAccepted(t, f, f.slots[s]);
  }

  lemma EndpointOutsideSlots(t: Text, f: Networks, s: nat, n: nat)
    requires Accepts(t, f) && s < |f.slots| && n < |f.slots|
    ensures !Contains(NetOf(t, f.slots[n].podCidr), EndpointOf(t, f.slots[s]))
    ensures !Contains(NetOf(t, f.slots[n].serviceCidr), EndpointOf(t, f.slots[s]))
  {
    EndpointInSubnet(t, f, s);
    NetworkPlaces(t, f, n);
    hide Contains, NetOf, AllNets, PairwiseDisjoint, EndpointOf, SlotsAccepted, IsPrefix;
    var nets, base := AllNets(t, f), |f.reservedCidrs|;
    PairwiseDisjointMeansAddresses(nets, base, base + 1 + 2 * n, EndpointOf(t, f.slots[s]));
    PairwiseDisjointMeansAddresses(nets, base, base + 2 + 2 * n, EndpointOf(t, f.slots[s]));
  }

  lemma EndpointsDiffer(t: Text, f: Networks, s: nat, n: nat)
    requires Accepts(t, f) && s < |f.slots| && n < |f.slots| && s != n
    ensures EndpointOf(t, f.slots[s]) != EndpointOf(t, f.slots[n])
  {
    hide Contains, IsPrefix, NetOf, PairwiseDisjoint, AllNets, SlotAccepted;
  }

  /** A text that denotes a network whose address is a multiple of its size. */
  predicate Denotes(t: Text, value: string) {
    t.net(value).Some? && t.net(value).value.addr % Size(t.net(value).value) == 0
  }

  lemma PrefixDenotes(t: Text, value: string)
    ensures IsPrefix(t, value) <==> Denotes(t, value)
  {
    PrefixIsABlock(t, value, 0);
  }

  /** A slot on its own: a lowercase label that begins with a letter, an address in the subnet, two networks. */
  ghost predicate SoundSlot(t: Text, f: Networks, s: Slot) {
    && DnsLabel(s.slotId, 63) && Lower(s.slotId[0])
    && Denotes(t, s.podCidr) && Denotes(t, s.serviceCidr)
    && t.address(s.endpoint).Some? && Contains(NetOf(t, f.subnet), t.address(s.endpoint).value)
  }

  /** A foundation described by addresses: nothing is compared with anything but by what it contains. */
  ghost predicate Sound(t: Text, f: Networks) {
    && Denotes(t, f.subnet) && f.slots != []
    && (forall i :: 0 <= i < |f.reservedCidrs| ==> Denotes(t, f.reservedCidrs[i]))
    && (forall i :: 0 <= i < |f.allowedSubnets| ==> Denotes(t, f.allowedSubnets[i]))
    && (forall i, j :: 0 <= i < j < |f.allowedSubnets| ==>
          t.net(f.allowedSubnets[i]) != t.net(f.allowedSubnets[j]))
    && (exists i :: 0 <= i < |f.allowedSubnets| && t.net(f.allowedSubnets[i]) == t.net(f.subnet))
    && (forall i :: 0 <= i < |f.slots| ==> SoundSlot(t, f, f.slots[i]))
    && (forall i, j :: 0 <= i < j < |f.slots| ==>
          && f.slots[i].slotId != f.slots[j].slotId && f.slots[i].vipOrdinal != f.slots[j].vipOrdinal
          && t.address(f.slots[i].endpoint) != t.address(f.slots[j].endpoint))
    && NoAddressTwice(AllNets(t, f))
  }

  lemma AllDenote(t: Text, values: seq<string>)
    ensures AllPrefixes(t, values) <==> forall i :: 0 <= i < |values| ==> Denotes(t, values[i])
  {
    hide IsPrefix, Denotes;
    forall i | 0 <= i < |values| ensures IsPrefix(t, values[i]) <==> Denotes(t, values[i]) {
      PrefixDenotes(t, values[i]);
    }
  }

  /** What the reserved networks contain, the subnet does not, so an endpoint in the subnet is clear of them. */
  lemma ClearOfReserved(t: Text, f: Networks, r: nat, a: nat)
    requires NoAddressTwice(AllNets(t, f)) && r < |f.reservedCidrs| && Contains(NetOf(t, f.subnet), a)
    ensures !Contains(NetOf(t, f.reservedCidrs[r]), a)
  {
    hide Contains, NetOf;
    var nets := AllNets(t, f);
    assert nets[r] == NetOf(t, f.reservedCidrs[r]) && nets[|f.reservedCidrs|] == NetOf(t, f.subnet);
  }

  lemma SlotMeaning(t: Text, f: Networks, s: Slot)
    requires NoAddressTwice(AllNets(t, f))
    ensures SlotAccepted(t, f, s) <==> SoundSlot(t, f, s)
  {
    PrefixDenotes(t, s.podCidr);
    PrefixDenotes(t, s.serviceCidr);
    hide Contains, IsPrefix, Denotes, NoAddressTwice, AllNets;
    if SoundSlot(t, f, s) {
      forall r | 0 <= r < |f.reservedCidrs| ensures !Contains(NetOf(t, f.reservedCidrs[r]), EndpointOf(t, s)) {
        ClearOfReserved(t, f, r, EndpointOf(t, s));
      }
    }
  }

  /** The validator's order of checks accepts exactly the foundations that are sound by their addresses. */
  lemma AcceptsIffSound(t: Text, f: Networks)
    ensures Accepts(t, f) <==> Sound(t, f)
  {
    PairwiseIffNoAddressTwice(AllNets(t, f));
    PrefixDenotes(t, f.subnet);
    AllDenote(t, f.reservedCidrs);
    AllDenote(t, f.allowedSubnets);
    hide Contains, IsPrefix, Denotes, NoAddressTwice, PairwiseDisjoint, AllNets, AllPrefixes;
    if NoAddressTwice(AllNets(t, f)) {
      forall i | 0 <= i < |f.slots| ensures SlotAccepted(t, f, f.slots[i]) <==> SoundSlot(t, f, f.slots[i]) {
        SlotMeaning(t, f, f.slots[i]);
      }
    }
    SameSubnets(t, f);
    hide NetsOf, SlotAccepted;
    if Accepts(t, f) {
      forall i, j | 0 <= i < j < |f.slots| ensures t.address(f.slots[i].endpoint) != t.address(f.slots[j].endpoint) {
        EndpointsDiffer(t, f, i, j);
        assert SoundSlot(t, f, f.slots[i]) && SoundSlot(t, f, f.slots[j]);
      }
    }
    if Sound(t, f) {
      forall i, j | 0 <= i < j < |f.slots| ensures EndpointOf(t, f.slots[i]) != EndpointOf(t, f.slots[j]) {
        assert SoundSlot(t, f, f.slots[i]) && SoundSlot(t, f, f.slots[j]);
      }
    }
  }

  lemma SameSubnets(t: Text, f: Networks)
    ensures AllPrefixes(t, f.allowedSubnets) && IsPrefix(t, f.subnet) ==>
              && (Distinct(NetsOf(t, f.allowedSubnets)) <==>
                    forall i, j :: 0 <= i < j < |f.allowedSubnets| ==>
                      t.net(f.allowedSubnets[i]) != t.net(f.allowedSubnets[j]))
              && (NetOf(t, f.subnet) in NetsOf(t, f.allowedSubnets) <==>
                    exists i :: 0 <= i < |f.allowedSubnets| && t.net(f.allowedSubnets[i]) == t.net(f.subnet))
  {
    hide Canonical;
    if AllPrefixes(t, f.allowedSubnets) && IsPrefix(t, f.subnet) {
      var nets := NetsOf(t, f.allowedSubnets);
      forall i | 0 <= i < |nets| ensures t.net(f.allowedSubnets[i]) == Some(nets[i]) {
        assert IsPrefix(t, f.allowedSubnets[i]);
      }
    }
  }

  /** No address lies in two of the networks; every endpoint is alone and outside every slot network. */
  lemma AcceptedFoundation(t: Text, f: Networks, i: nat, j: nat, a: nat, s: nat, n: nat)
    requires Accepts(t, f)
    requires i < |AllNets(t, f)| && j < |AllNets(t, f)| && s < |f.slots| && n < |f.slots|
    ensures i != j && Contains(AllNets(t, f)[i], a) ==> !Contains(AllNets(t, f)[j], a)
    ensures !Contains(NetOf(t, f.slots[n].podCidr), EndpointOf(t, f.slots[s]))
    ensures !Contains(NetOf(t, f.slots[n].serviceCidr), EndpointOf(t, f.slots[s]))
    ensures s != n ==> EndpointOf(t, f.slots[s]) != EndpointOf(t, f.slots[n])
  {
    hide Contains, NetOf, AllNets, PairwiseDisjoint, EndpointOf, SlotsAccepted, IsPrefix;
    if i != j && Contains(AllNets(t, f)[i], a) {
      PairwiseDisjointMeansAddresses(AllNets(t, f), i, j, a);
    }
    EndpointOutsideSlots(t, f, s, n);
    if s != n {
      EndpointsDiffer(t, f, s, n);
    }
  }
}

/** controller/src/azure_allocation.rs: the catalog document and its validation. */
module AzureCatalog {
  import opened Base
  import Foundation
  import opened Ipv4
  import opened Slots

  datatype AzureSlot = AzureSlot(slotId: string, podCidr: string, serviceCidr: string)

  datatype Document = Document(schema: nat, reservedCidrs: seq<string>, slots: seq<AzureSlot>)

  datatype CatalogError = SchemaError | SlotError(id: string) | OverlapError | ManagementError(value: string)

  const PLACEHOLDER_ENDPOINT := "0.0.0.0"

  function PoolSlot(s: AzureSlot): Slot {
    Slot(s.slotId, 0, PLACEHOLDER_ENDPOINT, s.podCidr, s.serviceCidr)
  }

  /** The pool handed to the allocator: Azure slots share a placeholder endpoint. */
  function Pool(slots: seq<AzureSlot>): (pool: seq<Slot>)
    ensures |pool| == |slots|
    ensures forall i :: 0 <= i < |slots| ==> pool[i] == PoolSlot(slots[i])
  {
    seq(|slots|, i requires 0 <= i < |slots| => PoolSlot(slots[i]))
  }

  predicate SlotShape(t: Text, s: AzureSlot) {
    && "azure-" <= s.slotId
    && DnsLabel(s.slotId, 63)
    && IsPrefix(t, s.podCidr) && IsPrefix(t, s.serviceCidr)
    && NetOf(t, s.serviceCidr).len <= 28
  }

  ghost predicate SlotsShaped(t: Text, slots: seq<AzureSlot>) {
    && (forall i :: 0 <= i < |slots| ==> SlotShape(t, slots[i]))
    && (forall i, j :: 0 <= i < j < |slots| ==> slots[i].slotId != slots[j].slotId)
  }

  function DocumentNets(t: Text, d: Document): seq<Net> {
    NetsOf(t, CidrTexts(Pool(d.slots)))
  }

  ghost predicate ClearOfReserved(nets: seq<Net>, reserved: seq<Net>) {
    forall i, r :: 0 <= i < |nets| && 0 <= r < |reserved| ==> !Overlaps(nets[i], reserved[r])
  }

  ghost predicate Accepts(t: Text, d: Document) {
    && d.schema == 1 && d.slots != []
    && (forall r :: 0 <= r < |d.reservedCidrs| ==> t.net(d.reservedCidrs[r]).Some?)
    && SlotsShaped(t, d.slots)
    && PairwiseDisjoint(DocumentNets(t, d))
    && ClearOfReserved(DocumentNets(t, d), NetsOf(t, d.reservedCidrs))
  }

  /** A catalog described by addresses: sixteen or more per service network, none shared, none reserved. */
  ghost predicate Sound(t: Text, d: Document) {
    && d.schema == 1 && d.slots != []
    && (forall i :: 0 <= i < |d.slots| ==> SoundSlot(t, d.slots[i]))
    && (forall i, j :: 0 <= i < j < |d.slots| ==> d.slots[i].slotId != d.slots[j].slotId)
    && (forall r :: 0 <= r < |d.reservedCidrs| ==> t.net(d.reservedCidrs[r]).Some?)
    && NoAddressTwice(DocumentNets(t, d))
    && forall i, r, a: nat ::
         (0 <= i < |DocumentNets(t, d)| && 0 <= r < |d.reservedCidrs| && Contains(DocumentNets(t, d)[i], a)) ==>
           !Contains(NetOf(t, d.reservedCidrs[r]), a)
  }

  ghost predicate SoundSlot(t: Text, s: AzureSlot) {
    && "azure-" <= s.slotId && DnsLabel(s.slotId, 63)
    && Foundation.Denotes(t, s.podCidr) && Foundation.Denotes(t, s.serviceCidr)
    && Size(NetOf(t, s.serviceCidr)) >= 16
  }

  lemma SixteenAddresses(n: Net)
    ensures Size(n) >= 16 <==> n.len <= 28
  {
    assert Pow2(4) == 16 && Pow2(3) == 8;
    Pow2Grows(if n.len <= 28 then 4 else 32 - n.len, if n.len <= 28 then 32 - n.len else 3);
  }

  lemma {:induction false} Pow2Grows(a: nat, b: nat)
    requires a <= b
    ensures Pow2(a) <= Pow2(b)
  {
    if a < b {
      Pow2Grows(a, b - 1);
    }
  }

  lemma ShapeMeaning(t: Text, s: AzureSlot)
    ensures SlotShape(t, s) <==> SoundSlot(t, s)
  {
    hide Pow2, Canonical;
    Foundation.PrefixDenotes(t, s.podCidr);
    Foundation.PrefixDenotes(t, s.serviceCidr);
    SixteenAddresses(NetOf(t, s.serviceCidr));
  }

  /** Validation accepts exactly the catalogs that are sound by their addresses. */
  lemma AcceptsIffSound(t: Text, d: Document)
    ensures Accepts(t, d) <==> Sound(t, d)
  {
    var nets, reserved := DocumentNets(t, d), NetsOf(t, d.reservedCidrs);
    PairwiseIffNoAddressTwice(nets);
    forall i | 0 <= i < |d.slots| ensures SlotShape(t, d.slots[i]) <==> SoundSlot(t, d.slots[i]) {
      ShapeMeaning(t, d.slots[i]);
    }
    hide SlotShape, SoundSlot, PairwiseDisjoint, NoAddressTwice, DocumentNets, NetOf, Contains, Overlaps;
    if ClearOfReserved(nets, reserved) {
      forall i, r, a: nat | 0 <= i < |nets| && 0 <= r < |reserved| && Contains(nets[i], a)
        ensures !Contains(NetOf(t, d.reservedCidrs[r]), a)
      {
        assert reserved[r] == NetOf(t, d.reservedCidrs[r]);
        DisjointIffNoSharedAddress(nets[i], reserved[r]);
      }
    }
    if Sound(t, d) {
      forall i, r | 0 <= i < |nets| && 0 <= r < |reserved| ensures !Overlaps(nets[i], reserved[r]) {
        assert reserved[r] == NetOf(t, d.reservedCidrs[r]);
        DisjointIffNoSharedAddress(nets[i], reserved[r]);
      }
    }
  }

  method ParseReserved(t: Text, values: seq<string>) returns (r: Result<seq<Net>, CatalogError>)
    ensures r.Ok? <==> forall i :: 0 <= i < |values| ==> t.net(values[i]).Some?
    ensures r.Ok? ==> r.value == NetsOf(t, values)
  {
    var nets: seq<Net> := [];
    for i := 0 to |values|
      invariant nets == NetsOf(t, values[..i])
      invariant forall k :: 0 <= k < i ==> t.net(values[k]).Some?
    {
      if t.net(values[i]).None? {
        return Err(ManagementError("invalid"));
      }
      nets := nets + [t.net(values[i]).value];
    }
    assert values[..|values|] == values;
    return Ok(nets);
  }

  method CheckSlot(t: Text, s: AzureSlot, ids: set<string>) returns (r: Result<(Net, Net), CatalogError>)
    ensures r.Ok? <==> SlotShape(t, s) && s.slotId !in ids
    ensures r.Ok? ==> r.value == (NetOf(t, s.podCidr), NetOf(t, s.serviceCidr))
  {
    hide Canonical, DnsLabel;
    if !("azure-" <= s.slotId) || !DnsLabel(s.slotId, 63) || s.slotId in ids {
      return Err(SlotError(s.slotId));
    }
    if !IsPrefix(t, s.podCidr) || !IsPrefix(t, s.serviceCidr) {
      return Err(SlotError(s.slotId));
    }
    var pod, service := t.net(s.podCidr).value, t.net(s.serviceCidr).value;
    if service.len > 28 {
      return Err(SlotError(s.slotId));
    }
    return Ok((pod, service));
  }

  method CollectNetworks(t: Text, slots: seq<AzureSlot>) returns (r: Result<seq<Net>, CatalogError>)
    ensures r.Ok? <==> SlotsShaped(t, slots)
    ensures r.Ok? ==> r.value == NetsOf(t, CidrTexts(Pool(slots)))
  {
    hide SlotShape, CidrTexts, NetOf;
    var ids: set<string> := {};
    var networks: seq<Net> := [];
    var pool := Pool(slots);
    for i := 0 to |slots|
      invariant ids == set k | 0 <= k < i :: slots[k].slotId
      invariant forall k :: 0 <= k < i ==> SlotShape(t, slots[k])
      invariant forall j, k :: 0 <= j < k < i ==> slots[j].slotId != slots[k].slotId
      invariant networks == NetsOf(t, CidrTexts(pool[..i]))
    {
      var nets := CheckSlot(t, slots[i], ids);
      if nets.Err? {
        return Err(nets.error);
      }
      CidrTextsGrow(pool, i);
      networks := networks + [nets.value.0, nets.value.1];
      ids := ids + {slots[i].slotId};
    }
    assert pool[..|pool|] == pool;
    return Ok(networks);
  }

  /** Each network against every later one, and against the reserved ones. */
  method SuffixScan(networks: seq<Net>, reserved: seq<Net>) returns (r: Result<(), CatalogError>)
    ensures r.Ok? <==> PairwiseDisjoint(networks) && ClearOfReserved(networks, reserved)
  {
    hide Contains;
    for index := 0 to |networks|
      invariant forall i, j :: 0 <= i < index && i < j < |networks| ==> Disjoint(networks[i], networks[j])
      invariant forall i, r :: 0 <= i < index && 0 <= r < |reserved| ==> !Overlaps(networks[i], reserved[r])
    {
      if exists c :: index + 1 <= c < |networks| && Overlaps(networks[index], networks[c]) {
        return Err(OverlapError);
      }
      if exists c :: 0 <= c < |reserved| && Overlaps(networks[index], reserved[c]) {
        return Err(ManagementError("reserved"));
      }
    }
    return Ok(());
  }

  method Validate(t: Text, d: Document) returns (r: Result<(), CatalogError>)
    ensures r.Ok? <==> Accepts(t, d)
  {
    hide SlotsShaped, PairwiseDisjoint, ClearOfReserved;
    if d.schema != 1 {
      return Err(SchemaError);
    }
    if d.slots == [] {
      return Err(SlotError("empty"));
    }
    var reserved := ParseReserved(t, d.reservedCidrs);
    if reserved.Err? {
      return Err(reserved.error);
    }
    var networks := CollectNetworks(t, d.slots);
    if networks.Err? {
      return Err(networks.error);
    }
    r := SuffixScan(networks.value, reserved.value);
  }
}
