/** Multiples and blocks: the arithmetic behind aligned address blocks. */
module Blocks {

  lemma MulMonotone(a: int, b: int, size: nat)
    requires a <= b
    ensures a * size <= b * size
  {
    assert (b - a) * size >= 0;
    assert b * size == a * size + (b - a) * size;
  }

  lemma QuotientBounds(a: nat, size: nat)
    requires size > 0
    ensures 0 <= a / size * size <= a < a / size * size + size
  {
    assert a == a / size * size + a % size;
  }

  /** The start of the `size`-block that holds `a`. */
  function Floor(a: nat, size: nat): (f: nat)
    requires size > 0
    ensures f <= a < f + size
  {
    QuotientBounds(a, size);
    a / size * size
  }

  /** Between two multiples of `size` that enclose `a` lies the whole `size`-block of `a`. */
  lemma FloorBetweenMultiples(a: nat, size: nat, p: int, q: int)
    requires size > 0 && p * size <= a < q * size
    ensures p * size <= Floor(a, size) && Floor(a, size) + size <= q * size
  {
    var k := a / size;
    QuotientBounds(a, size);
    assert (k + 1) * size == k * size + size;
    if p > k {
      MulMonotone(k + 1, p, size);
    } else {
      MulMonotone(p, k, size);
    }
    if q <= k {
      MulMonotone(q, k, size);
    } else {
      MulMonotone(k + 1, q, size);
    }
  }

  /** Whatever lies in the block of `b` has the same block. */
  lemma SameFloor(a: nat, b: nat, size: nat)
    requires size > 0 && Floor(b, size) <= a < Floor(b, size) + size
    ensures Floor(a, size) == Floor(b, size)
  {
    var k := b / size;
    NextMultiple(k, size);
    FloorBetweenMultiples(a, size, k, k + 1);
  }

  lemma NextMultiple(k: int, size: int)
    ensures (k + 1) * size == k * size + size
  {
  }

  /** A number is the start of its block exactly when the size divides it. */
  lemma FloorOfMultiple(a: nat, size: nat)
    requires size > 0
    ensures Floor(a, size) == a <==> a % size == 0
  {
    assert a == a / size * size + a % size;
  }

  lemma Regroup(k: int, factor: int, size: int)
    ensures k * (factor * size) == (k * factor) * size
    ensures (k * factor + factor) * size == (k * factor) * size + factor * size
  {
  }

  /** A block of `factor * size` holds the whole `size`-block of each number in it. */
  lemma FloorInsideMultiple(a: nat, z: nat, factor: nat, size: nat)
    requires size > 0 && factor * size > 0
    requires Floor(a, factor * size) <= z < Floor(a, factor * size) + factor * size
    ensures Floor(a, factor * size) <= Floor(z, size)
    ensures Floor(z, size) + size <= Floor(a, factor * size) + factor * size
  {
    var k := a / (factor * size);
    Regroup(k, factor, size);
    FloorBetweenMultiples(z, size, k * factor, k * factor + factor);
  }
}

/** IPv4 networks as `ipnet` presents them: an address and a prefix length. */
module Ipv4 {
  import opened Blocks

  function Pow2(n: nat): (p: nat)
    ensures p > 0
  {
    if n == 0 then 1 else 2 * Pow2(n - 1)
  }

  datatype RawNet = Net(addr: nat, len: nat)

  type Net = n: RawNet | n.addr < Pow2(32) && n.len <= 32
    witness (assert Pow2(32) > 0; Net(0, 0))

  function Size(n: Net): nat {
    Pow2(32 - n.len)
  }

  /** The address with its host bits cleared. */
  function Network(n: Net): nat {
    Floor(n.addr, Size(n))
  }

  function Broadcast(n: Net): nat {
    Network(n) + (Size(n) - 1)
  }

  predicate Contains(n: Net, address: nat) {
    Network(n) <= address <= Broadcast(n)
  }

  predicate Canonical(n: Net) {
    n.addr == Network(n)
  }

  /** The test both controllers apply: each network looks only at the other's network address. */
  predicate Overlaps(left: Net, right: Net) {
    Contains(left, Network(right)) || Contains(right, Network(left))
  }

  predicate Disjoint(left: Net, right: Net) {
    !Contains(left, Network(right)) && !Contains(right, Network(left))
  }

  /** The meaning of overlapping: the two blocks have an address in common. */
  ghost predicate ShareAddress(left: Net, right: Net) {
    exists a: nat :: Contains(left, a) && Contains(right, a)
  }

  lemma DisjointIffNoSharedAddress(left: Net, right: Net)
    ensures Disjoint(left, right) <==> !ShareAddress(left, right)
    ensures Overlaps(left, right) <==> ShareAddress(left, right)
  {
    if Contains(left, Network(right)) {
      assert Contains(right, Network(right));
    }
    if Contains(right, Network(left)) {
      assert Contains(left, Network(left));
    }
  }

  lemma DisjointSymmetric(left: Net, right: Net)
    ensures Disjoint(left, right) <==> Disjoint(right, left)
  {
  }

  lemma NotDisjointFromItself(n: Net)
    ensures !Disjoint(n, n)
  {
  }

  /** Pairwise over positions, so that one network listed twice is already an overlap. */
  ghost predicate PairwiseDisjoint(nets: seq<Net>) {
    forall i, j :: 0 <= i < j < |nets| ==> Disjoint(nets[i], nets[j])
  }

  lemma PairwiseDisjointMeansAddresses(nets: seq<Net>, i: nat, j: nat, a: nat)
    requires PairwiseDisjoint(nets) && i < |nets| && j < |nets| && i != j
    requires Contains(nets[i], a)
    ensures !Contains(nets[j], a)
  {
    var low, high := if i < j then i else j, if i < j then j else i;
    DisjointIffNoSharedAddress(nets[low], nets[high]);
  }

  /** No address lies in two networks of the list. */
  ghost predicate NoAddressTwice(nets: seq<Net>) {
    forall i, j, a: nat :: 0 <= i < j < |nets| && Contains(nets[i], a) ==> !Contains(nets[j], a)
  }

  /** The pairwise test decides exactly that. */
  lemma PairwiseIffNoAddressTwice(nets: seq<Net>)
    ensures PairwiseDisjoint(nets) <==> NoAddressTwice(nets)
  {
    hide Contains, Disjoint;
    if PairwiseDisjoint(nets) {
      forall i, j, a: nat | 0 <= i < j < |nets| && Contains(nets[i], a) ensures !Contains(nets[j], a) {
        PairwiseDisjointMeansAddresses(nets, i, j, a);
      }
    }
    if NoAddressTwice(nets) {
      forall i, j | 0 <= i < j < |nets| ensures Disjoint(nets[i], nets[j]) {
        DisjointIffNoSharedAddress(nets[i], nets[j]);
      }
    }
  }

  // ---- CIDR blocks are laminar: nested or disjoint --------------------------------------

  lemma {:induction false} Pow2Add(a: nat, b: nat)
    ensures Pow2(a + b) == Pow2(a) * Pow2(b)
  {
    if a > 0 {
      Pow2Add(a - 1, b);
      assert Pow2(a + b) == 2 * Pow2(a - 1 + b);
      assert Pow2(a) * Pow2(b) == 2 * (Pow2(a - 1) * Pow2(b));
    }
  }

  /** Every block is aligned: it holds exactly the addresses that share its start. */
  lemma ContainsIffSameBlock(n: Net, a: nat)
    ensures Contains(n, a) <==> Floor(a, Size(n)) == Network(n)
  {
    hide Floor, Pow2;
    if Contains(n, a) {
      SameFloor(a, n.addr, Size(n));
    }
  }

  lemma NestedOrDisjoint(wide: Net, narrow: Net)
    requires wide.len <= narrow.len
    ensures Disjoint(wide, narrow) || forall a: nat :: Contains(narrow, a) ==> Contains(wide, a)
  {
    if !Disjoint(wide, narrow) {
      DisjointIffNoSharedAddress(wide, narrow);
      var z: nat :| Contains(wide, z) && Contains(narrow, z);
      Pow2Add(narrow.len - wide.len, 32 - narrow.len);
      FloorInsideMultiple(wide.addr, z, Pow2(narrow.len - wide.len), Size(narrow));
      ContainsIffSameBlock(narrow, z);
    }
  }

  lemma BlockInsideAddressSpace(n: Net)
    ensures Broadcast(n) < Pow2(32)
  {
    Pow2Add(n.len, 32 - n.len);
    FloorBetweenMultiples(n.addr, Size(n), 0, Pow2(n.len));
  }
}
