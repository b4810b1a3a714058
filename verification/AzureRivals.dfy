/**
 * Why compatible catalogs are needed: for any two catalogs that are not compatible there is a run of
 * claims, all validated, that ends with one address in two live Leases.
 */
module AzureRivals {
  import opened Base
  import opened Ipv4
  import opened Slots
  import opened AzureCatalog
  import opened Leases
  import opened LeaseServer
  import opened AzureRuns

  // ---- as many Tenants as a catalog has slots ----------------------------------------------

  function Letter(n: nat): char {
    if n % 4 == 0 then 'a' else if n % 4 == 1 then 'b' else if n % 4 == 2 then 'c' else 'd'
  }

  function Word(n: nat, width: nat): (w: string)
    ensures |w| == width && forall i :: 0 <= i < width ==> Lower(w[i])
  {
    if width == 0 then "" else Word(n / 4, width - 1) + [Letter(n)]
  }

  function Words(width: nat): nat {
    if width == 0 then 1 else 4 * Words(width - 1)
  }

  lemma {:induction false} WordsDiffer(m: nat, n: nat, width: nat)
    requires m < Words(width) && n < Words(width) && Word(m, width) == Word(n, width)
    ensures m == n
    decreases width
  {
    if width > 0 {
      var a, b := Word(m, width), Word(n, width);
      assert a[..width - 1] == Word(m / 4, width - 1) && b[..width - 1] == Word(n / 4, width - 1);
      assert a[width - 1] == Letter(m) && b[width - 1] == Letter(n);
      WordsDiffer(m / 4, n / 4, width - 1);
    }
  }

  lemma {:induction false} WordsArePowers(width: nat)
    ensures Words(width) == Pow2(2 * width)
  {
    if width > 0 {
      WordsArePowers(width - 1);
      assert Pow2(2 * width) == 2 * Pow2(2 * width - 1) == 4 * Pow2(2 * width - 2);
    }
  }

  lemma {:induction false} Pow2Grows(a: nat, b: nat)
    requires a <= b
    ensures Pow2(a) <= Pow2(b)
    decreases b
  {
    if a < b {
      Pow2Grows(a, b - 1);
    }
  }

  const WIDTH := 30

  /** Distinct numbers below a bound are no more than the bound. */
  lemma {:induction false} Pigeonhole(values: seq<nat>, bound: nat)
    requires Distinct(values) && forall i :: 0 <= i < |values| ==> values[i] < bound
    ensures |values| <= bound
    decreases bound
  {
    if values != [] {
      assert values[0] < bound;
      var top := bound - 1;
      if top in values {
        var k :| 0 <= k < |values| && values[k] == top;
        var rest := values[..k] + values[k + 1..];
        Pigeonhole(rest, top);
      } else {
        Pigeonhole(values, top);
      }
    }
  }

  function Starts(lib: Lib, d: Document): (s: seq<nat>)
    ensures |s| == |d.slots|
  {
    seq(|d.slots|, k requires 0 <= k < |d.slots| => Network(SlotNets(lib, d.slots[k])[0]))
  }

  /** Disjoint networks start at different addresses, so a catalog has at most 2^32 slots. */
  lemma CatalogSize(lib: Lib, d: Document)
    requires AzureCatalog.Accepts(lib.text, d)
    ensures |d.slots| <= Pow2(32)
  {
    var starts := Starts(lib, d);
    forall i, j | 0 <= i < j < |starts| ensures starts[i] != starts[j] {
      SlotNetsAt(lib, d, i, 0);
      SlotNetsAt(lib, d, j, 0);
      StartsDiffer(DocumentNets(lib.text, d)[2 * i], DocumentNets(lib.text, d)[2 * j]);
    }
    forall k | 0 <= k < |starts| ensures starts[k] < Pow2(32) {
      BlockInsideAddressSpace(SlotNets(lib, d.slots[k])[0]);
    }
    Pigeonhole(starts, Pow2(32));
  }

  lemma StartsDiffer(a: Net, b: Net)
    requires Disjoint(a, b)
    ensures Network(a) != Network(b)
  {
  }

  lemma EnoughTenants(lib: Lib, d: Document, e: Document, n: nat)
    requires AzureCatalog.Accepts(lib.text, d) && AzureCatalog.Accepts(lib.text, e) && n < |d.slots| + |e.slots|
    ensures n < Words(WIDTH)
  {
    CatalogSize(lib, d);
    CatalogSize(lib, e);
    WordsArePowers(WIDTH);
    Pow2Grows(33, 60);
    assert Pow2(33) == 2 * Pow2(32);
  }

  // ---- claims that fill a catalog in order -------------------------------------------------

  /** A catalog that `allocate` accepts as a pool: no two slots share a Lease name. */
  ghost predicate Usable(lib: Lib, d: Document) {
    && AzureCatalog.Accepts(lib.text, d)
    && forall i, j :: 0 <= i < j < |d.slots| ==> Name(lib, d, i) != Name(lib, d, j)
  }

  function Name(lib: Lib, d: Document, k: nat): string
    requires k < |d.slots|
  {
    LeaseName(lib, d.slots[k].slotId)
  }

  function Who(id: nat): string {
    Word(id, WIDTH)
  }

  function Claimant(id: nat, d: Document): Context {
    Context("tenants", CatalogUidKey, "k", Who(id), Who(id), "s", "f", Pool(d.slots))
  }

  function Begun(id: nat, d: Document): ClaimCall {
    ClaimCall(Claimant(id, d), d, Checked)
  }

  /** The Lease that claimant `id` makes for slot `k`. */
  function Made(lib: Lib, id: nat, d: Document, k: nat, serial: Id): Lease
    requires k < |d.slots|
  {
    Stored(NewLease(lib, Claimant(id, d), PoolSlot(d.slots[k])), serial, serial + 1)
  }

  /** A Lease that neither carries this Tenant's UID nor holds its name. */
  predicate Stranger(l: Lease, who: string) {
    !Carries(l, who) && !(l.annotations.Some? && TenantKey in l.annotations.value
                          && l.annotations.value[TenantKey] == who)
  }

  lemma MadeForOne(lib: Lib, id: nat, d: Document, k: nat, serial: Id, other: nat)
    requires k < |d.slots| && id != other && id < Words(WIDTH) && other < Words(WIDTH)
    ensures Stranger(Made(lib, id, d, k, serial), Who(other))
  {
    hide LeaseName, Word, Words;
    assert Word(id, WIDTH) != Word(other, WIDTH) by {
      if Word(id, WIDTH) == Word(other, WIDTH) {
        WordsDiffer(id, other, WIDTH);
      }
    }
  }

  lemma {:induction false} NothingMatches(lib: Lib, c: Context, leases: seq<Lease>)
    requires c.tenantUid == c.tenantName && forall i :: 0 <= i < |leases| ==> Stranger(leases[i], c.tenantUid)
    ensures MatchFrom(lib, c, leases, None) == Ok(None) && Carriers(leases, c.tenantUid) == []
  {
    if leases != [] {
      assert Stranger(leases[0], c.tenantUid);
      NothingMatches(lib, c, leases[1..]);
    }
  }

  lemma ClaimantIsValid(lib: Lib, id: nat, d: Document)
    requires Usable(lib, d)
    ensures ValidContext(lib, Claimant(id, d))
  {
    hide LeaseName, DocumentNets, IsPrefix;
    var c := Claimant(id, d);
    assert DnsLabel("tenants", 63) && DnsLabel(Who(id), 30);
    forall i | 0 <= i < |c.slots| ensures DnsLabel(c.slots[i].slotId, 63) {
      assert SlotShape(lib.text, d.slots[i]);
    }
    forall i, j | 0 <= i < j < |c.slots|
      ensures LeaseName(lib, c.slots[i].slotId) != LeaseName(lib, c.slots[j].slotId)
    {
      assert Name(lib, d, i) != Name(lib, d, j);
    }
  }

  /** The first free slot, by its place in the pool. */
  lemma {:induction false} FirstFreeAt(lib: Lib, slots: seq<Slot>, leases: seq<Lease>, k: nat) returns (j: nat)
    requires k < |slots| && FindNamed(leases, LeaseName(lib, slots[k].slotId)).None?
    ensures j <= k && FirstFree(lib, slots, leases) == Some(slots[j])
    ensures FindNamed(leases, LeaseName(lib, slots[j].slotId)).None?
    ensures forall i :: 0 <= i < j ==> FindNamed(leases, LeaseName(lib, slots[i].slotId)).Some?
    decreases k
  {
    hide LeaseName, FindNamed;
    if FindNamed(leases, LeaseName(lib, slots[0].slotId)).None? {
      j := 0;
    } else {
      j := FirstFreeAt(lib, slots[1..], leases, k - 1);
      j := j + 1;
      forall i | 0 <= i < j ensures FindNamed(leases, LeaseName(lib, slots[i].slotId)).Some? {
        assert i > 0 ==> slots[i] == slots[1..][i - 1];
      }
    }
  }

  lemma LongerListing(store: Store, serial: Id, n: string, items: seq<Lease>)
    requires WellFormed(store, serial) && n in store && Listing(items, store - {n})
    ensures Listing(items + [store[n]], store)
  {
    var longer := items + [store[n]];
    assert store[n].name == Some(n) && longer[|items|] == store[n];
    forall m | m in store ensures store[m] in longer {
      if m != n {
        assert (store - {n})[m] in items;
      }
    }
  }

  lemma {:induction false} SomeListing(store: Store, serial: Id) returns (items: seq<Lease>)
    requires WellFormed(store, serial)
    ensures Listing(items, store)
    decreases |store|
  {
    if store == map[] {
      items := [];
    } else {
      hide Listing;
      var n :| n in store;
      var rest := store - {n};
      assert |rest| < |store| by {
        assert rest.Keys == store.Keys - {n};
      }
      items := SomeListing(rest, serial);
      LongerListing(store, serial, n, items);
      items := items + [store[n]];
    }
  }

  lemma ListedNames(store: Store, serial: Id, items: seq<Lease>, name: string)
    requires WellFormed(store, serial) && Listing(items, store)
    ensures FindNamed(items, name).Some? <==> name in store
  {
    if name in store {
      assert store[name] in items && store[name].name == Some(name);
    }
  }

  /** What a claimant decides when every earlier slot is taken and no Lease is its own. */
  lemma DecidesFirstFree(lib: Lib, id: nat, d: Document, store: Store, serial: Id, k: nat)
    returns (items: seq<Lease>, j: nat)
    requires Usable(lib, d) && WellFormed(store, serial) && k < |d.slots| && Name(lib, d, k) !in store
    requires forall n :: n in store ==> Stranger(store[n], Who(id))
    ensures Listing(items, store) && j <= k && Name(lib, d, j) !in store
    ensures forall i :: 0 <= i < j ==> Name(lib, d, i) in store
    ensures DecideClaim(lib, Claimant(id, d), items, None) == Ok(Create(PoolSlot(d.slots[j])))
  {
    ClaimantIsValid(lib, id, d);
    hide LeaseName, ValidContext, AzureCatalog.Accepts, Stranger, Word;
    var c := Claimant(id, d);
    items := SomeListing(store, serial);
    forall i | 0 <= i < |items| ensures Stranger(items[i], c.tenantUid) {
      assert items[i] == store[items[i].name.value];
    }
    NothingMatches(lib, c, items);
    forall i | 0 <= i < |d.slots|
      ensures FindNamed(items, LeaseName(lib, c.slots[i].slotId)).Some? <==> Name(lib, d, i) in store
    {
      ListedNames(store, serial, items, Name(lib, d, i));
    }
    j := FirstFreeAt(lib, c.slots, items, k);
  }

  // ---- runs ---------------------------------------------------------------------------------

  ghost predicate Reaches(lib: Lib, show: Net -> string, run: seq<Sys>, steps: seq<Step>, d: Document, e: Document) {
    Run(lib, show, run, steps) && ClaimsFrom(steps, d, e)
  }

  lemma Extend(lib: Lib, show: Net -> string, run: seq<Sys>, steps: seq<Step>, d: Document, e: Document,
               step: Step, s': Sys) returns (longer: seq<Sys>, more: seq<Step>)
    requires Reaches(lib, show, run, steps, d, e) && Next(lib, show, run[|steps|], step, s')
    requires step.BeginClaim? ==> step.d == d || step.d == e
    ensures Reaches(lib, show, longer, more, d, e) && |more| == |steps| + 1 && longer[|more|] == s'
  {
    hide Next, Initial;
    longer, more := run + [s'], steps + [step];
    forall i | 0 <= i < |more| ensures Next(lib, show, longer[i], more[i], longer[i + 1]) {
      if i < |steps| {
        assert longer[i] == run[i] && longer[i + 1] == run[i + 1] && more[i] == steps[i];
      }
    }
  }

  lemma ListStep(lib: Lib, show: Net -> string, s: Sys, id: nat, f: Document, items: seq<Lease>, j: nat)
    requires j < |f.slots| && id in s.claims && s.claims[id] == Begun(id, f) && Listing(items, s.store)
    requires DecideClaim(lib, Claimant(id, f), items, None) == Ok(Create(PoolSlot(f.slots[j])))
    ensures Next(lib, show, s, ListSlots(id, items),
                 s.(claims := s.claims[id := Begun(id, f).(phase := Creating(j))]))
  {
    hide LeaseName, DecideClaim, Word, Listing;
    assert Claimant(id, f).slots[j] == PoolSlot(f.slots[j]);
  }

  lemma CreateStep(lib: Lib, show: Net -> string, s: Sys, id: nat, f: Document, j: nat)
    requires j < |f.slots| && id in s.claims && s.claims[id] == Begun(id, f).(phase := Creating(j))
    requires Name(lib, f, j) !in s.store
    ensures Next(lib, show, s, CreateSlot(id),
                 Sys(s.store[Name(lib, f, j) := Made(lib, id, f, j, s.serial)], s.serial + 2, s.claims - {id}))
  {
    hide LeaseName, Word, NewLease, Stored;
    assert Claimant(id, f).slots[j] == PoolSlot(f.slots[j]);
  }

  /** Nothing stored belongs to the claimants `lo` up to `hi`, who are about to claim from `f`. */
  ghost predicate Waiting(s: Sys, f: Document, lo: nat, hi: nat) {
    && WellFormed(s.store, s.serial)
    && (forall id :: lo <= id < hi ==> id in s.claims && s.claims[id] == Begun(id, f))
    && forall id, n :: lo <= id < hi && n in s.store ==> Stranger(s.store[n], Who(id))
  }

  /** One claim carried out alone: it takes the first free slot of its catalog. */
  lemma ClaimNext(lib: Lib, show: Net -> string, run: seq<Sys>, steps: seq<Step>, d: Document, e: Document,
                  f: Document, id: nat, k: nat) returns (longer: seq<Sys>, more: seq<Step>, j: nat)
    requires Reaches(lib, show, run, steps, d, e) && Usable(lib, f) && k < |f.slots|
    requires Waiting(run[|steps|], f, id, id + 1) && Name(lib, f, k) !in run[|steps|].store
    ensures Reaches(lib, show, longer, more, d, e) && j <= k
    ensures var s, last := run[|steps|], longer[|more|];
            && Name(lib, f, j) !in s.store && (forall i :: 0 <= i < j ==> Name(lib, f, i) in s.store)
            && last == Sys(s.store[Name(lib, f, j) := Made(lib, id, f, j, s.serial)], s.serial + 2, s.claims - {id})
  {
    var s := run[|steps|];
    var items: seq<Lease>;
    items, j := DecidesFirstFree(lib, id, f, s.store, s.serial, k);
    hide Next, LeaseName, DecideClaim, Stranger, Word, Usable, WellFormed, Listing, Made, Begun, Reaches, Claimant;
    ListStep(lib, show, s, id, f, items, j);
    var listed := s.(claims := s.claims[id := Begun(id, f).(phase := Creating(j))]);
    longer, more := Extend(lib, show, run, steps, d, e, ListSlots(id, items), listed);
    CreateStep(lib, show, listed, id, f, j);
    assert listed.claims - {id} == s.claims - {id};
    longer, more := Extend(lib, show, longer, more, d, e, CreateSlot(id),
                           Sys(s.store[Name(lib, f, j) := Made(lib, id, f, j, s.serial)], s.serial + 2,
                               s.claims - {id}));
  }

  function FreeBelow(lib: Lib, store: Store, f: Document, k: nat): set<nat>
    requires k <= |f.slots|
  {
    set i: nat | i < k && Name(lib, f, i) !in store
  }

  /** The stored Lease of slot `k` was made for it by someone. */
  ghost predicate Holds(lib: Lib, store: Store, f: Document, k: nat)
    requires k < |f.slots|
  {
    Name(lib, f, k) in store
    && exists id, serial :: store[Name(lib, f, k)] == Made(lib, id, f, k, serial)
  }

  /** What claims only add to: the store, and nothing of other claimants. */
  ghost predicate Adds(s: Sys, s': Sys, lo: nat, hi: nat) {
    && WellFormed(s'.store, s'.serial)
    && (forall n :: n in s.store ==> n in s'.store && s'.store[n] == s.store[n])
    && (forall id :: id in s.claims && !(lo <= id < hi) ==> id in s'.claims && s'.claims[id] == s.claims[id])
    && (forall id: nat, n :: id < Words(WIDTH) && !(lo <= id < hi) && n in s'.store && n !in s.store ==>
          Stranger(s'.store[n], Who(id)))
  }

  lemma MadeAdds(lib: Lib, s: Sys, f: Document, id: nat, j: nat, hi: nat)
    requires WellFormed(s.store, s.serial) && j < |f.slots| && Name(lib, f, j) !in s.store && id < hi <= Words(WIDTH)
    ensures Adds(s, Sys(s.store[Name(lib, f, j) := Made(lib, id, f, j, s.serial)], s.serial + 2, s.claims - {id}),
                 id, hi)
  {
    hide LeaseName, Word, Words, Stranger;
    assert Stamped(Made(lib, id, f, j, s.serial), Name(lib, f, j), s.serial + 2);
    forall other: nat | other < Words(WIDTH) && other != id
      ensures Stranger(Made(lib, id, f, j, s.serial), Who(other))
    {
      MadeForOne(lib, id, f, j, s.serial, other);
    }
  }

  lemma AddsMore(s: Sys, t: Sys, u: Sys, lo: nat, mid: nat, hi: nat)
    requires lo <= mid <= hi && Adds(s, t, lo, hi) && Adds(t, u, mid, hi)
    ensures Adds(s, u, lo, hi)
  {
    hide Stranger, Word, Words, WellFormed;
  }

  /** As many claims as there are free slots up to `k` make sure that slot `k` is claimed. */
  lemma {:induction false} Fill(lib: Lib, show: Net -> string, run: seq<Sys>, steps: seq<Step>, d: Document,
                                e: Document, f: Document, lo: nat, hi: nat, k: nat)
    returns (longer: seq<Sys>, more: seq<Step>)
    requires Reaches(lib, show, run, steps, d, e) && Usable(lib, f) && k < |f.slots|
    requires Waiting(run[|steps|], f, lo, hi) && hi <= Words(WIDTH) && Name(lib, f, k) !in run[|steps|].store
    requires |FreeBelow(lib, run[|steps|].store, f, k)| < hi - lo
    ensures Reaches(lib, show, longer, more, d, e) && Adds(run[|steps|], longer[|more|], lo, hi)
    ensures Holds(lib, longer[|more|].store, f, k)
    decreases hi - lo
  {
    hide Next, Initial, Usable, Waiting, Adds, FreeBelow, Holds, Made, Name, Words;
    var s := run[|steps|];
    WaitingParts(s, f, lo, hi);
    var j: nat;
    longer, more, j := ClaimNext(lib, show, run, steps, d, e, f, lo, k);
    AfterClaim(lib, s, longer[|more|], f, lo, hi, j, k);
    if j < k {
      var t := longer[|more|];
      longer, more := Fill(lib, show, longer, more, d, e, f, lo + 1, hi, k);
      AddsMore(s, t, longer[|more|], lo, lo + 1, hi);
    }
  }

  lemma AfterClaim(lib: Lib, s: Sys, t: Sys, f: Document, lo: nat, hi: nat, j: nat, k: nat)
    requires Usable(lib, f) && j <= k < |f.slots| && lo < hi <= Words(WIDTH)
    requires Waiting(s, f, lo, hi) && Name(lib, f, k) !in s.store && Name(lib, f, j) !in s.store
    requires |FreeBelow(lib, s.store, f, k)| < hi - lo
    requires t == Sys(s.store[Name(lib, f, j) := Made(lib, lo, f, j, s.serial)], s.serial + 2, s.claims - {lo})
    ensures Adds(s, t, lo, hi)
    ensures j < k ==> && Name(lib, f, k) !in t.store && Waiting(t, f, lo + 1, hi)
                      && |FreeBelow(lib, t.store, f, k)| < hi - (lo + 1)
    ensures j == k ==> Holds(lib, t.store, f, k)
  {
    hide *;
    WaitingParts(s, f, lo, hi);
    MadeAdds(lib, s, f, lo, j, lo + 1);
    MadeAdds(lib, s, f, lo, j, hi);
    if j < k {
      NamesDiffer(lib, f, j, k);
      FreeShrinks(lib, s.store, t.store, f, k, j);
      StillWaiting(s, t, f, lo, hi);
    } else {
      HoldsNow(lib, t.store, f, k, lo, s.serial);
    }
  }

  lemma NamesDiffer(lib: Lib, f: Document, j: nat, k: nat)
    requires Usable(lib, f) && j < k < |f.slots|
    ensures Name(lib, f, j) != Name(lib, f, k)
  {
    hide AzureCatalog.Accepts, Name;
  }

  lemma HoldsNow(lib: Lib, store: Store, f: Document, k: nat, id: nat, serial: Id)
    requires k < |f.slots| && Name(lib, f, k) in store && store[Name(lib, f, k)] == Made(lib, id, f, k, serial)
    ensures Holds(lib, store, f, k)
  {
    hide Name, Made;
  }

  lemma WaitingParts(s: Sys, f: Document, lo: nat, hi: nat)
    requires lo < hi && Waiting(s, f, lo, hi)
    ensures Waiting(s, f, lo, lo + 1) && WellFormed(s.store, s.serial)
  {
    hide Stranger, Word, WellFormed;
  }

  lemma FreeShrinks(lib: Lib, store: Store, after: Store, f: Document, k: nat, j: nat)
    requires j < k < |f.slots| && Name(lib, f, j) !in store && Name(lib, f, j) in after
    requires forall n :: n in store ==> n in after
    ensures |FreeBelow(lib, after, f, k)| < |FreeBelow(lib, store, f, k)|
  {
    hide LeaseName;
    var free := FreeBelow(lib, store, f, k);
    assert j in free && FreeBelow(lib, after, f, k) <= free - {j};
    SubsetSize(FreeBelow(lib, after, f, k), free - {j});
  }

  lemma StillWaiting(s: Sys, t: Sys, f: Document, lo: nat, hi: nat)
    requires Waiting(s, f, lo, hi) && Adds(s, t, lo, lo + 1) && hi <= Words(WIDTH)
    ensures Waiting(t, f, lo + 1, hi)
  {
    hide Stranger, Word, Words, WellFormed;
  }

  // ---- two catalogs that are not compatible ------------------------------------------------

  function Side(d: Document, e: Document, split: nat, id: nat): Document {
    if id < split then d else e
  }

  function Both(d: Document, e: Document, split: nat, n: nat): map<nat, ClaimCall> {
    map id: nat | id < n :: Begun(id, Side(d, e, split, id))
  }

  /** With no Lease stored any accepted catalog may be claimed from. */
  lemma BeginOnEmpty(lib: Lib, show: Net -> string, claims: map<nat, ClaimCall>, id: nat, f: Document)
    requires id !in claims && AzureCatalog.Accepts(lib.text, f)
    ensures Next(lib, show, Sys(map[], 1, claims), BeginClaim(id, Claimant(id, f), f, []),
                 Sys(map[], 1, claims[id := Begun(id, f)]))
  {
    hide AzureCatalog.Accepts, Word;
  }

  /** All claims are validated before the first Lease exists. */
  lemma {:induction false} BeginAll(lib: Lib, show: Net -> string, d: Document, e: Document, split: nat, n: nat)
    returns (run: seq<Sys>, steps: seq<Step>)
    requires AzureCatalog.Accepts(lib.text, d) && AzureCatalog.Accepts(lib.text, e)
    ensures Reaches(lib, show, run, steps, d, e) && run[|steps|] == Sys(map[], 1, Both(d, e, split, n))
  {
    hide AzureCatalog.Accepts, Next, Begun;
    if n == 0 {
      run, steps := [Sys(map[], 1, map[])], [];
      assert Both(d, e, split, 0) == map[];
    } else {
      run, steps := BeginAll(lib, show, d, e, split, n - 1);
      var f := Side(d, e, split, n - 1);
      BeginOnEmpty(lib, show, Both(d, e, split, n - 1), n - 1, f);
      assert Both(d, e, split, n) == Both(d, e, split, n - 1)[n - 1 := Begun(n - 1, f)];
      run, steps := Extend(lib, show, run, steps, d, e, BeginClaim(n - 1, Claimant(n - 1, f), f, []),
                           Sys(map[], 1, Both(d, e, split, n)));
    }
  }

  lemma {:induction false} FewFree(lib: Lib, store: Store, f: Document, k: nat)
    requires k <= |f.slots|
    ensures |FreeBelow(lib, store, f, k)| <= k
  {
    if k > 0 {
      FewFree(lib, store, f, k - 1);
      hide Name;
      assert FreeBelow(lib, store, f, k) <= FreeBelow(lib, store, f, k - 1) + {k - 1};
      SubsetSize(FreeBelow(lib, store, f, k), FreeBelow(lib, store, f, k - 1) + {k - 1});
    }
  }

  lemma BothWait(d: Document, e: Document, split: nat, n: nat)
    requires split <= n
    ensures Waiting(Sys(map[], 1, Both(d, e, split, n)), d, 0, split)
    ensures forall id :: split <= id < n ==> id in Both(d, e, split, n) && Both(d, e, split, n)[id] == Begun(id, e)
  {
    hide Begun;
  }

  lemma OthersWait(s: Sys, t: Sys, e: Document, lo: nat, hi: nat, top: nat)
    requires s.store == map[] && Adds(s, t, lo, hi) && lo <= hi <= top <= Words(WIDTH)
    requires forall id :: hi <= id < top ==> id in s.claims && s.claims[id] == Begun(id, e)
    ensures Waiting(t, e, hi, top)
  {
    hide Begun, Stranger, Word, Words, WellFormed;
  }

  lemma ReleaseStep(lib: Lib, show: Net -> string, s: Sys, f: Document, lo: nat, hi: nat, name: string)
    requires Waiting(s, f, lo, hi)
    ensures Next(lib, show, s, ReleaseName(name), s.(store := s.store - {name}))
    ensures Waiting(s.(store := s.store - {name}), f, lo, hi)
  {
    hide Begun, Stranger, Word;
  }

  /** A Lease made for a slot has that slot's networks. */
  lemma MadeNets(lib: Lib, id: nat, f: Document, k: nat, serial: Id)
    requires RejectsEmpty(lib) && AzureCatalog.Accepts(lib.text, f) && k < |f.slots|
    ensures AzureName(Name(lib, f, k)) && HasNets(lib, Made(lib, id, f, k, serial))
    ensures LeaseNets(lib, Made(lib, id, f, k, serial)) == SlotNets(lib, f.slots[k])
  {
    hide AzureCatalog.Accepts, LeaseName, AzureName, HasNets, LeaseNets, NewLease, Stored, Word, RejectsEmpty;
    CreatedNets(lib, Claimant(id, f), f, k, serial, serial + 1);
  }

  lemma HeldNets(lib: Lib, store: Store, f: Document, k: nat)
    requires RejectsEmpty(lib) && AzureCatalog.Accepts(lib.text, f) && k < |f.slots| && Holds(lib, store, f, k)
    ensures Name(lib, f, k) in store && AzureName(Name(lib, f, k)) && HasNets(lib, store[Name(lib, f, k)])
    ensures LeaseNets(lib, store[Name(lib, f, k)]) == SlotNets(lib, f.slots[k])
  {
    hide AzureCatalog.Accepts, Name, AzureName, HasNets, LeaseNets, Made, RejectsEmpty, SlotNets;
    var id, serial :| store[Name(lib, f, k)] == Made(lib, id, f, k, serial);
    MadeNets(lib, id, f, k, serial);
  }

  lemma HeldCollide(lib: Lib, store: Store, d: Document, k: nat, e: Document, m: nat)
    requires RejectsEmpty(lib) && AzureCatalog.Accepts(lib.text, d) && AzureCatalog.Accepts(lib.text, e)
    requires k < |d.slots| && m < |e.slots| && Name(lib, d, k) != Name(lib, e, m)
    requires Holds(lib, store, d, k) && Holds(lib, store, e, m)
    requires !Clear(SlotNets(lib, d.slots[k]), SlotNets(lib, e.slots[m]))
    ensures !AddressesApart(lib, store)
  {
    HeldNets(lib, store, d, k);
    HeldNets(lib, store, e, m);
    hide AzureCatalog.Accepts, Name, AzureName, HasNets, LeaseNets, Holds, Clear, Collide;
    ClearMeansNoCollision(lib, store[Name(lib, d, k)], store[Name(lib, e, m)]);
  }

  lemma HoldsStays(lib: Lib, s: Sys, t: Sys, f: Document, k: nat, lo: nat, hi: nat)
    requires k < |f.slots| && Holds(lib, s.store, f, k) && Adds(s, t, lo, hi)
    ensures Holds(lib, t.store, f, k)
  {
    hide Name, Made, Stranger, Word, Words, WellFormed;
  }

  lemma HoldsWithout(lib: Lib, store: Store, f: Document, k: nat, name: string)
    requires k < |f.slots| && Holds(lib, store, f, k) && name != Name(lib, f, k)
    ensures Holds(lib, store - {name}, f, k)
  {
    hide Name, Made;
  }

  /** All claims begin together; the first catalog fills up to slot `k`, then the second up to slot `m`. */
  lemma RivalRun(lib: Lib, show: Net -> string, d: Document, e: Document, k: nat, m: nat)
    returns (run: seq<Sys>, steps: seq<Step>)
    requires Usable(lib, d) && Usable(lib, e)
    requires k < |d.slots| && m < |e.slots| && Name(lib, d, k) != Name(lib, e, m)
    ensures Reaches(lib, show, run, steps, d, e)
    ensures Holds(lib, run[|steps|].store, d, k) && Holds(lib, run[|steps|].store, e, m)
  {
    var split, n := k + 1, k + m + 2;
    EnoughTenants(lib, d, e, n - 1);
    hide AzureCatalog.Accepts, Next, Initial, Name, Holds, Adds, Waiting, FreeBelow, Words, Begun, Made;
    run, steps := BeginAll(lib, show, d, e, split, n);
    var s := run[|steps|];
    BothWait(d, e, split, n);
    FewFree(lib, s.store, d, k);
    run, steps := Fill(lib, show, run, steps, d, e, d, 0, split, k);
    var t := run[|steps|];
    OthersWait(s, t, e, 0, split, n);
    ReleaseStep(lib, show, t, e, split, n, Name(lib, e, m));
    var u := t.(store := t.store - {Name(lib, e, m)});
    HoldsWithout(lib, t.store, d, k, Name(lib, e, m));
    run, steps := Extend(lib, show, run, steps, d, e, ReleaseName(Name(lib, e, m)), u);
    FewFree(lib, u.store, e, m);
    run, steps := Fill(lib, show, run, steps, d, e, e, split, n, m);
    HoldsStays(lib, u, run[|steps|], d, k, split, n);
  }

  /**
   * Claims from two catalogs, any number of them under way at once, keep every address in one live
   * Lease in all runs exactly when the catalogs are compatible. A catalog is always compatible with itself.
   */
  lemma ApartIffCompatible(lib: Lib, show: Net -> string, d: Document, e: Document)
    requires RejectsEmpty(lib) && Usable(lib, d) && Usable(lib, e)
    ensures AlwaysApart(lib, show, d, e) <==> Compatible(lib, d, e)
  {
    if Compatible(lib, d, e) {
      CompatibleIsEnough(lib, show, d, e);
    } else {
      var k, m :| 0 <= k < |d.slots| && 0 <= m < |e.slots|
        && LeaseName(lib, d.slots[k].slotId) != LeaseName(lib, e.slots[m].slotId)
        && !Clear(SlotNets(lib, d.slots[k]), SlotNets(lib, e.slots[m]));
      var run, steps := RivalRun(lib, show, d, e, k, m);
      HeldCollide(lib, run[|steps|].store, d, k, e, m);
    }
  }

  // ---- two such catalogs -------------------------------------------------------------------

  function AllOf(c: char): Digest {
    seq(64, _ => c)
  }

  /** Two networks with names, and a digest that tells the two slot ids apart. */
  function TwoNets(): Lib {
    Lib(Text(s => if s == "p" then Some(Net(0, 28)) else if s == "q" then Some(Net(16, 28)) else None, s => None),
        s => if s == "azure-a" then AllOf('0') else AllOf('1'))
  }

  function RivalDocument(id: string): Document {
    Document(1, [], [AzureSlot(id, "p", "q")])
  }

  /** The two networks are blocks of sixteen, one after the other. */
  lemma TwoBlocks()
    ensures Disjoint(Net(0, 28), Net(16, 28))
  {
    assert Pow2(1) == 2 && Pow2(2) == 4 && Pow2(3) == 8 && Pow2(4) == 16;
    assert Network(Net(0, 28)) == 0 && Network(Net(16, 28)) == 16;
  }

  lemma TwoPrefixes()
    ensures var t := TwoNets().text;
            && IsPrefix(t, "p") && IsPrefix(t, "q") && NetOf(t, "p") == Net(0, 28) && NetOf(t, "q") == Net(16, 28)
  {
    assert Pow2(1) == 2 && Pow2(2) == 4 && Pow2(3) == 8 && Pow2(4) == 16;
    assert Network(Net(0, 28)) == 0 && Network(Net(16, 28)) == 16;
  }

  lemma RivalNets(id: string)
    ensures DocumentNets(TwoNets().text, RivalDocument(id)) == [Net(0, 28), Net(16, 28)]
  {
    TwoPrefixes();
    hide IsPrefix, NetOf, TwoNets;
    assert CidrTexts(Pool(RivalDocument(id).slots)) == ["p", "q"];
  }

  lemma RivalShaped(id: string)
    requires id == "azure-a" || id == "azure-b"
    ensures SlotShape(TwoNets().text, AzureSlot(id, "p", "q"))
  {
    TwoPrefixes();
    hide IsPrefix, NetOf, TwoNets;
    assert DnsLabel(id, 63) && "azure-" <= id;
  }

  lemma RivalAccepted(id: string)
    requires id == "azure-a" || id == "azure-b"
    ensures Usable(TwoNets(), RivalDocument(id))
  {
    TwoBlocks();
    RivalNets(id);
    RivalShaped(id);
    hide SlotShape, DocumentNets, Disjoint, TwoNets, Name, Overlaps;
    assert RivalDocument(id).slots == [AzureSlot(id, "p", "q")];
  }

  lemma RivalsIncompatible()
    ensures !Compatible(TwoNets(), RivalDocument("azure-a"), RivalDocument("azure-b"))
  {
    var lib, d, e := TwoNets(), RivalDocument("azure-a"), RivalDocument("azure-b");
    assert LeaseName(lib, "azure-a") != LeaseName(lib, "azure-b") by {
      assert AllOf('0')[2] == '0' && AllOf('1')[2] == '1' && |AZURE_PREFIX| == 18;
      assert LeaseName(lib, "azure-a")[20] == '0' && LeaseName(lib, "azure-b")[20] == '1';
    }
    DisjointIffNoSharedAddress(Net(0, 28), Net(0, 28));
    NotDisjointFromItself(Net(0, 28));
    TwoPrefixes();
    hide LeaseName, Overlaps, Disjoint, ShareAddress, TwoNets, NetOf;
    assert SlotNets(lib, d.slots[0])[0] == Net(0, 28) == SlotNets(lib, e.slots[0])[0];
    assert !Clear(SlotNets(lib, d.slots[0]), SlotNets(lib, e.slots[0]));
  }

  /** Two accepted catalogs that name the same networks differently: claims from both at once collide. */
  lemma RenamedSlotsCollide(show: Net -> string)
    ensures var lib, d, e := TwoNets(), RivalDocument("azure-a"), RivalDocument("azure-b");
            Usable(lib, d) && Usable(lib, e) && !AlwaysApart(lib, show, d, e)
  {
    RivalAccepted("azure-a");
    RivalAccepted("azure-b");
    RivalsIncompatible();
    hide Usable, AlwaysApart, Compatible, RivalDocument;
    ApartIffCompatible(TwoNets(), show, RivalDocument("azure-a"), RivalDocument("azure-b"));
  }
}
