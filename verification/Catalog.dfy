/** Regular expressions as the admission rules write them; a pattern anchored at both ends matches whole texts. */
module Regex {
  datatype Range = Range(low: char, high: char)

  datatype Regex =
    | Class(ranges: seq<Range>)
    | Cat(first: Regex, second: Regex)
    | Maybe(inner: Regex)
    | Repeat(each: Regex, low: nat, high: nat)

  predicate In(ranges: seq<Range>, c: char) {
    exists i :: 0 <= i < |ranges| && ranges[i].low <= c <= ranges[i].high
  }

  ghost predicate Matches(r: Regex, s: string)
    decreases r, 0
  {
    match r
    case Class(ranges) => |s| == 1 && In(ranges, s[0])
    case Cat(a, b) => exists k :: 0 <= k <= |s| && Matches(a, s[..k]) && Matches(b, s[k..])
    case Maybe(a) => s == "" || Matches(a, s)
    case Repeat(a, low, high) => exists n: nat :: low <= n <= high && Times(a, n, s)
  }

  ghost predicate Times(r: Regex, n: nat, s: string)
    decreases r, n + 1
  {
    if n == 0 then s == "" else exists k :: 0 <= k <= |s| && Matches(r, s[..k]) && Times(r, n - 1, s[k..])
  }

  ghost predicate AllIn(ranges: seq<Range>, s: string) {
    forall i :: 0 <= i < |s| ==> In(ranges, s[i])
  }

  lemma {:induction false} TimesClass(ranges: seq<Range>, n: nat, s: string)
    ensures Times(Class(ranges), n, s) <==> |s| == n && AllIn(ranges, s)
    decreases n
  {
    if n > 0 {
      if Times(Class(ranges), n, s) {
        var k :| 0 <= k <= |s| && Matches(Class(ranges), s[..k]) && Times(Class(ranges), n - 1, s[k..]);
        TimesClass(ranges, n - 1, s[k..]);
        assert s[0] == s[..k][0];
        forall i | 1 <= i < |s| ensures In(ranges, s[i]) {
          assert s[i] == s[k..][i - 1];
        }
      }
      if |s| == n && AllIn(ranges, s) {
        TimesClass(ranges, n - 1, s[1..]);
        assert s[..1][0] == s[0] && Matches(Class(ranges), s[..1]);
      }
    }
  }

  lemma RepeatClass(ranges: seq<Range>, low: nat, high: nat, s: string)
    ensures Matches(Repeat(Class(ranges), low, high), s) <==> low <= |s| <= high && AllIn(ranges, s)
  {
    forall n: nat ensures Times(Class(ranges), n, s) <==> |s| == n && AllIn(ranges, s) {
      TimesClass(ranges, n, s);
    }
    if low <= |s| <= high && AllIn(ranges, s) {
      assert Times(Class(ranges), |s|, s);
    }
  }

  lemma EndsInClass(r: Regex, ranges: seq<Range>, s: string)
    ensures Matches(Cat(r, Class(ranges)), s)
            <==> |s| >= 1 && Matches(r, s[..|s| - 1]) && In(ranges, s[|s| - 1])
  {
    if Matches(Cat(r, Class(ranges)), s) {
      var k :| 0 <= k <= |s| && Matches(r, s[..k]) && Matches(Class(ranges), s[k..]);
      assert k == |s| - 1;
    }
    if |s| >= 1 && Matches(r, s[..|s| - 1]) && In(ranges, s[|s| - 1]) {
      assert Matches(Class(ranges), s[|s| - 1..]);
    }
  }

  /** Regexes of one fixed length, and the class each position must be in. */
  predicate Fixed(r: Regex) {
    match r
    case Class(_) => true
    case Cat(a, b) => Fixed(a) && Fixed(b)
    case Maybe(_) => false
    case Repeat(a, low, high) => a.Class? && low == high
  }

  function Positions(r: Regex): seq<seq<Range>>
    requires Fixed(r)
  {
    match r
    case Class(ranges) => [ranges]
    case Cat(a, b) => Positions(a) + Positions(b)
    case Repeat(a, low, _) => seq(low, _ => a.ranges)
  }

  ghost predicate Positioned(classes: seq<seq<Range>>, s: string) {
    |s| == |classes| && forall i :: 0 <= i < |s| ==> In(classes[i], s[i])
  }

  lemma PositionedSplit(a: seq<seq<Range>>, b: seq<seq<Range>>, s: string)
    requires |s| == |a| + |b|
    ensures Positioned(a + b, s) <==> Positioned(a, s[..|a|]) && Positioned(b, s[|a|..])
  {
    if Positioned(a, s[..|a|]) && Positioned(b, s[|a|..]) {
      forall i | 0 <= i < |s| ensures In((a + b)[i], s[i]) {
        if i >= |a| {
          assert s[i] == s[|a|..][i - |a|];
        } else {
          assert s[i] == s[..|a|][i];
        }
      }
    }
    if Positioned(a + b, s) {
      forall i | 0 <= i < |b| ensures In(b[i], s[|a|..][i]) {
        assert (a + b)[|a| + i] == b[i] && s[|a| + i] == s[|a|..][i];
      }
      forall i | 0 <= i < |a| ensures In(a[i], s[..|a|][i]) {
        assert (a + b)[i] == a[i];
      }
    }
  }

  /** A fixed-length pattern matches exactly the texts that fit it position by position. */
  lemma {:induction false} FixedMatches(r: Regex, s: string)
    requires Fixed(r)
    ensures Matches(r, s) <==> Positioned(Positions(r), s)
    decreases r
  {
    match r
    case Class(ranges) =>
    case Repeat(a, low, high) =>
      TimesClass(a.ranges, low, s);
    case Cat(a, b) =>
      if Matches(r, s) {
        var k :| 0 <= k <= |s| && Matches(a, s[..k]) && Matches(b, s[k..]);
        FixedMatches(a, s[..k]);
        FixedMatches(b, s[k..]);
        PositionedSplit(Positions(a), Positions(b), s);
      }
      if Positioned(Positions(r), s) {
        var k := |Positions(a)|;
        PositionedSplit(Positions(a), Positions(b), s);
        FixedMatches(a, s[..k]);
        FixedMatches(b, s[k..]);
      }
  }
}

/** database-controller/src/api.rs: the catalog, its Rust validator and its admission rules. */
module Catalog {
  import opened Base
  import opened Regex

  datatype Entry = Entry(name: string, instances: int, deleting: bool)

  datatype Spec = Spec(tenantName: string, tenantUid: string, closed: bool, entries: map<string, Entry>)

  datatype Proof = Proof(terminalVerified: bool, pending: seq<string>)

  datatype EntryStatus = EntryStatus(logicalUid: string, finalization: Option<Proof>)

  datatype Status = Status(entries: map<string, EntryStatus>)

  datatype CatalogError = TenantName | TenantUid | Capacity | LogicalUid | Name | Instances
    | IdentityOrClosure | EntryMutation | Removal | Conflict

  const DATABASE_LIMIT := 3

  predicate ValidName(s: string) {
    DnsLabel(s, 30)
  }

  predicate ValidLogicalUid(s: string) {
    |s| == 36 && forall i :: 0 <= i < 36 ==>
      if i == 8 || i == 13 || i == 18 || i == 23 then s[i] == '-' else Digit(s[i]) || 'a' <= s[i] <= 'f'
  }

  // ---- the patterns of the admission rules -------------------------------------------------

  const ALNUM := [Range('a', 'z'), Range('0', '9')]
  const INNER := [Range('-', '-'), Range('a', 'z'), Range('0', '9')]
  const HEX := [Range('a', 'f'), Range('0', '9')]
  const DASH := [Range('-', '-')]

  function NamePattern(): Regex {
    Cat(Class(ALNUM), Maybe(Cat(Repeat(Class(INNER), 0, 28), Class(ALNUM))))
  }

  function Hex(n: nat): Regex {
    Repeat(Class(HEX), n, n)
  }

  function UidPattern(): Regex {
    Cat(Hex(8), Cat(Class(DASH), Cat(Hex(4), Cat(Class(DASH), Cat(Hex(4), Cat(Class(DASH),
      Cat(Hex(4), Cat(Class(DASH), Hex(12)))))))))
  }

  lemma Classes(c: char)
    ensures In(ALNUM, c) <==> Lower(c) || Digit(c)
    ensures In(INNER, c) <==> Lower(c) || Digit(c) || c == '-'
    ensures In(HEX, c) <==> 'a' <= c <= 'f' || Digit(c)
    ensures In(DASH, c) <==> c == '-'
  {
    if Lower(c) {
      assert ALNUM[0].low <= c <= ALNUM[0].high && INNER[1].low <= c <= INNER[1].high;
    }
    if Digit(c) {
      assert ALNUM[1].low <= c <= ALNUM[1].high && INNER[2].low <= c <= INNER[2].high;
      assert HEX[1].low <= c <= HEX[1].high;
    }
    if 'a' <= c <= 'f' {
      assert HEX[0].low <= c <= HEX[0].high;
    }
    if c == '-' {
      assert DASH[0].low <= c <= DASH[0].high && INNER[0].low <= c <= INNER[0].high;
    }
  }

  /** The rest of a name after its first character. */
  lemma NameTail(s: string)
    ensures Matches(Cat(Repeat(Class(INNER), 0, 28), Class(ALNUM)), s)
            <==> 1 <= |s| <= 29 && AllIn(INNER, s[..|s| - 1]) && In(ALNUM, s[|s| - 1])
  {
    hide Matches, In;
    EndsInClass(Repeat(Class(INNER), 0, 28), ALNUM, s);
    if |s| >= 1 {
      RepeatClass(INNER, 0, 28, s[..|s| - 1]);
    }
  }

  /** The rule's name pattern accepts exactly what the byte loop accepts. */
  lemma NamePatternMeansValidName(s: string)
    ensures Matches(NamePattern(), s) <==> ValidName(s)
  {
    hide Matches, In;
    forall i | 0 <= i < |s| ensures In(ALNUM, s[i]) <==> Lower(s[i]) || Digit(s[i]) {
      Classes(s[i]);
    }
    forall i | 0 <= i < |s| ensures In(INNER, s[i]) <==> Lower(s[i]) || Digit(s[i]) || s[i] == '-' {
      Classes(s[i]);
    }
    NameShape(s);
    if |s| >= 2 {
      NameTail(s[1..]);
      assert forall i :: 1 <= i < |s| - 1 ==> s[i] == s[1..][..|s| - 2][i - 1];
    }
  }

  lemma NameShape(s: string)
    ensures Matches(NamePattern(), s)
            <==> |s| >= 1 && In(ALNUM, s[0])
                 && (|s| == 1 || Matches(Cat(Repeat(Class(INNER), 0, 28), Class(ALNUM)), s[1..]))
  {
    var tail := Cat(Repeat(Class(INNER), 0, 28), Class(ALNUM));
    if Matches(NamePattern(), s) {
      var k :| 0 <= k <= |s| && Matches(Class(ALNUM), s[..k]) && Matches(Maybe(tail), s[k..]);
      assert s[..k][0] == s[0];
    }
    if |s| >= 1 && In(ALNUM, s[0]) && (|s| == 1 || Matches(tail, s[1..])) {
      assert s[..1][0] == s[0] && Matches(Class(ALNUM), s[..1]) && Matches(Maybe(tail), s[1..]);
    }
  }

  predicate DashAt(i: int) {
    i == 8 || i == 13 || i == 18 || i == 23
  }

  lemma UidPositions()
    ensures Fixed(UidPattern()) && |Positions(UidPattern())| == 36
    ensures forall i :: 0 <= i < 36 ==> Positions(UidPattern())[i] == if DashAt(i) then DASH else HEX
  {
    var p4 := Cat(Hex(4), Cat(Class(DASH), Hex(12)));
    assert Positions(p4) == Positions(Hex(4)) + ([DASH] + Positions(Hex(12)));
    var p3 := Cat(Hex(4), Cat(Class(DASH), p4));
    assert Positions(p3) == Positions(Hex(4)) + ([DASH] + Positions(p4));
    var p2 := Cat(Hex(4), Cat(Class(DASH), p3));
    assert Positions(p2) == Positions(Hex(4)) + ([DASH] + Positions(p3));
    assert UidPattern() == Cat(Hex(8), Cat(Class(DASH), p2));
    assert Positions(UidPattern()) == Positions(Hex(8)) + ([DASH] + Positions(p2));
  }

  /** The rule's UUID pattern accepts exactly what the byte loop accepts. */
  lemma UidPatternMeansValidUid(s: string)
    ensures Matches(UidPattern(), s) <==> ValidLogicalUid(s)
  {
    hide Matches, In, UidPattern;
    UidPositions();
    FixedMatches(UidPattern(), s);
    var classes := Positions(UidPattern());
    if |s| == 36 {
      forall i | 0 <= i < 36
        ensures In(classes[i], s[i]) <==> if DashAt(i) then s[i] == '-' else Digit(s[i]) || 'a' <= s[i] <= 'f'
      {
        Classes(s[i]);
      }
    }
  }

  // ---- the Rust validator ------------------------------------------------------------------

  ghost predicate UniqueNames(entries: map<string, Entry>) {
    forall a, b :: a in entries && b in entries && entries[a].name == entries[b].name ==> a == b
  }

  predicate ValidEntry(uid: string, e: Entry) {
    ValidLogicalUid(uid) && ValidName(e.name) && 1 <= e.instances <= 3
  }

  ghost predicate ValidSpec(spec: Spec) {
    && ValidName(spec.tenantName) && spec.tenantUid != "" && |spec.entries| <= DATABASE_LIMIT
    && (forall uid :: uid in spec.entries ==> ValidEntry(uid, spec.entries[uid]))
    && UniqueNames(spec.entries)
  }

  // ---- entries are visited in key order ----------------------------------------------------

  /** The order of map keys: by the first character that differs, a prefix before what extends it. */
  predicate Below(a: string, b: string) {
    b != "" && (a == "" || a[0] < b[0] || (a[0] == b[0] && Below(a[1..], b[1..])))
  }

  lemma {:induction false} BelowIsTotal(a: string, b: string)
    ensures a == b || Below(a, b) || Below(b, a)
  {
    if a != "" && b != "" && a[0] == b[0] {
      assert a == [a[0]] + a[1..] && b == [b[0]] + b[1..];
      BelowIsTotal(a[1..], b[1..]);
    }
  }

  lemma {:induction false} BelowIsStrict(a: string, b: string)
    ensures !(Below(a, b) && Below(b, a)) && !Below(a, a)
  {
    if a != "" {
      BelowIsStrict(a[1..], if b == "" then "" else b[1..]);
    }
  }

  lemma {:induction false} BelowIsTransitive(a: string, b: string, c: string)
    requires Below(a, b) && Below(b, c)
    ensures Below(a, c)
  {
    if a != "" && a[0] == b[0] == c[0] {
      BelowIsTransitive(a[1..], b[1..], c[1..]);
    }
  }

  /** The visited keys come before all others. */
  ghost predicate InOrder(keys: set<string>, todo: set<string>) {
    todo <= keys && forall a, b :: a in keys && a !in todo && b in todo ==> Below(a, b)
  }

  /** `uid` is next, and what comes before it has been visited. */
  ghost predicate IsNext(keys: set<string>, todo: set<string>, uid: string) {
    uid in todo && forall other :: other in keys ==> (Below(other, uid) <==> other !in todo)
  }

  method Least(ghost keys: set<string>, todo: set<string>) returns (least: string)
    requires todo != {} && InOrder(keys, todo)
    ensures IsNext(keys, todo, least) && InOrder(keys, todo - {least})
  {
    least :| least in todo;
    var rest := todo - {least};
    while rest != {}
      invariant rest <= todo && least in todo && least !in rest
      invariant forall other :: other in todo && other !in rest && other != least ==> Below(least, other)
      decreases |rest|
    {
      var key :| key in rest;
      BelowIsTotal(least, key);
      if Below(key, least) {
        forall other | other in todo && other !in rest && other != least ensures Below(key, other) {
          BelowIsTransitive(key, least, other);
        }
        least := key;
      }
      rest := rest - {key};
    }
    forall other | other in keys ensures Below(other, least) <==> other !in todo {
      BelowIsStrict(other, least);
    }
  }

  /** What is wrong with one entry, given those before it. */
  ghost function FaultAt(entries: map<string, Entry>, uid: string): Option<CatalogError>
    requires uid in entries
  {
    if !ValidLogicalUid(uid) then Some(LogicalUid)
    else if !ValidName(entries[uid].name) || NameTaken(entries, uid) then Some(Name)
    else if !(1 <= entries[uid].instances <= 3) then Some(Instances)
    else None
  }

  ghost predicate NameTaken(entries: map<string, Entry>, uid: string)
    requires uid in entries
  {
    exists other :: other in entries && Below(other, uid) && entries[other].name == entries[uid].name
  }

  /** The error is that of the first entry, in key order, with something wrong. */
  ghost predicate EntryFault(spec: Spec, e: CatalogError) {
    exists uid :: uid in spec.entries && FaultAt(spec.entries, uid) == Some(e)
                  && forall other :: other in spec.entries && Below(other, uid) ==> FaultAt(spec.entries, other) == None
  }

  lemma FaultlessMeansValid(entries: map<string, Entry>)
    ensures (forall uid :: uid in entries ==> FaultAt(entries, uid) == None) <==>
            (forall uid :: uid in entries ==> ValidEntry(uid, entries[uid])) && UniqueNames(entries)
  {
    hide ValidName, ValidLogicalUid, Below;
    forall a, b | a in entries && b in entries && entries[a].name == entries[b].name && a != b
      ensures NameTaken(entries, a) || NameTaken(entries, b)
    {
      BelowIsTotal(a, b);
    }
    forall a, b | a in entries && b in entries && Below(a, b) ensures a != b {
      BelowIsStrict(a, b);
    }
  }

  predicate AboutSpec(e: CatalogError) {
    e == TenantName || e == TenantUid || e == Capacity || e == LogicalUid || e == Name || e == Instances
  }

  /** Nothing is wrong with the entries visited so far, and `names` are theirs. */
  ghost predicate Checked(spec: Spec, todo: set<string>, names: set<string>) {
    && (forall uid :: uid in spec.entries && uid !in todo ==>
          FaultAt(spec.entries, uid) == None && spec.entries[uid].name in names)
    && forall name :: name in names ==>
         exists uid :: uid in spec.entries && uid !in todo && spec.entries[uid].name == name
  }

  lemma NothingChecked(spec: Spec)
    ensures Checked(spec, spec.entries.Keys, {}) && InOrder(spec.entries.Keys, spec.entries.Keys)
  {
  }

  lemma NextIsThere(keys: set<string>, todo: set<string>, uid: string)
    requires todo <= keys && IsNext(keys, todo, uid)
    ensures uid in todo && uid in keys
  {
  }

  lemma CheckedAll(spec: Spec, names: set<string>)
    requires Checked(spec, {}, names)
    ensures forall uid :: uid in spec.entries ==> ValidEntry(uid, spec.entries[uid])
    ensures UniqueNames(spec.entries)
  {
    hide FaultAt, ValidEntry;
    FaultlessMeansValid(spec.entries);
  }

  lemma CheckedTaken(spec: Spec, todo: set<string>, names: set<string>, uid: string)
    requires Checked(spec, todo, names) && IsNext(spec.entries.Keys, todo, uid) && uid in spec.entries
    ensures spec.entries[uid].name in names <==> NameTaken(spec.entries, uid)
  {
    hide FaultAt, Below;
  }

  lemma CheckedNext(spec: Spec, todo: set<string>, names: set<string>, uid: string)
    requires Checked(spec, todo, names) && uid in todo && uid in spec.entries && FaultAt(spec.entries, uid) == None
    ensures Checked(spec, todo - {uid}, names + {spec.entries[uid].name})
  {
    hide FaultAt;
    var more := names + {spec.entries[uid].name};
    forall name | name in more
      ensures exists owner :: owner in spec.entries && owner !in todo - {uid} && spec.entries[owner].name == name
    {
      if name == spec.entries[uid].name {
        assert uid !in todo - {uid};
      }
    }
  }

  lemma FirstFault(spec: Spec, todo: set<string>, names: set<string>, uid: string)
    requires Checked(spec, todo, names) && IsNext(spec.entries.Keys, todo, uid) && uid in spec.entries
    requires FaultAt(spec.entries, uid).Some?
    ensures EntryFault(spec, FaultAt(spec.entries, uid).value)
  {
    hide FaultAt, Below;
  }

  lemma FaultyMeansInvalid(spec: Spec, e: CatalogError)
    requires EntryFault(spec, e)
    ensures !((forall uid :: uid in spec.entries ==> ValidEntry(uid, spec.entries[uid])) && UniqueNames(spec.entries))
  {
    hide FaultAt, Below, ValidEntry;
    FaultlessMeansValid(spec.entries);
  }

  method ValidateEntrySet(spec: Spec) returns (r: Result<(), CatalogError>)
    ensures r.Ok? <==>
            (forall uid :: uid in spec.entries ==> ValidEntry(uid, spec.entries[uid])) && UniqueNames(spec.entries)
    ensures r.Err? ==> EntryFault(spec, r.error) && AboutSpec(r.error)
  {
    hide ValidName, ValidLogicalUid, UniqueNames, EntryFault, Checked, InOrder, IsNext, NameTaken, ValidEntry;
    var names: set<string> := {};
    var todo := spec.entries.Keys;
    assert Checked(spec, todo, names) && InOrder(spec.entries.Keys, todo) by {
      NothingChecked(spec);
    }
    while todo != {}
      invariant todo <= spec.entries.Keys && Checked(spec, todo, names) && InOrder(spec.entries.Keys, todo)
      decreases |todo|
    {
      var uid := Least(spec.entries.Keys, todo);
      NextIsThere(spec.entries.Keys, todo, uid);
      var entry := spec.entries[uid];
      CheckedTaken(spec, todo, names, uid);
      if FaultAt(spec.entries, uid).Some? {
        FirstFault(spec, todo, names, uid);
        FaultyMeansInvalid(spec, FaultAt(spec.entries, uid).value);
      }
      if !ValidLogicalUid(uid) {
        return Err(LogicalUid);
      }
      if !ValidName(entry.name) || entry.name in names {
        return Err(Name);
      }
      if !(1 <= entry.instances <= 3) {
        return Err(Instances);
      }
      CheckedNext(spec, todo, names, uid);
      names := names + {entry.name};
      todo := todo - {uid};
    }
    CheckedAll(spec, names);
    return Ok(());
  }

  method ValidateSpec(spec: Spec) returns (r: Result<(), CatalogError>)
    ensures (r.Ok? <==> ValidSpec(spec)) && (r.Err? ==> AboutSpec(r.error))
    ensures r == Err(TenantName) <==> !ValidName(spec.tenantName)
    ensures r == Err(TenantUid) <==> ValidName(spec.tenantName) && spec.tenantUid == ""
    ensures r.Err? && ValidName(spec.tenantName) && spec.tenantUid != "" ==>
              if |spec.entries| > DATABASE_LIMIT then r == Err(Capacity) else EntryFault(spec, r.error)
  {
    hide ValidName, ValidLogicalUid;
    if !ValidName(spec.tenantName) {
      return Err(TenantName);
    }
    if spec.tenantUid == "" {
      return Err(TenantUid);
    }
    if |spec.entries| > DATABASE_LIMIT {
      return Err(Capacity);
    }
    r := ValidateEntrySet(spec);
  }

  /** The stored terminal proof that lets an entry go. */
  predicate Proven(status: Option<Status>, uid: string) {
    && status.Some? && uid in status.value.entries
    && status.value.entries[uid].logicalUid == uid
    && status.value.entries[uid].finalization.Some?
    && status.value.entries[uid].finalization.value.terminalVerified
    && status.value.entries[uid].finalization.value.pending == []
  }

  predicate EntryKept(prior: Entry, next: Entry) {
    prior.name == next.name && prior.instances == next.instances && (prior.deleting ==> next.deleting)
  }

  /** What may become of the entry `uid`: kept as it is, or removed with its proof. */
  predicate EntryAllowed(prior: Spec, status: Option<Status>, next: Spec, uid: string)
    requires uid in prior.entries
  {
    if uid in next.entries then EntryKept(prior.entries[uid], next.entries[uid])
    else prior.entries[uid].deleting && Proven(status, uid)
  }

  ghost predicate SameTenant(prior: Spec, next: Spec) {
    prior.tenantName == next.tenantName && prior.tenantUid == next.tenantUid && (prior.closed ==> next.closed)
  }

  ghost predicate ClosingAllowed(prior: Spec, next: Spec) {
    next.closed ==>
      && (forall uid :: uid in next.entries ==> next.entries[uid].deleting)
      && next.entries.Keys <= prior.entries.Keys
  }

  /** Every transition the validator lets through. */
  ghost predicate TransitionAllowed(prior: Spec, status: Option<Status>, next: Spec) {
    && ValidSpec(next) && SameTenant(prior, next)
    && (forall uid :: uid in prior.entries ==> EntryAllowed(prior, status, next, uid))
    && ClosingAllowed(prior, next)
  }

  /** The first entry, in key order, whose change is refused. */
  ghost predicate FirstRefused(prior: Spec, status: Option<Status>, next: Spec, uid: string) {
    && uid in prior.entries && !EntryAllowed(prior, status, next, uid)
    && forall other :: other in prior.entries && Below(other, uid) ==> EntryAllowed(prior, status, next, other)
  }

  method ValidateEntries(prior: Spec, status: Option<Status>, next: Spec) returns (r: Result<(), CatalogError>)
    ensures r.Ok? <==> forall uid :: uid in prior.entries ==> EntryAllowed(prior, status, next, uid)
    ensures r.Err? ==> exists uid :: FirstRefused(prior, status, next, uid)
                                     && r.error == if uid in next.entries then EntryMutation else Removal
  {
    hide Below, InOrder;
    var todo := prior.entries.Keys;
    assert InOrder(prior.entries.Keys, todo) by {
      NothingChecked(prior);
    }
    while todo != {}
      invariant todo <= prior.entries.Keys && InOrder(prior.entries.Keys, todo)
      invariant forall uid :: uid in prior.entries && uid !in todo ==> EntryAllowed(prior, status, next, uid)
      decreases |todo|
    {
      var uid := Least(prior.entries.Keys, todo);
      assert !EntryAllowed(prior, status, next, uid) ==> FirstRefused(prior, status, next, uid);
      if uid in next.entries {
        var entry, kept := prior.entries[uid], next.entries[uid];
        if entry.name != kept.name || entry.instances != kept.instances || (entry.deleting && !kept.deleting) {
          return Err(EntryMutation);
        }
      } else if !prior.entries[uid].deleting || !Proven(status, uid) {
        return Err(Removal);
      }
      todo := todo - {uid};
    }
    return Ok(());
  }

  method ValidateTransition(prior: Spec, status: Option<Status>, next: Spec) returns (r: Result<(), CatalogError>)
    ensures (r.Ok? <==> TransitionAllowed(prior, status, next)) && r != Err(Conflict)
    ensures r.Err? && AboutSpec(r.error) <==> !ValidSpec(next)
    ensures r == Err(Removal) || r == Err(EntryMutation) <==>
              && ValidSpec(next) && SameTenant(prior, next)
              && exists uid :: uid in prior.entries && !EntryAllowed(prior, status, next, uid)
    ensures r == Err(Removal) || r == Err(EntryMutation) ==>
              exists uid :: FirstRefused(prior, status, next, uid) && (uid in next.entries <==> r == Err(EntryMutation))
    ensures r == Err(IdentityOrClosure) <==>
              && ValidSpec(next)
              && (!SameTenant(prior, next)
                  || (!ClosingAllowed(prior, next)
                      && forall uid :: uid in prior.entries ==> EntryAllowed(prior, status, next, uid)))
  {
    hide ValidSpec, EntryFault, EntryAllowed;
    r := ValidateSpec(next);
    if r.Err? {
      return;
    }
    if prior.tenantName != next.tenantName || prior.tenantUid != next.tenantUid || (prior.closed && !next.closed) {
      return Err(IdentityOrClosure);
    }
    r := ValidateEntries(prior, status, next);
    if r.Err? {
      return;
    }
    if next.closed && ((exists uid :: uid in next.entries && !next.entries[uid].deleting)
                       || (exists uid :: uid in next.entries && uid !in prior.entries)) {
      return Err(IdentityOrClosure);
    }
  }

  datatype Meta = Meta(name: string, namespace: string, uid: Option<string>, version: Option<string>)

  /** An update is accepted only against the exact object it was made from. */
  method ValidateConditionalUpdate(current: Meta, prior: Spec, status: Option<Status>, nextMeta: Meta, next: Spec,
                                   uid: string, version: string) returns (r: Result<(), CatalogError>)
    ensures r == Err(Conflict) <==>
            !(&& uid != "" && version != "" && current.uid == nextMeta.uid == Some(uid)
              && current.version == nextMeta.version == Some(version)
              && current.name == nextMeta.name && current.namespace == nextMeta.namespace)
    ensures r.Ok? <==> r != Err(Conflict) && TransitionAllowed(prior, status, next)
  {
    if uid == "" || version == "" || current.uid != Some(uid) || nextMeta.uid != Some(uid)
       || current.version != Some(version) || nextMeta.version != Some(version)
       || current.name != nextMeta.name || current.namespace != nextMeta.namespace {
      return Err(Conflict);
    }
    r := ValidateTransition(prior, status, next);
  }

  // ---- the admission rules -----------------------------------------------------------------

  function Namesakes(entries: map<string, Entry>, uid: string): set<string>
    requires uid in entries
  {
    set other | other in entries && entries[other].name == entries[uid].name
  }

  /** Schema bounds and the rules about the new object alone. */
  ghost predicate SchemaAdmits(name: string, spec: Spec) {
    && |spec.entries| <= DATABASE_LIMIT
    && (forall uid :: uid in spec.entries ==> 1 <= spec.entries[uid].instances <= 3)
    && name == spec.tenantName
    && Matches(NamePattern(), spec.tenantName)
    && |spec.tenantUid| > 0
    && (forall uid :: uid in spec.entries ==>
          Matches(UidPattern(), uid) && Matches(NamePattern(), spec.entries[uid].name)
          && spec.entries[uid].instances >= 1 && spec.entries[uid].instances <= 3)
    && (forall uid :: uid in spec.entries ==> |Namesakes(spec.entries, uid)| == 1)
  }

  /** The removal rule: it reads the terminal flag and leaves `pending` to the status rule. */
  predicate RemovalRule(prior: Spec, status: Option<Status>, uid: string)
    requires uid in prior.entries
  {
    && prior.entries[uid].deleting && status.Some? && uid in status.value.entries
    && status.value.entries[uid].logicalUid == uid
    && status.value.entries[uid].finalization.Some?
    && status.value.entries[uid].finalization.value.terminalVerified
  }

  /** The rules that compare the new object with the stored one. */
  ghost predicate TransitionRules(prior: Spec, status: Option<Status>, next: Spec) {
    && next.tenantName == prior.tenantName && next.tenantUid == prior.tenantUid
    && (!prior.closed || next.closed)
    && (!next.closed || forall uid :: uid in next.entries ==> next.entries[uid].deleting)
    && (!next.closed || forall uid :: uid in next.entries ==> uid in prior.entries)
    && (forall uid :: uid in prior.entries ==>
          || uid !in next.entries
          || (&& next.entries[uid].name == prior.entries[uid].name
              && next.entries[uid].instances == prior.entries[uid].instances
              && (!prior.entries[uid].deleting || next.entries[uid].deleting)))
    && (forall uid :: uid in prior.entries ==> uid in next.entries || RemovalRule(prior, status, uid))
  }

  ghost predicate Admitted(name: string, prior: Spec, status: Option<Status>, next: Spec) {
    SchemaAdmits(name, next) && TransitionRules(prior, status, next)
  }

  /** The rule on every stored status. */
  ghost predicate StatusRule(status: Status) {
    forall uid :: uid in status.entries ==>
      && status.entries[uid].logicalUid == uid
      && (status.entries[uid].finalization.Some? && status.entries[uid].finalization.value.terminalVerified ==>
            status.entries[uid].finalization.value.pending == [])
  }

  lemma OneNamesake(entries: map<string, Entry>, uid: string)
    requires uid in entries
    ensures |Namesakes(entries, uid)| == 1 <==>
            forall other :: other in entries && entries[other].name == entries[uid].name ==> other == uid
  {
    var same := Namesakes(entries, uid);
    assert uid in same;
    assert |same| == 1 + |same - {uid}|;
    if |same| == 1 {
      forall other | other in entries && entries[other].name == entries[uid].name ensures other == uid {
        assert other in same && same - {uid} == {};
      }
    }
    if forall other :: other in entries && entries[other].name == entries[uid].name ==> other == uid {
      assert same == {uid};
    }
  }

  lemma SchemaMeansValidSpec(name: string, spec: Spec)
    ensures SchemaAdmits(name, spec) <==> name == spec.tenantName && ValidSpec(spec)
  {
    hide Matches, ValidName, ValidLogicalUid, NamePattern, UidPattern;
    NamePatternMeansValidName(spec.tenantName);
    forall uid | uid in spec.entries
      ensures Matches(UidPattern(), uid) <==> ValidLogicalUid(uid)
      ensures Matches(NamePattern(), spec.entries[uid].name) <==> ValidName(spec.entries[uid].name)
      ensures |Namesakes(spec.entries, uid)| == 1 <==>
              forall other :: other in spec.entries && spec.entries[other].name == spec.entries[uid].name ==>
                other == uid
    {
      UidPatternMeansValidUid(uid);
      NamePatternMeansValidName(spec.entries[uid].name);
      OneNamesake(spec.entries, uid);
    }
  }

  /** Where the two could differ: a terminal proof that still lists pending work. */
  ghost predicate PendingProof(prior: Spec, status: Option<Status>, next: Spec) {
    exists uid :: uid in prior.entries && uid !in next.entries && RemovalRule(prior, status, uid)
      && status.value.entries[uid].finalization.value.pending != []
  }

  /**
   * For a catalog named after its Tenant, the rules admit an update exactly when the validator
   * does, except one that removes an entry whose terminal proof still has pending work.
   */
  lemma AdmissionIsValidation(name: string, prior: Spec, status: Option<Status>, next: Spec)
    requires name == next.tenantName
    ensures TransitionAllowed(prior, status, next) <==>
            Admitted(name, prior, status, next) && !PendingProof(prior, status, next)
  {
    hide SchemaAdmits, ValidSpec;
    SchemaMeansValidSpec(name, next);
    if Admitted(name, prior, status, next) && !PendingProof(prior, status, next) {
      forall uid | uid in prior.entries ensures EntryAllowed(prior, status, next, uid) {
      }
    }
    if TransitionAllowed(prior, status, next) {
      forall uid | uid in prior.entries
        ensures uid !in next.entries || EntryKept(prior.entries[uid], next.entries[uid])
        ensures uid in next.entries || RemovalRule(prior, status, uid)
      {
        assert EntryAllowed(prior, status, next, uid);
      }
      forall uid | uid in prior.entries && uid !in next.entries && RemovalRule(prior, status, uid)
        ensures status.value.entries[uid].finalization.value.pending == []
      {
        assert EntryAllowed(prior, status, next, uid);
      }
    }
  }

  /** Under the status rule no such proof is ever stored, so the two agree on every update. */
  lemma AdmissionEqualsValidation(name: string, prior: Spec, status: Option<Status>, next: Spec)
    requires name == next.tenantName && (status.Some? ==> StatusRule(status.value))
    ensures Admitted(name, prior, status, next) <==> TransitionAllowed(prior, status, next)
  {
    hide Admitted, TransitionAllowed;
    AdmissionIsValidation(name, prior, status, next);
  }

  /** A logical UID, and a specification with one entry under it that is being deleted. */
  function SomeUid(): string {
    seq(36, i => if DashAt(i) then '-' else 'a')
  }

  function OneEntry(): Spec {
    Spec("a", "u", false, map[SomeUid() := Entry("a", 1, true)])
  }

  function Unfinished(): Option<Status> {
    Some(Status(map[SomeUid() := EntryStatus(SomeUid(), Some(Proof(true, ["volume"])))]))
  }

  lemma OneEntryIsValid()
    ensures ValidSpec(OneEntry()) && ValidSpec(OneEntry().(entries := map[]))
  {
    assert ValidLogicalUid(SomeUid()) && ValidName("a");
    hide ValidLogicalUid, ValidName, SomeUid;
    assert |OneEntry().entries| == 1;
  }

  /** A removal the rules admit and the validator refuses: the terminal proof still lists pending work. */
  lemma PendingRemovalDiffers()
    ensures var next := OneEntry().(entries := map[]);
            && ValidSpec(OneEntry()) && ValidSpec(next) && PendingProof(OneEntry(), Unfinished(), next)
            && Admitted("a", OneEntry(), Unfinished(), next) && !TransitionAllowed(OneEntry(), Unfinished(), next)
  {
    var next := OneEntry().(entries := map[]);
    OneEntryIsValid();
    hide SchemaAdmits, ValidSpec, SomeUid;
    SchemaMeansValidSpec("a", next);
    assert RemovalRule(OneEntry(), Unfinished(), SomeUid());
    AdmissionIsValidation("a", OneEntry(), Unfinished(), next);
  }
}
