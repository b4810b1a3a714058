/** scripts/lib/addons.py: packing add-on documents into size-limited sources, first fit in order. */
module Addons {
  import opened Base

  // ---- the serialised size of a source -----------------------------------------------------

  /** How many bytes a character takes in a JSON string whose output is ASCII. */
  function CharWidth(c: char): nat {
    if c == '"' || c == '\\' || c == '\n' || c == '\r' || c == '\t' || c == '\U{8}' || c == '\U{C}' then 2
    else if ' ' <= c <= '~' then 1
    else if c <= '\U{FFFF}' then 6
    else 12
  }

  function Width(s: string): nat {
    if s == "" then 0 else CharWidth(s[0]) + Width(s[1..])
  }

  lemma {:induction false} WidthOfConcatenation(a: string, b: string)
    ensures Width(a + b) == Width(a) + Width(b)
  {
    if a == "" {
      assert a + b == b;
    } else {
      assert (a + b)[1..] == a[1..] + b;
      WidthOfConcatenation(a[1..], b);
    }
  }

  /** One code unit as JSON escapes it. */
  function Unit(n: nat): string
    requires n < 0x1_0000
  {
    var q := n / 16;
    var r := q / 16;
    "\\u" + ["0123456789abcdef"[r / 16], "0123456789abcdef"[r % 16], "0123456789abcdef"[q % 16],
             "0123456789abcdef"[n % 16]]
  }

  /** The four digits are the number in base sixteen. */
  lemma UnitReadsBack(n: nat) returns (a: nat, b: nat, c: nat, d: nat)
    requires n < 0x1_0000
    ensures a < 16 && b < 16 && c < 16 && d < 16 && n == 4096 * a + 256 * b + 16 * c + d
    ensures Unit(n) == "\\u" + ["0123456789abcdef"[a], "0123456789abcdef"[b], "0123456789abcdef"[c],
                                "0123456789abcdef"[d]]
  {
    var q := n / 16;
    var r := q / 16;
    a, b, c, d := r / 16, r % 16, q % 16, n % 16;
  }

  /** A character as it is written in a JSON string whose output is ASCII. */
  function Escaped(c: char): string {
    if c == '"' then "\\\"" else if c == '\\' then "\\\\" else if c == '\n' then "\\n" else if c == '\r' then "\\r"
    else if c == '\t' then "\\t" else if c == '\U{8}' then "\\b" else if c == '\U{C}' then "\\f"
    else if ' ' <= c <= '~' then [c]
    else if c <= '\U{FFFF}' then Unit(c as int)
    else Unit(0xD800 + (c as int - 0x1_0000) / 0x400) + Unit(0xDC00 + (c as int - 0x1_0000) % 0x400)
  }

  function Encoded(s: string): string {
    if s == "" then "" else Escaped(s[0]) + Encoded(s[1..])
  }

  /** The width is the length of the encoded text. */
  lemma {:induction false} WidthIsEncodedLength(s: string)
    ensures Width(s) == |Encoded(s)|
  {
    if s != "" {
      WidthIsEncodedLength(s[1..]);
    }
  }

  function Decimal(n: nat): (s: string)
    ensures s != "" && forall i :: 0 <= i < |s| ==> Digit(s[i])
  {
    var digit := ['0' + (n % 10) as char];
    if n < 10 then digit else Decimal(n / 10) + digit
  }

  lemma {:induction false} DecimalGrows(m: nat, n: nat)
    requires m <= n
    ensures |Decimal(m)| <= |Decimal(n)|
  {
    if m >= 10 {
      DecimalGrows(m / 10, n / 10);
    }
  }

  /** At least three digits, as `:03d` writes them. */
  function Padded(n: nat): string {
    var digits := Decimal(n);
    if |digits| == 1 then "00" + digits else if |digits| == 2 then "0" + digits else digits
  }

  function Numbered(base: string, n: nat): string {
    base + "-" + Padded(n)
  }

  /** The number that decimal digits stand for. */
  function Value(s: string): int {
    if s == "" then 0 else 10 * Value(s[..|s| - 1]) + (s[|s| - 1] as int - '0' as int)
  }

  lemma {:induction false} DecimalReadsBack(n: nat)
    ensures Value(Decimal(n)) == n
  {
    if n >= 10 {
      DecimalReadsBack(n / 10);
      assert Decimal(n)[..|Decimal(n)| - 1] == Decimal(n / 10);
    }
  }

  lemma {:induction false} ZerosInFront(s: string)
    ensures Value("0" + s) == Value(s)
  {
    if s != "" {
      ZerosInFront(s[..|s| - 1]);
      assert ("0" + s)[..|s|] == "0" + s[..|s| - 1];
    }
  }

  lemma PaddedReadsBack(n: nat)
    ensures Value(Padded(n)) == n
  {
    DecimalReadsBack(n);
    ZerosInFront(Decimal(n));
    ZerosInFront("0" + Decimal(n));
    assert "00" + Decimal(n) == "0" + ("0" + Decimal(n));
  }

  /** Different numbers make different names, and none of them is the bare name. */
  lemma NamesDiffer(base: string, m: nat, n: nat)
    ensures m != n ==> Numbered(base, m) != Numbered(base, n)
    ensures Numbered(base, n) != base
  {
    PaddedReadsBack(m);
    PaddedReadsBack(n);
    assert Numbered(base, m)[|base| + 1..] == Padded(m) && Numbered(base, n)[|base| + 1..] == Padded(n);
    assert |Numbered(base, n)| > |base|;
  }

  lemma {:induction false} DigitsAreNarrow(s: string)
    requires forall i :: 0 <= i < |s| ==> Digit(s[i])
    ensures Width(s) == |s|
  {
    if s != "" {
      DigitsAreNarrow(s[1..]);
    }
  }

  lemma PaddedWidth(n: nat)
    ensures Width(Padded(n)) == |Padded(n)| >= 3
  {
    DigitsAreNarrow(Padded(n));
  }

  lemma NumberedWidth(base: string, n: nat)
    ensures Width(Numbered(base, n)) == Width(base) + 1 + |Padded(n)|
  {
    WidthOfConcatenation(base, "-");
    WidthOfConcatenation(base + "-", Padded(n));
    PaddedWidth(n);
  }

  /** A later number never makes a shorter name. */
  lemma NamesGrow(base: string, m: nat, n: nat)
    requires m <= n
    ensures Width(Numbered(base, m)) <= Width(Numbered(base, n))
  {
    DecimalGrows(m, n);
    NumberedWidth(base, m);
    NumberedWidth(base, n);
  }

  const SEPARATOR := "\n---\n"

  /** The serialised ConfigMap: `fixed` bytes that depend on neither name nor content, then those two. */
  function Size(fixed: nat, name: string, content: string): nat {
    fixed + Width(name) + Width(content)
  }

  function Joined(documents: seq<string>): string
    requires documents != []
  {
    if |documents| == 1 then documents[0]
    else Joined(documents[..|documents| - 1]) + SEPARATOR + documents[|documents| - 1]
  }

  lemma JoinedWidth(documents: seq<string>, last: string)
    requires documents != []
    ensures Width(Joined(documents + [last])) == Width(Joined(documents)) + Width(SEPARATOR) + Width(last)
  {
    assert (documents + [last])[..|documents|] == documents;
    WidthOfConcatenation(Joined(documents) + SEPARATOR, last);
    WidthOfConcatenation(Joined(documents), SEPARATOR);
  }

  lemma {:induction false} JoinedFront(first: string, documents: seq<string>)
    requires documents != []
    ensures Width(Joined([first] + documents)) == Width(first) + Width(SEPARATOR) + Width(Joined(documents))
  {
    var last := documents[|documents| - 1];
    if |documents| == 1 {
      assert [first] + documents == [first] + [last];
      JoinedWidth([first], last);
    } else {
      var front := documents[..|documents| - 1];
      assert documents == front + [last] && [first] + documents == ([first] + front) + [last];
      JoinedFront(first, front);
      JoinedWidth([first] + front, last);
      JoinedWidth(front, last);
    }
  }

  /** Content only grows when a range of documents is widened on either side. */
  lemma {:induction false} RangesGrow(documents: seq<string>, a: nat, b: nat, c: nat, d: nat)
    requires a <= b < c <= d <= |documents|
    ensures Width(Joined(documents[b..c])) <= Width(Joined(documents[a..d]))
    decreases (b - a) + (d - c)
  {
    hide Width, Joined;
    if c < d {
      RangesGrow(documents, a, b, c, d - 1);
      assert documents[a..d] == documents[a..d - 1] + [documents[d - 1]];
      JoinedWidth(documents[a..d - 1], documents[d - 1]);
    } else if a < b {
      RangesGrow(documents, a + 1, b, c, d);
      assert documents[a..d] == [documents[a]] + documents[a + 1..d];
      JoinedFront(documents[a], documents[a + 1..d]);
    }
  }

  // ---- splits ------------------------------------------------------------------------------

  datatype Job = Job(base: string, documents: seq<string>, fixed: nat, limit: int)

  predicate NonemptyDocuments(job: Job) {
    forall i :: 0 <= i < |job.documents| ==> job.documents[i] != ""
  }

  /** The documents from `a` up to `b` fit into the source with number `k`. */
  predicate Fits(job: Job, k: nat, a: nat, b: nat)
    requires a < b <= |job.documents|
  {
    Size(job.fixed, Numbered(job.base, k), Joined(job.documents[a..b])) <= job.limit
  }

  lemma SmallerFits(job: Job, m: nat, k: nat, a: nat, b: nat, c: nat, d: nat)
    requires m <= k && a <= b < c <= d <= |job.documents| && Fits(job, k, a, d)
    ensures Fits(job, m, b, c)
  {
    NamesGrow(job.base, m, k);
    RangesGrow(job.documents, a, b, c, d);
  }

  /** A contiguous split: where each chunk begins, and at last the end of the documents. */
  ghost predicate Split(job: Job, cuts: seq<nat>) {
    && |cuts| > 0 && cuts[0] == 0 && cuts[|cuts| - 1] == |job.documents|
    && Rising(cuts)
  }

  ghost predicate Rising(cuts: seq<nat>) {
    forall i, j :: 0 <= i < j < |cuts| ==> cuts[i] < cuts[j]
  }

  ghost predicate ChunkFits(job: Job, cuts: seq<nat>, k: nat)
    requires k + 1 < |cuts|
  {
    cuts[k] < cuts[k + 1] <= |job.documents| && Fits(job, k, cuts[k], cuts[k + 1])
  }

  /** A split all of whose chunks fit under their numbered names. */
  ghost predicate Valid(job: Job, cuts: seq<nat>) {
    Split(job, cuts) && forall k :: 0 <= k < |cuts| - 1 ==> ChunkFits(job, cuts, k)
  }

  /** The greedy chunk `k` could not have taken one more document. */
  ghost predicate Full(job: Job, cuts: seq<nat>, k: nat)
    requires k + 1 < |cuts|
  {
    cuts[k] < cuts[k + 1] < |job.documents| && !Fits(job, k, cuts[k], cuts[k + 1] + 1)
  }

  /** Closed chunks that fit and are full; the last cut is where the open chunk begins. */
  ghost predicate Greedy(job: Job, cuts: seq<nat>) {
    && |cuts| > 0 && cuts[0] == 0 && Rising(cuts)
    && forall k :: 0 <= k < |cuts| - 1 ==> ChunkFits(job, cuts, k) && Full(job, cuts, k)
  }

  /** No split gets further with the same number of chunks. */
  lemma {:induction false} StaysAhead(job: Job, cuts: seq<nat>, other: seq<nat>, m: nat)
    requires Greedy(job, cuts) && Valid(job, other) && m < |cuts| && m < |other|
    ensures other[m] <= cuts[m]
  {
    hide Fits;
    if m > 0 {
      StaysAhead(job, cuts, other, m - 1);
      assert ChunkFits(job, other, m - 1) && Full(job, cuts, m - 1);
      if other[m] > cuts[m] {
        SmallerFits(job, m - 1, m - 1, other[m - 1], cuts[m - 1], cuts[m] + 1, other[m]);
      }
    }
  }

  /** The greedy split needs no more chunks than any other. */
  lemma GreedyIsShortest(job: Job, cuts: seq<nat>, other: seq<nat>)
    requires Greedy(job, cuts) && cuts[|cuts| - 1] < |job.documents| && Valid(job, other)
    ensures |cuts| < |other|
  {
    if |other| <= |cuts| {
      StaysAhead(job, cuts, other, |other| - 1);
    }
  }

  lemma {:induction false} ChunkOf(cuts: seq<nat>, i: nat) returns (m: nat)
    requires |cuts| > 0 && cuts[0] <= i < cuts[|cuts| - 1]
    ensures m + 1 < |cuts| && cuts[m] <= i < cuts[m + 1]
    decreases |cuts|
  {
    if cuts[|cuts| - 2] <= i {
      m := |cuts| - 2;
    } else {
      m := ChunkOf(cuts[..|cuts| - 1], i);
    }
  }

  /** When the document after full chunks does not fit alone, no split fits it anywhere. */
  lemma TooBigForAll(job: Job, cuts: seq<nat>, other: seq<nat>)
    requires Greedy(job, cuts)
    requires cuts[|cuts| - 1] < |job.documents| && !Fits(job, |cuts| - 1, cuts[|cuts| - 1], cuts[|cuts| - 1] + 1)
    ensures !Valid(job, other)
  {
    hide Fits;
    if Valid(job, other) {
      var i := cuts[|cuts| - 1];
      var m := ChunkOf(other, i);
      assert ChunkFits(job, other, m);
      if m + 1 < |cuts| {
        StaysAhead(job, cuts, other, m + 1);
      } else {
        SmallerFits(job, |cuts| - 1, m, other[m], i, i + 1, other[m + 1]);
      }
    }
  }

  // ---- the packer --------------------------------------------------------------------------

  datatype Source = Source(name: string, content: string)

  function NameOf(job: Job, count: nat, k: nat): string {
    if count == 1 then job.base else Numbered(job.base, k)
  }

  ghost predicate ChunkHolds(job: Job, cuts: seq<nat>, k: nat, content: string)
    requires k + 1 < |cuts|
  {
    cuts[k] < cuts[k + 1] <= |job.documents| && content == Joined(job.documents[cuts[k]..cuts[k + 1]])
  }

  /** The chunks of a split, all documents in order, under the names the packer gives them. */
  ghost predicate Packs(job: Job, cuts: seq<nat>, sources: seq<Source>) {
    && Split(job, cuts) && |sources| == |cuts| - 1
    && forall k :: 0 <= k < |sources| ==>
         ChunkHolds(job, cuts, k, sources[k].content) && sources[k].name == NameOf(job, |sources|, k)
  }

  lemma JoinedOneMore(job: Job, a: nat, i: nat)
    requires a < i < |job.documents|
    ensures Joined(job.documents[a..i + 1]) == Joined(job.documents[a..i]) + SEPARATOR + job.documents[i]
  {
    assert job.documents[a..i + 1] == job.documents[a..i] + [job.documents[i]];
    assert job.documents[a..i + 1][..i - a] == job.documents[a..i];
  }

  lemma GreedyOn(job: Job, cuts: seq<nat>, i: nat)
    requires Greedy(job, cuts) && cuts[|cuts| - 1] < i < |job.documents|
    requires Fits(job, |cuts| - 1, cuts[|cuts| - 1], i) && !Fits(job, |cuts| - 1, cuts[|cuts| - 1], i + 1)
    ensures Greedy(job, cuts + [i])
  {
    hide Fits;
    var longer := cuts + [i];
    forall k | 0 <= k < |longer| - 1 ensures ChunkFits(job, longer, k) && Full(job, longer, k) {
      if k < |cuts| - 1 {
        assert ChunkFits(job, cuts, k) && Full(job, cuts, k);
      }
    }
  }

  lemma GreedyEnds(job: Job, cuts: seq<nat>)
    requires Greedy(job, cuts) && cuts[|cuts| - 1] < |job.documents|
    requires Fits(job, |cuts| - 1, cuts[|cuts| - 1], |job.documents|)
    ensures Valid(job, cuts + [|job.documents|])
    ensures forall other :: Valid(job, other) ==> |cuts| + 1 <= |other|
  {
    var whole := cuts + [|job.documents|];
    forall k | 0 <= k < |whole| - 1 ensures ChunkFits(job, whole, k) {
      if k < |cuts| - 1 {
        assert ChunkFits(job, cuts, k);
      }
    }
    forall other | Valid(job, other) ensures |cuts| + 1 <= |other| {
      GreedyIsShortest(job, cuts, other);
    }
  }

  /** The packer's own names are never longer than the numbered ones. */
  lemma NamedFits(job: Job, count: nat, k: nat, content: string)
    requires Size(job.fixed, Numbered(job.base, k), content) <= job.limit
    ensures Size(job.fixed, NameOf(job, count, k), content) <= job.limit
  {
    NumberedWidth(job.base, k);
  }

  method NameChunks(job: Job, chunks: seq<string>, ghost cuts: seq<nat>) returns (sources: seq<Source>)
    requires Valid(job, cuts) && |chunks| == |cuts| - 1
    requires forall k :: 0 <= k < |chunks| ==> ChunkHolds(job, cuts, k, chunks[k])
    ensures Packs(job, cuts, sources)
    ensures forall k :: 0 <= k < |sources| ==> Size(job.fixed, sources[k].name, sources[k].content) <= job.limit
    ensures forall j, k :: 0 <= j < k < |sources| ==> sources[j].name != sources[k].name
  {
    sources := seq(|chunks|, k requires 0 <= k < |chunks| => Source(NameOf(job, |chunks|, k), chunks[k]));
    forall k | 0 <= k < |sources| ensures Size(job.fixed, sources[k].name, sources[k].content) <= job.limit {
      assert ChunkFits(job, cuts, k) && ChunkHolds(job, cuts, k, chunks[k]);
      NamedFits(job, |chunks|, k, chunks[k]);
    }
    forall j, k | 0 <= j < k < |sources| ensures sources[j].name != sources[k].name {
      NamesDiffer(job.base, j, k);
    }
  }

  lemma JoinedAlone(job: Job, i: nat)
    requires i < |job.documents|
    ensures Joined(job.documents[i..i + 1]) == job.documents[i]
  {
  }

  lemma NothingToPack(job: Job)
    requires job.documents == []
    ensures Valid(job, [0]) && forall other :: Valid(job, other) ==> 1 <= |other|
  {
  }

  /** After `i` documents: closed chunks as the greedy cuts say, and the open one in `current`. */
  ghost predicate Packing(job: Job, cuts: seq<nat>, chunks: seq<string>, current: string, i: nat)
    requires i <= |job.documents|
  {
    && Greedy(job, cuts) && |chunks| == |cuts| - 1 && (current == "" <==> i == 0) && (i == 0 ==> cuts == [0])
    && (i > 0 ==> cuts[|chunks|] < i && current == Joined(job.documents[cuts[|chunks|]..i])
                  && Fits(job, |chunks|, cuts[|chunks|], i))
    && forall k :: 0 <= k < |chunks| ==> ChunkHolds(job, cuts, k, chunks[k])
  }

  lemma PackingBegins(job: Job)
    ensures Packing(job, [0], [], "", 0)
  {
  }

  lemma Shape(job: Job, cuts: seq<nat>, chunks: seq<string>, current: string, i: nat)
    requires i <= |job.documents| && Packing(job, cuts, chunks, current, i)
    ensures |chunks| + 1 == |cuts| && (current == "" <==> i == 0) && (i == 0 ==> cuts == [0])
  {
  }

  function Candidate(current: string, document: string): string {
    if current == "" then document else current + SEPARATOR + document
  }

  predicate Within(job: Job, k: nat, content: string) {
    Size(job.fixed, Numbered(job.base, k), content) <= job.limit
  }

  lemma CandidateMeans(job: Job, cuts: seq<nat>, chunks: seq<string>, current: string, i: nat)
    requires i < |job.documents| && Packing(job, cuts, chunks, current, i)
    ensures cuts[|chunks|] <= i && Candidate(current, job.documents[i]) == Joined(job.documents[cuts[|chunks|]..i + 1])
    ensures Within(job, |chunks|, Candidate(current, job.documents[i])) <==> Fits(job, |chunks|, cuts[|chunks|], i + 1)
  {
    hide Greedy, Joined, Size;
    JoinedAlone(job, i);
    if i > 0 {
      JoinedOneMore(job, cuts[|chunks|], i);
    }
  }

  lemma TakenIn(job: Job, cuts: seq<nat>, chunks: seq<string>, current: string, i: nat)
    requires i < |job.documents| && NonemptyDocuments(job) && Packing(job, cuts, chunks, current, i)
    requires Within(job, |chunks|, Candidate(current, job.documents[i]))
    ensures Packing(job, cuts, chunks, Candidate(current, job.documents[i]), i + 1)
  {
    hide Greedy, Joined, Size, Fits;
    CandidateMeans(job, cuts, chunks, current, i);
  }

  lemma {:induction false} NoSplit(job: Job, cuts: seq<nat>)
    requires Greedy(job, cuts)
    requires cuts[|cuts| - 1] < |job.documents| && !Fits(job, |cuts| - 1, cuts[|cuts| - 1], cuts[|cuts| - 1] + 1)
    ensures forall other :: !Valid(job, other)
  {
    hide Greedy, Valid;
    forall other ensures !Valid(job, other) {
      TooBigForAll(job, cuts, other);
    }
  }

  lemma FirstTooBig(job: Job, cuts: seq<nat>, chunks: seq<string>, i: nat)
    requires i < |job.documents| && Packing(job, cuts, chunks, "", i) && !Within(job, |chunks|, job.documents[i])
    ensures forall other :: !Valid(job, other)
  {
    hide Greedy, Joined, Size, Valid;
    CandidateMeans(job, cuts, chunks, "", i);
    NoSplit(job, cuts);
  }

  /** The open chunk is closed before document `i`, which starts the next one if it fits there at all. */
  lemma Closed(job: Job, cuts: seq<nat>, chunks: seq<string>, current: string, i: nat)
    requires i < |job.documents| && NonemptyDocuments(job) && Packing(job, cuts, chunks, current, i) && current != ""
    requires !Within(job, |chunks|, Candidate(current, job.documents[i]))
    ensures if Within(job, |chunks| + 1, job.documents[i])
            then Packing(job, cuts + [i], chunks + [current], job.documents[i], i + 1)
            else forall other :: !Valid(job, other)
  {
    hide Greedy, Joined, Size, Valid, Numbered, Width;
    CandidateMeans(job, cuts, chunks, current, i);
    GreedyOn(job, cuts, i);
    JoinedAlone(job, i);
    var longer, more := cuts + [i], chunks + [current];
    if Within(job, |chunks| + 1, job.documents[i]) {
      forall k | 0 <= k < |more| ensures ChunkHolds(job, longer, k, more[k]) {
        if k < |chunks| {
          assert ChunkHolds(job, cuts, k, chunks[k]);
        }
      }
    } else {
      NoSplit(job, longer);
    }
  }

  lemma Ended(job: Job, cuts: seq<nat>, chunks: seq<string>, current: string)
    requires job.documents != [] && Packing(job, cuts, chunks, current, |job.documents|)
    ensures var whole, all := cuts + [|job.documents|], chunks + [current];
            && Valid(job, whole) && (forall other :: Valid(job, other) ==> |whole| <= |other|)
            && forall k :: 0 <= k < |all| ==> ChunkHolds(job, whole, k, all[k])
  {
    hide Greedy, Joined, Size, Valid, Fits;
    GreedyEnds(job, cuts);
    var whole, all := cuts + [|job.documents|], chunks + [current];
    forall k | 0 <= k < |all| ensures ChunkHolds(job, whole, k, all[k]) {
      if k < |chunks| {
        assert ChunkHolds(job, cuts, k, chunks[k]);
      }
    }
  }

  /**
   * `package_source` once the content has been split into documents: it succeeds exactly when some
   * contiguous split fits under numbered names, keeps every document in order, and uses the fewest chunks.
   */
  method PackageSource(job: Job) returns (r: Result<seq<Source>, ()>, ghost cuts: seq<nat>)
    requires NonemptyDocuments(job)
    ensures r.Ok? <==> exists other :: Valid(job, other)
    ensures r.Ok? ==> Packs(job, cuts, r.value) && Valid(job, cuts)
    ensures r.Ok? ==> forall other :: Valid(job, other) ==> |cuts| <= |other|
    ensures r.Ok? ==> forall k :: 0 <= k < |r.value| ==>
            Size(job.fixed, r.value[k].name, r.value[k].content) <= job.limit
    ensures r.Ok? ==> forall j, k :: 0 <= j < k < |r.value| ==> r.value[j].name != r.value[k].name
  {
    hide Valid, Packs, Packing, ChunkHolds, Size, Numbered;
    var chunks: seq<string> := [];
    var current := "";
    cuts := [0];
    PackingBegins(job);
    for i := 0 to |job.documents|
      invariant Packing(job, cuts, chunks, current, i)
    {
      var document := job.documents[i];
      var candidate := if current == "" then document else current + SEPARATOR + document;
      if Size(job.fixed, Numbered(job.base, |chunks|), candidate) <= job.limit {
        TakenIn(job, cuts, chunks, current, i);
        current := candidate;
      } else {
        if current == "" {
          FirstTooBig(job, cuts, chunks, i);
          return Err(()), cuts;
        }
        Closed(job, cuts, chunks, current, i);
        chunks := chunks + [current];
        current := document;
        cuts := cuts + [i];
        if Size(job.fixed, Numbered(job.base, |chunks|), current) > job.limit {
          return Err(()), cuts;
        }
      }
    }
    Shape(job, cuts, chunks, current, |job.documents|);
    if current != "" {
      Ended(job, cuts, chunks, current);
      chunks := chunks + [current];
      cuts := cuts + [|job.documents|];
    } else {
      NothingToPack(job);
    }
    var sources := NameChunks(job, chunks, cuts);
    return Ok(sources), cuts;
  }

  // ---- the name of a single chunk ----------------------------------------------------------

  predicate WholeFitsNamed(job: Job, name: string)
    requires job.documents != []
  {
    Size(job.fixed, name, Joined(job.documents)) <= job.limit
  }

  /** A split that fits under the names the packer really gives: one chunk has the bare base name. */
  ghost predicate FitsAsNamed(job: Job, cuts: seq<nat>) {
    if |cuts| == 2 then job.documents != [] && cuts == [0, |job.documents|] && WholeFitsNamed(job, job.base)
    else Valid(job, cuts)
  }

  lemma WholeIsOneChunk(job: Job)
    requires job.documents != []
    ensures Valid(job, [0, |job.documents|]) <==> WholeFitsNamed(job, Numbered(job.base, 0))
  {
    var cuts := [0, |job.documents|];
    assert job.documents[0..|job.documents|] == job.documents;
    assert Valid(job, cuts) <==> ChunkFits(job, cuts, 0);
  }

  /** The one split into a single chunk. */
  lemma OneChunk(job: Job, cuts: seq<nat>)
    requires Split(job, cuts) && |cuts| == 2
    ensures cuts == [0, |job.documents|]
  {
  }

  /**
   * The packer always tries numbered names, so it is optimal for the names it finally gives exactly
   * when content that fits whole under the bare name also fits under number zero.
   */
  lemma OptimalAsNamedIff(job: Job)
    requires job.documents != []
    ensures (forall cuts :: FitsAsNamed(job, cuts) ==> exists other :: Valid(job, other) && |other| <= |cuts|)
            <==> (WholeFitsNamed(job, job.base) ==> WholeFitsNamed(job, Numbered(job.base, 0)))
  {
    var whole := [0, |job.documents|];
    WholeIsOneChunk(job);
    if WholeFitsNamed(job, job.base) ==> WholeFitsNamed(job, Numbered(job.base, 0)) {
      forall cuts | FitsAsNamed(job, cuts) ensures exists other :: Valid(job, other) && |other| <= |cuts| {
        if |cuts| == 2 {
          assert Valid(job, whole) && |whole| <= |cuts|;
        }
      }
    } else {
      assert FitsAsNamed(job, whole);
      forall other | Valid(job, other) ensures |other| > 2 {
        assert |other| != 1;
        if |other| == 2 {
          OneChunk(job, other);
        }
      }
    }
  }

  lemma {:induction false} ChunksHoldDocuments(job: Job, cuts: seq<nat>, i: nat)
    requires Split(job, cuts) && i < |cuts|
    ensures i <= cuts[i]
  {
    if i > 0 {
      ChunksHoldDocuments(job, cuts, i - 1);
    }
  }

  /** One document that fits under the bare name is refused, because number zero is always tried. */
  lemma BareNameRefused()
    ensures var job := Job("a", ["x"], 0, 2);
            && NonemptyDocuments(job) && WholeFitsNamed(job, job.base) && FitsAsNamed(job, [0, 1])
            && forall cuts :: !Valid(job, cuts)
  {
    var job := Job("a", ["x"], 0, 2);
    assert Width("a") == 1 && Width("x") == 1;
    NumberedWidth("a", 0);
    PaddedWidth(0);
    WholeIsOneChunk(job);
    forall cuts ensures !Valid(job, cuts) {
      if Split(job, cuts) {
        ChunksHoldDocuments(job, cuts, |cuts| - 1);
        OneChunk(job, cuts);
      }
    }
  }
}
