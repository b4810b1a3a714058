/** Datatypes and text predicates shared by the models. */
module Base {
  datatype Option<+T> = None | Some(value: T)

  datatype Result<+T, +E> = Ok(value: T) | Err(error: E)

  predicate Lower(c: char) {
    'a' <= c <= 'z'
  }

  predicate Digit(c: char) {
    '0' <= c <= '9'
  }

  /** The lowercase DNS label test that the Rust sources spell out byte by byte. */
  predicate DnsLabel(s: string, max: nat) {
    && 1 <= |s| <= max
    && (Lower(s[0]) || Digit(s[0]))
    && (Lower(s[|s| - 1]) || Digit(s[|s| - 1]))
    && forall i :: 0 <= i < |s| ==> Lower(s[i]) || Digit(s[i]) || s[i] == '-'
  }

  /** No value occurs twice: what inserting into a set one by one checks. */
  ghost predicate Distinct<T(!new)>(s: seq<T>) {
    forall i, j :: 0 <= i < j < |s| ==> s[i] != s[j]
  }

  /** An optional value that is present and not empty, as `filter(|v| !v.is_empty())` leaves it. */
  function NonEmpty(v: Option<string>): Option<string> {
    if v.Some? && v.value == "" then None else v
  }

  lemma SubsetSize<T>(a: set<T>, b: set<T>)
    requires a <= b
    ensures |a| <= |b|
  {
    assert b == a + (b - a);
  }
}
