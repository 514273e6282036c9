/** `sortCodes`: sorts a copy of the list by one of three keys (lib/github-api.ts). */
module CodeSort {
  import opened Wrappers
  import opened Sorting
  import opened GameCodes

  datatype SortKey = Latest | Credibility | Expiring

  /** The publish time, with an empty date counted as 0. */
  function PublishTime(c: GameCode): int {
    c.publishDate.GetOr(0)
  }

  /** The credibility score, with a missing score counted as 0. */
  function ScoreOrZero(c: GameCode): int {
    c.credibilityScore.GetOr(0)
  }

  /** The comparators exactly as written: "latest" and "credibility" put the
      larger value first; "expiring" answers 1 whenever `a` has no expiry date,
      then -1 whenever `b` has none, and otherwise puts the earlier date first. */
  function CompareAsWritten(sortBy: SortKey, a: GameCode, b: GameCode): (r: int)
    ensures sortBy == Latest ==>
              (r < 0 <==> PublishTime(a) > PublishTime(b)) && (r == 0 <==> PublishTime(a) == PublishTime(b))
    ensures sortBy == Credibility ==>
              (r < 0 <==> ScoreOrZero(a) > ScoreOrZero(b)) && (r == 0 <==> ScoreOrZero(a) == ScoreOrZero(b))
    ensures sortBy == Expiring ==>
              (r < 0 <==> a.expireDate.Some? && (b.expireDate.None? || a.expireDate.value < b.expireDate.value))
    ensures sortBy == Expiring ==>
              (r == 0 <==> a.expireDate.Some? && b.expireDate.Some? && a.expireDate.value == b.expireDate.value)
  {
    match sortBy
    case Latest => PublishTime(b) - PublishTime(a)
    case Credibility => ScoreOrZero(b) - ScoreOrZero(a)
    case Expiring =>
      if a.expireDate.None? then 1
      else if b.expireDate.None? then -1
      else a.expireDate.value - b.expireDate.value
  }

  /** For two different records without expiry date the "expiring" comparator
      as written answers 1 in both orders, so it is not a consistent comparator. */
  lemma ExpiringComparatorInconsistent()
    ensures !Consistent(AsWrittenComparator(Expiring))
  {
    var x := GameCode("A", "G", "", "", "", None, Active, Limited, None, 0, "", None);
    var y := GameCode("B", "G", "", "", "", None, Active, Limited, None, 0, "", None);
    assert x != y;
    assert CompareAsWritten(Expiring, x, y) == 1 == CompareAsWritten(Expiring, y, x);
    assert Answer(AsWrittenComparator(Expiring), x, y) > 0;
    assert Answer(AsWrittenComparator(Expiring), y, x) > 0;
  }

  function AsWrittenComparator(sortBy: SortKey): (GameCode, GameCode) -> int {
    (a: GameCode, b: GameCode) => CompareAsWritten(sortBy, a, b)
  }

  /** The comparators with the "expiring" one answering 0 for two undated
      records; every other answer is the same as written. Under "expiring" two
      records tie exactly when their expiry dates are equal, missing or not. */
  function CompareCodes(sortBy: SortKey, a: GameCode, b: GameCode): (r: int)
    ensures !(sortBy == Expiring && a.expireDate.None? && b.expireDate.None?) ==>
              r == CompareAsWritten(sortBy, a, b)
    ensures sortBy == Expiring ==> (r == 0 <==> a.expireDate == b.expireDate)
  {
    if sortBy == Expiring && a.expireDate.None? && b.expireDate.None? then 0
    else CompareAsWritten(sortBy, a, b)
  }

  function Comparator(sortBy: SortKey): (GameCode, GameCode) -> int {
    (a: GameCode, b: GameCode) => CompareCodes(sortBy, a, b)
  }

  /** The corrected comparators are consistent, as `sort` requires. */
  lemma CompareCodesConsistent(sortBy: SortKey)
    ensures Consistent(Comparator(sortBy))
  {
  }

  /** The order `sortCodes` establishes for each key. */
  ghost predicate OrderedBy(sortBy: SortKey, s: seq<GameCode>) {
    match sortBy
    case Latest =>
      forall i, j :: 0 <= i < j < |s| ==> PublishTime(s[i]) >= PublishTime(s[j])
    case Credibility =>
      forall i, j :: 0 <= i < j < |s| ==> ScoreOrZero(s[i]) >= ScoreOrZero(s[j])
    case Expiring =>
      forall i, j :: 0 <= i < j < |s| && s[j].expireDate.Some? ==>
        s[i].expireDate.Some? && s[i].expireDate.value <= s[j].expireDate.value
  }

  /** `sortCodes`: sorts a fresh copy of `codes`. The result is a permutation of
      the input in the key's order: newest first, highest score first, or
      soonest expiry first with every undated record after every dated one.
      An input already in that order comes back unchanged, so sorting twice
      gives the same list as sorting once. */
  method SortCodes(codes: seq<GameCode>, sortBy: SortKey) returns (sorted: seq<GameCode>)
    ensures multiset(sorted) == multiset(codes)
    ensures OrderedBy(sortBy, sorted)
    ensures OrderedBy(sortBy, codes) ==> sorted == codes
  {
    var a := new GameCode[|codes|](k requires 0 <= k < |codes| => codes[k]);
    assert a[..] == codes;
    CompareCodesConsistent(sortBy);
    SortInPlace(a, Comparator(sortBy));
    sorted := a[..];
    OrderedIsSorted(sortBy, codes);
    OrderedIsSorted(sortBy, sorted);
  }

  /** A list in the key's order is also in the order of the comparator as
      written: every earlier record compares at most 0 against every later one,
      except two undated records under "expiring", on which the written
      comparator has no consistent answer. */
  lemma OrderedAgreesWithSource(sortBy: SortKey, s: seq<GameCode>)
    requires OrderedBy(sortBy, s)
    ensures forall i, j :: 0 <= i < j < |s| && !(sortBy == Expiring && s[i].expireDate.None? && s[j].expireDate.None?) ==>
              CompareAsWritten(sortBy, s[i], s[j]) <= 0
  {
    OrderedIsSorted(sortBy, s);
  }

  /** Being in the key's order is being sorted by its comparator. */
  lemma OrderedIsSorted(sortBy: SortKey, s: seq<GameCode>)
    ensures OrderedBy(sortBy, s) <==> SortedWith(Comparator(sortBy), s)
  {
  }
}
