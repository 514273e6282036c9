/** `getGameList`: the distinct game names, sorted (lib/github-api.ts). */
module GameList {
  import opened JsStrings
  import opened Sorting
  import opened GameCodes

  /** The names of the games that have at least one record. */
  function GameNames(codes: seq<GameCode>): set<string> {
    set c | c in codes :: c.gameName
  }

  /** The comparator `sort()` applies to strings when given none. */
  function CompareStrings(a: string, b: string): int {
    if StrLess(a, b) then -1 else if StrLess(b, a) then 1 else 0
  }

  predicate StrictlyAscending(names: seq<string>) {
    forall i, j :: 0 <= i < j < |names| ==> StrLess(names[i], names[j])
  }

  /** `codes.forEach(code => games.add(code.gameName))`: the set is kept as a
      duplicate-free sequence in insertion order, the order in which a
      JavaScript `Set` is read back. */
  method CollectGameNames(codes: seq<GameCode>) returns (games: seq<string>)
    ensures forall n :: n in games <==> n in GameNames(codes)
    ensures forall n :: multiset(games)[n] <= 1
  {
    games := [];
    for i := 0 to |codes|
      invariant forall n :: n in games <==> n in GameNames(codes[..i])
      invariant forall n :: multiset(games)[n] <= 1
    {
      assert codes[..i + 1] == codes[..i] + [codes[i]];
      var name := codes[i].gameName;
      if name !in games {
        games := games + [name];
      }
    }
    assert codes[..|codes|] == codes;
  }

  /** `getGameList`: collects the distinct names, copies them to an array and
      sorts that with the default string order. The result is strictly
      ascending and holds exactly the names of the records' games. */
  method GetGameList(codes: seq<GameCode>) returns (names: seq<string>)
    ensures StrictlyAscending(names)
    ensures forall n :: n in names <==> n in GameNames(codes)
  {
    var games := CollectGameNames(codes);
    var a := new string[|games|](k requires 0 <= k < |games| => games[k]);
    assert a[..] == games;
    CompareStringsConsistent();
    SortInPlace(a, CompareStrings);
    names := a[..];
    assert multiset(names) == multiset(games);
    SortedDistinctIsAscending(names);
    forall n
      ensures n in names <==> n in games
    {
      assert n in names <==> multiset(names)[n] > 0;
      assert n in games <==> multiset(games)[n] > 0;
    }
  }

  /** Sorted with no name twice is strictly ascending. */
  lemma SortedDistinctIsAscending(names: seq<string>)
    requires SortedWith(CompareStrings, names)
    requires forall n :: multiset(names)[n] <= 1
    ensures StrictlyAscending(names)
  {
    forall i, j | 0 <= i < j < |names|
      ensures StrLess(names[i], names[j])
    {
      TwoOccurrences(names, i, j);
      StrLessTotal(names[i], names[j]);
    }
  }

  /** A value at two positions occurs at least twice. */
  lemma TwoOccurrences<T>(s: seq<T>, i: nat, j: nat)
    requires i < j < |s|
    ensures s[i] == s[j] ==> multiset(s)[s[i]] >= 2
  {
    assert s == s[..j] + s[j..];
    assert s[i] in s[..j];
    assert s[j] in s[j..];
  }

  lemma CompareStringsConsistent()
    ensures Consistent(CompareStrings)
  {
    forall x, y
      ensures CompareStrings(x, y) > 0 ==> CompareStrings(y, x) < 0
    {
      StrLessAsymmetric(x, y);
    }
    forall x, y, z
      ensures CompareStrings(x, y) <= 0 && CompareStrings(y, z) <= 0 ==> CompareStrings(x, z) <= 0
    {
      StrLessTotal(x, y);
      StrLessTotal(y, z);
      StrLessTransitive(z, y, x);
      StrLessTransitive(x, y, z);
      StrLessAsymmetric(x, z);
    }
  }

  /** Two strictly ascending lists with the same names are the same list: the
      game list depends only on the set of names, not on the order of the records. */
  lemma {:induction false} AscendingIsUnique(a: seq<string>, b: seq<string>)
    requires StrictlyAscending(a) && StrictlyAscending(b)
    requires forall n :: n in a <==> n in b
    ensures a == b
    decreases |a|
  {
    assert b != [] ==> b[0] in b;
    if a == [] {
      if b != [] {
        assert false;
      }
    } else {
      assert b != [] by {
        assert a[0] in b;
      }
      if a[0] != b[0] {
        assert a[0] in b && b[0] in a;
        var k :| 0 <= k < |b| && b[k] == a[0];
        var m :| 0 <= m < |a| && a[m] == b[0];
        assert StrLess(b[0], a[0]) && StrLess(a[0], b[0]);
        StrLessAsymmetric(a[0], b[0]);
      }
      forall n | n in a[1..]
        ensures n in b[1..]
      {
        var m :| 1 <= m < |a| && a[m] == n;
        assert n in b;
        var k :| 0 <= k < |b| && b[k] == n;
        StrLessIrreflexive(n);
        assert k != 0;
        assert b[1..][k - 1] == n;
      }
      forall n | n in b[1..]
        ensures n in a[1..]
      {
        var m :| 1 <= m < |b| && b[m] == n;
        assert n in a;
        var k :| 0 <= k < |a| && a[k] == n;
        StrLessIrreflexive(n);
        assert k != 0;
        assert a[1..][k - 1] == n;
      }
      AscendingIsUnique(a[1..], b[1..]);
    }
  }
}
