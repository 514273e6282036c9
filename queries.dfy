/** `searchCodes`, `filterByGame` and `filterByType`: an identity case for an
    empty argument, otherwise one `filter` pass (lib/github-api.ts). */
module Queries {
  import opened Wrappers
  import opened JsStrings
  import opened Sequences
  import opened GameCodes

  /** The query as the search uses it: lower-cased, then trimmed. */
  function QueryKey(query: string): string {
    Trim(ToLower(query))
  }

  /** A record matches when its lower-cased game name, code or reward
      description contains the query key. */
  predicate MatchesQuery(c: GameCode, key: string) {
    || Contains(ToLower(c.gameName), key)
    || Contains(ToLower(c.code), key)
    || Contains(ToLower(c.rewardDescription), key)
  }

  function MatchingQuery(key: string): GameCode -> bool {
    (c: GameCode) => MatchesQuery(c, key)
  }

  /** `searchCodes`: the input itself for a blank query, otherwise exactly the
      matching records, each as often as in the input, in input order. */
  function SearchCodes(codes: seq<GameCode>, query: string): (r: seq<GameCode>)
    ensures QueryKey(query) == [] ==> r == codes
    ensures IsSubsequence(r, codes)
    ensures QueryKey(query) != [] ==>
              forall c :: multiset(r)[c] == if MatchesQuery(c, QueryKey(query)) then multiset(codes)[c] else 0
  {
    var key := QueryKey(query);
    if key == [] then IsSubsequenceReflexive(codes); codes
    else FilterKeepsExactlyMatches(codes, MatchingQuery(key)); Filter(codes, MatchingQuery(key))
  }

  /** A query made only of whitespace returns the input unchanged. */
  lemma BlankQueryKeepsAll(codes: seq<GameCode>, query: string)
    requires forall k :: 0 <= k < |query| ==> IsJsWhitespace(query[k])
    ensures SearchCodes(codes, query) == codes
  {
    assert forall k :: 0 <= k < |query| ==> ToLower(query)[k] == query[k];
  }

  /** Upper or lower case in the query makes no difference. */
  lemma SearchIgnoresQueryCase(codes: seq<GameCode>, query: string)
    ensures SearchCodes(codes, ToLower(query)) == SearchCodes(codes, query)
  {
    ToLowerIdempotent(query);
  }

  /** Searching the result of a search again changes nothing. */
  lemma SearchIdempotent(codes: seq<GameCode>, query: string)
    ensures SearchCodes(SearchCodes(codes, query), query) == SearchCodes(codes, query)
  {
    if QueryKey(query) != [] {
      FilterIdempotent(codes, MatchingQuery(QueryKey(query)));
    }
  }

  function OfGame(gameName: string): GameCode -> bool {
    (c: GameCode) => c.gameName == gameName
  }

  /** `filterByGame`: the input itself when no name or an empty name is given,
      otherwise exactly the records of that game (case-sensitive), each as often
      as in the input, in input order. */
  function FilterByGame(codes: seq<GameCode>, gameName: Option<string>): (r: seq<GameCode>)
    ensures gameName == None || gameName == Some("") ==> r == codes
    ensures IsSubsequence(r, codes)
    ensures gameName.Some? && gameName.value != "" ==>
              forall c :: multiset(r)[c] == if c.gameName == gameName.value then multiset(codes)[c] else 0
  {
    match gameName
    case None => IsSubsequenceReflexive(codes); codes
    case Some(name) =>
      if name == "" then IsSubsequenceReflexive(codes); codes
      else FilterKeepsExactlyMatches(codes, OfGame(name)); Filter(codes, OfGame(name))
  }

  /** The `type` argument of `filterByType`: "all", "permanent" or "limited". */
  datatype TypeFilter = AllTypes | OnlyType(codeType: CodeType)

  function OfType(codeType: CodeType): GameCode -> bool {
    (c: GameCode) => c.codeType == codeType
  }

  /** `filterByType`: the input itself for "all", otherwise exactly the records
      of that code type, each as often as in the input, in input order. */
  function FilterByType(codes: seq<GameCode>, filter: TypeFilter): (r: seq<GameCode>)
    ensures filter == AllTypes ==> r == codes
    ensures IsSubsequence(r, codes)
    ensures filter.OnlyType? ==>
              forall c :: multiset(r)[c] == if c.codeType == filter.codeType then multiset(codes)[c] else 0
  {
    match filter
    case AllTypes => IsSubsequenceReflexive(codes); codes
    case OnlyType(t) => FilterKeepsExactlyMatches(codes, OfType(t)); Filter(codes, OfType(t))
  }

  /** Filtering the transformed response by a game whose name no other game
      shares gives exactly that game's records, in the order of its codes. */
  lemma FilterTransformedByGame(games: seq<RawGame>, i: nat)
    requires i < |games| && games[i].gameName != ""
    requires forall g :: 0 <= g < |games| && g != i ==> games[g].gameName != games[i].gameName
    ensures FilterByGame(Flatten(games), Some(games[i].gameName)) == GameRecords(games[i])
  {
    RecordsOfOneGame(games, i);
  }

  lemma {:induction false} RecordsOfOneGame(games: seq<RawGame>, i: nat)
    requires i < |games|
    requires forall g :: 0 <= g < |games| && g != i ==> games[g].gameName != games[i].gameName
    ensures Filter(Flatten(games), OfGame(games[i].gameName)) == GameRecords(games[i])
    decreases |games|
  {
    var p := OfGame(games[i].gameName);
    var init, last := games[..|games| - 1], games[|games| - 1];
    assert Flatten(games) == Flatten(init) + GameRecords(last);
    FilterConcat(Flatten(init), GameRecords(last), p);
    if i == |games| - 1 {
      NoRecordsOfGame(init, games[i].gameName);
      FilterKeepsAll(GameRecords(last), p);
    } else {
      RecordsOfOneGame(init, i);
      NoRecordsOfGame([last], games[i].gameName);
      assert Flatten([last]) == GameRecords(last) by {
        assert [last][..0] == [];
      }
    }
  }

  /** No game of `games` is named `gameName`, so filtering by it finds nothing. */
  lemma {:induction false} NoRecordsOfGame(games: seq<RawGame>, gameName: string)
    requires forall g :: 0 <= g < |games| ==> games[g].gameName != gameName
    ensures Filter(Flatten(games), OfGame(gameName)) == []
    decreases |games|
  {
    if games != [] {
      var init, last := games[..|games| - 1], games[|games| - 1];
      FilterConcat(Flatten(init), GameRecords(last), OfGame(gameName));
      NoRecordsOfGame(init, gameName);
      FilterDropsAll(GameRecords(last), OfGame(gameName));
    }
  }
}
