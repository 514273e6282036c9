/** The code records: the nested response as fetched, the flat `GameCode`
    record, the credibility score and the transformation that flattens one
    into the other (lib/github-api.ts). */
module GameCodes {
  import opened Wrappers
  import opened JsStrings

  datatype Status = Active | Expired

  datatype CodeType = Permanent | Limited

  /** One code entry of the response. Dates are parsed timestamps: `None`
      stands for a null or empty date string. */
  datatype RawCode = RawCode(
    code: string,
    rewardDescription: string,
    sourcePlatform: string,
    sourceUrl: string,
    expireDate: Option<int>,
    status: string,
    codeType: string,
    publishDate: Option<int>,
    verificationCount: int,
    reviewStatus: string)

  /** One game group of the response; its declared `codeCount` is never read. */
  datatype RawGame = RawGame(gameName: string, codes: seq<RawCode>)

  /** The response document; `version`, `lastUpdated` and `totalCodes` are never read. */
  datatype GitHubDataResponse = GitHubDataResponse(games: seq<RawGame>)

  /** One flat record: a code with the name of its game and two-valued enums. */
  datatype GameCode = GameCode(
    code: string,
    gameName: string,
    rewardDescription: string,
    sourcePlatform: string,
    sourceUrl: string,
    expireDate: Option<int>,
    status: Status,
    codeType: CodeType,
    publishDate: Option<int>,
    verificationCount: int,
    reviewStatus: string,
    credibilityScore: Option<int>)

  function Min(a: int, b: int): int {
    if a <= b then a else b
  }

  /** The source platforms that earn the trust bonus when they occur in `sourcePlatform`. */
  const TrustedPlatforms: seq<string> := ["TapTap论坛", "Bilibili", "官方"]

  predicate IsTrustedPlatform(sourcePlatform: string) {
    exists p :: p in TrustedPlatforms && Contains(sourcePlatform, p)
  }

  /** The credibility score: 50, plus 5 per verification up to 30, plus 10
      for a trusted platform, plus 10 for an approved review, at most 100.
      It reaches 100 only when all three bonuses are at their maximum, and
      the cap never cuts anything off. */
  function CredibilityScore(verificationCount: int, sourcePlatform: string, reviewStatus: string): (score: int)
    ensures score <= 100
    ensures verificationCount >= 0 ==> score >= 50
    ensures score == 100 <==> verificationCount >= 6 && IsTrustedPlatform(sourcePlatform) && reviewStatus == "approved"
    ensures score == 50 + Min(verificationCount * 5, 30)
                       + (if IsTrustedPlatform(sourcePlatform) then 10 else 0)
                       + (if reviewStatus == "approved" then 10 else 0)
  {
    var total := 50 + Min(verificationCount * 5, 30)
                    + (if IsTrustedPlatform(sourcePlatform) then 10 else 0)
                    + (if reviewStatus == "approved" then 10 else 0);
    Min(total, 100)
  }

  /** `calculateCredibilityScore`, adding to a running score step by step. */
  method CalculateCredibilityScore(c: RawCode) returns (score: int)
    ensures score == CredibilityScore(c.verificationCount, c.sourcePlatform, c.reviewStatus)
    ensures score <= 100
    ensures c.verificationCount >= 0 ==> score >= 50
  {
    score := 50;
    score := score + Min(c.verificationCount * 5, 30);
    if IsTrustedPlatform(c.sourcePlatform) {
      score := score + 10;
    }
    if c.reviewStatus == "approved" {
      score := score + 10;
    }
    score := Min(score, 100);
  }

  /** The worked examples of the scoring rule, and what a negative
      verification count does: without bonuses any negative count drops
      below 50 and a count of -11 below 0; with both bonuses a count of -1
      still scores 65, -5 drops below 50 and -15 below 0. */
  lemma CredibilityScoreExamples()
    ensures CredibilityScore(10, "TapTap论坛", "approved") == 100
    ensures CredibilityScore(0, "贴吧", "pending") == 50
    ensures CredibilityScore(-1, "贴吧", "pending") == 45
    ensures CredibilityScore(-11, "贴吧", "pending") == -5
    ensures CredibilityScore(-1, "Bilibili", "approved") == 65
    ensures CredibilityScore(-5, "Bilibili", "approved") == 45
    ensures CredibilityScore(-15, "Bilibili", "approved") == -5
  {
    assert Contains("TapTap论坛", TrustedPlatforms[0]);
    assert Contains("Bilibili", TrustedPlatforms[1]);
    assert !Contains("贴吧", "官方") by {
      assert "贴吧"[..2][0] != "官方"[0];
    }
    assert !IsTrustedPlatform("贴吧");
  }

  function CoerceStatus(s: string): Status {
    if s == "active" then Active else Expired
  }

  function CoerceCodeType(s: string): CodeType {
    if s == "permanent" then Permanent else Limited
  }

  /** The record emitted for code `c` of the game named `gameName`. */
  function ToGameCode(gameName: string, c: RawCode): GameCode {
    GameCode(c.code, gameName, c.rewardDescription, c.sourcePlatform, c.sourceUrl,
             c.expireDate, CoerceStatus(c.status), CoerceCodeType(c.codeType),
             c.publishDate, c.verificationCount, c.reviewStatus,
             Some(CredibilityScore(c.verificationCount, c.sourcePlatform, c.reviewStatus)))
  }

  /** `r` is the record for code `c` of game `gameName`: the game's name, the
      code's own fields unchanged, `status` active exactly for the raw string
      "active", `codeType` permanent exactly for "permanent", and the score. */
  ghost predicate Transcribes(r: GameCode, gameName: string, c: RawCode) {
    && r.gameName == gameName
    && r.code == c.code
    && r.rewardDescription == c.rewardDescription
    && r.sourcePlatform == c.sourcePlatform
    && r.sourceUrl == c.sourceUrl
    && r.expireDate == c.expireDate
    && r.publishDate == c.publishDate
    && r.verificationCount == c.verificationCount
    && r.reviewStatus == c.reviewStatus
    && (r.status == Active <==> c.status == "active")
    && (r.codeType == Permanent <==> c.codeType == "permanent")
    && r.credibilityScore == Some(CredibilityScore(c.verificationCount, c.sourcePlatform, c.reviewStatus))
  }

  /** The records of one game, in the order of its codes. */
  function GameRecords(g: RawGame): (r: seq<GameCode>)
    ensures |r| == |g.codes|
    ensures forall k :: 0 <= k < |r| ==> Transcribes(r[k], g.gameName, g.codes[k])
  {
    seq(|g.codes|, k requires 0 <= k < |g.codes| => ToGameCode(g.gameName, g.codes[k]))
  }

  /** The records of all games: games outer, codes inner. */
  function Flatten(games: seq<RawGame>): seq<GameCode>
    decreases |games|
  {
    if games == [] then [] else Flatten(games[..|games| - 1]) + GameRecords(games[|games| - 1])
  }

  /** The number of codes listed over all games. */
  function TotalCodes(games: seq<RawGame>): nat
    decreases |games|
  {
    if games == [] then 0 else TotalCodes(games[..|games| - 1]) + |games[|games| - 1].codes|
  }

  /** Where the records of game `i` start in the flat list. */
  function Offset(games: seq<RawGame>, i: nat): nat
    requires i <= |games|
  {
    TotalCodes(games[..i])
  }

  lemma {:induction false} FlattenLength(games: seq<RawGame>)
    ensures |Flatten(games)| == TotalCodes(games)
    decreases |games|
  {
    if games != [] {
      FlattenLength(games[..|games| - 1]);
    }
  }

  /** The record for code `j` of game `i` sits at `Offset(games, i) + j` of `codes`. */
  ghost predicate TranscribedAt(codes: seq<GameCode>, games: seq<RawGame>, i: nat, j: nat)
    requires i < |games| && j < |games[i].codes|
  {
    Offset(games, i) + j < |codes| && Transcribes(codes[Offset(games, i) + j], games[i].gameName, games[i].codes[j])
  }

  /** Code `j` of game `i` sits at `Offset(games, i) + j` of the flat list. */
  lemma {:induction false} FlattenAt(games: seq<RawGame>, i: nat, j: nat)
    requires i < |games| && j < |games[i].codes|
    ensures TranscribedAt(Flatten(games), games, i, j)
    decreases |games|
  {
    var init := games[..|games| - 1];
    FlattenLength(init);
    if i == |games| - 1 {
      assert games[..i] == init;
      assert Flatten(games)[Offset(games, i) + j] == GameRecords(games[i])[j];
    } else {
      assert games[..i] == init[..i];
      FlattenAt(init, i, j);
    }
  }

  /** `transformGitHubData`: appends one record per code, games outer, codes inner. */
  method TransformGitHubData(data: GitHubDataResponse) returns (codes: seq<GameCode>)
    ensures codes == Flatten(data.games)
    ensures |codes| == TotalCodes(data.games)
    ensures forall i, j :: 0 <= i < |data.games| && 0 <= j < |data.games[i].codes| ==>
                             TranscribedAt(codes, data.games, i, j)
  {
    codes := [];
    var i := 0;
    while i < |data.games|
      invariant 0 <= i <= |data.games|
      invariant codes == Flatten(data.games[..i])
    {
      var game := data.games[i];
      var j := 0;
      while j < |game.codes|
        invariant 0 <= j <= |game.codes|
        invariant codes == Flatten(data.games[..i]) + GameRecords(game)[..j]
      {
        var c := game.codes[j];
        var score := CalculateCredibilityScore(c);
        codes := codes + [ToGameCode(game.gameName, c).(credibilityScore := Some(score))];
        j := j + 1;
      }
      assert data.games[..i + 1][..i] == data.games[..i];
      i := i + 1;
    }
    assert data.games[..i] == data.games;
    FlattenLength(data.games);
    forall g, k | 0 <= g < |data.games| && 0 <= k < |data.games[g].codes|
      ensures TranscribedAt(codes, data.games, g, k)
    {
      FlattenAt(data.games, g, k);
    }
  }
}
