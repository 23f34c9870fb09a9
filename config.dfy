/** The parts of the application's configuration record that carry rules:
    team and payment limits, the validation patterns and the game-mode table. */
module Config {
  import opened Text

  // Team settings.
  const MaxMembers: nat := 6
  const CodeLength: nat := 6
  const Roles: seq<string> := ["admin", "member"]

  // Payment settings.
  const MinDeposit: int := 100
  const MaxDeposit: int := 10000
  const MinWithdraw: int := 500
  const MaxWithdraw: int := 50000

  // Password length rule.
  const PasswordMinLength: nat := 6
  const PasswordMaxLength: nat := 20

  /** Each configured range is non-empty. */
  lemma LimitsAreOrdered()
    ensures MinDeposit <= MaxDeposit && MinWithdraw <= MaxWithdraw
    ensures PasswordMinLength <= PasswordMaxLength
    ensures 0 < MinDeposit < MinWithdraw
  {
  }

  /** `/^\d{9,10}$/`. A valid uid holds no whitespace, so trimming leaves it as it is
      (see `Text.Trim`). */
  predicate ValidUid(s: string)
    ensures ValidUid(s) ==> NoWhitespace(s)
  {
    (|s| == 9 || |s| == 10) && forall i | 0 <= i < |s| :: IsDigit(s[i])
  }

  predicate IsCodeChar(c: char) { IsUpperLetter(c) || IsDigit(c) }

  /** `/^[A-Z0-9]{6}$/`. A valid code holds no whitespace. */
  predicate ValidTeamCode(s: string)
    ensures ValidTeamCode(s) ==> NoWhitespace(s)
  {
    |s| == 6 && forall i | 0 <= i < |s| :: IsCodeChar(s[i])
  }

  /** Trimming and upper-casing, as a typed code goes through before the lookup, leave a
      valid code as it is. */
  lemma ValidCodeSurvivesNormalising(s: string)
    requires ValidTeamCode(s)
    ensures ToUpper(Trim(s)) == s
  {
    assert Trim(s) == s;
    var u := ToUpper(s);
    forall i | 0 <= i < |s| ensures u[i] == s[i] {
      assert IsCodeChar(s[i]);
    }
  }

  /** The pattern's fixed repetition agrees with the configured code length. */
  lemma TeamCodePatternHasCodeLength(s: string)
    requires ValidTeamCode(s)
    ensures |s| == CodeLength
  {
  }

  /** A character matched by `[^\s@]`. */
  predicate IsEmailChar(c: char) { !IsWhitespace(c) && c != '@' }

  /** A string matched by `[^\s@]+`. */
  predicate EmailRun(s: string) {
    s != [] && forall i | 0 <= i < |s| :: IsEmailChar(s[i])
  }

  /** `/^[^\s@]+@[^\s@]+\.[^\s@]+$/` read as a regular expression: the input splits
      into three non-empty runs joined by an `@` and a `.`. */
  ghost predicate EmailPattern(s: string) {
    exists a: string, b: string, c: string :: PatternSplit(s, a, b, c)
  }

  /** `s` is the run `a`, an `@`, the run `b`, a `.` and the run `c`. */
  predicate PatternSplit(s: string, a: string, b: string, c: string) {
    s == a + ['@'] + b + ['.'] + c && EmailRun(a) && EmailRun(b) && EmailRun(c)
  }

  /** `s` has its only `@` at position `k`, something before it, and a `.` at a later
      position `e` with something between and something after. */
  predicate EmailSplitAt(s: string, k: int, e: int) {
    && 0 < k && k + 1 < e < |s| - 1
    && s[k] == '@' && s[e] == '.'
    && forall i | 0 <= i < |s| && i != k :: s[i] != '@'
  }

  /** The email rule as the registration form applies it: no whitespace, exactly one
      `@`, something before it, and a `.` with text on both sides after it. */
  predicate ValidEmail(s: string) {
    NoWhitespace(s) && exists k, e | 0 <= k < e < |s| :: EmailSplitAt(s, k, e)
  }

  /** A slice without whitespace or `@` is a run of `[^\s@]`. */
  lemma SliceIsRun(s: string, lo: int, hi: int)
    requires 0 <= lo < hi <= |s| && NoWhitespace(s)
    requires forall i | lo <= i < hi :: s[i] != '@'
    ensures EmailRun(s[lo..hi])
  {
    forall i | 0 <= i < hi - lo ensures IsEmailChar(s[lo..hi][i]) {
      assert s[lo..hi][i] == s[lo + i];
    }
  }

  /** A string cut around two positions. */
  lemma CutTwice(s: string, k: int, e: int)
    requires 0 <= k < e < |s|
    ensures s == s[..k] + [s[k]] + s[k + 1..e] + [s[e]] + s[e + 1..]
  {
    assert s == s[..k] + s[k..];
    assert s[k..] == [s[k]] + s[k + 1..e] + s[e..];
    assert s[e..] == [s[e]] + s[e + 1..];
  }

  /** What the direct check accepts, the regular expression matches. */
  lemma ValidEmailImpliesPattern(s: string)
    requires ValidEmail(s)
    ensures EmailPattern(s)
  {
    var k, e :| 0 <= k < e < |s| && EmailSplitAt(s, k, e);
    var a, b, c := s[..k], s[k + 1..e], s[e + 1..];
    assert a == s[0..k];
    SliceIsRun(s, 0, k);
    SliceIsRun(s, k + 1, e);
    SliceIsRun(s, e + 1, |s|);
    CutTwice(s, k, e);
    assert PatternSplit(s, a, b, c);
  }

  /** Where each character of `a + ['@'] + b + ['.'] + c` comes from. */
  lemma CharsOfJoin(a: string, b: string, c: string, i: int)
    requires 0 <= i < |a| + |b| + |c| + 2
    ensures var s := a + ['@'] + b + ['.'] + c;
      && (i < |a| ==> s[i] == a[i])
      && (i == |a| ==> s[i] == '@')
      && (|a| < i < |a| + 1 + |b| ==> s[i] == b[i - |a| - 1])
      && (i == |a| + 1 + |b| ==> s[i] == '.')
      && (|a| + 1 + |b| < i ==> s[i] == c[i - |a| - |b| - 2])
  {
  }

  /** What the regular expression matches, the direct check accepts. */
  lemma PatternImpliesValidEmail(s: string)
    requires EmailPattern(s)
    ensures ValidEmail(s)
  {
    var a: string, b: string, c: string :| PatternSplit(s, a, b, c);
    var k, e := |a|, |a| + 1 + |b|;
    forall i | 0 <= i < |s| ensures !IsWhitespace(s[i]) && (i != k ==> s[i] != '@') {
      CharsOfJoin(a, b, c, i);
    }
    CharsOfJoin(a, b, c, k);
    CharsOfJoin(a, b, c, e);
    assert EmailSplitAt(s, k, e);
  }

  /** The direct check accepts exactly the strings the regular expression matches. */
  lemma ValidEmailMatchesPattern(s: string)
    ensures ValidEmail(s) <==> EmailPattern(s)
  {
    if ValidEmail(s) { ValidEmailImpliesPattern(s); }
    if EmailPattern(s) { PatternImpliesValidEmail(s); }
  }

  /** One player-count option of a team mode. */
  datatype ModeOption = ModeOption(teams: nat, players: nat, labelText: string)

  datatype TeamMode = TeamMode(key: string, name: string, teamSize: nat, options: seq<ModeOption>)

  datatype GameMode = GameMode(key: string, name: string, description: string,
                               maps: seq<string>, teamModes: seq<TeamMode>)

  const BattleRoyale := GameMode("battle_royale", "Battle Royale", "Classic BR mode",
    ["Bermuda", "Purgatory", "Kalahari", "Alpine"],
    [ TeamMode("solo", "Solo", 1,
        [ModeOption(20, 20, "20 Players"), ModeOption(32, 32, "32 Players"), ModeOption(48, 48, "48 Players")]),
      TeamMode("duo", "Duo", 2,
        [ModeOption(10, 20, "10 Teams (20 Players)"), ModeOption(16, 32, "16 Teams (32 Players)"),
         ModeOption(24, 48, "24 Teams (48 Players)")]),
      TeamMode("squad", "Squad", 4,
        [ModeOption(5, 20, "5 Teams (20 Players)"), ModeOption(8, 32, "8 Teams (32 Players)"),
         ModeOption(12, 48, "12 Teams (48 Players)")]) ])

  const ClashSquad := GameMode("clash_squad", "Clash Squad", "4v4 tactical mode", [],
    [ TeamMode("solo", "Solo (1v1)", 1, [ModeOption(2, 2, "1v1 (2 Players)")]),
      TeamMode("duo", "Duo (2v2)", 2, [ModeOption(2, 4, "2v2 (4 Players)")]),
      TeamMode("squad", "Squad (4v4)", 4, [ModeOption(2, 8, "4v4 (8 Players)")]),
      TeamMode("6v6", "6v6", 6, [ModeOption(2, 12, "6v6 (12 Players)")]) ])

  const LoneWolf := GameMode("lone_wolf", "Lone Wolf", "Solo survival mode", [],
    [ TeamMode("solo", "Solo (1v1)", 1, [ModeOption(2, 2, "1v1 (2 Players)")]),
      TeamMode("duo", "Duo (2v2)", 2, [ModeOption(2, 4, "2v2 (4 Players)")]) ])

  const GameModes: seq<GameMode> := [BattleRoyale, ClashSquad, LoneWolf]

  /** A team mode whose every option seats `teams` full teams of `teamSize`, and whose
      team size fits in one roster. */
  predicate ConsistentTeamMode(m: TeamMode) {
    m.teamSize <= MaxMembers &&
    forall k | 0 <= k < |m.options| :: m.options[k].players == m.options[k].teams * m.teamSize
  }

  predicate ConsistentGameMode(g: GameMode) {
    forall k | 0 <= k < |g.teamModes| :: ConsistentTeamMode(g.teamModes[k])
  }

  lemma BattleRoyaleConsistent() ensures ConsistentGameMode(BattleRoyale) {
    var ms := BattleRoyale.teamModes;
    assert ConsistentTeamMode(ms[0]) && ConsistentTeamMode(ms[1]) && ConsistentTeamMode(ms[2]);
  }

  lemma ClashSquadConsistent() ensures ConsistentGameMode(ClashSquad) {
    var ms := ClashSquad.teamModes;
    assert ConsistentTeamMode(ms[0]) && ConsistentTeamMode(ms[1]);
    assert ConsistentTeamMode(ms[2]) && ConsistentTeamMode(ms[3]);
  }

  lemma LoneWolfConsistent() ensures ConsistentGameMode(LoneWolf) {
    var ms := LoneWolf.teamModes;
    assert ConsistentTeamMode(ms[0]) && ConsistentTeamMode(ms[1]);
  }

  /** Every option of the table: players = teams × teamSize, and every team size fits in
      a team of at most MaxMembers. */
  lemma GameModesConsistent()
    ensures forall i | 0 <= i < |GameModes| :: ConsistentGameMode(GameModes[i])
  {
    BattleRoyaleConsistent();
    ClashSquadConsistent();
    LoneWolfConsistent();
  }
}
