/**
  The two tables a rule looks at, the SQL value expressions over their LEFT JOIN, and the `Facts`
  record the per-player path projects from the same joined row.
  */
module Schema {
  import opened Text

  /** Microseconds in a day: the resolution of a PostgreSQL timestamp. */
  const DAY: int := 86_400_000_000

  datatype User = User(
    isSupporter: bool, isActive: bool, isRestricted: bool,
    joinedAt: int, lastVisitAt: Option<int>,
    badgeCount: int, followerCount: int, mappingFollowers: int, kudosuTotal: int, rankedBeatmaps: int,
    lovedBeatmaps: int, mappingPlaycount: int, replaysWatchedOthers: int, favouriteBeatmapsets: int,
    countryCode: Option<string>, osuUsername: string, groups: seq<string>, playstyles: seq<string>)

  datatype Stats = Stats(
    globalRank: Option<int>, countryRank: Option<int>,
    performancePoints: int, playCount: int, playTimeHours: int, totalScore: int, rankedScore: int,
    hitAccuracy: int, maxCombo: int, levelInt: int,
    countSs: int, countSsSilver: int, countS: int, countSSilver: int, countA: int)

  /** One row of `osu_users ou LEFT JOIN osu_stats os`: a player need not have played the mode. */
  datatype Row = Row(ou: User, os: Option<Stats>)

  /**
    What the interpreter and the database are both given: the current time and one regular-expression
    engine, of which nothing is known.
    */
  datatype Context = Context(now: int, regexCompiles: string -> bool, regexMatches: (string, string) -> bool)

  // ---- SQL values and value expressions ----

  datatype Val =
    | NullV
    | BoolV(b: bool)
    | IntV(n: int)
    | TextV(s: string)
    | TextsV(ss: seq<string>)
    | TimeV(at: int)

  datatype Column =
    | OuIsSupporter | OuIsActive | OuIsRestricted | OuJoinedAt | OuLastVisitAt
    | OuBadgeCount | OuFollowerCount | OuMappingFollowers | OuKudosuTotal | OuRankedBeatmaps
    | OuLovedBeatmaps | OuMappingPlaycount | OuReplaysWatchedOthers | OuFavouriteBeatmapsets
    | OuCountryCode | OuOsuUsername | OuGroups | OuPlaystyles
    | OsGlobalRank | OsCountryRank | OsPerformancePoints | OsPlayCount | OsPlayTimeHours | OsTotalScore
    | OsRankedScore | OsHitAccuracy | OsMaxCombo | OsLevelInt
    | OsCountSs | OsCountSsSilver | OsCountS | OsCountSSilver | OsCountA

  function OptInt(o: Option<int>): Val {
    if o.Some? then IntV(o.value) else NullV
  }

  function ReadUser(c: Column, u: User): Val {
    match c
    case OuIsSupporter => BoolV(u.isSupporter)
    case OuIsActive => BoolV(u.isActive)
    case OuIsRestricted => BoolV(u.isRestricted)
    case OuJoinedAt => TimeV(u.joinedAt)
    case OuLastVisitAt => if u.lastVisitAt.Some? then TimeV(u.lastVisitAt.value) else NullV
    case OuBadgeCount => IntV(u.badgeCount)
    case OuFollowerCount => IntV(u.followerCount)
    case OuMappingFollowers => IntV(u.mappingFollowers)
    case OuKudosuTotal => IntV(u.kudosuTotal)
    case OuRankedBeatmaps => IntV(u.rankedBeatmaps)
    case OuLovedBeatmaps => IntV(u.lovedBeatmaps)
    case OuMappingPlaycount => IntV(u.mappingPlaycount)
    case OuReplaysWatchedOthers => IntV(u.replaysWatchedOthers)
    case OuFavouriteBeatmapsets => IntV(u.favouriteBeatmapsets)
    case OuCountryCode => if u.countryCode.Some? then TextV(u.countryCode.value) else NullV
    case OuOsuUsername => TextV(u.osuUsername)
    case OuGroups => TextsV(u.groups)
    case OuPlaystyles => TextsV(u.playstyles)
    case _ => NullV
  }

  function ReadStats(c: Column, s: Stats): Val {
    match c
    case OsGlobalRank => OptInt(s.globalRank)
    case OsCountryRank => OptInt(s.countryRank)
    case OsPerformancePoints => IntV(s.performancePoints)
    case OsPlayCount => IntV(s.playCount)
    case OsPlayTimeHours => IntV(s.playTimeHours)
    case OsTotalScore => IntV(s.totalScore)
    case OsRankedScore => IntV(s.rankedScore)
    case OsHitAccuracy => IntV(s.hitAccuracy)
    case OsMaxCombo => IntV(s.maxCombo)
    case OsLevelInt => IntV(s.levelInt)
    case OsCountSs => IntV(s.countSs)
    case OsCountSsSilver => IntV(s.countSsSilver)
    case OsCountS => IntV(s.countS)
    case OsCountSSilver => IntV(s.countSSilver)
    case OsCountA => IntV(s.countA)
    case _ => NullV
  }

  predicate IsStatsColumn(c: Column) {
    match c
    case OsGlobalRank | OsCountryRank | OsPerformancePoints | OsPlayCount | OsPlayTimeHours | OsTotalScore
       | OsRankedScore | OsHitAccuracy | OsMaxCombo | OsLevelInt
       | OsCountSs | OsCountSsSilver | OsCountS | OsCountSSilver | OsCountA => true
    case _ => false
  }

  /** A column of the joined row; every `os` column is NULL when the player has no stats in the mode. */
  function Read(c: Column, row: Row): Val {
    if !IsStatsColumn(c) then ReadUser(c, row.ou)
    else if row.os.Some? then ReadStats(c, row.os.value)
    else NullV
  }

  datatype Expr =
    | Col(c: Column)
    | Coalesce(e: Expr, fallback: Val)
    | Plus(left: Expr, right: Expr)
    | Positive(e: Expr)
    | ArrayLength(e: Expr)
    | DaysSince(e: Expr)

  /** SQL evaluation: every operator but COALESCE maps NULL to NULL. */
  function Eval(e: Expr, row: Row, now: int): Val {
    match e
    case Col(c) => Read(c, row)
    case Coalesce(e1, fallback) =>
      var v := Eval(e1, row, now);
      if v == NullV then fallback else v
    case Plus(a, b) =>
      var va, vb := Eval(a, row, now), Eval(b, row, now);
      if va.IntV? && vb.IntV? then IntV(va.n + vb.n) else NullV
    case Positive(e1) =>
      var v := Eval(e1, row, now);
      if v.IntV? then BoolV(v.n > 0) else NullV
    case ArrayLength(e1) =>
      // array_length is NULL, not 0, for an empty array
      var v := Eval(e1, row, now);
      if v.TextsV? && v.ss != [] then IntV(|v.ss|) else NullV
    case DaysSince(e1) =>
      // FLOOR(EXTRACT(EPOCH FROM (now() - e)) / 86400); division by a positive number rounds down
      var v := Eval(e1, row, now);
      if v.TimeV? then IntV((now - v.at) / DAY) else NullV
  }

  // ---- facts ----

  datatype Facts = Facts(
    isSupporter: bool, isActive: bool, isRestricted: bool, hasBadge: bool, hasGroupBadge: bool,
    osuJoinedAt: Option<int>, lastVisitAt: Option<int>,
    badgeCount: int, followerCount: int, mappingSubscribers: int, kudosu: int, rankedBeatmaps: int,
    lovedBeatmaps: int, mappingPlaycount: int, replaysWatchedByOthers: int, favouriteCount: int,
    countryCode: Option<string>, username: string, groups: seq<string>, playstyles: seq<string>,
    globalRank: Option<int>, countryRank: Option<int>,
    performancePoints: int, playCount: int, playTimeHours: int, totalScore: int, rankedScore: int,
    hitAccuracy: int, maxCombo: int, levelInt: int, ssCount: int, sCount: int, aCount: int)

  predicate IsCount(c: Column) {
    match c
    case OuIsSupporter | OuIsActive | OuIsRestricted | OuJoinedAt | OuLastVisitAt | OuCountryCode
       | OuOsuUsername | OuGroups | OuPlaystyles | OsGlobalRank | OsCountryRank => false
    case _ => true
  }

  function Zeroed(e: Expr): Expr {
    Coalesce(e, IntV(0))
  }

  /** Decoding the non-nullable result columns; `IntV?` says a NULL never reaches the decoder. */
  function GetCount(c: Column, row: Row, now: int): int
    requires IsCount(c)
  {
    assert Eval(Col(c), row, now) == Read(c, row);
    Eval(Zeroed(Col(c)), row, now).n
  }

  function GetSum(a: Column, b: Column, row: Row, now: int): int
    requires IsCount(a) && IsCount(b)
  {
    var sum := Eval(Plus(Col(a), Col(b)), row, now);
    assert sum == NullV || sum.IntV?;
    Eval(Zeroed(Plus(Col(a), Col(b))), row, now).n
  }

  function GetPositive(e: Expr, row: Row, now: int): bool
    requires Eval(e, row, now).IntV?
  {
    Eval(Positive(e), row, now).b
  }

  function GetRank(c: Column, row: Row, now: int): Option<int> {
    var v := Eval(Col(c), row, now);
    if v.IntV? then Some(v.n) else None
  }

  /** The select list of the per-player query, decoded into `Facts`. */
  function FactsOf(row: Row, now: int): Facts {
    Facts(
      row.ou.isSupporter,
      row.ou.isActive,
      row.ou.isRestricted,
      GetPositive(Zeroed(Col(OuBadgeCount)), row, now),
      GetPositive(Zeroed(ArrayLength(Col(OuGroups))), row, now),
      Some(row.ou.joinedAt),
      row.ou.lastVisitAt,
      GetCount(OuBadgeCount, row, now),
      GetCount(OuFollowerCount, row, now),
      GetCount(OuMappingFollowers, row, now),
      GetCount(OuKudosuTotal, row, now),
      GetCount(OuRankedBeatmaps, row, now),
      GetCount(OuLovedBeatmaps, row, now),
      GetCount(OuMappingPlaycount, row, now),
      GetCount(OuReplaysWatchedOthers, row, now),
      GetCount(OuFavouriteBeatmapsets, row, now),
      row.ou.countryCode,
      row.ou.osuUsername,
      row.ou.groups,
      row.ou.playstyles,
      GetRank(OsGlobalRank, row, now),
      GetRank(OsCountryRank, row, now),
      GetCount(OsPerformancePoints, row, now),
      GetCount(OsPlayCount, row, now),
      GetCount(OsPlayTimeHours, row, now),
      GetCount(OsTotalScore, row, now),
      GetCount(OsRankedScore, row, now),
      GetCount(OsHitAccuracy, row, now),
      GetCount(OsMaxCombo, row, now),
      GetCount(OsLevelInt, row, now),
      GetSum(OsCountSs, OsCountSsSilver, row, now),
      GetSum(OsCountS, OsCountSSilver, row, now),
      GetCount(OsCountA, row, now))
  }

  /** Counts, sums and ranks as decoded: the columns' numbers, or 0 or nothing for NULL. */
  lemma CountDecoded(c: Column, row: Row, now: int)
    requires IsCount(c)
    ensures GetCount(c, row, now) == if Read(c, row).IntV? then Read(c, row).n else 0
  {
    assert Eval(Col(c), row, now) == Read(c, row);
  }

  lemma SumDecoded(a: Column, b: Column, row: Row, now: int)
    requires IsCount(a) && IsCount(b)
    ensures GetSum(a, b, row, now)
         == if Read(a, row).IntV? && Read(b, row).IntV? then Read(a, row).n + Read(b, row).n else 0
  {
    assert Eval(Col(a), row, now) == Read(a, row) && Eval(Col(b), row, now) == Read(b, row);
    assert Eval(Plus(Col(a), Col(b)), row, now)
        == if Read(a, row).IntV? && Read(b, row).IntV? then IntV(Read(a, row).n + Read(b, row).n) else NullV;
  }

  lemma RankDecoded(c: Column, row: Row, now: int)
    ensures GetRank(c, row, now) == if Read(c, row).IntV? then Some(Read(c, row).n) else None
  {
    assert Eval(Col(c), row, now) == Read(c, row);
  }

  lemma FlagsDecoded(row: Row, now: int)
    ensures GetPositive(Zeroed(Col(OuBadgeCount)), row, now) == (row.ou.badgeCount > 0)
    ensures GetPositive(Zeroed(ArrayLength(Col(OuGroups))), row, now) == (row.ou.groups != [])
  {
    assert Eval(Zeroed(Col(OuBadgeCount)), row, now) == IntV(row.ou.badgeCount);
    assert Eval(Col(OuGroups), row, now) == TextsV(row.ou.groups);
    assert Eval(Zeroed(ArrayLength(Col(OuGroups))), row, now) == IntV(|row.ou.groups|);
  }

  /** The profile half of the facts, field by field. */
  lemma ProfileFacts(row: Row, now: int)
    ensures var f, u := FactsOf(row, now), row.ou;
      && f.isSupporter == u.isSupporter && f.isActive == u.isActive && f.isRestricted == u.isRestricted
      && f.hasBadge == (u.badgeCount > 0) && f.hasGroupBadge == (u.groups != [])
      && f.osuJoinedAt == Some(u.joinedAt) && f.lastVisitAt == u.lastVisitAt
      && f.badgeCount == u.badgeCount && f.followerCount == u.followerCount
      && f.mappingSubscribers == u.mappingFollowers && f.kudosu == u.kudosuTotal
      && f.rankedBeatmaps == u.rankedBeatmaps && f.lovedBeatmaps == u.lovedBeatmaps
      && f.mappingPlaycount == u.mappingPlaycount && f.replaysWatchedByOthers == u.replaysWatchedOthers
      && f.favouriteCount == u.favouriteBeatmapsets
      && f.countryCode == u.countryCode && f.username == u.osuUsername
      && f.groups == u.groups && f.playstyles == u.playstyles
  {
    hide GetCount, GetSum, GetRank, GetPositive, Eval, ReadStats;
    CountDecoded(OuBadgeCount, row, now);
    CountDecoded(OuFollowerCount, row, now);
    CountDecoded(OuMappingFollowers, row, now);
    CountDecoded(OuKudosuTotal, row, now);
    CountDecoded(OuRankedBeatmaps, row, now);
    CountDecoded(OuLovedBeatmaps, row, now);
    CountDecoded(OuMappingPlaycount, row, now);
    CountDecoded(OuReplaysWatchedOthers, row, now);
    CountDecoded(OuFavouriteBeatmapsets, row, now);
    FlagsDecoded(row, now);
  }

  /** What the outer join offers of a player without stats in the mode: no rank, and zero for the rest. */
  function StatsOrNone(row: Row): Stats {
    if row.os.Some? then row.os.value else Stats(None, None, 0, 0, 0, 0, 0, 0, 0, 0, 0, 0, 0, 0, 0)
  }

  lemma StatDecoded(c: Column, row: Row, now: int)
    requires IsCount(c) && IsStatsColumn(c)
    ensures ReadStats(c, StatsOrNone(row)).IntV? && GetCount(c, row, now) == ReadStats(c, StatsOrNone(row)).n
  {
    hide GetCount, Eval;
    CountDecoded(c, row, now);
  }

  lemma GradeDecoded(row: Row, now: int)
    ensures var s := StatsOrNone(row);
      && GetSum(OsCountSs, OsCountSsSilver, row, now) == s.countSs + s.countSsSilver
      && GetSum(OsCountS, OsCountSSilver, row, now) == s.countS + s.countSSilver
  {
    hide GetSum, Eval;
    SumDecoded(OsCountSs, OsCountSsSilver, row, now);
    SumDecoded(OsCountS, OsCountSSilver, row, now);
  }

  lemma RanksDecoded(row: Row, now: int)
    ensures var s := StatsOrNone(row);
      GetRank(OsGlobalRank, row, now) == s.globalRank && GetRank(OsCountryRank, row, now) == s.countryRank
  {
    hide GetRank, Eval;
    RankDecoded(OsGlobalRank, row, now);
    RankDecoded(OsCountryRank, row, now);
  }

  /** The per-mode half, field by field. */
  lemma ModeFacts(row: Row, now: int)
    ensures var f, s := FactsOf(row, now), StatsOrNone(row);
      && f.globalRank == s.globalRank && f.countryRank == s.countryRank
      && f.performancePoints == s.performancePoints && f.playCount == s.playCount
      && f.playTimeHours == s.playTimeHours && f.totalScore == s.totalScore && f.rankedScore == s.rankedScore
  {
    hide GetCount, GetSum, GetRank, GetPositive, Eval, Read, StatsOrNone;
    RanksDecoded(row, now);
    StatDecoded(OsPerformancePoints, row, now);
    StatDecoded(OsPlayCount, row, now);
    StatDecoded(OsPlayTimeHours, row, now);
    StatDecoded(OsTotalScore, row, now);
    StatDecoded(OsRankedScore, row, now);
  }

  /** Silver grades count with the gold. */
  lemma GradeFacts(row: Row, now: int)
    ensures var f, s := FactsOf(row, now), StatsOrNone(row);
      && f.hitAccuracy == s.hitAccuracy && f.maxCombo == s.maxCombo && f.levelInt == s.levelInt
      && f.ssCount == s.countSs + s.countSsSilver && f.sCount == s.countS + s.countSSilver && f.aCount == s.countA
  {
    hide GetCount, GetSum, GetRank, GetPositive, Eval, Read, StatsOrNone;
    StatDecoded(OsHitAccuracy, row, now);
    StatDecoded(OsMaxCombo, row, now);
    StatDecoded(OsLevelInt, row, now);
    GradeDecoded(row, now);
    StatDecoded(OsCountA, row, now);
  }
}
