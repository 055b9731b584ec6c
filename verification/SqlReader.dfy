/**
  SQL as the database reads it: text is cut into lexemes, and lexemes are read as the search conditions of `SqlClause`,
  NOT binding tighter than AND and AND than OR.  Nothing here knows how clauses are printed.
  */
module SqlReader {
  import opened Text
  import opened Schema
  import opened SqlClause

  // ---- lexemes ----

  datatype CharClass = Blank | WordChar | OpChar | Single

  /** Letters, digits, `_`, `.` and `$` make up words, and operator signs make up operators; the rest stand alone. */
  function ClassOf(c: char): CharClass {
    if c == ' ' then Blank
    else if 'a' <= c <= 'z' || 'A' <= c <= 'Z' || IsDigit(c) || c == '_' || c == '.' || c == '$' then WordChar
    else if c in "=<>~@&+-/:" then OpChar
    else Single
  }

  /** Between these two characters one lexeme ends. */
  predicate Breaks(c: char, d: char) {
    ClassOf(c) != ClassOf(d) || ClassOf(c) == Blank || ClassOf(c) == Single
  }

  /** A character in front of lexemes: part of the first of them, or one more. */
  function Prepend(c: char, joins: bool, lexemes: seq<string>): seq<string>
    requires joins ==> lexemes != []
  {
    if ClassOf(c) == Blank then lexemes
    else if joins then [[c] + lexemes[0]] + lexemes[1..]
    else [[c]] + lexemes
  }

  /** The longest runs of word or operator characters, and single other characters; blanks only separate. */
  function Lex(s: string): (lexemes: seq<string>)
    ensures s != "" && ClassOf(s[0]) != Blank ==> lexemes != []
  {
    if s == "" then [] else Prepend(s[0], |s| > 1 && !Breaks(s[0], s[1]), Lex(s[1..]))
  }

  lemma PrependConcat(c: char, joins: bool, a: seq<string>, b: seq<string>)
    requires joins ==> a != []
    ensures Prepend(c, joins, a + b) == Prepend(c, joins, a) + b
  {
    hide ClassOf;
    if joins {
      assert (a + b)[0] == a[0] && (a + b)[1..] == a[1..] + b;
    }
  }

  lemma {:induction false} LexConcat(a: string, b: string)
    requires a == "" || b == "" || Breaks(a[|a| - 1], b[0])
    ensures Lex(a + b) == Lex(a) + Lex(b)
  {
    hide ClassOf, Prepend;
    if a == "" {
      assert a + b == b;
    } else {
      var s, rest := a + b, a[1..];
      assert s[0] == a[0] && s[1..] == rest + b;
      if rest == "" {
        assert rest + b == b && a == [a[0]];
        assert b != "" ==> s[1] == b[0];
        PrependConcat(a[0], false, [], Lex(b));
        assert [] + Lex(b) == Lex(b);
      } else {
        assert s[1] == a[1] && a[|a| - 1] == rest[|rest| - 1];
        LexConcat(rest, b);
        PrependConcat(a[0], !Breaks(a[0], a[1]), Lex(rest), Lex(b));
      }
    }
  }

  predicate AllOf(s: string, kind: CharClass) {
    forall c :: c in s ==> ClassOf(c) == kind
  }

  lemma {:induction false} LexRun(s: string, kind: CharClass)
    requires s != "" && AllOf(s, kind) && (kind == WordChar || kind == OpChar)
    ensures Lex(s) == [s]
  {
    hide ClassOf;
    assert s[0] in s;
    if |s| == 1 {
      assert s == [s[0]] && s[1..] == "";
    } else {
      assert s[1] in s;
      LexRun(s[1..], kind);
      assert s == [s[0]] + s[1..];
    }
  }

  // ---- reading ----

  function ReadColumn(word: string): (r: Option<Column>)
    ensures r.Some? ==> word != "" && word[0] == 'o'
  {
    if |word| > 1 && word[1] == 'u' then ReadUserColumn(word) else ReadStatsColumn(word)
  }

  function ReadUserColumn(word: string): (r: Option<Column>)
    ensures r.Some? ==> word != "" && word[0] == 'o'
  {
    match word
    case "ou.is_supporter" => Some(OuIsSupporter)
    case "ou.is_active" => Some(OuIsActive)
    case "ou.is_restricted" => Some(OuIsRestricted)
    case "ou.osu_joined_at" => Some(OuJoinedAt)
    case "ou.last_visit_at" => Some(OuLastVisitAt)
    case "ou.badge_count" => Some(OuBadgeCount)
    case "ou.follower_count" => Some(OuFollowerCount)
    case "ou.mapping_followers" => Some(OuMappingFollowers)
    case "ou.kudosu_total" => Some(OuKudosuTotal)
    case "ou.ranked_beatmaps" => Some(OuRankedBeatmaps)
    case "ou.loved_beatmaps" => Some(OuLovedBeatmaps)
    case "ou.mapping_playcount" => Some(OuMappingPlaycount)
    case "ou.replays_watched_others" => Some(OuReplaysWatchedOthers)
    case "ou.favourite_beatmapsets" => Some(OuFavouriteBeatmapsets)
    case "ou.country_code" => Some(OuCountryCode)
    case "ou.osu_username" => Some(OuOsuUsername)
    case "ou.groups" => Some(OuGroups)
    case "ou.playstyles" => Some(OuPlaystyles)
    case _ => None
  }

  function ReadStatsColumn(word: string): (r: Option<Column>)
    ensures r.Some? ==> word != "" && word[0] == 'o'
  {
    match word
    case "os.global_rank" => Some(OsGlobalRank)
    case "os.country_rank" => Some(OsCountryRank)
    case "os.performance_points" => Some(OsPerformancePoints)
    case "os.play_count" => Some(OsPlayCount)
    case "os.play_time_hours" => Some(OsPlayTimeHours)
    case "os.total_score" => Some(OsTotalScore)
    case "os.ranked_score" => Some(OsRankedScore)
    case "os.hit_accuracy" => Some(OsHitAccuracy)
    case "os.max_combo" => Some(OsMaxCombo)
    case "os.level_int" => Some(OsLevelInt)
    case "os.count_ss" => Some(OsCountSs)
    case "os.count_ss_silver" => Some(OsCountSsSilver)
    case "os.count_s" => Some(OsCountS)
    case "os.count_s_silver" => Some(OsCountSSilver)
    case "os.count_a" => Some(OsCountA)
    case _ => None
  }

  function ReadParam(word: string): Option<nat> {
    if |word| > 1 && word[0] == '$' && AllDigits(word[1..]) then Some(NatValue(word[1..])) else None
  }

  function ReadConstant(word: string): Option<Val> {
    if word == "true" then Some(BoolV(true))
    else if word == "false" then Some(BoolV(false))
    else if word != "" && AllDigits(word) then Some(IntV(NatValue(word)))
    else None
  }

  /** A value expression and what follows it: `+` takes two primaries, everything else is a primary itself. */
  function ReadExpr(ls: seq<string>): (r: Option<(Expr, seq<string>)>)
    ensures r.Some? ==> |r.value.1| < |ls|
    decreases |ls|, 1
  {
    var left := ReadPrimary(ls);
    if left == None || left.value.1 == [] || left.value.1[0] != "+" then left
    else
      var right := ReadPrimary(left.value.1[1..]);
      if right == None then None else Some((Plus(left.value.0, right.value.0), right.value.1))
  }

  function ReadPrimary(ls: seq<string>): (r: Option<(Expr, seq<string>)>)
    ensures r.Some? ==> |r.value.1| < |ls|
    decreases |ls|, 0
  {
    if ls == [] then None
    else if ls[0] == "(" then
      var e := ReadExpr(ls[1..]);
      if e.Some? && [">", "0", ")"] <= e.value.1 then Some((Positive(e.value.0), e.value.1[3..])) else None
    else if ["COALESCE", "("] <= ls then
      var e := ReadExpr(ls[2..]);
      if e.Some? && |e.value.1| >= 3 && e.value.1[0] == "," && ReadConstant(e.value.1[1]).Some? && e.value.1[2] == ")"
      then
        Some((Coalesce(e.value.0, ReadConstant(e.value.1[1]).value), e.value.1[3..]))
      else None
    else if ["array_length", "("] <= ls then
      var e := ReadExpr(ls[2..]);
      if e.Some? && [",", "1", ")"] <= e.value.1 then Some((ArrayLength(e.value.0), e.value.1[3..])) else None
    else if ["FLOOR", "(", "EXTRACT", "(", "EPOCH", "FROM", "(", "now", "(", ")", "-"] <= ls then
      var e := ReadExpr(ls[11..]);
      if e.Some? && [")", ")", "/", "86400", ")"] <= e.value.1 then Some((DaysSince(e.value.0), e.value.1[5..]))
      else None
    else
      var c := ReadColumn(ls[0]);
      if c.Some? then Some((Col(c.value), ls[1..])) else None
  }

  /** The placeholder behind these lexemes and in front of those. */
  function Between(before: seq<string>, ls: seq<string>, after: seq<string>): Option<(nat, seq<string>)> {
    if before <= ls && |ls| > |before| && ReadParam(ls[|before|]).Some? && after <= ls[|before| + 1..] then
      Some((ReadParam(ls[|before|]).value, ls[|before| + 1 + |after|..]))
    else None
  }

  const TEXT_LIST := ["::", "text", "[", "]"]

  /** What is asked of the expression in front. */
  function ReadOperator(e: Expr, ls: seq<string>): (r: Option<(Test, seq<string>)>)
    ensures r.Some? ==> |r.value.1| < |ls|
  {
    if ls == [] then None
    else if ["=", "ANY", "("] <= ls then Asks(EqualsAny(e, 0), Between(["=", "ANY", "("], ls, TEXT_LIST + [")"]))
    else if ls[0] == "=" then Asks(Compare(e, EQ, 0), Between(["="], ls, []))
    else if ["<>", "ALL", "("] <= ls then
      Asks(DiffersFromAll(e, 0), Between(["<>", "ALL", "("], ls, TEXT_LIST + [")"]))
    else if ls[0] == "<>" then Asks(Compare(e, NE, 0), Between(["<>"], ls, []))
    else if ls[0] == ">" then Asks(Compare(e, GT, 0), Between([">"], ls, []))
    else if ls[0] == ">=" then Asks(Compare(e, GE, 0), Between([">="], ls, []))
    else if ls[0] == "<" then Asks(Compare(e, LT, 0), Between(["<"], ls, []))
    else if ls[0] == "<=" then Asks(Compare(e, LE, 0), Between(["<="], ls, []))
    else if ["IS", "NOT", "NULL"] <= ls then Some((IsNotNull(e), ls[3..]))
    else if ls[0] == "IS" then Asks(IsDistinctFrom(e, 0), Between(["IS", "DISTINCT", "FROM"], ls, []))
    else if ls[0] == "LIKE" then Asks(LikePattern(e, 0), Between(["LIKE"], ls, []))
    else if ls[0] == "~" then Asks(RegexPattern(e, 0), Between(["~"], ls, []))
    else if ls[0] == "@>" then Asks(ArrayHolds(e, 0), Between(["@>", "ARRAY", "["], ls, ["::", "text", "]"]))
    else if ls[0] == "&&" then Asks(ArrayOverlaps(e, 0), Between(["&&"], ls, TEXT_LIST))
    else None
  }

  function Asks(t: Test, p: Option<(nat, seq<string>)>): Option<(Test, seq<string>)>
    requires !t.IsNotNull?
  {
    if p.Some? then Some((t.(p := p.value.0), p.value.1)) else None
  }

  const UNNEST := ["EXISTS", "(", "SELECT", "1", "FROM", "unnest", "("]
  const AS_X := [")", "AS", "x", "WHERE", "x"]

  function ReadTest(ls: seq<string>): (r: Option<(Test, seq<string>)>)
    ensures r.Some? ==> |r.value.1| < |ls|
  {
    if UNNEST <= ls then
      var e := ReadExpr(ls[7..]);
      if e == None then None
      else if AS_X + ["LIKE"] <= e.value.1 then Asks(SomeLike(e.value.0, 0), Between(AS_X + ["LIKE"], e.value.1, [")"]))
      else Asks(SomeRegex(e.value.0, 0), Between(AS_X + ["~"], e.value.1, [")"]))
    else
      var e := ReadExpr(ls);
      if e.Some? then ReadOperator(e.value.0, e.value.1)
      else if ls != [] && ls[0] == "(" then
        var e := ReadExpr(ls[1..]);
        if e.Some? && e.value.1 != [] && e.value.1[0] == ")" then ReadOperator(e.value.0, e.value.1[1..]) else None
      else None
  }

  function ReadFactor(ls: seq<string>): (r: Option<(Factor, seq<string>)>)
    ensures r.Some? ==> |r.value.1| < |ls|
    decreases |ls|, 0
  {
    if ls == [] then None
    else if ls[0] == "TRUE" then Some((Truth(true), ls[1..]))
    else if ls[0] == "FALSE" then Some((Truth(false), ls[1..]))
    else if ls[0] == "NOT" then
      var f := ReadFactor(ls[1..]);
      if f == None then None else Some((Not(f.value.0), f.value.1))
    else
      var t := ReadTest(ls);
      if t.Some? then Some((Atom(t.value.0), t.value.1))
      else if ls[0] == "(" then
        var c := ReadTerms(ls[1..]);
        if c.Some? && c.value.1 != [] && c.value.1[0] == ")" then Some((Parens(Or(c.value.0)), c.value.1[1..]))
        else None
      else None
  }

  function ReadFactors(ls: seq<string>): (r: Option<(seq<Factor>, seq<string>)>)
    ensures r.Some? ==> |r.value.1| < |ls|
    decreases |ls|, 1
  {
    var first := ReadFactor(ls);
    if first == None then None
    else
      var (f, rest) := first.value;
      if rest == [] || rest[0] != "AND" then Some(([f], rest))
      else
        var more := ReadFactors(rest[1..]);
        if more == None then None else Some(([f] + more.value.0, more.value.1))
  }

  function ReadTerms(ls: seq<string>): (r: Option<(seq<Term>, seq<string>)>)
    ensures r.Some? ==> |r.value.1| < |ls|
    decreases |ls|, 2
  {
    var first := ReadFactors(ls);
    if first == None then None
    else
      var (fs, rest) := first.value;
      if rest == [] || rest[0] != "OR" then Some(([And(fs)], rest))
      else
        var more := ReadTerms(rest[1..]);
        if more == None then None else Some(([And(fs)] + more.value.0, more.value.1))
  }

  /** The whole text, or nothing. */
  function ReadClause(text: string): Option<Clause> {
    var r := ReadTerms(Lex(text));
    if r.Some? && r.value.1 == [] then Some(Or(r.value.0)) else None
  }

  /** Does the database select the row under these parameters? */
  predicate TextTrue(text: string, row: Row, cx: Context, env: seq<Val>) {
    var c := ReadClause(text);
    c.Some? && EvalClause(c.value, row, cx, env) == Yes
  }
}
