/**
  The search conditions the rule compiler emits: their tree, their spelling and their three-valued meaning
  (section 8.12 of ISO/IEC 9075:1992).
  */
module SqlClause {
  import opened Text
  import opened Schema
  import Like

  // ---- trees ----

  datatype CompareOp = EQ | NE | GT | GE | LT | LE

  /** An atomic predicate; `p` is the number of its `$p` placeholder. */
  datatype Test =
    | Compare(e: Expr, op: CompareOp, p: nat)
    | IsDistinctFrom(e: Expr, p: nat)
    | LikePattern(e: Expr, p: nat)
    | RegexPattern(e: Expr, p: nat)
    | EqualsAny(e: Expr, p: nat)
    | DiffersFromAll(e: Expr, p: nat)
    | IsNotNull(e: Expr)
    | ArrayHolds(e: Expr, p: nat)
    | ArrayOverlaps(e: Expr, p: nat)
    | SomeLike(e: Expr, p: nat)
    | SomeRegex(e: Expr, p: nat)

  /** OR of terms, each an AND of factors: the grammar in which NOT binds tighter than AND, and AND than OR. */
  datatype Clause = Or(terms: seq<Term>)
  datatype Term = And(factors: seq<Factor>)
  datatype Factor = Truth(b: bool) | Atom(test: Test) | Not(f: Factor) | Parens(c: Clause)

  /** The clause consisting of a single factor. */
  function Lone(f: Factor): Clause {
    Or([And([f])])
  }

  // ---- three-valued meaning ----

  datatype Truth3 = Yes | No | Unknown

  function Truth3Of(b: bool): Truth3 {
    if b then Yes else No
  }

  function And3(a: Truth3, b: Truth3): Truth3 {
    if a == No || b == No then No else if a == Unknown || b == Unknown then Unknown else Yes
  }

  function Or3(a: Truth3, b: Truth3): Truth3 {
    if a == Yes || b == Yes then Yes else if a == Unknown || b == Unknown then Unknown else No
  }

  function Not3(a: Truth3): Truth3 {
    match a
    case Yes => No
    case No => Yes
    case Unknown => Unknown
  }

  /** The value bound to `$p`; placeholders count from 1. */
  function Bound(env: seq<Val>, p: nat): Val {
    if 1 <= p <= |env| then env[p - 1] else NullV
  }

  predicate IntCompare(a: int, op: CompareOp, b: int) {
    match op
    case EQ => a == b
    case NE => a != b
    case GT => a > b
    case GE => a >= b
    case LT => a < b
    case LE => a <= b
  }

  /** A comparison with NULL, like one between values that do not compare, is not true. */
  function EvalCompare(v: Val, op: CompareOp, w: Val): Truth3 {
    if v.IntV? && w.IntV? then Truth3Of(IntCompare(v.n, op, w.n))
    else if v == NullV || w == NullV then Unknown
    else if op == EQ then Truth3Of(v == w)
    else if op == NE then Truth3Of(v != w)
    else Unknown
  }

  function EvalTest(t: Test, row: Row, cx: Context, env: seq<Val>): Truth3 {
    var v := Eval(t.e, row, cx.now);
    if t.IsNotNull? then Truth3Of(v != NullV)
    else
      var w := Bound(env, t.p);
      match t
      case Compare(_, op, _) => EvalCompare(v, op, w)
      case IsDistinctFrom(_, _) => Truth3Of(v != w)
      case LikePattern(_, _) =>
        if v.TextV? && w.TextV? then Truth3Of(Like.Matches(w.s, v.s)) else Unknown
      case RegexPattern(_, _) =>
        if v.TextV? && w.TextV? then Truth3Of(cx.regexMatches(w.s, v.s)) else Unknown
      case EqualsAny(_, _) =>
        // over no elements ANY is false, even for NULL
        if w == TextsV([]) then No
        else if v.TextV? && w.TextsV? then Truth3Of(v.s in w.ss) else Unknown
      case DiffersFromAll(_, _) =>
        // over no elements ALL is true, even for NULL
        if w == TextsV([]) then Yes
        else if v.TextV? && w.TextsV? then Truth3Of(v.s !in w.ss) else Unknown
      case ArrayHolds(_, _) =>
        if v.TextsV? && w.TextV? then Truth3Of(w.s in v.ss) else Unknown
      case ArrayOverlaps(_, _) =>
        if v.TextsV? && w.TextsV? then Truth3Of(exists s :: s in v.ss && s in w.ss) else Unknown
      case SomeLike(_, _) =>
        // EXISTS is two-valued; unnesting NULL yields no rows
        Truth3Of(v.TextsV? && w.TextV? && exists s :: s in v.ss && Like.Matches(w.s, s))
      case SomeRegex(_, _) =>
        Truth3Of(v.TextsV? && w.TextV? && exists s :: s in v.ss && cx.regexMatches(w.s, s))
  }

  function EvalClause(c: Clause, row: Row, cx: Context, env: seq<Val>): Truth3
    decreases c, 1
  {
    EvalTerms(c.terms, row, cx, env)
  }

  function EvalTerms(ts: seq<Term>, row: Row, cx: Context, env: seq<Val>): Truth3
    decreases ts, 0
  {
    if ts == [] then No
    else Or3(EvalFactors(ts[0].factors, row, cx, env), EvalTerms(ts[1..], row, cx, env))
  }

  function EvalFactors(fs: seq<Factor>, row: Row, cx: Context, env: seq<Val>): Truth3
    decreases fs, 0
  {
    if fs == [] then Yes
    else And3(EvalFactor(fs[0], row, cx, env), EvalFactors(fs[1..], row, cx, env))
  }

  function EvalFactor(f: Factor, row: Row, cx: Context, env: seq<Val>): Truth3
    decreases f, 0
  {
    match f
    case Truth(b) => Truth3Of(b)
    case Atom(t) => EvalTest(t, row, cx, env)
    case Not(f1) => Not3(EvalFactor(f1, row, cx, env))
    case Parens(c) => EvalClause(c, row, cx, env)
  }

  lemma LoneMeans(f: Factor, row: Row, cx: Context, env: seq<Val>)
    ensures EvalClause(Lone(f), row, cx, env) == EvalFactor(f, row, cx, env)
  {
    var fs := [f];
    var ts := [And(fs)];
    assert fs[1..] == [] && ts[1..] == [];
    assert EvalFactors(fs, row, cx, env) == EvalFactor(f, row, cx, env);
    assert EvalTerms(ts, row, cx, env) == Or3(EvalFactors(fs, row, cx, env), No);
  }

  lemma PairMeans(a: Factor, b: Factor, row: Row, cx: Context, env: seq<Val>)
    ensures EvalClause(Or([And([a, b])]), row, cx, env)
         == And3(EvalFactor(a, row, cx, env), EvalFactor(b, row, cx, env))
  {
    var fs := [a, b];
    var ts := [And(fs)];
    assert fs[1..] == [b] && [b][1..] == [] && ts[1..] == [];
    assert EvalFactors([b], row, cx, env) == EvalFactor(b, row, cx, env);
    assert EvalTerms(ts, row, cx, env) == Or3(EvalFactors(fs, row, cx, env), No);
  }

  // ---- placeholders and types ----

  function TestParams(t: Test): seq<nat> {
    if t.IsNotNull? then [] else [t.p]
  }

  /** Placeholder numbers, left to right. */
  function FactorParams(f: Factor): seq<nat>
    decreases f, 0
  {
    match f
    case Truth(_) => []
    case Atom(t) => TestParams(t)
    case Not(f1) => FactorParams(f1)
    case Parens(c) => TermsParams(c.terms)
  }

  function FactorsParams(fs: seq<Factor>): seq<nat>
    decreases fs, 0
  {
    if fs == [] then [] else FactorParams(fs[0]) + FactorsParams(fs[1..])
  }

  function TermsParams(ts: seq<Term>): seq<nat>
    decreases ts, 0
  {
    if ts == [] then [] else FactorsParams(ts[0].factors) + TermsParams(ts[1..])
  }

  datatype SqlType = BoolT | IntT | TextT | TextsT | TimeT

  function ColumnType(c: Column): SqlType {
    match c
    case OuIsSupporter | OuIsActive | OuIsRestricted => BoolT
    case OuJoinedAt | OuLastVisitAt => TimeT
    case OuCountryCode | OuOsuUsername => TextT
    case OuGroups | OuPlaystyles => TextsT
    case _ => IntT
  }

  predicate ValHasType(v: Val, t: SqlType) {
    match v
    case NullV => true
    case BoolV(_) => t == BoolT
    case IntV(_) => t == IntT
    case TextV(_) => t == TextT
    case TextsV(_) => t == TextsT
    case TimeV(_) => t == TimeT
  }

  function ExprType(e: Expr): Option<SqlType> {
    match e
    case Col(c) => Some(ColumnType(c))
    case Coalesce(e1, fallback) =>
      var t := ExprType(e1);
      if t.Some? && ValHasType(fallback, t.value) then t else None
    case Plus(a, b) => if ExprType(a) == ExprType(b) == Some(IntT) then Some(IntT) else None
    case Positive(e1) => if ExprType(e1) == Some(IntT) then Some(BoolT) else None
    case ArrayLength(e1) => if ExprType(e1) == Some(TextsT) then Some(IntT) else None
    case DaysSince(e1) => if ExprType(e1) == Some(TimeT) then Some(IntT) else None
  }

  /**
    The test never fails: operand and placeholder types fit, a LIKE pattern is not cut short, and a regular expression
    is one that the database compiles.
    */
  predicate TestFits(t: Test, env: seq<Val>, compiles: string -> bool) {
    var e := ExprType(t.e);
    e.Some? &&
    match t
    case IsNotNull(_) => true
    case Compare(_, op, p) =>
      var w := Bound(env, p);
      w != NullV && ValHasType(w, e.value) && (e.value == IntT || op == EQ || (op == NE && e.value == TextT))
    case IsDistinctFrom(_, p) => e.value == TextT && Bound(env, p).TextV?
    case LikePattern(_, p) => e.value == TextT && Bound(env, p).TextV? && Like.WellFormed(Bound(env, p).s)
    case RegexPattern(_, p) => e.value == TextT && Bound(env, p).TextV? && compiles(Bound(env, p).s)
    case EqualsAny(_, p) => e.value == TextT && Bound(env, p).TextsV?
    case DiffersFromAll(_, p) => e.value == TextT && Bound(env, p).TextsV?
    case ArrayHolds(_, p) => e.value == TextsT && Bound(env, p).TextV?
    case ArrayOverlaps(_, p) => e.value == TextsT && Bound(env, p).TextsV?
    case SomeLike(_, p) => e.value == TextsT && Bound(env, p).TextV? && Like.WellFormed(Bound(env, p).s)
    case SomeRegex(_, p) => e.value == TextsT && Bound(env, p).TextV? && compiles(Bound(env, p).s)
  }

  predicate FactorFits(f: Factor, env: seq<Val>, compiles: string -> bool)
    decreases f, 0
  {
    match f
    case Truth(_) => true
    case Atom(t) => TestFits(t, env, compiles)
    case Not(f1) => FactorFits(f1, env, compiles)
    case Parens(c) => TermsFit(c.terms, env, compiles)
  }

  predicate FactorsFit(fs: seq<Factor>, env: seq<Val>, compiles: string -> bool)
    decreases fs, 0
  {
    fs == [] || (FactorFits(fs[0], env, compiles) && FactorsFit(fs[1..], env, compiles))
  }

  predicate TermsFit(ts: seq<Term>, env: seq<Val>, compiles: string -> bool)
    decreases ts, 0
  {
    ts == [] || (FactorsFit(ts[0].factors, env, compiles) && TermsFit(ts[1..], env, compiles))
  }

  // ---- spelling ----

  function ColumnText(c: Column): string {
    match c
    case OuIsSupporter => "ou.is_supporter"
    case OuIsActive => "ou.is_active"
    case OuIsRestricted => "ou.is_restricted"
    case OuJoinedAt => "ou.osu_joined_at"
    case OuLastVisitAt => "ou.last_visit_at"
    case OuBadgeCount => "ou.badge_count"
    case OuFollowerCount => "ou.follower_count"
    case OuMappingFollowers => "ou.mapping_followers"
    case OuKudosuTotal => "ou.kudosu_total"
    case OuRankedBeatmaps => "ou.ranked_beatmaps"
    case OuLovedBeatmaps => "ou.loved_beatmaps"
    case OuMappingPlaycount => "ou.mapping_playcount"
    case OuReplaysWatchedOthers => "ou.replays_watched_others"
    case OuFavouriteBeatmapsets => "ou.favourite_beatmapsets"
    case OuCountryCode => "ou.country_code"
    case OuOsuUsername => "ou.osu_username"
    case OuGroups => "ou.groups"
    case OuPlaystyles => "ou.playstyles"
    case OsGlobalRank => "os.global_rank"
    case OsCountryRank => "os.country_rank"
    case OsPerformancePoints => "os.performance_points"
    case OsPlayCount => "os.play_count"
    case OsPlayTimeHours => "os.play_time_hours"
    case OsTotalScore => "os.total_score"
    case OsRankedScore => "os.ranked_score"
    case OsHitAccuracy => "os.hit_accuracy"
    case OsMaxCombo => "os.max_combo"
    case OsLevelInt => "os.level_int"
    case OsCountSs => "os.count_ss"
    case OsCountSsSilver => "os.count_ss_silver"
    case OsCountS => "os.count_s"
    case OsCountSSilver => "os.count_s_silver"
    case OsCountA => "os.count_a"
  }

  function ExprText(e: Expr): string {
    match e
    case Col(c) => ColumnText(c)
    case Coalesce(e1, fallback) => "COALESCE(" + ExprText(e1) + ", " + (if fallback.BoolV? then "false" else "0") + ")"
    case Plus(a, b) => ExprText(a) + " + " + ExprText(b)
    case Positive(e1) => "(" + ExprText(e1) + " > 0)"
    case ArrayLength(e1) => "array_length(" + ExprText(e1) + ", 1)"
    case DaysSince(e1) => "FLOOR(EXTRACT(EPOCH FROM (now() - " + ExprText(e1) + ")) / 86400)"
  }

  function OpText(op: CompareOp): string {
    match op
    case EQ => "="
    case NE => "<>"
    case GT => ">"
    case GE => ">="
    case LT => "<"
    case LE => "<="
  }

  function TestText(t: Test): string {
    var x := ExprText(t.e);
    match t
    case Compare(_, op, p) =>
      (if op == EQ || op == NE then x else "(" + x + ")") + " " + OpText(op) + " $" + ShowNat(p)
    case IsDistinctFrom(_, p) => x + " IS DISTINCT FROM $" + ShowNat(p)
    case LikePattern(_, p) => x + " LIKE $" + ShowNat(p)
    case RegexPattern(_, p) => x + " ~ $" + ShowNat(p)
    case EqualsAny(_, p) => x + " = ANY($" + ShowNat(p) + "::text[])"
    case DiffersFromAll(_, p) => x + " <> ALL($" + ShowNat(p) + "::text[])"
    case IsNotNull(_) => x + " IS NOT NULL"
    case ArrayHolds(_, p) => x + " @> ARRAY[$" + ShowNat(p) + "::text]"
    case ArrayOverlaps(_, p) => x + " && $" + ShowNat(p) + "::text[]"
    case SomeLike(_, p) => "EXISTS (SELECT 1 FROM unnest(" + x + ") AS x WHERE x LIKE $" + ShowNat(p) + ")"
    case SomeRegex(_, p) => "EXISTS (SELECT 1 FROM unnest(" + x + ") AS x WHERE x ~ $" + ShowNat(p) + ")"
  }

  function Join(parts: seq<string>, sep: string): string {
    if parts == [] then "" else if |parts| == 1 then parts[0] else parts[0] + sep + Join(parts[1..], sep)
  }

  function FactorText(f: Factor): string
    decreases f, 0
  {
    match f
    case Truth(b) => if b then "TRUE" else "FALSE"
    case Atom(t) => TestText(t)
    case Not(f1) => "NOT " + FactorText(f1)
    case Parens(c) => "(" + ClauseText(c) + ")"
  }

  function FactorTexts(fs: seq<Factor>): (r: seq<string>)
    ensures |r| == |fs|
    decreases fs, 0
  {
    if fs == [] then [] else [FactorText(fs[0])] + FactorTexts(fs[1..])
  }

  function TermTexts(ts: seq<Term>): (r: seq<string>)
    ensures |r| == |ts|
    decreases ts, 0
  {
    if ts == [] then [] else [Join(FactorTexts(ts[0].factors), " AND ")] + TermTexts(ts[1..])
  }

  function ClauseText(c: Clause): string
    decreases c, 0
  {
    Join(TermTexts(c.terms), " OR ")
  }
}
