/**
  The compiled WHERE clause, read by SQL's precedence and evaluated in SQL's three-valued logic, selects
  exactly the rows the interpreter accepts.
  */
module CompilerProof {
  import opened Text
  import opened Rule
  import opened Schema
  import opened SqlClause
  import opened RuleSql
  import opened ConditionEval
  import opened SqlReader
  import opened RuleReads
  import Like

  // ---- target expressions against facts ----

  function FactVal(f: Fact): Val {
    match f
    case FlagFact(b) => BoolV(b)
    case IntFact(n) => OptInt(n)
    case TextFact(s) => if s.Some? then TextV(s.value) else NullV
    case ListFact(ss) => TextsV(ss)
  }

  /** The instants at which rounding down (SQL) and rounding toward zero (`num_days`) give the same day count. */
  predicate RoundsAlike(at: int, now: int) {
    at <= now || (now - at) % DAY == 0
  }

  /** Is the target's value the same by either rounding?  Only the two ages are rounded at all. */
  predicate AgeAgrees(t: Target, row: Row, now: int) {
    match t
    case AccountAgeDays => RoundsAlike(row.ou.joinedAt, now)
    case DaysSinceLastVisit => row.ou.lastVisitAt.Some? ==> RoundsAlike(row.ou.lastVisitAt.value, now)
    case _ => true
  }

  /** Are the values of all targets these conditions read, or this tree reads, the same by either rounding? */
  predicate GroupAgesAgree(cs: seq<Condition>, row: Row, now: int) {
    forall k :: 0 <= k < |cs| ==> AgeAgrees(cs[k].target, row, now)
  }

  predicate TreeAgesAgree(tree: RuleTree, row: Row, now: int) {
    forall g :: 0 <= g < |tree.groups| ==> GroupAgesAgree(tree.groups[g], row, now)
  }

  lemma RoundingExact(at: int, now: int)
    ensures (now - at) / DAY == Truncate(now - at, DAY) <==> RoundsAlike(at, now)
  {
  }

  lemma CountValue(c: Column, row: Row, now: int)
    requires IsCount(c)
    ensures Eval(Zeroed(Col(c)), row, now) == IntV(GetCount(c, row, now))
  {
  }

  lemma SumValue(a: Column, b: Column, row: Row, now: int)
    requires IsCount(a) && IsCount(b)
    ensures Eval(Zeroed(Plus(Col(a), Col(b))), row, now) == IntV(GetSum(a, b, row, now))
  {
  }

  lemma PositiveValue(e: Expr, row: Row, now: int)
    requires Eval(e, row, now).IntV?
    ensures Eval(Positive(e), row, now) == BoolV(GetPositive(e, row, now))
  {
  }

  lemma RankValue(c: Column, row: Row, now: int)
    requires c == OsGlobalRank || c == OsCountryRank
    ensures Eval(Col(c), row, now) == OptInt(GetRank(c, row, now))
  {
  }

  lemma GroupCountValue(row: Row, now: int)
    ensures Eval(Zeroed(ArrayLength(Col(OuGroups))), row, now).IntV?
  {
  }

  lemma FlagTargetValue(t: Target, row: Row, now: int)
    requires t in {IsSupporter, IsActive, IsRestricted}
    ensures Eval(TargetExpr(t), row, now) == FactVal(FactOf(t, FactsOf(row, now), now))
  {
    hide GetCount, GetSum, GetRank, GetPositive;
  }

  lemma AgeTargetValue(t: Target, row: Row, now: int)
    requires t == AccountAgeDays || t == DaysSinceLastVisit
    ensures Eval(TargetExpr(t), row, now) == FactVal(FactOf(t, FactsOf(row, now), now)) <==> AgeAgrees(t, row, now)
  {
    hide GetCount, GetSum, GetRank, GetPositive;
    RoundingExact(row.ou.joinedAt, now);
    if row.ou.lastVisitAt.Some? {
      RoundingExact(row.ou.lastVisitAt.value, now);
    }
  }

  lemma TextTargetValue(t: Target, row: Row, now: int)
    requires KindOf(t) == KString
    ensures Eval(TargetExpr(t), row, now) == FactVal(FactOf(t, FactsOf(row, now), now))
  {
    hide GetCount, GetSum, GetRank, GetPositive;
  }

  lemma CountedTargetValue(t: Target, row: Row, now: int)
    requires t !in {IsSupporter, IsActive, IsRestricted, AccountAgeDays, DaysSinceLastVisit} && KindOf(t) != KString
    ensures Eval(TargetExpr(t), row, now) == FactVal(FactOf(t, FactsOf(row, now), now))
  {
    hide Eval, GetCount, GetSum, GetRank, GetPositive;
    match t
    case HasBadge =>
      CountValue(OuBadgeCount, row, now);
      PositiveValue(Zeroed(Col(OuBadgeCount)), row, now);
    case HasGroupBadge =>
      GroupCountValue(row, now);
      PositiveValue(Zeroed(ArrayLength(Col(OuGroups))), row, now);
    case BadgeCount => CountValue(OuBadgeCount, row, now);
    case FollowerCount => CountValue(OuFollowerCount, row, now);
    case MappingSubscribers => CountValue(OuMappingFollowers, row, now);
    case Kudosu => CountValue(OuKudosuTotal, row, now);
    case RankedBeatmaps => CountValue(OuRankedBeatmaps, row, now);
    case LovedBeatmaps => CountValue(OuLovedBeatmaps, row, now);
    case MappingPlaycount => CountValue(OuMappingPlaycount, row, now);
    case ReplaysWatchedByOthers => CountValue(OuReplaysWatchedOthers, row, now);
    case FavouriteCount => CountValue(OuFavouriteBeatmapsets, row, now);
    case GlobalRank => RankValue(OsGlobalRank, row, now);
    case CountryRank => RankValue(OsCountryRank, row, now);
    case _ => PerModeCountValue(t, row, now);
  }

  lemma PerModeCountValue(t: Target, row: Row, now: int)
    requires IsPerMode(t) && t != GlobalRank && t != CountryRank
    ensures Eval(TargetExpr(t), row, now) == FactVal(FactOf(t, FactsOf(row, now), now))
  {
    hide Eval, GetCount, GetSum, GetRank, GetPositive;
    match t
    case PerformancePoints => CountValue(OsPerformancePoints, row, now);
    case PlayCount => CountValue(OsPlayCount, row, now);
    case PlayTimeHours => CountValue(OsPlayTimeHours, row, now);
    case TotalScore => CountValue(OsTotalScore, row, now);
    case RankedScore => CountValue(OsRankedScore, row, now);
    case HitAccuracy => CountValue(OsHitAccuracy, row, now);
    case MaxCombo => CountValue(OsMaxCombo, row, now);
    case LevelInt => CountValue(OsLevelInt, row, now);
    case SsCount => SumValue(OsCountSs, OsCountSsSilver, row, now);
    case SCount => SumValue(OsCountS, OsCountSSilver, row, now);
    case ACount => CountValue(OsCountA, row, now);
  }

  /** One for one, the compiler's expression for a target is the fact the interpreter reads, save for how it rounds. */
  lemma TargetValue(t: Target, row: Row, now: int)
    ensures Eval(TargetExpr(t), row, now) == FactVal(FactOf(t, FactsOf(row, now), now)) <==> AgeAgrees(t, row, now)
  {
    if t in {IsSupporter, IsActive, IsRestricted} {
      FlagTargetValue(t, row, now);
    } else if t == AccountAgeDays || t == DaysSinceLastVisit {
      AgeTargetValue(t, row, now);
    } else if KindOf(t) == KString {
      TextTargetValue(t, row, now);
    } else {
      CountedTargetValue(t, row, now);
    }
  }

  lemma TargetKind(t: Target, f: Facts, now: int)
    ensures var fact := FactOf(t, f, now);
      match KindOf(t)
      case KBool => fact.FlagFact?
      case KInt => fact.IntFact?
      case KString => if IsList(t) then fact.ListFact? else fact.TextFact? && (fact.s == None ==> t == CountryCode)
  {
  }

  // ---- one condition ----

  /** The placeholders from `$first` on carry these binds. */
  predicate BoundAt(env: seq<Val>, first: nat, binds: seq<Bind>) {
    1 <= first && first - 1 + |binds| <= |env|
    && forall k :: 0 <= k < |binds| ==> env[first - 1 + k] == BindVal(binds[k])
  }

  lemma BoundSplit(env: seq<Val>, first: nat, a: seq<Bind>, b: seq<Bind>)
    requires BoundAt(env, first, a + b)
    ensures BoundAt(env, first, a) && BoundAt(env, first + |a|, b)
  {
    assert forall k :: 0 <= k < |a| ==> (a + b)[k] == a[k];
    assert forall k :: 0 <= k < |b| ==> (a + b)[|a| + k] == b[k];
  }

  lemma BoundFirst(env: seq<Val>, first: nat, binds: seq<Bind>)
    requires BoundAt(env, first, binds)
    ensures binds != [] ==> Bound(env, first) == BindVal(binds[0])
    ensures |binds| > 1 ==> Bound(env, first + 1) == BindVal(binds[1])
  {
  }

  /** `not_in` on the nullable country, with a list none of whose elements is a string. */
  predicate Degenerate(c: Condition) {
    c.target == CountryCode && c.op == NotIn && c.value.Strings() == []
  }

  ghost predicate Selects(c: Condition, first: nat, row: Row, cx: Context, env: seq<Val>) {
    EvalFactor(CompileCondition(c, first).0, row, cx, env) == Yes
  }

  lemma BoolMeaning(c: Condition, first: nat, row: Row, cx: Context, env: seq<Val>, b: bool)
    requires KindOf(c.target) == KBool && ValidCondition(c, cx.regexCompiles)
    requires Eval(TargetExpr(c.target), row, cx.now) == BoolV(b)
    requires BoundAt(env, first, CompileCondition(c, first).1)
    ensures Selects(c, first, row, cx, env) <==> BoolMatch(c, b)
  {
    hide Eval, TargetExpr;
    BoundFirst(env, first, CompileCondition(c, first).1);
    assert EvalTest(Compare(TargetExpr(c.target), EQ, first), row, cx, env)
        == EvalCompare(BoolV(b), EQ, BoolV(c.value.b));
  }

  lemma IntMeaning(c: Condition, first: nat, row: Row, cx: Context, env: seq<Val>, n: Option<int>)
    requires KindOf(c.target) == KInt && ValidCondition(c, cx.regexCompiles)
    requires Eval(TargetExpr(c.target), row, cx.now) == OptInt(n)
    requires BoundAt(env, first, CompileCondition(c, first).1)
    ensures Selects(c, first, row, cx, env) <==> IntMatch(c, n)
  {
    hide Eval, TargetExpr;
    var e := TargetExpr(c.target);
    BoundFirst(env, first, CompileCondition(c, first).1);
    if c.op == Between {
      PairMeans(Atom(Compare(e, GE, first)), Atom(Compare(e, LE, first + 1)), row, cx, env);
    }
  }

  lemma TextMeaning(c: Condition, first: nat, row: Row, cx: Context, env: seq<Val>, s: Option<string>)
    requires KindOf(c.target) == KString && !IsList(c.target) && ValidCondition(c, cx.regexCompiles)
    requires Eval(TargetExpr(c.target), row, cx.now) == FactVal(TextFact(s))
    requires BoundAt(env, first, CompileCondition(c, first).1)
    requires s == None ==> c.target == CountryCode
    ensures Selects(c, first, row, cx, env) <==> StringMatch(c, s, cx) || Degenerate(c)
  {
    hide Eval, TargetExpr, ValidCondition, CompileCondition, StringMatch, Degenerate, Selects;
    if c.op == In || c.op == NotIn {
      TextAmongMeaning(c, first, row, cx, env, s);
    } else {
      TextScalarMeaning(c, first, row, cx, env, s);
    }
  }

  lemma TextAmongMeaning(c: Condition, first: nat, row: Row, cx: Context, env: seq<Val>, s: Option<string>)
    requires !IsList(c.target) && (c.op == In || c.op == NotIn)
    requires Eval(TargetExpr(c.target), row, cx.now) == FactVal(TextFact(s))
    requires BoundAt(env, first, CompileCondition(c, first).1)
    requires s == None ==> c.target == CountryCode
    ensures Selects(c, first, row, cx, env) <==> StringMatch(c, s, cx) || Degenerate(c)
  {
    hide Eval, TargetExpr;
    var e := TargetExpr(c.target);
    BoundFirst(env, first, CompileCondition(c, first).1);
    PairMeans(Atom(IsNotNull(e)), Atom(DiffersFromAll(e, first)), row, cx, env);
  }

  lemma TextScalarMeaning(c: Condition, first: nat, row: Row, cx: Context, env: seq<Val>, s: Option<string>)
    requires KindOf(c.target) == KString && !IsList(c.target) && ValidCondition(c, cx.regexCompiles)
    requires c.op != In && c.op != NotIn
    requires Eval(TargetExpr(c.target), row, cx.now) == FactVal(TextFact(s))
    requires BoundAt(env, first, CompileCondition(c, first).1)
    ensures Selects(c, first, row, cx, env) <==> StringMatch(c, s, cx) || Degenerate(c)
  {
    hide Eval, TargetExpr;
    BoundFirst(env, first, CompileCondition(c, first).1);
    if c.op == Contains && s.Some? {
      Like.LikeIsContains(ScalarText(c), s.value);
    }
  }

  lemma ListMeaning(c: Condition, first: nat, row: Row, cx: Context, env: seq<Val>, ss: seq<string>)
    requires IsList(c.target) && ValidCondition(c, cx.regexCompiles)
    requires Eval(TargetExpr(c.target), row, cx.now) == TextsV(ss)
    requires BoundAt(env, first, CompileCondition(c, first).1)
    ensures Selects(c, first, row, cx, env) <==> ListMatch(c, ss, cx)
  {
    hide Eval, TargetExpr, CompileCondition, ListMatch, Selects;
    if c.op == Contains || c.op == Regex {
      ListPatternMeaning(c, first, row, cx, env, ss);
    } else {
      ListMemberMeaning(c, first, row, cx, env, ss);
    }
  }

  lemma ListMemberMeaning(c: Condition, first: nat, row: Row, cx: Context, env: seq<Val>, ss: seq<string>)
    requires IsList(c.target) && ValidCondition(c, cx.regexCompiles) && c.op in {Eq, Neq, In, NotIn}
    requires Eval(TargetExpr(c.target), row, cx.now) == TextsV(ss)
    requires BoundAt(env, first, CompileCondition(c, first).1)
    ensures Selects(c, first, row, cx, env) <==> ListMatch(c, ss, cx)
  {
    hide Eval, TargetExpr;
    var e := TargetExpr(c.target);
    BoundFirst(env, first, CompileCondition(c, first).1);
    var held := Atom(if c.op == Eq || c.op == Neq then ArrayHolds(e, first) else ArrayOverlaps(e, first));
    LoneMeans(held, row, cx, env);
    assert EvalFactor(Parens(Lone(held)), row, cx, env) == EvalTest(held.test, row, cx, env);
  }

  lemma ListPatternMeaning(c: Condition, first: nat, row: Row, cx: Context, env: seq<Val>, ss: seq<string>)
    requires IsList(c.target) && ValidCondition(c, cx.regexCompiles) && (c.op == Contains || c.op == Regex)
    requires Eval(TargetExpr(c.target), row, cx.now) == TextsV(ss)
    requires BoundAt(env, first, CompileCondition(c, first).1)
    ensures Selects(c, first, row, cx, env) <==> ListMatch(c, ss, cx)
  {
    hide Eval, TargetExpr;
    BoundFirst(env, first, CompileCondition(c, first).1);
    if c.op == Contains {
      forall s | s in ss
        ensures Like.Matches(ContainsPattern(ScalarText(c)), s) <==> Text.Contains(s, ScalarText(c))
      {
        Like.LikeIsContains(ScalarText(c), s);
      }
    }
  }

  /**
    One condition: TRUE in the database exactly when the interpreter says yes, save that a degenerate
    `not_in` is TRUE on every row.
    */
  lemma ConditionMeaning(c: Condition, first: nat, row: Row, cx: Context, env: seq<Val>)
    requires ValidCondition(c, cx.regexCompiles) && AgeAgrees(c.target, row, cx.now)
    requires BoundAt(env, first, CompileCondition(c, first).1)
    ensures Selects(c, first, row, cx, env) <==> EvaluateSingle(c, FactsOf(row, cx.now), cx) || Degenerate(c)
  {
    hide Eval, TargetExpr, FactsOf, FactOf, Selects, CompileCondition, BoolMatch, IntMatch, StringMatch, ListMatch;
    TargetValue(c.target, row, cx.now);
    TargetKind(c.target, FactsOf(row, cx.now), cx.now);
    match FactOf(c.target, FactsOf(row, cx.now), cx.now)
    case FlagFact(b) => BoolMeaning(c, first, row, cx, env, b);
    case IntFact(n) => IntMeaning(c, first, row, cx, env, n);
    case TextFact(s) => TextMeaning(c, first, row, cx, env, s);
    case ListFact(ss) => ListMeaning(c, first, row, cx, env, ss);
  }

  // ---- whole trees ----

  /** What the clause says of a condition: what the interpreter says, or that it is degenerate. */
  ghost predicate Lenient(c: Condition, row: Row, cx: Context) {
    EvaluateSingle(c, FactsOf(row, cx.now), cx) || Degenerate(c)
  }

  ghost predicate LenientGroup(cs: seq<Condition>, row: Row, cx: Context) {
    cs != [] && forall k :: 0 <= k < |cs| ==> Lenient(cs[k], row, cx)
  }

  ghost predicate LenientTree(tree: RuleTree, row: Row, cx: Context) {
    tree.grantOnAny || exists g :: 0 <= g < |tree.groups| && LenientGroup(tree.groups[g], row, cx)
  }

  predicate AllValid(cs: seq<Condition>, cx: Context) {
    forall k :: 0 <= k < |cs| ==> ValidCondition(cs[k], cx.regexCompiles)
  }

  lemma {:induction false} ConditionsMeaning(cs: seq<Condition>, first: nat, row: Row, cx: Context, env: seq<Val>)
    requires AllValid(cs, cx) && GroupAgesAgree(cs, row, cx.now)
    requires BoundAt(env, first, CompileConditions(cs, first).1)
    ensures EvalFactors(CompileConditions(cs, first).0, row, cx, env) == Yes
       <==> forall k :: 0 <= k < |cs| ==> Lenient(cs[k], row, cx)
  {
    hide CompileCondition, EvaluateSingle, FactsOf, ValidCondition;
    if cs != [] {
      var (f, binds) := CompileCondition(cs[0], first);
      var rest := cs[1..];
      var (fs, more) := CompileConditions(rest, first + |binds|);
      BoundSplit(env, first, binds, more);
      ConditionMeaning(cs[0], first, row, cx, env);
      ConditionsMeaning(rest, first + |binds|, row, cx, env);
      assert ([f] + fs)[1..] == fs;
      assert forall k :: 0 < k < |cs| ==> cs[k] == rest[k - 1];
    }
  }

  lemma GroupMeaning(cs: seq<Condition>, first: nat, row: Row, cx: Context, env: seq<Val>)
    requires AllValid(cs, cx) && GroupAgesAgree(cs, row, cx.now)
    requires BoundAt(env, first, CompileGroup(cs, first).1)
    ensures EvalFactors(CompileGroup(cs, first).0.factors, row, cx, env) == Yes <==> LenientGroup(cs, row, cx)
  {
    hide CompileCondition, Lenient, ValidCondition;
    var f := CompileGroup(cs, first).0.factors[0];
    LoneMeans(f, row, cx, env);
    assert EvalFactors([f], row, cx, env) == EvalFactor(f, row, cx, env) by {
      assert [f][1..] == [];
    }
    if cs != [] {
      ConditionsMeaning(cs, first, row, cx, env);
      var ts := [And(CompileConditions(cs, first).0)];
      assert ts[1..] == [];
      assert EvalTerms(ts, row, cx, env) == Or3(EvalFactors(ts[0].factors, row, cx, env), No);
    }
  }

  lemma {:induction false} GroupsMeaning(gs: seq<seq<Condition>>, first: nat, row: Row, cx: Context, env: seq<Val>)
    requires forall g :: 0 <= g < |gs| ==> AllValid(gs[g], cx) && GroupAgesAgree(gs[g], row, cx.now)
    requires BoundAt(env, first, CompileGroups(gs, first).1)
    ensures EvalTerms(CompileGroups(gs, first).0, row, cx, env) == Yes
       <==> exists g :: 0 <= g < |gs| && LenientGroup(gs[g], row, cx)
  {
    hide CompileGroup, LenientGroup, AllValid;
    if gs != [] {
      var (t, binds) := CompileGroup(gs[0], first);
      var rest := gs[1..];
      var (ts, more) := CompileGroups(rest, first + |binds|);
      BoundSplit(env, first, binds, more);
      GroupMeaning(gs[0], first, row, cx, env);
      GroupsMeaning(rest, first + |binds|, row, cx, env);
      assert ([t] + ts)[1..] == ts;
      assert forall g :: 0 < g < |gs| ==> gs[g] == rest[g - 1];
      if g: nat :| g < |rest| && LenientGroup(rest[g], row, cx) {
        assert gs[g + 1] == rest[g];
      }
    }
  }

  function BindVals(binds: seq<Bind>): (vals: seq<Val>)
    ensures |vals| == |binds| && forall k :: 0 <= k < |binds| ==> vals[k] == BindVal(binds[k])
  {
    seq(|binds|, k requires 0 <= k < |binds| => BindVal(binds[k]))
  }

  /** Does the database, reading the text of the compiled rule, select the row among a caller's own parameters? */
  predicate ClauseTrue(tree: RuleTree, row: Row, cx: Context, before: seq<Val>, after: seq<Val>) {
    var (clause, binds) := CompileTree(tree, |before|);
    TextTrue(ClauseText(clause), row, cx, before + BindVals(binds) + after)
  }

  /** Exactly what the compiled clause of any checked tree selects, whatever surrounds its binds. */
  lemma ClauseMeaning(tree: RuleTree, row: Row, cx: Context, before: seq<Val>, after: seq<Val>)
    requires ValidConditions(tree, cx.regexCompiles) && TreeAgesAgree(tree, row, cx.now)
    ensures ClauseTrue(tree, row, cx, before, after) <==> LenientTree(tree, row, cx)
  {
    hide LenientGroup, CompileGroup, ValidCondition, AgeAgrees, ReadClause, ClauseText;
    ReadsBack(tree, |before|);
    var (clause, binds) := CompileTree(tree, |before|);
    var env := before + BindVals(binds) + after;
    LoneMeans(clause.terms[0].factors[0], row, cx, env);
    if !tree.grantOnAny && tree.groups != [] {
      assert BoundAt(env, |before| + 1, binds);
      forall g | 0 <= g < |tree.groups|
        ensures AllValid(tree.groups[g], cx)
      {
      }
      GroupsMeaning(tree.groups, |before| + 1, row, cx, env);
    }
  }

  predicate HasDegenerate(tree: RuleTree) {
    exists g, k :: 0 <= g < |tree.groups| && 0 <= k < |tree.groups[g]| && Degenerate(tree.groups[g][k])
  }

  /**
    Compiler correctness: for every checked tree, row, and surrounding parameters, the clause is TRUE exactly when
    the interpreter accepts the facts projected from the row, provided the tree holds no degenerate condition or the
    row has a country, and no age the tree reads lies a fractional number of days in the future.
    */
  lemma CompilerCorrect(tree: RuleTree, row: Row, cx: Context, before: seq<Val>, after: seq<Val>)
    requires ValidConditions(tree, cx.regexCompiles) && TreeAgesAgree(tree, row, cx.now)
    requires HasDegenerate(tree) ==> row.ou.countryCode.Some?
    ensures ClauseTrue(tree, row, cx, before, after) <==> Evaluate(tree, FactsOf(row, cx.now), cx)
  {
    hide CompileTree, EvaluateSingle, FactsOf;
    ClauseMeaning(tree, row, cx, before, after);
    var f := FactsOf(row, cx.now);
    forall g, k | 0 <= g < |tree.groups| && 0 <= k < |tree.groups[g]|
      ensures Lenient(tree.groups[g][k], row, cx) <==> EvaluateSingle(tree.groups[g][k], f, cx)
    {
      if Degenerate(tree.groups[g][k]) {
        DegenerateIsCountryTest(tree.groups[g][k], row, cx);
      }
    }
    assert forall g :: 0 <= g < |tree.groups| ==>
      (LenientGroup(tree.groups[g], row, cx) <==> EvaluateGroup(tree.groups[g], f, cx));
  }

  /** To the interpreter a degenerate `not_in` asks whether the player has a country at all. */
  lemma DegenerateIsCountryTest(c: Condition, row: Row, cx: Context)
    requires Degenerate(c)
    ensures EvaluateSingle(c, FactsOf(row, cx.now), cx) <==> row.ou.countryCode.Some?
  {
  }
}
