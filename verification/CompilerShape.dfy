/**
  What holds of the clause as a statement: numbering and typing of placeholders, unambiguous reading,
  and the exact circumstances in which the two evaluators part ways.
  */
module CompilerShape {
  import opened Text
  import opened Rule
  import opened Schema
  import opened SqlClause
  import opened RuleSql
  import opened ConditionEval
  import opened CompilerProof
  import Like

  // ---- placeholders ----

  function Range(first: nat, n: nat): seq<nat> {
    seq(n, k requires 0 <= k < n => first + k)
  }

  lemma RangeConcat(first: nat, m: nat, n: nat)
    ensures Range(first, m) + Range(first + m, n) == Range(first, m + n)
  {
  }

  lemma ConditionPlaceholders(c: Condition, first: nat)
    ensures var (f, binds) := CompileCondition(c, first);
      FactorParams(f) == Range(first, |binds|)
  {
    hide TargetExpr;
    var (f, binds) := CompileCondition(c, first);
    if IsList(c.target) {
      ArrayConditionPlaceholders(c, TargetExpr(c.target), first);
    } else if f.Parens? {
      LoneOrPairParams(f.c);
    }
  }

  lemma ArrayConditionPlaceholders(c: Condition, e: Expr, first: nat)
    ensures var (f, binds) := CompileArrayCondition(c, e, first);
      FactorParams(f) == Range(first, |binds|)
  {
    var (f, binds) := CompileArrayCondition(c, e, first);
    if f.Parens? {
      LoneOrPairParams(f.c);
    } else if f.Not? {
      LoneOrPairParams(f.f.c);
    }
  }

  lemma LoneOrPairParams(c: Clause)
    requires |c.terms| == 1 && 1 <= |c.terms[0].factors| <= 2
    ensures TermsParams(c.terms)
         == FactorParams(c.terms[0].factors[0])
            + (if |c.terms[0].factors| == 2 then FactorParams(c.terms[0].factors[1]) else [])
  {
    var fs := c.terms[0].factors;
    assert FactorsParams(fs[1..]) == if |fs| == 2 then FactorParams(fs[1]) else [] by {
      if |fs| == 2 {
        assert fs[1..][1..] == [];
      }
    }
    assert c.terms[1..] == [];
  }

  lemma {:induction false} ConditionsPlaceholders(cs: seq<Condition>, first: nat)
    ensures var (fs, binds) := CompileConditions(cs, first);
      FactorsParams(fs) == Range(first, |binds|)
  {
    hide CompileCondition;
    if cs != [] {
      var (f, binds) := CompileCondition(cs[0], first);
      var (fs, more) := CompileConditions(cs[1..], first + |binds|);
      ConditionPlaceholders(cs[0], first);
      ConditionsPlaceholders(cs[1..], first + |binds|);
      RangeConcat(first, |binds|, |more|);
      assert ([f] + fs)[1..] == fs;
    }
  }

  lemma {:induction false} GroupsPlaceholders(gs: seq<seq<Condition>>, first: nat)
    ensures var (ts, binds) := CompileGroups(gs, first);
      TermsParams(ts) == Range(first, |binds|)
  {
    hide CompileConditions;
    if gs != [] {
      var (t, binds) := CompileGroup(gs[0], first);
      var (ts, more) := CompileGroups(gs[1..], first + |binds|);
      assert FactorsParams(t.factors) == Range(first, |binds|) by {
        assert t.factors[1..] == [];
        if gs[0] != [] {
          ConditionsPlaceholders(gs[0], first);
          var inner := [And(CompileConditions(gs[0], first).0)];
          assert inner[1..] == [];
          assert TermsParams(inner) == FactorsParams(inner[0].factors) + [];
        }
      }
      GroupsPlaceholders(gs[1..], first + |binds|);
      RangeConcat(first, |binds|, |more|);
      assert ([t] + ts)[1..] == ts;
    }
  }

  /**
    Read left to right, the placeholders of any compiled tree are $(offset+1), $(offset+2), ..., one per bind;
    so whatever the caller binds next is at a number the clause never mentions.
    */
  lemma Placeholders(tree: RuleTree, offset: nat)
    ensures var (clause, binds) := CompileTree(tree, offset);
      && TermsParams(clause.terms) == Range(offset + 1, |binds|)
      && offset + |binds| + 1 !in TermsParams(clause.terms)
  {
    hide CompileGroups;
    var (clause, binds) := CompileTree(tree, offset);
    LoneOrPairParams(clause);
    if !tree.grantOnAny && tree.groups != [] {
      GroupsPlaceholders(tree.groups, offset + 1);
    }
  }

  // ---- types ----

  function KindType(t: Target): SqlType {
    match KindOf(t)
    case KBool => BoolT
    case KInt => IntT
    case KString => if IsList(t) then TextsT else TextT
  }

  lemma TargetType(t: Target)
    ensures ExprType(TargetExpr(t)) == Some(KindType(t))
  {
    if IsPerMode(t) {
      PerModeTargetType(t);
    } else {
      ProfileTargetType(t);
    }
  }

  lemma ZeroedType(e: Expr)
    requires ExprType(e) == Some(IntT)
    ensures ExprType(Zeroed(e)) == Some(IntT) && ExprType(Positive(Zeroed(e))) == Some(BoolT)
  {
  }

  lemma ShallowType(e: Expr)
    ensures e.Col? ==> ExprType(e) == Some(ColumnType(e.c))
    ensures e.Coalesce? && e.e.Col? && ValHasType(e.fallback, ColumnType(e.e.c)) ==>
      ExprType(e) == Some(ColumnType(e.e.c))
    ensures e.DaysSince? && e.e.Col? && ColumnType(e.e.c) == TimeT ==> ExprType(e) == Some(IntT)
    ensures e.ArrayLength? && e.e.Col? && ColumnType(e.e.c) == TextsT ==> ExprType(e) == Some(IntT)
    ensures e.Plus? && e.left.Col? && e.right.Col? && ColumnType(e.left.c) == ColumnType(e.right.c) == IntT ==>
      ExprType(e) == Some(IntT)
  {
  }

  lemma PerModeTargetType(t: Target)
    requires IsPerMode(t)
    ensures ExprType(TargetExpr(t)) == Some(KindType(t))
  {
    hide ExprType;
    var e := TargetExpr(t);
    ShallowType(e);
    if t == SsCount || t == SCount {
      ShallowType(e.e);
      ZeroedType(e.e);
    }
  }

  lemma ProfileTargetType(t: Target)
    requires !IsPerMode(t)
    ensures ExprType(TargetExpr(t)) == Some(KindType(t))
  {
    hide ExprType;
    match KindOf(t)
    case KBool => FlagTargetType(t);
    case _ => ShallowType(TargetExpr(t));
  }

  lemma FlagTargetType(t: Target)
    requires KindOf(t) == KBool
    ensures ExprType(TargetExpr(t)) == Some(BoolT)
  {
  }

  /** A regular expression has been compiled when the rule was saved, but by another engine than the database's. */
  predicate PatternCompiles(c: Condition, compiles: string -> bool) {
    c.op == Regex ==> compiles(ScalarText(c))
  }

  predicate PatternsCompile(cs: seq<Condition>, compiles: string -> bool) {
    forall k :: 0 <= k < |cs| ==> PatternCompiles(cs[k], compiles)
  }

  lemma ConditionFits(c: Condition, first: nat, cx: Context, env: seq<Val>, compiles: string -> bool)
    requires ValidCondition(c, cx.regexCompiles)
    requires BoundAt(env, first, CompileCondition(c, first).1)
    ensures FactorFits(CompileCondition(c, first).0, env, compiles) <==> PatternCompiles(c, compiles)
  {
    hide TargetExpr, ExprType, FactorFits, CompileCondition, PatternCompiles;
    match KindOf(c.target)
    case KBool => FlagConditionFits(c, first, cx, env, compiles);
    case KInt => IntConditionFits(c, first, cx, env, compiles);
    case KString =>
      if IsList(c.target) {
        ListConditionFits(c, first, cx, env, compiles);
      } else {
        TextConditionFits(c, first, cx, env, compiles);
      }
  }

  lemma PatternFits(needle: string)
    ensures Like.WellFormed(ContainsPattern(needle))
  {
    Like.LikeIsContains(needle, "");
  }

  lemma FlagConditionFits(c: Condition, first: nat, cx: Context, env: seq<Val>, compiles: string -> bool)
    requires ValidCondition(c, cx.regexCompiles) && KindOf(c.target) == KBool
    requires BoundAt(env, first, CompileCondition(c, first).1)
    ensures FactorFits(CompileCondition(c, first).0, env, compiles) <==> PatternCompiles(c, compiles)
  {
    hide TargetExpr, ExprType;
    TargetType(c.target);
    BoundFirst(env, first, CompileCondition(c, first).1);
  }

  lemma IntConditionFits(c: Condition, first: nat, cx: Context, env: seq<Val>, compiles: string -> bool)
    requires ValidCondition(c, cx.regexCompiles) && KindOf(c.target) == KInt
    requires BoundAt(env, first, CompileCondition(c, first).1)
    ensures FactorFits(CompileCondition(c, first).0, env, compiles) <==> PatternCompiles(c, compiles)
  {
    hide TargetExpr, ExprType;
    TargetType(c.target);
    var (f, binds) := CompileCondition(c, first);
    BoundFirst(env, first, binds);
    if f.Parens? {
      LoneOrPairFits(f.c, env, compiles);
    }
  }

  lemma TextConditionFits(c: Condition, first: nat, cx: Context, env: seq<Val>, compiles: string -> bool)
    requires ValidCondition(c, cx.regexCompiles) && KindOf(c.target) == KString && !IsList(c.target)
    requires BoundAt(env, first, CompileCondition(c, first).1)
    ensures FactorFits(CompileCondition(c, first).0, env, compiles) <==> PatternCompiles(c, compiles)
  {
    hide TargetExpr, ExprType, ContainsPattern, Like.WellFormed, StringsOf;
    TargetType(c.target);
    var (f, binds) := CompileCondition(c, first);
    BoundFirst(env, first, binds);
    PatternFits(ScalarText(c));
    if f.Parens? {
      LoneOrPairFits(f.c, env, compiles);
    }
  }

  lemma ListConditionFits(c: Condition, first: nat, cx: Context, env: seq<Val>, compiles: string -> bool)
    requires ValidCondition(c, cx.regexCompiles) && IsList(c.target)
    requires BoundAt(env, first, CompileCondition(c, first).1)
    ensures FactorFits(CompileCondition(c, first).0, env, compiles) <==> PatternCompiles(c, compiles)
  {
    hide TargetExpr, ExprType, ContainsPattern, Like.WellFormed, StringsOf;
    TargetType(c.target);
    var (f, binds) := CompileCondition(c, first);
    BoundFirst(env, first, binds);
    PatternFits(ScalarText(c));
    if f.Parens? {
      LoneOrPairFits(f.c, env, compiles);
    } else if f.Not? {
      LoneOrPairFits(f.f.c, env, compiles);
      assert FactorFits(f.f, env, compiles) == TermsFit(f.f.c.terms, env, compiles);
    }
  }

  lemma LoneOrPairFits(c: Clause, env: seq<Val>, compiles: string -> bool)
    requires |c.terms| == 1 && 1 <= |c.terms[0].factors| <= 2
    ensures TermsFit(c.terms, env, compiles) <==>
      FactorFits(c.terms[0].factors[0], env, compiles)
      && (|c.terms[0].factors| == 2 ==> FactorFits(c.terms[0].factors[1], env, compiles))
  {
    var fs := c.terms[0].factors;
    if |fs| == 2 {
      assert fs[1..][1..] == [];
    }
    assert FactorsFit(fs[1..], env, compiles) <==> (|fs| == 2 ==> FactorFits(fs[1], env, compiles));
    assert c.terms[1..] == [];
  }

  lemma {:induction false} ConditionsFit(cs: seq<Condition>, first: nat, cx: Context, env: seq<Val>,
                                         compiles: string -> bool)
    requires AllValid(cs, cx) && BoundAt(env, first, CompileConditions(cs, first).1)
    ensures FactorsFit(CompileConditions(cs, first).0, env, compiles) <==> PatternsCompile(cs, compiles)
  {
    hide CompileCondition, ValidCondition, PatternCompiles;
    if cs != [] {
      var (f, binds) := CompileCondition(cs[0], first);
      var rest := cs[1..];
      var (fs, more) := CompileConditions(rest, first + |binds|);
      BoundSplit(env, first, binds, more);
      ConditionFits(cs[0], first, cx, env, compiles);
      ConditionsFit(rest, first + |binds|, cx, env, compiles);
      assert ([f] + fs)[1..] == fs;
      assert forall k :: 0 < k < |cs| ==> cs[k] == rest[k - 1];
    }
  }

  lemma GroupFits(cs: seq<Condition>, first: nat, cx: Context, env: seq<Val>, compiles: string -> bool)
    requires AllValid(cs, cx) && BoundAt(env, first, CompileGroup(cs, first).1)
    ensures FactorsFit(CompileGroup(cs, first).0.factors, env, compiles) <==> PatternsCompile(cs, compiles)
  {
    hide CompileConditions, PatternCompiles, AllValid;
    var fs := CompileGroup(cs, first).0.factors;
    assert fs[1..] == [];
    if cs != [] {
      ConditionsFit(cs, first, cx, env, compiles);
      var inner := [And(CompileConditions(cs, first).0)];
      assert inner[1..] == [];
      assert TermsFit(inner, env, compiles) <==> FactorsFit(inner[0].factors, env, compiles);
    }
  }

  lemma {:induction false} GroupsFit(gs: seq<seq<Condition>>, first: nat, cx: Context, env: seq<Val>,
                                     compiles: string -> bool)
    requires (forall g :: 0 <= g < |gs| ==> AllValid(gs[g], cx)) && BoundAt(env, first, CompileGroups(gs, first).1)
    ensures TermsFit(CompileGroups(gs, first).0, env, compiles)
       <==> forall g :: 0 <= g < |gs| ==> PatternsCompile(gs[g], compiles)
  {
    hide CompileGroup, AllValid, PatternsCompile;
    if gs != [] {
      var (t, binds) := CompileGroup(gs[0], first);
      var rest := gs[1..];
      var (ts, more) := CompileGroups(rest, first + |binds|);
      BoundSplit(env, first, binds, more);
      GroupFits(gs[0], first, cx, env, compiles);
      GroupsFit(rest, first + |binds|, cx, env, compiles);
      assert ([t] + ts)[1..] == ts;
      assert forall g :: 0 < g < |gs| ==> gs[g] == rest[g - 1];
    }
  }

  /** A typed expression has values of its type, or NULL, on every row. */
  lemma {:induction false} TypedValue(e: Expr, row: Row, now: int)
    requires ExprType(e).Some?
    ensures var v := Eval(e, row, now);
      match ExprType(e).value
      case BoolT => v == NullV || v.BoolV?
      case IntT => v == NullV || v.IntV?
      case TextT => v == NullV || v.TextV?
      case TextsT => v == NullV || v.TextsV?
      case TimeT => v == NullV || v.TimeV?
  {
    match e
    case Coalesce(e1, _) => TypedValue(e1, row, now);
    case _ =>
  }

  /**
    A test that fits compares values of like type, so it is unknown only where its operand is NULL; and what it is given
    for a pattern is one.
    */
  lemma FittingTestDecides(t: Test, row: Row, cx: Context, env: seq<Val>, compiles: string -> bool)
    requires TestFits(t, env, compiles)
    ensures var v, w := Eval(t.e, row, cx.now), if t.IsNotNull? then NullV else Bound(env, t.p);
      && (EvalTest(t, row, cx, env) == Unknown ==> v == NullV)
      && (!t.IsNotNull? ==> w != NullV)
      && (v != NullV && (t.Compare? || t.IsDistinctFrom?) ==> SameType(v, w))
      && (t.Compare? && t.op !in {EQ, NE} ==> w.IntV?)
      && (v != NullV && (t.ArrayHolds? || t.ArrayOverlaps? || t.SomeLike? || t.SomeRegex?) ==> v.TextsV?)
      && (t.LikePattern? || t.SomeLike? ==> w.TextV? && Like.WellFormed(w.s))
      && (t.RegexPattern? || t.SomeRegex? ==> w.TextV? && compiles(w.s))
  {
    TypedValue(t.e, row, cx.now);
  }

  predicate SameType(v: Val, w: Val) {
    || (v.BoolV? && w.BoolV?) || (v.IntV? && w.IntV?) || (v.TextV? && w.TextV?)
    || (v.TextsV? && w.TextsV?) || (v.TimeV? && w.TimeV?)
  }

  /**
    Every test of a checked tree's clause is well typed under its binds, and none can fail on a row exactly when the
    database, too, compiles each of the rule's regular expressions.
    */
  lemma ClauseFits(tree: RuleTree, cx: Context, before: seq<Val>, after: seq<Val>, compiles: string -> bool)
    requires ValidConditions(tree, cx.regexCompiles)
    ensures var (clause, binds) := CompileTree(tree, |before|);
      TermsFit(clause.terms, before + BindVals(binds) + after, compiles)
      <==> tree.grantOnAny || forall g :: 0 <= g < |tree.groups| ==> PatternsCompile(tree.groups[g], compiles)
  {
    hide CompileGroups, ValidCondition, PatternsCompile;
    var (clause, binds) := CompileTree(tree, |before|);
    var env := before + BindVals(binds) + after;
    LoneOrPairFits(clause, env, compiles);
    if !tree.grantOnAny && tree.groups != [] {
      assert BoundAt(env, |before| + 1, binds);
      forall g | 0 <= g < |tree.groups|
        ensures AllValid(tree.groups[g], cx)
      {
      }
      GroupsFit(tree.groups, |before| + 1, cx, env, compiles);
    }
  }

  /** The rule "the user name matches this". */
  function NameMatches(pattern: string): RuleTree {
    RuleTree(false, Osu, [[Condition(Username, Regex, Str(pattern), None)]])
  }

  /** Any pattern the two engines disagree on makes a rule that is saved and then breaks the guild-wide query. */
  lemma RefusedPattern(pattern: string, cx: Context, before: seq<Val>, after: seq<Val>, compiles: string -> bool)
    requires !IsBlank(pattern) && cx.regexCompiles(pattern) && !compiles(pattern)
    ensures var tree := NameMatches(pattern);
      var (clause, binds) := CompileTree(tree, |before|);
      && WellFormed(tree, cx.regexCompiles)
      && !TermsFit(clause.terms, before + BindVals(binds) + after, compiles)
  {
    hide CompileGroups, TermsFit;
    var tree := NameMatches(pattern);
    ClauseFits(tree, cx, before, after, compiles);
    assert !PatternCompiles(tree.groups[0][0], compiles);
  }

  /** Neither stand-ins for a missing or ill-shaped value nor branches for an operator out of place are ever taken. */
  lemma FallbacksUnreached(c: Condition, regexCompiles: string -> bool)
    requires ValidCondition(c, regexCompiles)
    ensures match KindOf(c.target)
      case KBool => c.op == Eq && c.value == Bool(c.value.AsBool() == Some(true))
      case KInt =>
        && c.value == Num(Whole(ScalarInt(c)))
        && (c.op == Between ==> c.valueEnd == Some(Num(Whole(EndInt(c)))))
        && c.op in {Eq, Neq, Gt, Gte, Lt, Lte, Between}
      case KString =>
        && (c.op == In || c.op == NotIn || c.value == Str(ScalarText(c)))
        && c.op in {Eq, Neq, Contains, Regex, In, NotIn}
  {
  }

  // ---- where the evaluators differ ----

  /** One condition, compiled alone, against the interpreter. */
  ghost predicate Agree(c: Condition, row: Row, cx: Context) {
    Selects(c, 1, row, cx, BindVals(CompileCondition(c, 1).1)) <==> EvaluateSingle(c, FactsOf(row, cx.now), cx)
  }

  /** Timestamps are 64-bit counts of microseconds. */
  predicate Storable(row: Row) {
    IsI64(row.ou.joinedAt) && (row.ou.lastVisitAt.Some? ==> IsI64(row.ou.lastVisitAt.value))
  }

  predicate AgesAgree(row: Row, now: int) {
    AgeAgrees(AccountAgeDays, row, now) && AgeAgrees(DaysSinceLastVisit, row, now)
  }

  const DEGENERATE := Condition(CountryCode, NotIn, Arr([Bool(true)]), None)

  lemma DegenerateIsValid(regexCompiles: string -> bool)
    ensures ValidCondition(DEGENERATE, regexCompiles) && Degenerate(DEGENERATE)
  {
  }

  /** "The age is exactly what rounding toward zero makes it": the condition that tells the two roundings apart. */
  function AgeCondition(t: Target, at: int, now: int): Condition {
    Condition(t, Eq, Num(Whole(Truncate(now - at, DAY))), None)
  }

  lemma AgeTellsRoundingsApart(t: Target, row: Row, cx: Context, at: int)
    requires (t == AccountAgeDays && at == row.ou.joinedAt)
          || (t == DaysSinceLastVisit && row.ou.lastVisitAt == Some(at))
    requires IsI64(at) && IsI64(cx.now) && !RoundsAlike(at, cx.now)
    ensures var c := AgeCondition(t, at, cx.now);
      ValidCondition(c, cx.regexCompiles) && !Degenerate(c) && !Agree(c, row, cx)
  {
    hide FactsOf;
    var c := AgeCondition(t, at, cx.now);
    RoundingExact(at, cx.now);
    var env := BindVals(CompileCondition(c, 1).1);
    assert Bound(env, 1) == IntV(Truncate(cx.now - at, DAY));
    assert Eval(Col(if t == AccountAgeDays then OuJoinedAt else OuLastVisitAt), row, cx.now) == TimeV(at);
    assert Eval(TargetExpr(t), row, cx.now) == IntV((cx.now - at) / DAY);
    AgeFacts(row, cx.now);
  }

  lemma AgeFacts(row: Row, now: int)
    ensures FactsOf(row, now).osuJoinedAt == Some(row.ou.joinedAt)
    ensures FactsOf(row, now).lastVisitAt == row.ou.lastVisitAt
  {
  }

  /**
    For which rows the two evaluators agree on every condition the validator accepts: exactly those with a country
    whose timestamps are not a fractional number of days in the future.
    */
  lemma AgreeOnRowExactly(row: Row, cx: Context)
    requires Storable(row) && IsI64(cx.now)
    ensures (forall c :: ValidCondition(c, cx.regexCompiles) ==> Agree(c, row, cx))
       <==> AgesAgree(row, cx.now) && row.ou.countryCode.Some?
  {
    hide EvaluateSingle, FactsOf, CompileCondition, Selects, ValidCondition;
    if AgesAgree(row, cx.now) {
      forall c | ValidCondition(c, cx.regexCompiles)
        ensures Agree(c, row, cx) <==> (Degenerate(c) ==> row.ou.countryCode.Some?)
      {
        ConditionMeaning(c, 1, row, cx, BindVals(CompileCondition(c, 1).1));
        if Degenerate(c) {
          DegenerateIsCountryTest(c, row, cx);
        }
      }
      DegenerateIsValid(cx.regexCompiles);
    } else if RoundsAlike(row.ou.joinedAt, cx.now) {
      AgeTellsRoundingsApart(DaysSinceLastVisit, row, cx, row.ou.lastVisitAt.value);
    } else {
      AgeTellsRoundingsApart(AccountAgeDays, row, cx, row.ou.joinedAt);
    }
  }

  /** A player with no country, who joined just now. */
  function Stateless(now: int): User {
    User(false, false, false, now, None, 0, 0, 0, 0, 0, 0, 0, 0, 0, None, "", [], [])
  }

  /** The checked conditions on which both agree wherever ages round alike: exactly the non-degenerate ones. */
  lemma AgreeOnConditionExactly(c: Condition, cx: Context)
    requires ValidCondition(c, cx.regexCompiles)
    ensures (forall row :: AgeAgrees(c.target, row, cx.now) ==> Agree(c, row, cx)) <==> !Degenerate(c)
  {
    hide EvaluateSingle, FactsOf, CompileCondition, Selects, ValidCondition;
    forall row | AgeAgrees(c.target, row, cx.now)
      ensures Agree(c, row, cx) <==> (Degenerate(c) ==> row.ou.countryCode.Some?)
    {
      ConditionMeaning(c, 1, row, cx, BindVals(CompileCondition(c, 1).1));
      if Degenerate(c) {
        DegenerateIsCountryTest(c, row, cx);
      }
    }
    assert AgeAgrees(c.target, Row(Stateless(cx.now), None), cx.now);
  }
}
