/** The per-player interpreter: two-valued evaluation of a rule tree over `Facts`. */
module ConditionEval {
  import opened Text
  import opened Rule
  import opened Schema

  /** `evaluate`: any group, all of whose conditions hold; an unconfigured rule matches nobody. */
  predicate Evaluate(tree: RuleTree, f: Facts, cx: Context) {
    tree.grantOnAny || exists g :: 0 <= g < |tree.groups| && EvaluateGroup(tree.groups[g], f, cx)
  }

  predicate EvaluateGroup(group: seq<Condition>, f: Facts, cx: Context) {
    group != [] && forall k :: 0 <= k < |group| ==> EvaluateSingle(group[k], f, cx)
  }

  /** The fact a target reads, by kind. */
  datatype Fact = FlagFact(b: bool) | IntFact(n: Option<int>) | TextFact(s: Option<string>) | ListFact(ss: seq<string>)

  function FactOf(t: Target, f: Facts, now: int): Fact {
    match t
    case IsSupporter => FlagFact(f.isSupporter)
    case IsActive => FlagFact(f.isActive)
    case IsRestricted => FlagFact(f.isRestricted)
    case HasBadge => FlagFact(f.hasBadge)
    case HasGroupBadge => FlagFact(f.hasGroupBadge)
    case AccountAgeDays => IntFact(DaysSinceTime(f.osuJoinedAt, now))
    case DaysSinceLastVisit => IntFact(DaysSinceTime(f.lastVisitAt, now))
    case BadgeCount => IntFact(Some(f.badgeCount))
    case FollowerCount => IntFact(Some(f.followerCount))
    case MappingSubscribers => IntFact(Some(f.mappingSubscribers))
    case Kudosu => IntFact(Some(f.kudosu))
    case RankedBeatmaps => IntFact(Some(f.rankedBeatmaps))
    case LovedBeatmaps => IntFact(Some(f.lovedBeatmaps))
    case MappingPlaycount => IntFact(Some(f.mappingPlaycount))
    case ReplaysWatchedByOthers => IntFact(Some(f.replaysWatchedByOthers))
    case FavouriteCount => IntFact(Some(f.favouriteCount))
    case CountryCode => TextFact(f.countryCode)
    case Username => TextFact(Some(f.username))
    case GroupName => ListFact(f.groups)
    case Playstyle => ListFact(f.playstyles)
    case GlobalRank => IntFact(f.globalRank)
    case CountryRank => IntFact(f.countryRank)
    case PerformancePoints => IntFact(Some(f.performancePoints))
    case PlayCount => IntFact(Some(f.playCount))
    case PlayTimeHours => IntFact(Some(f.playTimeHours))
    case TotalScore => IntFact(Some(f.totalScore))
    case RankedScore => IntFact(Some(f.rankedScore))
    case HitAccuracy => IntFact(Some(f.hitAccuracy))
    case MaxCombo => IntFact(Some(f.maxCombo))
    case LevelInt => IntFact(Some(f.levelInt))
    case SsCount => IntFact(Some(f.ssCount))
    case SCount => IntFact(Some(f.sCount))
    case ACount => IntFact(Some(f.aCount))
  }

  predicate EvaluateSingle(c: Condition, f: Facts, cx: Context) {
    match FactOf(c.target, f, cx.now)
    case FlagFact(b) => BoolMatch(c, b)
    case IntFact(n) => IntMatch(c, n)
    case TextFact(s) => StringMatch(c, s, cx)
    case ListFact(ss) => ListMatch(c, ss, cx)
  }

  predicate BoolMatch(c: Condition, actual: bool) {
    c.op == Eq && c.value.AsBool() == Some(actual)
  }

  /** Missing data fails closed. */
  predicate IntMatch(c: Condition, actual: Option<int>) {
    var v := c.value.AsI64();
    actual.Some? && v.Some? &&
    match c.op
    case Eq => actual.value == v.value
    case Neq => actual.value != v.value
    case Gt => actual.value > v.value
    case Gte => actual.value >= v.value
    case Lt => actual.value < v.value
    case Lte => actual.value <= v.value
    case Between =>
      c.valueEnd.Some? && c.valueEnd.value.AsI64().Some?
      && v.value <= actual.value <= c.valueEnd.value.AsI64().value
    case _ => false
  }

  predicate RegexMatch(pattern: string, text: string, cx: Context) {
    cx.regexCompiles(pattern) && cx.regexMatches(pattern, text)
  }

  /** Against a missing string only `neq` passes. */
  predicate StringMatch(c: Condition, actual: Option<string>, cx: Context) {
    if actual == None then c.op == Neq
    else
      var a, v := actual.value, c.value.AsStr();
      match c.op
      case Eq => v == Some(a)
      case Neq => v.Some? && v.value != a
      case Contains => v.Some? && Text.Contains(a, v.value)
      case Regex => v.Some? && RegexMatch(v.value, a, cx)
      case In => a in c.value.Strings()
      case NotIn => a !in c.value.Strings()
      case _ => false
  }

  predicate ListMatch(c: Condition, actuals: seq<string>, cx: Context) {
    var v := c.value.AsStr();
    match c.op
    case Eq => v.Some? && exists s :: s in actuals && s == v.value
    case Neq => v.Some? ==> forall s :: s in actuals ==> s != v.value
    case Contains => v.Some? && exists s :: s in actuals && Text.Contains(s, v.value)
    case Regex => v.Some? && exists s :: s in actuals && RegexMatch(v.value, s, cx)
    case In => exists s :: s in actuals && s in c.value.Strings()
    case NotIn => forall s :: s in actuals ==> s !in c.value.Strings()
    case _ => false
  }

  /** Division rounding toward zero, as `num_days` does. */
  function Truncate(n: int, d: int): int
    requires d > 0
  {
    if n >= 0 then n / d else -(-n / d)
  }

  function DaysSinceTime(at: Option<int>, now: int): Option<int> {
    if at.Some? then Some(Truncate(now - at.value, DAY)) else None
  }

  /** The age is the number of days of 24 hours that have passed, or for a later instant lie ahead, negated. */
  lemma DaysCounted(at: int, now: int)
    ensures var d, day := DaysSinceTime(Some(at), now).value, 24 * 60 * 60 * 1_000_000;
      && (at <= now ==> d * day <= now - at < (d + 1) * day)
      && (at >= now ==> (-d) * day <= at - now < (-d + 1) * day)
  {
  }

  // ---- which operators say something ----

  /** The operators valid for a kind are exactly those under which some condition holds of some fact of that kind. */
  lemma OperatorsMeaningful(op: Operator)
    ensures ValidFor(op, KBool) <==> exists c: Condition, b :: c.op == op && BoolMatch(c, b)
    ensures ValidFor(op, KInt) <==> exists c: Condition, n :: c.op == op && IntMatch(c, n)
    ensures ValidFor(op, KString) <==> exists c: Condition, s, cx :: c.op == op && StringMatch(c, Some(s), cx)
    ensures ValidFor(op, KString) <==> exists c: Condition, ss, cx :: c.op == op && ss != [] && ListMatch(c, ss, cx)
  {
    if op == Eq {
      assert BoolMatch(Condition(IsSupporter, op, Bool(true), None), true);
    }
    var one := Condition(BadgeCount, op, Num(Whole(1)), Some(Num(Whole(1))));
    assert op in {Eq, Gte, Lte, Between} ==> IntMatch(one, Some(1));
    assert op in {Neq, Gt} ==> IntMatch(one, Some(2));
    assert op == Lt ==> IntMatch(one, Some(0));
    if ValidFor(op, KString) {
      TextOperator(op);
    }
  }

  lemma TextOperator(op: Operator)
    requires ValidFor(op, KString)
    ensures exists c: Condition, s, cx :: c.op == op && StringMatch(c, Some(s), cx)
    ensures exists c: Condition, ss, cx :: c.op == op && ss != [] && ListMatch(c, ss, cx)
  {
    var cx := Context(0, _ => true, (_, _) => true);
    var value := if op == In then Arr([Str("a")]) else if op == NotIn then Arr([]) else Str("a");
    var c := Condition(Username, op, value, None);
    var s := if op == Neq then "b" else "a";
    assert "a" <= "a"[0..];
    assert [Str("a")][1..] == [];
    assert op == In ==> c.value.Strings() == ["a"];
    assert s in [s];
    assert StringMatch(c, Some(s), cx);
    assert ListMatch(c, [s], cx);
  }
}
