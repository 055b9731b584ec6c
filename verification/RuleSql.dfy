/** The rule compiler: a rule tree becomes a parameterised WHERE clause over `ou` and `os`. */
module RuleSql {
  import opened Text
  import opened Rule
  import opened Schema
  import opened SqlClause
  import Like

  datatype Bind = BoolBind(b: bool) | IntBind(n: int) | TextBind(s: string) | TextArrayBind(ss: seq<string>)

  function BindVal(b: Bind): Val {
    match b
    case BoolBind(b1) => BoolV(b1)
    case IntBind(n) => IntV(n)
    case TextBind(s) => TextV(s)
    case TextArrayBind(ss) => TextsV(ss)
  }

  /** Flags COALESCE to false and counts to 0; nullable columns and ages stay NULL-able. */
  function TargetExpr(t: Target): Expr {
    match t
    case IsSupporter => Coalesce(Col(OuIsSupporter), BoolV(false))
    case IsActive => Coalesce(Col(OuIsActive), BoolV(false))
    case IsRestricted => Coalesce(Col(OuIsRestricted), BoolV(false))
    case HasBadge => Positive(Zeroed(Col(OuBadgeCount)))
    case HasGroupBadge => Positive(Zeroed(ArrayLength(Col(OuGroups))))
    case AccountAgeDays => DaysSince(Col(OuJoinedAt))
    case DaysSinceLastVisit => DaysSince(Col(OuLastVisitAt))
    case BadgeCount => Zeroed(Col(OuBadgeCount))
    case FollowerCount => Zeroed(Col(OuFollowerCount))
    case MappingSubscribers => Zeroed(Col(OuMappingFollowers))
    case Kudosu => Zeroed(Col(OuKudosuTotal))
    case RankedBeatmaps => Zeroed(Col(OuRankedBeatmaps))
    case LovedBeatmaps => Zeroed(Col(OuLovedBeatmaps))
    case MappingPlaycount => Zeroed(Col(OuMappingPlaycount))
    case ReplaysWatchedByOthers => Zeroed(Col(OuReplaysWatchedOthers))
    case FavouriteCount => Zeroed(Col(OuFavouriteBeatmapsets))
    case CountryCode => Col(OuCountryCode)
    case Username => Col(OuOsuUsername)
    case GroupName => Col(OuGroups)
    case Playstyle => Col(OuPlaystyles)
    case GlobalRank => Col(OsGlobalRank)
    case CountryRank => Col(OsCountryRank)
    case PerformancePoints => Zeroed(Col(OsPerformancePoints))
    case PlayCount => Zeroed(Col(OsPlayCount))
    case PlayTimeHours => Zeroed(Col(OsPlayTimeHours))
    case TotalScore => Zeroed(Col(OsTotalScore))
    case RankedScore => Zeroed(Col(OsRankedScore))
    case HitAccuracy => Zeroed(Col(OsHitAccuracy))
    case MaxCombo => Zeroed(Col(OsMaxCombo))
    case LevelInt => Zeroed(Col(OsLevelInt))
    case SsCount => Zeroed(Plus(Col(OsCountSs), Col(OsCountSsSilver)))
    case SCount => Zeroed(Plus(Col(OsCountS), Col(OsCountSSilver)))
    case ACount => Zeroed(Col(OsCountA))
  }

  // ---- the compiler as a function: clause and binds, placeholders counted from `first` ----

  function ScalarText(c: Condition): string {
    if c.value.AsStr().Some? then c.value.AsStr().value else ""
  }

  function ScalarInt(c: Condition): int {
    if c.value.AsI64().Some? then c.value.AsI64().value else 0
  }

  /** The upper end of `between`, falling back to the lower one. */
  function EndInt(c: Condition): int {
    if c.valueEnd.Some? && c.valueEnd.value.AsI64().Some? then c.valueEnd.value.AsI64().value else ScalarInt(c)
  }

  function ContainsPattern(needle: string): string {
    "%" + Like.EscapeLike(needle) + "%"
  }

  function CompareOpOf(op: Operator): CompareOp {
    match op
    case Gt => GT
    case Gte => GE
    case Lt => LT
    case _ => LE
  }

  function CompileCondition(c: Condition, first: nat): (Factor, seq<Bind>) {
    var e := TargetExpr(c.target);
    if IsList(c.target) then CompileArrayCondition(c, e, first)
    else
      match c.op
      case Eq =>
        if c.value.AsBool().Some? then (Atom(Compare(e, EQ, first)), [BoolBind(c.value.AsBool().value)])
        else if c.value.AsI64().Some? then (Atom(Compare(e, EQ, first)), [IntBind(c.value.AsI64().value)])
        else (Atom(Compare(e, EQ, first)), [TextBind(ScalarText(c))])
      case Neq =>
        if c.value.AsI64().Some? then (Atom(Compare(e, NE, first)), [IntBind(c.value.AsI64().value)])
        else (Atom(IsDistinctFrom(e, first)), [TextBind(ScalarText(c))])
      case Between =>
        (Parens(Or([And([Atom(Compare(e, GE, first)), Atom(Compare(e, LE, first + 1))])])),
         [IntBind(ScalarInt(c)), IntBind(EndInt(c))])
      case Contains => (Atom(LikePattern(e, first)), [TextBind(ContainsPattern(ScalarText(c)))])
      case Regex => (Atom(RegexPattern(e, first)), [TextBind(ScalarText(c))])
      case In =>
        var ss := c.value.Strings();
        if ss == [] then (Truth(false), []) else (Atom(EqualsAny(e, first)), [TextArrayBind(ss)])
      case NotIn =>
        var ss := c.value.Strings();
        if ss == [] then (Truth(true), [])
        else (Parens(Or([And([Atom(IsNotNull(e)), Atom(DiffersFromAll(e, first))])])), [TextArrayBind(ss)])
      case _ => (Atom(Compare(e, CompareOpOf(c.op), first)), [IntBind(ScalarInt(c))])
  }

  function CompileArrayCondition(c: Condition, e: Expr, first: nat): (Factor, seq<Bind>) {
    match c.op
    case Eq => (Parens(Lone(Atom(ArrayHolds(e, first)))), [TextBind(ScalarText(c))])
    case Neq => (Not(Parens(Lone(Atom(ArrayHolds(e, first))))), [TextBind(ScalarText(c))])
    case Contains => (Atom(SomeLike(e, first)), [TextBind(ContainsPattern(ScalarText(c)))])
    case Regex => (Atom(SomeRegex(e, first)), [TextBind(ScalarText(c))])
    case In =>
      var ss := c.value.Strings();
      if ss == [] then (Truth(false), [])
      else (Parens(Lone(Atom(ArrayOverlaps(e, first)))), [TextArrayBind(ss)])
    case NotIn =>
      var ss := c.value.Strings();
      if ss == [] then (Truth(true), [])
      else (Not(Parens(Lone(Atom(ArrayOverlaps(e, first))))), [TextArrayBind(ss)])
    case _ => (Truth(false), [])
  }

  function CompileConditions(cs: seq<Condition>, first: nat): (r: (seq<Factor>, seq<Bind>))
    ensures |r.0| == |cs|
  {
    if cs == [] then ([], [])
    else
      var (f, binds) := CompileCondition(cs[0], first);
      var (fs, more) := CompileConditions(cs[1..], first + |binds|);
      ([f] + fs, binds + more)
  }

  function CompileGroup(cs: seq<Condition>, first: nat): (Term, seq<Bind>) {
    if cs == [] then (And([Truth(false)]), [])
    else
      var (fs, binds) := CompileConditions(cs, first);
      (And([Parens(Or([And(fs)]))]), binds)
  }

  function CompileGroups(gs: seq<seq<Condition>>, first: nat): (r: (seq<Term>, seq<Bind>))
    ensures |r.0| == |gs|
  {
    if gs == [] then ([], [])
    else
      var (t, binds) := CompileGroup(gs[0], first);
      var (ts, more) := CompileGroups(gs[1..], first + |binds|);
      ([t] + ts, binds + more)
  }

  /** `build_rule_where`: clause and binds, the first placeholder being `$(bindOffset + 1)`. */
  function CompileTree(tree: RuleTree, bindOffset: nat): (Clause, seq<Bind>) {
    if tree.grantOnAny then (Lone(Truth(true)), [])
    else if tree.groups == [] then (Lone(Truth(false)), [])
    else
      var (ts, binds) := CompileGroups(tree.groups, bindOffset + 1);
      (Lone(Parens(Or(ts))), binds)
  }
}
