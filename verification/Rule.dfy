/** Rule trees: condition targets, operators, JSON values and the OR-of-AND groups they form. */
module Rule {
  import opened Text

  // ---- JSON values ----

  /** The printed form of a JSON number is never blank. */
  type NumeralText = s: string | !IsBlank(s) witness BlankWitness()

  function BlankWitness(): (s: string)
    ensures !IsBlank(s)
  {
    TrimIsIdentity("0");
    "0"
  }

  /** A JSON number: an integer, or a fraction together with the text it prints as. */
  datatype Number = Whole(n: int) | Float(value: real, text: NumeralText)

  datatype Json =
    | Null
    | Bool(b: bool)
    | Num(num: Number)
    | Str(s: string)
    | Arr(items: seq<Json>)
    | Obj(members: seq<(string, Json)>)
  {
    function AsBool(): Option<bool> {
      if Bool? then Some(b) else None
    }

    function AsI64(): Option<int> {
      if Num? && num.Whole? && IsI64(num.n) then Some(num.n) else None
    }

    function AsStr(): Option<string> {
      if Str? then Some(s) else None
    }

    /** The string elements of an array, in order; anything else is dropped. */
    function Strings(): seq<string> {
      if Arr? then StringsOf(items) else []
    }
  }

  function StringsOf(items: seq<Json>): seq<string> {
    if items == [] then []
    else (if items[0].Str? then [items[0].s] else []) + StringsOf(items[1..])
  }

  // ---- modes, targets, operators ----

  datatype Mode = Osu | Taiko | Fruits | Mania

  function ModeKey(m: Mode): string {
    match m
    case Osu => "osu"
    case Taiko => "taiko"
    case Fruits => "fruits"
    case Mania => "mania"
  }

  function ModeFromKey(s: string): Option<Mode> {
    match s
    case "osu" => Some(Osu)
    case "standard" => Some(Osu)
    case "taiko" => Some(Taiko)
    case "fruits" => Some(Fruits)
    case "catch" => Some(Fruits)
    case "ctb" => Some(Fruits)
    case "mania" => Some(Mania)
    case _ => None
  }

  datatype Kind = KBool | KInt | KString

  datatype Target =
    | IsSupporter | IsActive | IsRestricted | HasBadge | HasGroupBadge
    | AccountAgeDays | DaysSinceLastVisit | BadgeCount | FollowerCount | MappingSubscribers | Kudosu
    | RankedBeatmaps | LovedBeatmaps | MappingPlaycount | ReplaysWatchedByOthers | FavouriteCount
    | CountryCode | Username | GroupName | Playstyle
    | GlobalRank | CountryRank | PerformancePoints | PlayCount | PlayTimeHours | TotalScore | RankedScore
    | HitAccuracy | MaxCombo | LevelInt | SsCount | SCount | ACount

  function KindOf(t: Target): Kind {
    match t
    case IsSupporter | IsActive | IsRestricted | HasBadge | HasGroupBadge => KBool
    case CountryCode | Username | GroupName | Playstyle => KString
    case _ => KInt
  }

  /** The list-valued string targets. */
  predicate IsList(t: Target) {
    t == GroupName || t == Playstyle
  }

  /** The targets that read the rule's game mode. */
  predicate IsPerMode(t: Target) {
    match t
    case GlobalRank | CountryRank | PerformancePoints | PlayCount | PlayTimeHours | TotalScore | RankedScore
       | HitAccuracy | MaxCombo | LevelInt | SsCount | SCount | ACount => true
    case _ => false
  }

  function TargetKey(t: Target): string {
    match t
    case IsSupporter => "is_supporter"
    case IsActive => "is_active"
    case IsRestricted => "is_restricted"
    case HasBadge => "has_badge"
    case HasGroupBadge => "has_group_badge"
    case AccountAgeDays => "account_age_days"
    case DaysSinceLastVisit => "days_since_last_visit"
    case BadgeCount => "badge_count"
    case FollowerCount => "follower_count"
    case MappingSubscribers => "mapping_subscribers"
    case Kudosu => "kudosu"
    case RankedBeatmaps => "ranked_beatmaps"
    case LovedBeatmaps => "loved_beatmaps"
    case MappingPlaycount => "mapping_playcount"
    case ReplaysWatchedByOthers => "replays_watched_by_others"
    case FavouriteCount => "favourite_count"
    case CountryCode => "country_code"
    case Username => "username"
    case GroupName => "group_name"
    case Playstyle => "playstyle"
    case GlobalRank => "global_rank"
    case CountryRank => "country_rank"
    case PerformancePoints => "performance_points"
    case PlayCount => "play_count"
    case PlayTimeHours => "play_time_hours"
    case TotalScore => "total_score"
    case RankedScore => "ranked_score"
    case HitAccuracy => "hit_accuracy"
    case MaxCombo => "max_combo"
    case LevelInt => "level_int"
    case SsCount => "ss_count"
    case SCount => "s_count"
    case ACount => "a_count"
  }

  function TargetFromKey(s: string): Option<Target> {
    match s
    case "is_supporter" => Some(IsSupporter)
    case "is_active" => Some(IsActive)
    case "is_restricted" => Some(IsRestricted)
    case "has_badge" => Some(HasBadge)
    case "has_group_badge" => Some(HasGroupBadge)
    case "account_age_days" => Some(AccountAgeDays)
    case "days_since_last_visit" => Some(DaysSinceLastVisit)
    case "badge_count" => Some(BadgeCount)
    case "follower_count" => Some(FollowerCount)
    case "mapping_subscribers" => Some(MappingSubscribers)
    case "kudosu" => Some(Kudosu)
    case "ranked_beatmaps" => Some(RankedBeatmaps)
    case "loved_beatmaps" => Some(LovedBeatmaps)
    case "mapping_playcount" => Some(MappingPlaycount)
    case "replays_watched_by_others" => Some(ReplaysWatchedByOthers)
    case "favourite_count" => Some(FavouriteCount)
    case "country_code" => Some(CountryCode)
    case "username" => Some(Username)
    case "group_name" => Some(GroupName)
    case "playstyle" => Some(Playstyle)
    case "global_rank" => Some(GlobalRank)
    case "country_rank" => Some(CountryRank)
    case "performance_points" => Some(PerformancePoints)
    case "pp" => Some(PerformancePoints)
    case "play_count" => Some(PlayCount)
    case "playcount" => Some(PlayCount)
    case "play_time_hours" => Some(PlayTimeHours)
    case "total_score" => Some(TotalScore)
    case "ranked_score" => Some(RankedScore)
    case "hit_accuracy" => Some(HitAccuracy)
    case "accuracy" => Some(HitAccuracy)
    case "max_combo" => Some(MaxCombo)
    case "level_int" => Some(LevelInt)
    case "level" => Some(LevelInt)
    case "ss_count" => Some(SsCount)
    case "s_count" => Some(SCount)
    case "a_count" => Some(ACount)
    case _ => None
  }

  datatype Operator = Eq | Neq | Gt | Gte | Lt | Lte | Between | Contains | Regex | In | NotIn

  function OperatorKey(op: Operator): string {
    match op
    case Eq => "eq"
    case Neq => "neq"
    case Gt => "gt"
    case Gte => "gte"
    case Lt => "lt"
    case Lte => "lte"
    case Between => "between"
    case Contains => "contains"
    case Regex => "regex"
    case In => "in"
    case NotIn => "not_in"
  }

  function OperatorFromKey(s: string): Option<Operator> {
    match s
    case "eq" => Some(Eq)
    case "neq" => Some(Neq)
    case "gt" => Some(Gt)
    case "gte" => Some(Gte)
    case "lt" => Some(Lt)
    case "lte" => Some(Lte)
    case "between" => Some(Between)
    case "contains" => Some(Contains)
    case "regex" => Some(Regex)
    case "in" => Some(In)
    case "not_in" => Some(NotIn)
    case _ => None
  }

  /** Operators that produce a meaningful predicate on each target kind. */
  predicate ValidFor(op: Operator, kind: Kind) {
    match kind
    case KBool => op == Eq
    case KInt => op in {Eq, Neq, Gt, Gte, Lt, Lte, Between}
    case KString => op in {Eq, Neq, Contains, Regex, In, NotIn}
  }

  /** Reading back the key of a target, an operator or a mode gives it again, white space trimming included. */
  lemma TargetKeyRoundTrip(t: Target)
    ensures TargetFromKey(Trim(TargetKey(t))) == Some(t)
  {
    match t
    case IsSupporter | IsActive | IsRestricted | HasBadge | HasGroupBadge => FlagKeyRoundTrip(t);
    case CountryCode | Username | GroupName | Playstyle => TextKeyRoundTrip(t);
    case MappingSubscribers | Kudosu | RankedBeatmaps | LovedBeatmaps | MappingPlaycount => MappingKeyRoundTrip(t);
    case AccountAgeDays | DaysSinceLastVisit | BadgeCount | FollowerCount | ReplaysWatchedByOthers | FavouriteCount =>
      ProfileKeyRoundTrip(t);
    case GlobalRank | CountryRank | PerformancePoints => RankKeyRoundTrip(t);
    case PlayCount | PlayTimeHours | HitAccuracy | MaxCombo => PlayKeyRoundTrip(t);
    case TotalScore | RankedScore | LevelInt => ScoreKeyRoundTrip(t);
    case SsCount | SCount | ACount => GradeKeyRoundTrip(t);
  }

  lemma FlagKeyRoundTrip(t: Target)
    requires KindOf(t) == KBool
    ensures TargetFromKey(Trim(TargetKey(t))) == Some(t)
  {
  }

  lemma TextKeyRoundTrip(t: Target)
    requires KindOf(t) == KString
    ensures TargetFromKey(Trim(TargetKey(t))) == Some(t)
  {
  }

  lemma MappingKeyRoundTrip(t: Target)
    requires t in {MappingSubscribers, Kudosu, RankedBeatmaps, LovedBeatmaps, MappingPlaycount}
    ensures TargetFromKey(Trim(TargetKey(t))) == Some(t)
  {
    TrimIsIdentity(TargetKey(t));
  }

  lemma ProfileKeyRoundTrip(t: Target)
    requires t in {AccountAgeDays, DaysSinceLastVisit, BadgeCount, FollowerCount, ReplaysWatchedByOthers,
                   FavouriteCount}
    ensures TargetFromKey(Trim(TargetKey(t))) == Some(t)
  {
    TrimIsIdentity(TargetKey(t));
  }

  lemma RankKeyRoundTrip(t: Target)
    requires t in {GlobalRank, CountryRank, PerformancePoints}
    ensures TargetFromKey(Trim(TargetKey(t))) == Some(t)
  {
    TrimIsIdentity(TargetKey(t));
  }

  lemma PlayKeyRoundTrip(t: Target)
    requires t in {PlayCount, PlayTimeHours, HitAccuracy, MaxCombo}
    ensures TargetFromKey(Trim(TargetKey(t))) == Some(t)
  {
    TrimIsIdentity(TargetKey(t));
  }

  lemma ScoreKeyRoundTrip(t: Target)
    requires t in {TotalScore, RankedScore, LevelInt}
    ensures TargetFromKey(Trim(TargetKey(t))) == Some(t)
  {
    TrimIsIdentity(TargetKey(t));
  }

  lemma GradeKeyRoundTrip(t: Target)
    requires t in {SsCount, SCount, ACount}
    ensures TargetFromKey(Trim(TargetKey(t))) == Some(t)
  {
    TrimIsIdentity(TargetKey(t));
  }

  lemma OperatorKeyRoundTrip(op: Operator)
    ensures OperatorFromKey(Trim(OperatorKey(op))) == Some(op)
  {
  }

  lemma ModeKeyRoundTrip(m: Mode)
    ensures Trim(ModeKey(m)) == ModeKey(m) != "" && ModeFromKey(ModeKey(m)) == Some(m)
  {
  }

  // ---- rule trees ----

  datatype Condition = Condition(target: Target, op: Operator, value: Json, valueEnd: Option<Json>)

  datatype RuleTree = RuleTree(grantOnAny: bool, mode: Mode, groups: seq<seq<Condition>>)

  const MAX_GROUPS := 8
  const MAX_CONDITIONS_PER_GROUP := 12

  /** The tree of a role link nobody has configured yet. */
  const UNCONFIGURED := RuleTree(false, Osu, [])

  /** A value of the shape a target kind and operator call for. */
  predicate ValueFits(kind: Kind, op: Operator, value: Json) {
    match kind
    case KBool => value.Bool?
    case KInt => value.AsI64().Some?
    case KString =>
      if op == In || op == NotIn then
        value.Arr? && value.items != [] && Null !in value.items && Str("") !in value.items
      else
        value.Str? && !IsBlank(value.s)
  }

  /** A condition the compiler and the evaluator agree to understand. */
  predicate ValidCondition(c: Condition, regexCompiles: string -> bool) {
    var kind := KindOf(c.target);
    && ValidFor(c.op, kind)
    && ValueFits(kind, c.op, c.value)
    && (if c.op == Between then c.valueEnd.Some? && ValueFits(kind, c.op, c.valueEnd.value)
        else c.valueEnd == None)
    && (c.op == Regex ==> regexCompiles(c.value.AsStr().value))
  }

  predicate ValidConditions(tree: RuleTree, regexCompiles: string -> bool) {
    forall g, k :: 0 <= g < |tree.groups| && 0 <= k < |tree.groups[g]| ==>
      ValidCondition(tree.groups[g][k], regexCompiles)
  }

  /** What the save endpoint lets through. */
  predicate WellFormed(tree: RuleTree, regexCompiles: string -> bool) {
    && ValidConditions(tree, regexCompiles)
    && (tree.grantOnAny ==> tree.groups == [])
    && (!tree.grantOnAny ==> 1 <= |tree.groups| <= MAX_GROUPS)
    && forall g :: 0 <= g < |tree.groups| ==> 1 <= |tree.groups[g]| <= MAX_CONDITIONS_PER_GROUP
  }
}
