/** Save-time validation: an untyped rule body becomes a checked `RuleTree`, or the first problem found. */
module RuleValidator {
  import opened Text
  import opened Rule

  datatype ConditionInput = ConditionInput(target: string, op: string, value: Json, valueEnd: Option<Json>)

  datatype Body = Body(grantOnAny: bool, mode: Option<string>, groups: seq<seq<ConditionInput>>)

  datatype Reason =
    | UnknownMode | NoGroups | TooManyGroups | EmptyGroup | TooManyConditions
    | UnknownTarget | UnknownOperator | OperatorNotValid
    | BooleanRequired | IntegerRequired | ListEmpty | ValueRequired | MaximumMissing | BadRegex

  /** A rejection names the group and condition at fault, counted from 1; 0 where there is none. */
  datatype Result<+T> = Ok(value: T) | Err(reason: Reason, group: nat, condition: nat)

  // ---- values ----

  function Lower(s: string): string {
    if s == "" then ""
    else [if 'A' <= s[0] <= 'Z' then (s[0] as int + 32) as char else s[0]] + Lower(s[1..])
  }

  function Clamp(n: int): (r: int)
    ensures IsI64(r) && (IsI64(n) ==> r == n)
  {
    if n < I64_MIN then I64_MIN else if n > I64_MAX then I64_MAX else n
  }

  /** `as_i64`, else the saturating, truncating cast of the number as a float. */
  function NumberToI64(num: Number): int {
    match num
    case Whole(n) => Clamp(n)
    case Float(r, _) => Clamp(if r >= 0.0 then r.Floor else -((-r).Floor))
  }

  function NumberText(num: Number): (s: string)
    ensures !IsBlank(s)
  {
    match num
    case Whole(n) => ShowIntBare(n); ShowInt(n)
    case Float(_, text) => text
  }

  function KeepElements(items: seq<Json>): seq<Json> {
    if items == [] then []
    else (if items[0] == Null || items[0] == Str("") then [] else [items[0]]) + KeepElements(items[1..])
  }

  function TrimmedPieces(pieces: seq<string>): seq<Json> {
    if pieces == [] then []
    else (if Trim(pieces[0]) == "" then [] else [Str(Trim(pieces[0]))]) + TrimmedPieces(pieces[1..])
  }

  function ListElements(raw: Json): seq<Json> {
    match raw
    case Arr(items) => KeepElements(items)
    case Str(s) => TrimmedPieces(Split(s, ','))
    case Null => []
    case other => [other]
  }

  /** The value in the shape the target kind calls for, or why it cannot be given one. */
  function NormalizeValue(kind: Kind, op: Operator, raw: Json): Result<Json> {
    match kind
    case KBool =>
      (match raw
       case Bool(_) => Ok(raw)
       case Str(s) =>
         var word := Lower(Trim(s));
         if word in {"true", "1", "yes"} then Ok(Bool(true))
         else if word in {"false", "0", "no"} then Ok(Bool(false))
         else Err(BooleanRequired, 0, 0)
       case _ => Err(BooleanRequired, 0, 0))
    case KInt =>
      (match raw
       case Num(num) => Ok(Num(Whole(NumberToI64(num))))
       case Str(s) =>
         var n := ParseI64(Trim(s));
         if n.Some? then Ok(Num(Whole(n.value))) else Err(IntegerRequired, 0, 0)
       case _ => Err(IntegerRequired, 0, 0))
    case KString =>
      if op == In || op == NotIn then
        var items := ListElements(raw);
        if items == [] then Err(ListEmpty, 0, 0) else Ok(Arr(items))
      else
        (match raw
         case Str(s) => if IsBlank(s) then Err(ValueRequired, 0, 0) else Ok(raw)
         case Num(num) => Ok(Str(NumberText(num)))
         case Bool(b) => Ok(Str(if b then "true" else "false"))
         case _ => Err(ValueRequired, 0, 0))
  }

  // ---- conditions and trees ----

  function ValidateCondition(g: nat, k: nat, raw: ConditionInput, regexCompiles: string -> bool): Result<Condition> {
    var target := TargetFromKey(Trim(raw.target));
    if target == None then Err(UnknownTarget, g, k)
    else
      var op := OperatorFromKey(Trim(raw.op));
      if op == None then Err(UnknownOperator, g, k)
      else
        var kind := KindOf(target.value);
        if !ValidFor(op.value, kind) then Err(OperatorNotValid, g, k)
        else
          var value := NormalizeValue(kind, op.value, raw.value);
          if value.Err? then Err(value.reason, g, k)
          else if op.value == Between then
            if raw.valueEnd == None then Err(MaximumMissing, g, k)
            else
              var end := NormalizeValue(kind, op.value, raw.valueEnd.value);
              if end.Err? then Err(end.reason, g, k)
              else Ok(Condition(target.value, op.value, value.value, Some(end.value)))
          else if op.value == Regex && !regexCompiles(if value.value.Str? then value.value.s else "") then
            Err(BadRegex, g, k)
          else Ok(Condition(target.value, op.value, value.value, None))
  }

  /** The conditions of group `g` from number `k` on. */
  function ValidateConditions(g: nat, k: nat, raws: seq<ConditionInput>, regexCompiles: string -> bool)
    : Result<seq<Condition>>
    decreases raws
  {
    if raws == [] then Ok([])
    else
      var first := ValidateCondition(g, k, raws[0], regexCompiles);
      if first.Err? then Err(first.reason, first.group, first.condition)
      else
        var rest := ValidateConditions(g, k + 1, raws[1..], regexCompiles);
        if rest.Err? then rest else Ok([first.value] + rest.value)
  }

  function ValidateGroup(g: nat, raws: seq<ConditionInput>, regexCompiles: string -> bool): Result<seq<Condition>> {
    if raws == [] then Err(EmptyGroup, g, 0)
    else if |raws| > MAX_CONDITIONS_PER_GROUP then Err(TooManyConditions, g, 0)
    else ValidateConditions(g, 1, raws, regexCompiles)
  }

  function ValidateGroups(g: nat, groups: seq<seq<ConditionInput>>, regexCompiles: string -> bool)
    : Result<seq<seq<Condition>>>
    decreases groups
  {
    if groups == [] then Ok([])
    else
      var first := ValidateGroup(g, groups[0], regexCompiles);
      if first.Err? then Err(first.reason, first.group, first.condition)
      else
        var rest := ValidateGroups(g + 1, groups[1..], regexCompiles);
        if rest.Err? then rest else Ok([first.value] + rest.value)
  }

  function ParseMode(mode: Option<string>): Option<Mode> {
    if mode == None || Trim(mode.value) == "" then Some(Osu) else ModeFromKey(Trim(mode.value))
  }

  function ParseTree(body: Body, regexCompiles: string -> bool): Result<RuleTree> {
    var mode := ParseMode(body.mode);
    if mode == None then Err(UnknownMode, 0, 0)
    else if body.grantOnAny then Ok(RuleTree(true, mode.value, []))
    else if body.groups == [] then Err(NoGroups, 0, 0)
    else if |body.groups| > MAX_GROUPS then Err(TooManyGroups, 0, 0)
    else
      var groups := ValidateGroups(1, body.groups, regexCompiles);
      if groups.Err? then Err(groups.reason, groups.group, groups.condition)
      else Ok(RuleTree(false, mode.value, groups.value))
  }

  // ---- as it runs: nested loops pushing onto the groups and conditions built so far ----

  method ParseRuleTree(body: Body, regexCompiles: string -> bool) returns (r: Result<RuleTree>)
    ensures r == ParseTree(body, regexCompiles)
  {
    hide ValidateCondition, ValidateConditions, ValidateGroup;
    var mode := ParseMode(body.mode);
    if mode == None {
      return Err(UnknownMode, 0, 0);
    }
    if !body.grantOnAny {
      if body.groups == [] {
        return Err(NoGroups, 0, 0);
      }
      if |body.groups| > MAX_GROUPS {
        return Err(TooManyGroups, 0, 0);
      }
    }
    var groups: seq<seq<Condition>> := [];
    if !body.grantOnAny {
      ghost var all := ValidateGroups(1, body.groups, regexCompiles);
      for gi := 0 to |body.groups|
        invariant var rest := ValidateGroups(gi + 1, body.groups[gi..], regexCompiles);
          if rest.Err? then all == Err(rest.reason, rest.group, rest.condition)
          else all.Ok? && all.value == groups + rest.value
      {
        assert body.groups[gi..][1..] == body.groups[gi + 1..];
        var conditions := ParseGroup(gi + 1, body.groups[gi], regexCompiles);
        if conditions.Err? {
          return Err(conditions.reason, conditions.group, conditions.condition);
        }
        groups := groups + [conditions.value];
      }
      assert groups + [] == groups;
    }
    return Ok(RuleTree(body.grantOnAny, mode.value, groups));
  }

  method ParseGroup(g: nat, raws: seq<ConditionInput>, regexCompiles: string -> bool)
    returns (r: Result<seq<Condition>>)
    ensures r == ValidateGroup(g, raws, regexCompiles)
  {
    hide ValidateCondition;
    if raws == [] {
      return Err(EmptyGroup, g, 0);
    }
    if |raws| > MAX_CONDITIONS_PER_GROUP {
      return Err(TooManyConditions, g, 0);
    }
    var conditions: seq<Condition> := [];
    ghost var all := ValidateConditions(g, 1, raws, regexCompiles);
    for ci := 0 to |raws|
      invariant var rest := ValidateConditions(g, ci + 1, raws[ci..], regexCompiles);
        if rest.Err? then all == Err(rest.reason, rest.group, rest.condition)
        else all.Ok? && all.value == conditions + rest.value
    {
      assert raws[ci..][1..] == raws[ci + 1..];
      var c := ValidateCondition(g, ci + 1, raws[ci], regexCompiles);
      if c.Err? {
        return Err(c.reason, c.group, c.condition);
      }
      conditions := conditions + [c.value];
    }
    assert conditions + [] == conditions;
    return Ok(conditions);
  }

  // ---- soundness ----

  lemma {:induction false} KeepElementsKeeps(items: seq<Json>)
    ensures Null !in KeepElements(items) && Str("") !in KeepElements(items)
    ensures Null !in items && Str("") !in items ==> KeepElements(items) == items
  {
    if items != [] {
      KeepElementsKeeps(items[1..]);
    }
  }

  lemma {:induction false} TrimmedPiecesKeep(pieces: seq<string>)
    ensures Null !in TrimmedPieces(pieces) && Str("") !in TrimmedPieces(pieces)
  {
    if pieces != [] {
      TrimmedPiecesKeep(pieces[1..]);
    }
  }

  lemma WordsNotBlank()
    ensures !IsBlank("true") && !IsBlank("false")
  {
  }

  /** Whatever normalisation yields has the shape the condition needs. */
  lemma NormalizedFits(kind: Kind, op: Operator, raw: Json)
    requires ValidFor(op, kind) && NormalizeValue(kind, op, raw).Ok?
    ensures ValueFits(kind, op, NormalizeValue(kind, op, raw).value)
  {
    match kind
    case KBool =>
    case KInt =>
    case KString =>
      WordsNotBlank();
      if (op == In || op == NotIn) && raw.Arr? {
        KeepElementsKeeps(raw.items);
      } else if (op == In || op == NotIn) && raw.Str? {
        TrimmedPiecesKeep(Split(raw.s, ','));
      }
  }

  lemma ConditionSound(g: nat, k: nat, raw: ConditionInput, regexCompiles: string -> bool)
    requires ValidateCondition(g, k, raw, regexCompiles).Ok?
    ensures var c := ValidateCondition(g, k, raw, regexCompiles).value;
      && ValidCondition(c, regexCompiles)
      && TargetFromKey(Trim(raw.target)) == Some(c.target)
      && OperatorFromKey(Trim(raw.op)) == Some(c.op)
  {
    hide TargetFromKey, OperatorFromKey, NormalizeValue, ValueFits;
    var c := ValidateCondition(g, k, raw, regexCompiles).value;
    NormalizedFits(KindOf(c.target), c.op, raw.value);
    if c.op == Between {
      NormalizedFits(KindOf(c.target), c.op, raw.valueEnd.value);
    } else if c.op == Regex {
      RegexIsText(c, regexCompiles);
    }
  }

  lemma RegexIsText(c: Condition, regexCompiles: string -> bool)
    requires c.op == Regex && ValidFor(Regex, KindOf(c.target)) && ValueFits(KindOf(c.target), Regex, c.value)
    ensures c.value.Str?
  {
  }

  lemma {:induction false} ConditionsSound(g: nat, k: nat, raws: seq<ConditionInput>, regexCompiles: string -> bool)
    requires ValidateConditions(g, k, raws, regexCompiles).Ok?
    ensures var cs := ValidateConditions(g, k, raws, regexCompiles).value;
      |cs| == |raws| && forall i :: 0 <= i < |cs| ==>
        && ValidCondition(cs[i], regexCompiles)
        && TargetFromKey(Trim(raws[i].target)) == Some(cs[i].target)
        && OperatorFromKey(Trim(raws[i].op)) == Some(cs[i].op)
    decreases raws
  {
    hide TargetFromKey, OperatorFromKey, ValidateCondition, ValidCondition;
    if raws != [] {
      ConditionSound(g, k, raws[0], regexCompiles);
      ConditionsSound(g, k + 1, raws[1..], regexCompiles);
    }
  }

  lemma {:induction false} GroupsSound(g: nat, groups: seq<seq<ConditionInput>>, regexCompiles: string -> bool)
    requires ValidateGroups(g, groups, regexCompiles).Ok?
    ensures var out := ValidateGroups(g, groups, regexCompiles).value;
      |out| == |groups| && forall i :: 0 <= i < |out| ==>
        && 1 <= |out[i]| == |groups[i]| <= MAX_CONDITIONS_PER_GROUP
        && forall k :: 0 <= k < |out[i]| ==>
          && ValidCondition(out[i][k], regexCompiles)
          && TargetFromKey(Trim(groups[i][k].target)) == Some(out[i][k].target)
          && OperatorFromKey(Trim(groups[i][k].op)) == Some(out[i][k].op)
    decreases groups
  {
    hide TargetFromKey, OperatorFromKey, ValidateConditions, ValidCondition;
    if groups != [] {
      ConditionsSound(g, 1, groups[0], regexCompiles);
      GroupsSound(g + 1, groups[1..], regexCompiles);
    }
  }

  /** An accepted body yields a well-formed tree with the body's own groups, targets and operators, in order. */
  lemma ParseSound(body: Body, regexCompiles: string -> bool)
    ensures ParseTree(body, regexCompiles).Ok? ==>
      var tree := ParseTree(body, regexCompiles).value;
      && WellFormed(tree, regexCompiles)
      && tree.grantOnAny == body.grantOnAny
      && Some(tree.mode) == ParseMode(body.mode)
      && (!body.grantOnAny ==> |tree.groups| == |body.groups| && forall g :: 0 <= g < |tree.groups| ==>
           |tree.groups[g]| == |body.groups[g]| && forall k :: 0 <= k < |tree.groups[g]| ==>
             && TargetFromKey(Trim(body.groups[g][k].target)) == Some(tree.groups[g][k].target)
             && OperatorFromKey(Trim(body.groups[g][k].op)) == Some(tree.groups[g][k].op))
  {
    hide TargetFromKey, OperatorFromKey, ValidCondition, ValidateGroups;
    if !body.grantOnAny && ValidateGroups(1, body.groups, regexCompiles).Ok? {
      GroupsSound(1, body.groups, regexCompiles);
    }
  }

  // ---- resubmission ----

  function InputOf(c: Condition): ConditionInput {
    ConditionInput(TargetKey(c.target), OperatorKey(c.op), c.value, c.valueEnd)
  }

  function InputsOf(cs: seq<Condition>): (r: seq<ConditionInput>)
    ensures |r| == |cs|
  {
    if cs == [] then [] else [InputOf(cs[0])] + InputsOf(cs[1..])
  }

  function GroupInputsOf(gs: seq<seq<Condition>>): (r: seq<seq<ConditionInput>>)
    ensures |r| == |gs|
  {
    if gs == [] then [] else [InputsOf(gs[0])] + GroupInputsOf(gs[1..])
  }

  /** The body under which an editor sends a stored tree back. */
  function BodyOf(tree: RuleTree): Body {
    Body(tree.grantOnAny, Some(ModeKey(tree.mode)), GroupInputsOf(tree.groups))
  }

  lemma NormalizeFixes(kind: Kind, op: Operator, value: Json)
    requires ValueFits(kind, op, value)
    ensures NormalizeValue(kind, op, value) == Ok(value)
  {
    if value.Arr? {
      KeepElementsKeeps(value.items);
    }
  }

  lemma ConditionFixed(g: nat, k: nat, c: Condition, regexCompiles: string -> bool)
    requires ValidCondition(c, regexCompiles)
    ensures ValidateCondition(g, k, InputOf(c), regexCompiles) == Ok(c)
  {
    hide TargetFromKey, OperatorFromKey, TargetKey, OperatorKey, NormalizeValue;
    TargetKeyRoundTrip(c.target);
    OperatorKeyRoundTrip(c.op);
    NormalizeFixes(KindOf(c.target), c.op, c.value);
    if c.op == Between {
      NormalizeFixes(KindOf(c.target), c.op, c.valueEnd.value);
    }
  }

  lemma {:induction false} ConditionsFixed(g: nat, k: nat, cs: seq<Condition>, regexCompiles: string -> bool)
    requires forall i :: 0 <= i < |cs| ==> ValidCondition(cs[i], regexCompiles)
    ensures ValidateConditions(g, k, InputsOf(cs), regexCompiles) == Ok(cs)
    decreases cs
  {
    hide ValidateCondition, ValidCondition, InputOf;
    if cs != [] {
      var first, rest := cs[0], cs[1..];
      ConditionFixed(g, k, first, regexCompiles);
      ConditionsFixed(g, k + 1, rest, regexCompiles);
      var inputs := InputsOf(cs);
      assert inputs[0] == InputOf(first) && inputs[1..] == InputsOf(rest);
      assert cs == [first] + rest;
    }
  }

  lemma {:induction false} GroupsFixed(g: nat, gs: seq<seq<Condition>>, regexCompiles: string -> bool)
    requires forall i, k :: 0 <= i < |gs| && 0 <= k < |gs[i]| ==> ValidCondition(gs[i][k], regexCompiles)
    requires forall i :: 0 <= i < |gs| ==> 1 <= |gs[i]| <= MAX_CONDITIONS_PER_GROUP
    ensures ValidateGroups(g, GroupInputsOf(gs), regexCompiles) == Ok(gs)
    decreases gs
  {
    hide ValidateConditions, ValidCondition, InputsOf;
    if gs != [] {
      var first, rest := gs[0], gs[1..];
      ConditionsFixed(g, 1, first, regexCompiles);
      GroupsFixed(g + 1, rest, regexCompiles);
      var inputs := GroupInputsOf(gs);
      assert inputs[0] == InputsOf(first) && inputs[1..] == GroupInputsOf(rest);
      assert gs == [first] + rest;
    }
  }

  /** The trees validation lets through are exactly the well-formed ones, and resubmitting one changes nothing. */
  lemma ParseImage(tree: RuleTree, regexCompiles: string -> bool)
    ensures WellFormed(tree, regexCompiles) ==> ParseTree(BodyOf(tree), regexCompiles) == Ok(tree)
    ensures WellFormed(tree, regexCompiles) <==> exists body :: ParseTree(body, regexCompiles) == Ok(tree)
  {
    hide ValidCondition, ValidateGroups;
    if WellFormed(tree, regexCompiles) {
      ModeKeyRoundTrip(tree.mode);
      GroupsFixed(1, tree.groups, regexCompiles);
      assert ParseTree(BodyOf(tree), regexCompiles) == Ok(tree);
    }
    if body :| ParseTree(body, regexCompiles) == Ok(tree) {
      ParseSound(body, regexCompiles);
    }
  }
}
