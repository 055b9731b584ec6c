/** The rule compiler as it runs: text is printed while one shared buffer collects the binds. */
module RuleBuilder {
  import opened Text
  import opened Rule
  import opened Schema
  import opened SqlClause
  import opened RuleSql
  import opened SqlReader
  import opened RuleReads

  class BindBuffer {
    var items: seq<Bind>

    constructor ()
      ensures items == []
    {
      items := [];
    }

    method Push(b: Bind)
      modifies this
      ensures items == old(items) + [b]
    {
      items := items + [b];
    }
  }

  lemma LoneText(f: Factor)
    ensures ClauseText(Lone(f)) == FactorText(f)
  {
    assert FactorTexts([f]) == [FactorText(f)];
    assert TermTexts([And([f])]) == [Join(FactorTexts([f]), " AND ")];
  }

  lemma PairText(a: Factor, b: Factor)
    ensures ClauseText(Or([And([a, b])])) == FactorText(a) + " AND " + FactorText(b)
  {
    assert [a, b][1..] == [b];
    assert FactorTexts([b]) == [FactorText(b)];
    assert FactorTexts([a, b]) == [FactorText(a), FactorText(b)];
    assert TermTexts([And([a, b])]) == [Join([FactorText(a), FactorText(b)], " AND ")];
    assert [FactorText(a), FactorText(b)][1..] == [FactorText(b)];
  }

  method BuildCondition(c: Condition, bindOffset: nat, binds: BindBuffer) returns (text: string)
    modifies binds
    ensures var (f, more) := CompileCondition(c, bindOffset + |old(binds.items)| + 1);
      text == FactorText(f) && binds.items == old(binds.items) + more
  {
    hide ExprText, ColumnText, TestText;
    var e := TargetExpr(c.target);
    if IsList(c.target) {
      text := BuildArrayCondition(c, e, bindOffset, binds);
      return;
    }
    var i := bindOffset + |binds.items| + 1;
    match c.op {
      case Eq =>
        if c.value.AsBool().Some? {
          binds.Push(BoolBind(c.value.AsBool().value));
        } else if c.value.AsI64().Some? {
          binds.Push(IntBind(c.value.AsI64().value));
        } else {
          binds.Push(TextBind(ScalarText(c)));
        }
        text := TestText(Compare(e, EQ, i));
      case Neq =>
        if c.value.AsI64().Some? {
          binds.Push(IntBind(c.value.AsI64().value));
          text := TestText(Compare(e, NE, i));
        } else {
          binds.Push(TextBind(ScalarText(c)));
          text := TestText(IsDistinctFrom(e, i));
        }
      case Between =>
        binds.Push(IntBind(ScalarInt(c)));
        var ib := bindOffset + |binds.items| + 1;
        binds.Push(IntBind(EndInt(c)));
        text := "(" + (TestText(Compare(e, GE, i)) + " AND " + TestText(Compare(e, LE, ib))) + ")";
        PairText(Atom(Compare(e, GE, i)), Atom(Compare(e, LE, ib)));
      case Contains =>
        binds.Push(TextBind(ContainsPattern(ScalarText(c))));
        text := TestText(LikePattern(e, i));
      case Regex =>
        binds.Push(TextBind(ScalarText(c)));
        text := TestText(RegexPattern(e, i));
      case In =>
        var arr := c.value.Strings();
        if arr == [] {
          return "FALSE";
        }
        binds.Push(TextArrayBind(arr));
        text := TestText(EqualsAny(e, i));
      case NotIn =>
        var arr := c.value.Strings();
        if arr == [] {
          return "TRUE";
        }
        binds.Push(TextArrayBind(arr));
        text := "(" + (TestText(IsNotNull(e)) + " AND " + TestText(DiffersFromAll(e, i))) + ")";
        PairText(Atom(IsNotNull(e)), Atom(DiffersFromAll(e, i)));
      case _ =>
        binds.Push(IntBind(ScalarInt(c)));
        text := TestText(Compare(e, CompareOpOf(c.op), i));
    }
  }

  method BuildArrayCondition(c: Condition, e: Expr, bindOffset: nat, binds: BindBuffer) returns (text: string)
    modifies binds
    ensures var (f, more) := CompileArrayCondition(c, e, bindOffset + |old(binds.items)| + 1);
      text == FactorText(f) && binds.items == old(binds.items) + more
  {
    var i := bindOffset + |binds.items| + 1;
    match c.op {
      case Eq =>
        binds.Push(TextBind(ScalarText(c)));
        text := "(" + TestText(ArrayHolds(e, i)) + ")";
        LoneText(Atom(ArrayHolds(e, i)));
      case Neq =>
        binds.Push(TextBind(ScalarText(c)));
        text := "NOT " + ("(" + TestText(ArrayHolds(e, i)) + ")");
        LoneText(Atom(ArrayHolds(e, i)));
      case Contains =>
        binds.Push(TextBind(ContainsPattern(ScalarText(c))));
        text := TestText(SomeLike(e, i));
      case Regex =>
        binds.Push(TextBind(ScalarText(c)));
        text := TestText(SomeRegex(e, i));
      case In =>
        var arr := c.value.Strings();
        if arr == [] {
          return "FALSE";
        }
        binds.Push(TextArrayBind(arr));
        text := "(" + TestText(ArrayOverlaps(e, i)) + ")";
        LoneText(Atom(ArrayOverlaps(e, i)));
      case NotIn =>
        var arr := c.value.Strings();
        if arr == [] {
          return "TRUE";
        }
        binds.Push(TextArrayBind(arr));
        text := "NOT " + ("(" + TestText(ArrayOverlaps(e, i)) + ")");
        LoneText(Atom(ArrayOverlaps(e, i)));
      case _ =>
        text := "FALSE";
    }
  }

  /** How one group is spelled, in front of the spelling of those that follow. */
  lemma GroupText(cs: seq<Condition>, first: nat, ts: seq<Term>)
    ensures var t := CompileGroup(cs, first).0;
      TermTexts([t] + ts) ==
        [if cs == [] then "FALSE" else "(" + Join(FactorTexts(CompileConditions(cs, first).0), " AND ") + ")"]
        + TermTexts(ts)
  {
    hide ExprText, ColumnText, TestText, CompileCondition, CompileConditions;
    var t := CompileGroup(cs, first).0;
    assert ([t] + ts)[1..] == ts;
    LoneText(t.factors[0]);
    assert ClauseText(Lone(t.factors[0])) == Join(TermTexts([t]), " OR ") == Join(FactorTexts(t.factors), " AND ");
    if cs != [] {
      var inner := CompileConditions(cs, first).0;
      assert TermTexts([And(inner)]) == [Join(FactorTexts(inner), " AND ")];
    }
  }

  /** One turn of the loop over groups: what the remaining groups contribute, and what is left after the next. */
  lemma NextGroup(gs: seq<seq<Condition>>, gi: nat, first: nat)
    requires gi < |gs|
    ensures var (ts, more) := CompileGroups(gs[gi..], first);
      var binds := if gs[gi] == [] then [] else CompileConditions(gs[gi], first).1;
      var (rest, others) := CompileGroups(gs[gi + 1..], first + |binds|);
      && more == binds + others
      && TermTexts(ts) ==
        [if gs[gi] == [] then "FALSE" else "(" + Join(FactorTexts(CompileConditions(gs[gi], first).0), " AND ") + ")"]
        + TermTexts(rest)
  {
    hide CompileCondition, CompileConditions, TermTexts, FactorTexts;
    assert gs[gi..][1..] == gs[gi + 1..];
    GroupText(gs[gi], first, CompileGroups(gs[gi + 1..], first + |CompileGroup(gs[gi], first).1|).0);
  }

  /** The three shapes of a whole clause. */
  lemma WholeText(b: bool, terms: seq<Term>)
    ensures ClauseText(Lone(Truth(b))) == if b then "TRUE" else "FALSE"
    ensures ClauseText(Lone(Parens(Or(terms)))) == "(" + Join(TermTexts(terms), " OR ") + ")"
    ensures TermTexts([]) == [] && forall first :: CompileGroups([], first) == ([], [])
  {
    LoneText(Truth(b));
    LoneText(Parens(Or(terms)));
  }

  lemma Regroup<T>(a: seq<T>, b: seq<T>, c: seq<T>)
    ensures a + (b + c) == (a + b) + c
  {
  }

  method BuildRuleWhere(tree: RuleTree, bindOffset: nat) returns (text: string, binds: seq<Bind>)
    ensures text == ClauseText(CompileTree(tree, bindOffset).0)
    ensures ReadClause(text) == Some(CompileTree(tree, bindOffset).0)
    ensures binds == CompileTree(tree, bindOffset).1
  {
    ReadsBack(tree, bindOffset);
    hide ExprText, ColumnText, TestText, CompileCondition, CompileConditions, CompileGroup, CompileGroups;
    hide TermTexts, FactorTexts, FactorText, ClauseText, Join, ReadClause;
    if tree.grantOnAny {
      WholeText(true, []);
      return "TRUE", [];
    }
    if tree.groups == [] {
      WholeText(false, []);
      return "FALSE", [];
    }
    var buffer := new BindBuffer();
    var groupClauses: seq<string> := [];
    ghost var (terms, all) := CompileGroups(tree.groups, bindOffset + 1);
    for gi := 0 to |tree.groups|
      invariant var (ts, more) := CompileGroups(tree.groups[gi..], bindOffset + |buffer.items| + 1);
        TermTexts(terms) == groupClauses + TermTexts(ts) && all == buffer.items + more
    {
      var group := tree.groups[gi];
      ghost var first := bindOffset + |buffer.items| + 1;
      NextGroup(tree.groups, gi, first);
      ghost var more := if group == [] then [] else CompileConditions(group, first).1;
      ghost var (rest, others) := CompileGroups(tree.groups[gi + 1..], first + |more|);
      Regroup(buffer.items, more, others);
      if group == [] {
        Regroup(groupClauses, ["FALSE"], TermTexts(rest));
        groupClauses := groupClauses + ["FALSE"];
        continue;
      }
      var condClauses := BuildGroup(group, bindOffset, buffer);
      Regroup(groupClauses, ["(" + Join(condClauses, " AND ") + ")"], TermTexts(rest));
      groupClauses := groupClauses + ["(" + Join(condClauses, " AND ") + ")"];
    }
    text := "(" + Join(groupClauses, " OR ") + ")";
    binds := buffer.items;
    WholeText(true, terms);
    assert tree.groups[|tree.groups|..] == [];
    assert groupClauses + [] == groupClauses;
  }

  /** The inner loop: one conjunct per condition. */
  method BuildGroup(group: seq<Condition>, bindOffset: nat, buffer: BindBuffer) returns (condClauses: seq<string>)
    modifies buffer
    ensures var (fs, more) := CompileConditions(group, bindOffset + |old(buffer.items)| + 1);
      condClauses == FactorTexts(fs) && buffer.items == old(buffer.items) + more
  {
    hide ExprText, ColumnText, TestText, CompileCondition, FactorText;
    condClauses := [];
    ghost var (factors, all) := CompileConditions(group, bindOffset + |buffer.items| + 1);
    for k := 0 to |group|
      invariant var (fs, more) := CompileConditions(group[k..], bindOffset + |buffer.items| + 1);
        FactorTexts(factors) == condClauses + FactorTexts(fs) && old(buffer.items) + all == buffer.items + more
    {
      assert group[k..][1..] == group[k + 1..];
      var text := BuildCondition(group[k], bindOffset, buffer);
      condClauses := condClauses + [text];
    }
  }
}
