/** The text of a compiled rule, read by the database, is the clause that was meant. */
module RuleReads {
  import opened Rule
  import opened SqlClause
  import opened RuleSql
  import opened SqlReader
  import opened SqlSpelling
  import opened Text

  lemma TargetSpoken(t: Target)
    ensures Spoken(TargetExpr(t))
  {
  }

  lemma ConditionSpoken(c: Condition, first: nat)
    ensures FactorSpoken(CompileCondition(c, first).0)
  {
    hide TargetExpr, Spoken;
    TargetSpoken(c.target);
    if IsList(c.target) {
      ArrayConditionSpoken(c, first);
    } else {
      var f := CompileCondition(c, first).0;
      if f.Parens? {
        LoneOrPairSpoken(f.c);
      }
    }
  }

  lemma ArrayConditionSpoken(c: Condition, first: nat)
    requires IsList(c.target)
    ensures FactorSpoken(CompileCondition(c, first).0)
  {
    hide TargetExpr, Spoken;
    TargetSpoken(c.target);
    var f := CompileCondition(c, first).0;
    if f.Parens? {
      LoneOrPairSpoken(f.c);
    } else if f.Not? {
      LoneOrPairSpoken(f.f.c);
      assert FactorSpoken(f.f) == TermsSpoken(f.f.c.terms);
    }
  }

  lemma LoneOrPairSpoken(c: Clause)
    requires |c.terms| == 1 && 1 <= |c.terms[0].factors| <= 2
    ensures TermsSpoken(c.terms) <==>
      FactorSpoken(c.terms[0].factors[0])
      && (|c.terms[0].factors| == 2 ==> FactorSpoken(c.terms[0].factors[1]))
  {
    var fs := c.terms[0].factors;
    if |fs| == 2 {
      assert fs[1..] == [fs[1]];
      assert FactorsSpoken([fs[1]]) <==> FactorSpoken(fs[1]);
    }
    assert TermsSpoken(c.terms) <==> FactorsSpoken(fs);
  }

  lemma {:induction false} ConditionsSpoken(cs: seq<Condition>, first: nat)
    requires cs != []
    ensures FactorsSpoken(CompileConditions(cs, first).0)
  {
    hide CompileCondition;
    var (f, binds) := CompileCondition(cs[0], first);
    var (fs, _) := CompileConditions(cs[1..], first + |binds|);
    ConditionSpoken(cs[0], first);
    assert ([f] + fs)[1..] == fs;
    if |cs| > 1 {
      ConditionsSpoken(cs[1..], first + |binds|);
    }
  }

  lemma {:induction false} GroupsSpoken(gs: seq<seq<Condition>>, first: nat)
    requires gs != []
    ensures TermsSpoken(CompileGroups(gs, first).0)
  {
    hide CompileConditions;
    var (t, binds) := CompileGroup(gs[0], first);
    var (ts, _) := CompileGroups(gs[1..], first + |binds|);
    if gs[0] != [] {
      ConditionsSpoken(gs[0], first);
      assert TermsSpoken([And(CompileConditions(gs[0], first).0)]);
    }
    assert FactorsSpoken(t.factors);
    assert ([t] + ts)[1..] == ts;
    if |gs| > 1 {
      GroupsSpoken(gs[1..], first + |binds|);
    }
  }

  /** Cut into lexemes and read by SQL's precedence rules, the text of a compiled rule is exactly the tree compiled. */
  lemma {:induction false} ReadsBack(tree: RuleTree, offset: nat)
    ensures var clause := CompileTree(tree, offset).0;
      ReadClause(ClauseText(clause)) == Some(clause)
  {
    hide CompileGroups, ReadClause, ClauseText;
    var clause := CompileTree(tree, offset).0;
    LoneOrPairSpoken(clause);
    if !tree.grantOnAny && tree.groups != [] {
      GroupsSpoken(tree.groups, offset + 1);
    }
    ReadBack(clause);
  }
}
