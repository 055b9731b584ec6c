/** What is printed is what is read: the text of every clause over rule targets reads back as exactly that clause. */
module SqlSpelling {
  import opened Text
  import opened Schema
  import opened SqlClause
  import opened SqlReader

  // ---- text, piece by piece from the right ----

  function Head(s: string): CharClass {
    if s == "" then Blank else ClassOf(s[0])
  }

  predicate IsWord(w: string) {
    w != "" && AllOf(w, WordChar)
  }

  predicate IsOp(w: string) {
    w != "" && AllOf(w, OpChar)
  }

  lemma PutBlank(rest: string) returns (s: string)
    ensures s == " " + rest && Head(s) == Blank && Lex(s) == Lex(rest)
  {
    s := " " + rest;
    assert s[1..] == rest;
  }

  lemma PutSingle(c: char, rest: string) returns (s: string)
    requires c in "()[],"
    ensures s == [c] + rest && Head(s) == Single && Lex(s) == [[c]] + Lex(rest)
  {
    s := [c] + rest;
    assert s[1..] == rest;
  }

  lemma PutWord(w: string, rest: string) returns (s: string)
    requires IsWord(w) && Head(rest) != WordChar
    ensures s == w + rest && Head(s) == WordChar && Lex(s) == [w] + Lex(rest)
  {
    s := w + rest;
    assert w[0] in w && w[|w| - 1] in w;
    LexRun(w, WordChar);
    LexConcat(w, rest);
  }

  lemma PutOp(w: string, rest: string) returns (s: string)
    requires IsOp(w) && Head(rest) != OpChar
    ensures s == w + rest && Head(s) == OpChar && Lex(s) == [w] + Lex(rest)
  {
    s := w + rest;
    assert w[0] in w && w[|w| - 1] in w;
    LexRun(w, OpChar);
    LexConcat(w, rest);
  }

  /** Text of any kind in front of a blank or a lone character. */
  lemma PutText(x: string, rest: string) returns (s: string)
    requires Head(rest) == Blank || Head(rest) == Single
    ensures s == x + rest && Lex(s) == Lex(x) + Lex(rest)
  {
    s := x + rest;
    LexConcat(x, rest);
  }

  lemma LexEmpty()
    ensures Lex("") == [] && Head("") == Blank
  {
  }

  lemma ExprKeywords()
    ensures IsWord("COALESCE") && IsWord("array_length") && IsWord("FLOOR") && IsWord("EXTRACT") && IsWord("EPOCH")
    ensures IsWord("FROM") && IsWord("now")
  {
  }

  lemma Constants()
    ensures IsWord("false") && IsWord("0") && IsWord("1") && IsWord("86400")
  {
  }

  lemma Operators()
    ensures IsOp("=") && IsOp("<>") && IsOp(">") && IsOp(">=") && IsOp("<") && IsOp("<=") && IsOp("~") && IsOp("@>")
    ensures IsOp("&&") && IsOp("::") && IsOp("+") && IsOp("-") && IsOp("/")
  {
  }

  // ---- columns ----

  lemma ProfileWordsA(c: Column)
    requires c in {OuIsSupporter, OuIsActive}
    ensures AllOf(ColumnText(c), WordChar)
  {
  }

  lemma ProfileWordsB(c: Column)
    requires c in {OuIsRestricted, OuJoinedAt, OuLastVisitAt}
    ensures AllOf(ColumnText(c), WordChar)
  {
  }

  lemma ProfileRead(c: Column)
    requires c in {OuIsSupporter, OuIsActive, OuIsRestricted, OuJoinedAt, OuLastVisitAt}
    ensures ReadColumn(ColumnText(c)) == Some(c)
  {
  }

  lemma CountWordsA(c: Column)
    requires c in {OuBadgeCount, OuFollowerCount}
    ensures AllOf(ColumnText(c), WordChar)
  {
  }

  lemma CountWordsB(c: Column)
    requires c in {OuMappingFollowers, OuKudosuTotal, OuRankedBeatmaps}
    ensures AllOf(ColumnText(c), WordChar)
  {
  }

  lemma CountRead(c: Column)
    requires c in {OuBadgeCount, OuFollowerCount, OuMappingFollowers, OuKudosuTotal, OuRankedBeatmaps}
    ensures ReadColumn(ColumnText(c)) == Some(c)
  {
  }

  lemma BeatmapWordsA(c: Column)
    requires c in {OuLovedBeatmaps, OuMappingPlaycount}
    ensures AllOf(ColumnText(c), WordChar)
  {
  }

  lemma BeatmapWordsB(c: Column)
    requires c in {OuReplaysWatchedOthers, OuCountryCode}
    ensures AllOf(ColumnText(c), WordChar)
  {
  }

  lemma FavouriteWord()
    ensures AllOf(ColumnText(OuFavouriteBeatmapsets), WordChar)
  {
    assert AllOf("ou.favourite_", WordChar);
    assert AllOf("beatmapsets", WordChar);
    hide ClassOf;
    assert ColumnText(OuFavouriteBeatmapsets) == "ou.favourite_" + "beatmapsets";
  }

  lemma BeatmapRead(c: Column)
    requires c in {OuLovedBeatmaps, OuMappingPlaycount, OuReplaysWatchedOthers, OuFavouriteBeatmapsets, OuCountryCode}
    ensures ReadColumn(ColumnText(c)) == Some(c)
  {
  }

  lemma TextWords(c: Column)
    requires c in {OuOsuUsername, OuGroups, OuPlaystyles}
    ensures AllOf(ColumnText(c), WordChar)
  {
  }

  lemma TextRead(c: Column)
    requires c in {OuOsuUsername, OuGroups, OuPlaystyles}
    ensures ReadColumn(ColumnText(c)) == Some(c)
  {
  }

  lemma RankWordsA(c: Column)
    requires c in {OsGlobalRank, OsCountryRank}
    ensures AllOf(ColumnText(c), WordChar)
  {
  }

  lemma RankWordsB(c: Column)
    requires c in {OsPerformancePoints, OsPlayCount}
    ensures AllOf(ColumnText(c), WordChar)
  {
  }

  lemma RankRead(c: Column)
    requires c in {OsGlobalRank, OsCountryRank, OsPerformancePoints, OsPlayCount}
    ensures ReadColumn(ColumnText(c)) == Some(c)
  {
  }

  lemma ScoreWordsA(c: Column)
    requires c in {OsPlayTimeHours, OsTotalScore}
    ensures AllOf(ColumnText(c), WordChar)
  {
  }

  lemma ScoreWordsB(c: Column)
    requires c in {OsRankedScore, OsHitAccuracy}
    ensures AllOf(ColumnText(c), WordChar)
  {
  }

  lemma ScoreRead(c: Column)
    requires c in {OsPlayTimeHours, OsTotalScore, OsRankedScore, OsHitAccuracy}
    ensures ReadColumn(ColumnText(c)) == Some(c)
  {
  }

  lemma SkillWordsA(c: Column)
    requires c in {OsMaxCombo, OsLevelInt}
    ensures AllOf(ColumnText(c), WordChar)
  {
  }

  lemma SkillWordsB(c: Column)
    requires c in {OsCountSs, OsCountSsSilver}
    ensures AllOf(ColumnText(c), WordChar)
  {
  }

  lemma SkillRead(c: Column)
    requires c in {OsMaxCombo, OsLevelInt, OsCountSs, OsCountSsSilver}
    ensures ReadColumn(ColumnText(c)) == Some(c)
  {
  }

  lemma GradeWords(c: Column)
    requires c in {OsCountS, OsCountSSilver, OsCountA}
    ensures AllOf(ColumnText(c), WordChar)
  {
  }

  lemma GradeRead(c: Column)
    requires c in {OsCountS, OsCountSSilver, OsCountA}
    ensures ReadColumn(ColumnText(c)) == Some(c)
  {
  }

  lemma ColumnBack(c: Column)
    ensures Lex(ColumnText(c)) == [ColumnText(c)] && ReadColumn(ColumnText(c)) == Some(c)
    ensures |ColumnText(c)| > 1 && ColumnText(c)[0] == 'o' && AllOf(ColumnText(c), WordChar)
  {
    hide AllOf, ReadColumn, ClassOf, Lex;
    match c
    case OuIsSupporter | OuIsActive =>
      ProfileWordsA(c);
      ProfileRead(c);
      LexRun(ColumnText(c), WordChar);
    case OuIsRestricted | OuJoinedAt | OuLastVisitAt =>
      ProfileWordsB(c);
      ProfileRead(c);
      LexRun(ColumnText(c), WordChar);
    case OuBadgeCount | OuFollowerCount =>
      CountWordsA(c);
      CountRead(c);
      LexRun(ColumnText(c), WordChar);
    case OuMappingFollowers | OuKudosuTotal | OuRankedBeatmaps =>
      CountWordsB(c);
      CountRead(c);
      LexRun(ColumnText(c), WordChar);
    case OuLovedBeatmaps | OuMappingPlaycount =>
      BeatmapWordsA(c);
      BeatmapRead(c);
      LexRun(ColumnText(c), WordChar);
    case OuFavouriteBeatmapsets =>
      FavouriteWord();
      BeatmapRead(c);
      LexRun(ColumnText(c), WordChar);
    case OuReplaysWatchedOthers | OuCountryCode =>
      BeatmapWordsB(c);
      BeatmapRead(c);
      LexRun(ColumnText(c), WordChar);
    case OuOsuUsername | OuGroups | OuPlaystyles =>
      TextWords(c);
      TextRead(c);
      LexRun(ColumnText(c), WordChar);
    case OsGlobalRank | OsCountryRank =>
      RankWordsA(c);
      RankRead(c);
      LexRun(ColumnText(c), WordChar);
    case OsPerformancePoints | OsPlayCount =>
      RankWordsB(c);
      RankRead(c);
      LexRun(ColumnText(c), WordChar);
    case OsPlayTimeHours | OsTotalScore =>
      ScoreWordsA(c);
      ScoreRead(c);
      LexRun(ColumnText(c), WordChar);
    case OsRankedScore | OsHitAccuracy =>
      ScoreWordsB(c);
      ScoreRead(c);
      LexRun(ColumnText(c), WordChar);
    case OsMaxCombo | OsLevelInt =>
      SkillWordsA(c);
      SkillRead(c);
      LexRun(ColumnText(c), WordChar);
    case OsCountSs | OsCountSsSilver =>
      SkillWordsB(c);
      SkillRead(c);
      LexRun(ColumnText(c), WordChar);
    case OsCountS | OsCountSSilver | OsCountA =>
      GradeWords(c);
      GradeRead(c);
      LexRun(ColumnText(c), WordChar);
  }

  // ---- expressions ----

  /** The expressions rules use: sums of columns, zero or false for NULL. */
  predicate Spoken(e: Expr) {
    match e
    case Col(_) => true
    case Coalesce(e1, fallback) => Spoken(e1) && (fallback == BoolV(false) || fallback == IntV(0))
    case Plus(a, b) => a.Col? && b.Col?
    case Positive(e1) => Spoken(e1)
    case ArrayLength(e1) => Spoken(e1)
    case DaysSince(e1) => Spoken(e1)
  }

  lemma CoalesceText(x: string, word: string)
    ensures "COALESCE" + (['('] + (x + ([','] + (" " + (word + ([')'] + "")))))) == "COALESCE(" + x + ", " + word + ")"
  {
  }

  lemma CoalesceLexemes(e: Expr, word: string)
    requires word == "false" || word == "0"
    ensures var e' := Coalesce(e, if word == "false" then BoolV(false) else IntV(0));
      Lex(ExprText(e')) == ["COALESCE", "("] + Lex(ExprText(e)) + [",", word, ")"]
  {
    hide Lex, IsWord, IsOp, ClassOf, Head;
    LexEmpty();
    ExprKeywords();
    Constants();
    Operators();
    var s := PutSingle(')', "");
    s := PutWord(word, s);
    s := PutBlank(s);
    s := PutSingle(',', s);
    s := PutText(ExprText(e), s);
    s := PutSingle('(', s);
    s := PutWord("COALESCE", s);
    CoalesceText(ExprText(e), word);
  }

  lemma PlusText(x: string, y: string)
    ensures x + (" " + ("+" + (" " + y))) == x + " + " + y
  {
  }

  lemma PlusLexemes(a: Column, b: Column)
    ensures Lex(ExprText(Plus(Col(a), Col(b)))) == [ColumnText(a), "+", ColumnText(b)]
  {
    hide Lex, IsOp, ClassOf, AllOf, ColumnText, ReadColumn;
    Operators();
    ColumnBack(a);
    ColumnBack(b);
    var s := PutBlank(ColumnText(b));
    s := PutOp("+", s);
    s := PutBlank(s);
    s := PutText(ColumnText(a), s);
    PlusText(ColumnText(a), ColumnText(b));
  }

  lemma PositiveText(x: string)
    ensures ['('] + (x + (" " + (">" + (" " + ("0" + ([')'] + "")))))) == "(" + x + " > 0)"
  {
  }

  lemma PositiveLexemes(e: Expr)
    ensures Lex(ExprText(Positive(e))) == ["("] + Lex(ExprText(e)) + [">", "0", ")"]
  {
    hide Lex, IsWord, IsOp, ClassOf, Head;
    LexEmpty();
    ExprKeywords();
    Constants();
    Operators();
    var s := PutSingle(')', "");
    s := PutWord("0", s);
    s := PutBlank(s);
    s := PutOp(">", s);
    s := PutBlank(s);
    s := PutText(ExprText(e), s);
    s := PutSingle('(', s);
    PositiveText(ExprText(e));
  }

  lemma ArrayLengthText(x: string)
    ensures "array_length" + (['('] + (x + ([','] + (" " + ("1" + ([')'] + "")))))) == "array_length(" + x + ", 1)"
  {
  }

  lemma ArrayLengthLexemes(e: Expr)
    ensures Lex(ExprText(ArrayLength(e))) == ["array_length", "("] + Lex(ExprText(e)) + [",", "1", ")"]
  {
    hide Lex, IsWord, IsOp, ClassOf, Head;
    LexEmpty();
    ExprKeywords();
    Constants();
    Operators();
    var s := PutSingle(')', "");
    s := PutWord("1", s);
    s := PutBlank(s);
    s := PutSingle(',', s);
    s := PutText(ExprText(e), s);
    s := PutSingle('(', s);
    s := PutWord("array_length", s);
    ArrayLengthText(ExprText(e));
  }

  const EPOCH_OF := ["FLOOR", "(", "EXTRACT", "(", "EPOCH", "FROM", "(", "now", "(", ")", "-"]
  const IN_DAYS := [")", ")", "/", "86400", ")"]

  lemma InDaysLexemes() returns (s: string)
    ensures s == ")) / 86400)" && Head(s) == Single && Lex(s) == IN_DAYS
  {
    hide Lex, IsWord, IsOp, ClassOf, Head;
    LexEmpty();
    ExprKeywords();
    Constants();
    Operators();
    s := PutSingle(')', "");
    s := PutWord("86400", s);
    s := PutBlank(s);
    s := PutOp("/", s);
    s := PutBlank(s);
    s := PutSingle(')', s);
    s := PutSingle(')', s);
  }

  lemma EpochText(x: string)
    ensures "FLOOR" + (['('] + ("EXTRACT" + (['('] + ("EPOCH" + (" " + ("FROM" + (" " + (['('] + ("now" + (['(']
              + ([')'] + (" " + ("-" + (" " + x))))))))))))))
         == "FLOOR(EXTRACT(EPOCH FROM (now() - " + x
  {
  }

  lemma EpochLexemes(x: string)
    ensures Lex("FLOOR(EXTRACT(EPOCH FROM (now() - " + x) == EPOCH_OF + Lex(x)
  {
    hide Lex, IsWord, IsOp, ClassOf, Head;
    LexEmpty();
    ExprKeywords();
    Constants();
    Operators();
    var s := PutBlank(x);
    s := PutOp("-", s);
    s := PutBlank(s);
    s := PutSingle(')', s);
    s := PutSingle('(', s);
    s := PutWord("now", s);
    s := PutSingle('(', s);
    s := PutBlank(s);
    s := PutWord("FROM", s);
    s := PutBlank(s);
    s := PutWord("EPOCH", s);
    s := PutSingle('(', s);
    s := PutWord("EXTRACT", s);
    s := PutSingle('(', s);
    s := PutWord("FLOOR", s);
    EpochText(x);
  }

  lemma DaysSinceLexemes(e: Expr)
    ensures Lex(ExprText(DaysSince(e))) == EPOCH_OF + Lex(ExprText(e)) + IN_DAYS
  {
    hide Lex, IsWord, IsOp, ClassOf, Head;
    LexEmpty();
    ExprKeywords();
    Constants();
    Operators();
    var s := InDaysLexemes();
    s := PutText(ExprText(e), s);
    EpochLexemes(s);
    assert "FLOOR(EXTRACT(EPOCH FROM (now() - " + s == ExprText(DaysSince(e));
  }

  /** An expression does not start like a truth value, a negation or a subquery. */
  predicate StartsExpr(w: string) {
    w in {"(", "COALESCE", "array_length", "FLOOR"} || (|w| > 1 && w[0] == 'o')
  }

  lemma {:induction false} ExprBack(e: Expr, rest: seq<string>)
    requires Spoken(e) && (rest == [] || rest[0] != "+")
    ensures ReadExpr(Lex(ExprText(e)) + rest) == Some((e, rest))
    decreases e, 1
  {
    hide Lex, ReadExpr, ReadPrimary, ExprText;
    if e.Plus? {
      PlusLexemes(e.left.c, e.right.c);
      PlusBack(e.left.c, e.right.c, rest);
    } else {
      PrimaryBack(e, rest);
      PrimaryIsExpr(Lex(ExprText(e)) + rest, e, rest);
    }
  }

  lemma {:induction false} PrimaryBack(e: Expr, rest: seq<string>)
    requires Spoken(e) && !e.Plus?
    ensures ReadPrimary(Lex(ExprText(e)) + rest) == Some((e, rest))
    decreases e, 0
  {
    hide Lex, ReadExpr, ReadPrimary, ColumnText;
    match e
    case Col(c) => ColBack(c, rest);
    case Coalesce(e1, fallback) =>
      var word := if fallback == BoolV(false) then "false" else "0";
      ExprBack(e1, [",", word, ")"] + rest);
      CoalesceBack(e1, word, rest);
    case Positive(e1) =>
      ExprBack(e1, [">", "0", ")"] + rest);
      PositiveBack(e1, rest);
    case ArrayLength(e1) =>
      ExprBack(e1, [",", "1", ")"] + rest);
      ArrayLengthBack(e1, rest);
    case DaysSince(e1) =>
      ExprBack(e1, IN_DAYS + rest);
      DaysSinceBack(e1, rest);
  }

  lemma PrimaryIsExpr(ls: seq<string>, e: Expr, rest: seq<string>)
    requires ReadPrimary(ls) == Some((e, rest)) && (rest == [] || rest[0] != "+")
    ensures ReadExpr(ls) == Some((e, rest))
  {
    hide ReadPrimary;
  }

  lemma PlusBack(a: Column, b: Column, rest: seq<string>)
    ensures ReadExpr([ColumnText(a), "+", ColumnText(b)] + rest) == Some((Plus(Col(a), Col(b)), rest))
  {
    hide ReadPrimary, ColumnText, Lex;
    var ls := [ColumnText(a), "+", ColumnText(b)] + rest;
    ColBack(a, ["+", ColumnText(b)] + rest);
    ColBack(b, rest);
    assert ls == [ColumnText(a)] + (["+", ColumnText(b)] + rest);
    assert (["+", ColumnText(b)] + rest)[1..] == [ColumnText(b)] + rest;
  }

  lemma LexemesStart(e: Expr)
    requires Spoken(e)
    ensures Lex(ExprText(e)) != [] && StartsExpr(Lex(ExprText(e))[0])
  {
    hide Lex, ColumnText;
    match e
    case Col(c) => ColBack(c, []);
    case Coalesce(e1, fallback) => CoalesceLexemes(e1, if fallback == BoolV(false) then "false" else "0");
    case Plus(a, b) =>
      PlusLexemes(a.c, b.c);
      ColBack(a.c, []);
    case Positive(e1) => PositiveLexemes(e1);
    case ArrayLength(e1) => ArrayLengthLexemes(e1);
    case DaysSince(e1) => DaysSinceLexemes(e1);
  }

  lemma ColBack(c: Column, rest: seq<string>)
    ensures Lex(ColumnText(c)) == [ColumnText(c)] && StartsExpr(ColumnText(c))
    ensures ReadPrimary([ColumnText(c)] + rest) == Some((Col(c), rest))
  {
    hide Lex, ReadColumn, AllOf;
    ColumnBack(c);
    var ls := [ColumnText(c)] + rest;
    assert ls[0] == ColumnText(c) && ls[1..] == rest;
    assert ls[0][0] == 'o' && "("[0] != 'o' && "COALESCE"[0] != 'o' && "array_length"[0] != 'o' && "FLOOR"[0] != 'o';
  }

  lemma CoalesceBack(e: Expr, word: string, rest: seq<string>)
    requires word == "false" || word == "0"
    requires ReadExpr(Lex(ExprText(e)) + ([",", word, ")"] + rest)) == Some((e, [",", word, ")"] + rest))
    ensures var e' := Coalesce(e, if word == "false" then BoolV(false) else IntV(0));
      ReadPrimary(Lex(ExprText(e')) + rest) == Some((e', rest))
  {
    hide Lex, ReadExpr, ReadColumn, ExprText;
    CoalesceLexemes(e, word);
    var ls := ["COALESCE", "("] + Lex(ExprText(e)) + [",", word, ")"] + rest;
    var after := [",", word, ")"] + rest;
    assert ls[2..] == Lex(ExprText(e)) + after;
    assert after[3..] == rest;
    assert ReadConstant(word) == Some(if word == "false" then BoolV(false) else IntV(0)) by {
      assert "0"[..0] == "" && NatValue("0") == 0;
    }
  }

  lemma PositiveBack(e: Expr, rest: seq<string>)
    requires ReadExpr(Lex(ExprText(e)) + ([">", "0", ")"] + rest)) == Some((e, [">", "0", ")"] + rest))
    ensures ReadPrimary(Lex(ExprText(Positive(e))) + rest) == Some((Positive(e), rest))
  {
    hide Lex, ReadExpr, ReadColumn, ExprText;
    PositiveLexemes(e);
    var ls := ["("] + Lex(ExprText(e)) + [">", "0", ")"] + rest;
    var after := [">", "0", ")"] + rest;
    assert ls[1..] == Lex(ExprText(e)) + after;
    assert after[3..] == rest;
  }

  lemma ArrayLengthBack(e: Expr, rest: seq<string>)
    requires ReadExpr(Lex(ExprText(e)) + ([",", "1", ")"] + rest)) == Some((e, [",", "1", ")"] + rest))
    ensures ReadPrimary(Lex(ExprText(ArrayLength(e))) + rest) == Some((ArrayLength(e), rest))
  {
    hide Lex, ReadExpr, ReadColumn, ExprText;
    ArrayLengthLexemes(e);
    var ls := ["array_length", "("] + Lex(ExprText(e)) + [",", "1", ")"] + rest;
    var after := [",", "1", ")"] + rest;
    assert ls[2..] == Lex(ExprText(e)) + after;
    assert after[3..] == rest;
    assert "array_length"[0] != "COALESCE"[0];
  }

  lemma DaysSinceBack(e: Expr, rest: seq<string>)
    requires ReadExpr(Lex(ExprText(e)) + (IN_DAYS + rest)) == Some((e, IN_DAYS + rest))
    ensures ReadPrimary(Lex(ExprText(DaysSince(e))) + rest) == Some((DaysSince(e), rest))
  {
    hide Lex, ReadExpr, ReadColumn, ExprText;
    DaysSinceLexemes(e);
    var ls := EPOCH_OF + Lex(ExprText(e)) + IN_DAYS + rest;
    assert ls[11..] == Lex(ExprText(e)) + (IN_DAYS + rest);
    assert (IN_DAYS + rest)[5..] == rest;
    assert ls[0] == "FLOOR";
    assert "FLOOR"[0] != "COALESCE"[0] && "FLOOR"[0] != "array_length"[0];
  }

  // ---- tests ----

  function ParamText(p: nat): string {
    "$" + ShowNat(p)
  }

  lemma ParamBack(p: nat)
    ensures IsWord(ParamText(p)) && ReadParam(ParamText(p)) == Some(p)
  {
    var digits := ShowNat(p);
    assert ParamText(p)[1..] == digits;
    forall c | c in ParamText(p)
      ensures ClassOf(c) == WordChar
    {
      assert c == '$' || exists i :: 0 <= i < |digits| && digits[i] == c;
    }
  }

  lemma TestKeywords()
    ensures IsWord("IS") && IsWord("NOT") && IsWord("NULL") && IsWord("DISTINCT") && IsWord("FROM") && IsWord("LIKE")
    ensures IsWord("ANY") && IsWord("ALL") && IsWord("ARRAY") && IsWord("text")
  {
  }

  lemma SubqueryKeywords()
    ensures IsWord("EXISTS") && IsWord("SELECT") && IsWord("1") && IsWord("FROM") && IsWord("unnest") && IsWord("AS")
    ensures IsWord("x") && IsWord("WHERE") && IsWord("LIKE")
  {
  }

  /** The lexemes behind the expression. */
  function Tail(t: Test): seq<string> {
    match t
    case Compare(_, op, p) => [OpText(op), ParamText(p)]
    case IsDistinctFrom(_, p) => ["IS", "DISTINCT", "FROM", ParamText(p)]
    case LikePattern(_, p) => ["LIKE", ParamText(p)]
    case RegexPattern(_, p) => ["~", ParamText(p)]
    case EqualsAny(_, p) => ["=", "ANY", "(", ParamText(p)] + TEXT_LIST + [")"]
    case DiffersFromAll(_, p) => ["<>", "ALL", "(", ParamText(p)] + TEXT_LIST + [")"]
    case IsNotNull(_) => ["IS", "NOT", "NULL"]
    case ArrayHolds(_, p) => ["@>", "ARRAY", "[", ParamText(p), "::", "text", "]"]
    case ArrayOverlaps(_, p) => ["&&", ParamText(p)] + TEXT_LIST
    case SomeLike(_, p) => AS_X + ["LIKE", ParamText(p), ")"]
    case SomeRegex(_, p) => AS_X + ["~", ParamText(p), ")"]
  }

  predicate IsSubquery(t: Test) {
    t.SomeLike? || t.SomeRegex?
  }

  /** The ordering comparisons are printed with their expression in parentheses. */
  predicate IsWrapped(t: Test) {
    t.Compare? && t.op != EQ && t.op != NE
  }

  function Lexemes(t: Test): seq<string> {
    if IsSubquery(t) then UNNEST + Lex(ExprText(t.e)) + Tail(t)
    else if IsWrapped(t) then ["("] + Lex(ExprText(t.e)) + [")"] + Tail(t)
    else Lex(ExprText(t.e)) + Tail(t)
  }

  lemma CompareText(x: string, op: CompareOp, n: string)
    ensures x + (" " + (OpText(op) + (" " + ("$" + n)))) == x + " " + OpText(op) + " $" + n
    ensures ['('] + (x + ([')'] + (" " + (OpText(op) + (" " + ("$" + n))))))
         == "(" + x + ")" + " " + OpText(op) + " $" + n
  {
  }

  lemma CompareLexemes(t: Test)
    requires t.Compare?
    ensures Lex(TestText(t)) == Lexemes(t)
  {
    hide Lex, IsWord, IsOp, ClassOf, Head, ExprText;
    LexEmpty();
    Operators();
    ParamBack(t.p);
    var s := PutWord(ParamText(t.p), "");
    s := PutBlank(s);
    s := PutOp(OpText(t.op), s);
    s := PutBlank(s);
    if IsWrapped(t) {
      s := PutSingle(')', s);
      s := PutText(ExprText(t.e), s);
      s := PutSingle('(', s);
    } else {
      s := PutText(ExprText(t.e), s);
    }
    hide OpText;
    CompareText(ExprText(t.e), t.op, ShowNat(t.p));
    assert s == TestText(t);
    assert Lex(s) == Lexemes(t);
  }

  lemma DistinctText(n: string)
    ensures " " + ("IS" + (" " + ("DISTINCT" + (" " + ("FROM" + (" " + (("$" + n) + "")))))))
         == " IS DISTINCT FROM $" + n
  {
  }

  lemma DistinctTail(p: nat) returns (s: string)
    ensures s == " IS DISTINCT FROM $" + ShowNat(p) && Head(s) == Blank
    ensures Lex(s) == ["IS", "DISTINCT", "FROM", ParamText(p)]
  {
    hide Lex, IsWord, IsOp, ClassOf, Head;
    LexEmpty();
    Operators();
    TestKeywords();
    ParamBack(p);
    s := PutWord(ParamText(p), "");
    s := PutBlank(s);
    s := PutWord("FROM", s);
    s := PutBlank(s);
    s := PutWord("DISTINCT", s);
    s := PutBlank(s);
    s := PutWord("IS", s);
    s := PutBlank(s);
    DistinctText(ShowNat(p));
    assert Lex(s) == ["IS", "DISTINCT", "FROM", ParamText(p)];
  }

  lemma LikeTail(p: nat) returns (s: string)
    ensures s == " LIKE $" + ShowNat(p) && Head(s) == Blank && Lex(s) == ["LIKE", ParamText(p)]
  {
    hide Lex, IsWord, IsOp, ClassOf, Head;
    LexEmpty();
    Operators();
    TestKeywords();
    ParamBack(p);
    s := PutWord(ParamText(p), "");
    s := PutBlank(s);
    s := PutWord("LIKE", s);
    s := PutBlank(s);
    assert s == " LIKE $" + ShowNat(p);
    assert Lex(s) == ["LIKE", ParamText(p)];
  }

  lemma RegexTail(p: nat) returns (s: string)
    ensures s == " ~ $" + ShowNat(p) && Head(s) == Blank && Lex(s) == ["~", ParamText(p)]
  {
    hide Lex, IsWord, IsOp, ClassOf, Head;
    LexEmpty();
    Operators();
    TestKeywords();
    ParamBack(p);
    s := PutWord(ParamText(p), "");
    s := PutBlank(s);
    s := PutOp("~", s);
    s := PutBlank(s);
    assert s == " ~ $" + ShowNat(p);
    assert Lex(s) == ["~", ParamText(p)];
  }

  lemma NotNullTail() returns (s: string)
    ensures s == " IS NOT NULL" && Head(s) == Blank && Lex(s) == ["IS", "NOT", "NULL"]
  {
    hide Lex, IsWord, IsOp, ClassOf, Head;
    LexEmpty();
    TestKeywords();
    s := PutWord("NULL", "");
    s := PutBlank(s);
    s := PutWord("NOT", s);
    s := PutBlank(s);
    s := PutWord("IS", s);
    s := PutBlank(s);
    assert s == " IS NOT NULL";
  }

  lemma ListCast(rest: string) returns (s: string)
    requires Head(rest) != WordChar
    ensures s == "::text[]" + rest && Head(s) == OpChar && Lex(s) == TEXT_LIST + Lex(rest)
  {
    hide Lex, IsWord, IsOp, ClassOf, Head;
    Operators();
    TestKeywords();
    s := PutSingle(']', rest);
    s := PutSingle('[', s);
    s := PutWord("text", s);
    s := PutOp("::", s);
    assert s == "::text[]" + rest;
  }

  lemma AnyText(n: string)
    ensures " " + ("=" + (" " + ("ANY" + (['('] + (("$" + n) + ("::text[]" + ([')'] + "")))))))
         == " = ANY($" + n + "::text[])"
  {
  }

  lemma AnyTail(p: nat) returns (s: string)
    ensures s == " = ANY($" + ShowNat(p) + "::text[])" && Head(s) == Blank
    ensures Lex(s) == ["=", "ANY", "(", ParamText(p)] + TEXT_LIST + [")"]
  {
    hide Lex, IsWord, IsOp, ClassOf, Head;
    LexEmpty();
    Operators();
    TestKeywords();
    ParamBack(p);
    s := PutSingle(')', "");
    s := ListCast(s);
    s := PutWord(ParamText(p), s);
    s := PutSingle('(', s);
    s := PutWord("ANY", s);
    s := PutBlank(s);
    s := PutOp("=", s);
    s := PutBlank(s);
    AnyText(ShowNat(p));
    assert Lex(s) == ["=", "ANY", "(", ParamText(p)] + TEXT_LIST + [")"];
  }

  lemma AllText(n: string)
    ensures " " + ("<>" + (" " + ("ALL" + (['('] + (("$" + n) + ("::text[]" + ([')'] + "")))))))
         == " <> ALL($" + n + "::text[])"
  {
  }

  lemma AllTail(p: nat) returns (s: string)
    ensures s == " <> ALL($" + ShowNat(p) + "::text[])" && Head(s) == Blank
    ensures Lex(s) == ["<>", "ALL", "(", ParamText(p)] + TEXT_LIST + [")"]
  {
    hide Lex, IsWord, IsOp, ClassOf, Head;
    LexEmpty();
    Operators();
    TestKeywords();
    ParamBack(p);
    s := PutSingle(')', "");
    s := ListCast(s);
    s := PutWord(ParamText(p), s);
    s := PutSingle('(', s);
    s := PutWord("ALL", s);
    s := PutBlank(s);
    s := PutOp("<>", s);
    s := PutBlank(s);
    AllText(ShowNat(p));
    assert Lex(s) == ["<>", "ALL", "(", ParamText(p)] + TEXT_LIST + [")"];
  }

  lemma OverlapTail(p: nat) returns (s: string)
    ensures s == " && $" + ShowNat(p) + "::text[]" && Head(s) == Blank && Lex(s) == ["&&", ParamText(p)] + TEXT_LIST
  {
    hide Lex, IsWord, IsOp, ClassOf, Head;
    LexEmpty();
    Operators();
    TestKeywords();
    ParamBack(p);
    s := ListCast("");
    s := PutWord(ParamText(p), s);
    s := PutBlank(s);
    s := PutOp("&&", s);
    s := PutBlank(s);
    assert s == " && $" + ShowNat(p) + "::text[]";
    assert Lex(s) == ["&&", ParamText(p)] + TEXT_LIST;
  }

  lemma HoldsText(n: string)
    ensures " " + ("@>" + (" " + ("ARRAY" + (['['] + (("$" + n) + ("::" + ("text" + ([']'] + ""))))))))
         == " @> ARRAY[$" + n + "::text]"
  {
  }

  lemma HoldsTail(p: nat) returns (s: string)
    ensures s == " @> ARRAY[$" + ShowNat(p) + "::text]" && Head(s) == Blank
    ensures Lex(s) == ["@>", "ARRAY", "[", ParamText(p), "::", "text", "]"]
  {
    hide Lex, IsWord, IsOp, ClassOf, Head;
    LexEmpty();
    Operators();
    TestKeywords();
    ParamBack(p);
    s := PutSingle(']', "");
    s := PutWord("text", s);
    s := PutOp("::", s);
    s := PutWord(ParamText(p), s);
    s := PutSingle('[', s);
    s := PutWord("ARRAY", s);
    s := PutBlank(s);
    s := PutOp("@>", s);
    s := PutBlank(s);
    HoldsText(ShowNat(p));
    assert Lex(s) == ["@>", "ARRAY", "[", ParamText(p), "::", "text", "]"];
  }

  lemma AsXLexemes(rest: string) returns (s: string)
    requires Head(rest) == Blank
    ensures s == ") AS x WHERE x" + rest && Head(s) == Single && Lex(s) == AS_X + Lex(rest)
  {
    hide Lex, IsWord, IsOp, ClassOf, Head;
    SubqueryKeywords();
    s := PutWord("x", rest);
    s := PutBlank(s);
    s := PutWord("WHERE", s);
    s := PutBlank(s);
    s := PutWord("x", s);
    s := PutBlank(s);
    s := PutWord("AS", s);
    s := PutBlank(s);
    s := PutSingle(')', s);
    assert s == ") AS x WHERE x" + rest;
  }

  lemma UnnestText(rest: string)
    ensures "EXISTS" + (" " + (['('] + ("SELECT" + (" " + ("1" + (" " + ("FROM" + (" " + ("unnest"
              + (['('] + rest))))))))))
         == "EXISTS (SELECT 1 FROM unnest(" + rest
  {
  }

  lemma UnnestLexemes(rest: string) returns (s: string)
    ensures s == "EXISTS (SELECT 1 FROM unnest(" + rest && Lex(s) == UNNEST + Lex(rest)
  {
    hide Lex, IsWord, IsOp, ClassOf, Head;
    SubqueryKeywords();
    s := PutSingle('(', rest);
    s := PutWord("unnest", s);
    s := PutBlank(s);
    s := PutWord("FROM", s);
    s := PutBlank(s);
    s := PutWord("1", s);
    s := PutBlank(s);
    s := PutWord("SELECT", s);
    s := PutSingle('(', s);
    s := PutBlank(s);
    s := PutWord("EXISTS", s);
    UnnestText(rest);
  }

  lemma InnerText(like: bool, digits: string)
    ensures " " + ((if like then "LIKE" else "~") + (" " + ("$" + digits + ([')'] + ""))))
         == (if like then " LIKE $" else " ~ $") + digits + ")"
  {
    var ask := if like then "LIKE" else "~";
    assert " " + ask + " $" == if like then " LIKE $" else " ~ $";
  }

  /** What is asked inside the subquery. */
  lemma InnerTail(p: nat, t: Test) returns (s: string)
    requires IsSubquery(t) && t.p == p
    ensures s == (if t.SomeLike? then " LIKE $" else " ~ $") + ShowNat(p) + ")"
    ensures Head(s) == Blank && Lex(s) == [if t.SomeLike? then "LIKE" else "~", ParamText(p), ")"]
  {
    hide Lex, IsWord, IsOp, ClassOf, Head, ShowNat;
    LexEmpty();
    Operators();
    TestKeywords();
    ParamBack(p);
    s := PutSingle(')', "");
    s := PutWord(ParamText(p), s);
    s := PutBlank(s);
    if t.SomeLike? {
      s := PutWord("LIKE", s);
    } else {
      s := PutOp("~", s);
    }
    s := PutBlank(s);
    InnerText(t.SomeLike?, ShowNat(p));
  }

  lemma SubqueryLexemes(t: Test)
    requires IsSubquery(t)
    ensures Lex(TestText(t)) == Lexemes(t)
  {
    hide Lex, IsWord, IsOp, ClassOf, Head, ExprText;
    var inner := InnerTail(t.p, t);
    var s := AsXLexemes(inner);
    s := PutText(ExprText(t.e), s);
    s := UnnestLexemes(s);
    SubqueryText(ExprText(t.e), t, inner);
    assert Lex(s) == Lexemes(t);
  }

  lemma SubqueryText(x: string, t: Test, inner: string)
    requires IsSubquery(t) && x == ExprText(t.e)
    requires inner == (if t.SomeLike? then " LIKE $" else " ~ $") + ShowNat(t.p) + ")"
    ensures TestText(t) == "EXISTS (SELECT 1 FROM unnest(" + (x + (") AS x WHERE x" + inner))
  {
    hide ExprText;
    if t.SomeLike? {
      assert ") AS x WHERE x" + " LIKE $" == ") AS x WHERE x LIKE $";
    } else {
      assert ") AS x WHERE x" + " ~ $" == ") AS x WHERE x ~ $";
    }
  }

  lemma Behind(t: Test, s: string)
    requires !IsSubquery(t) && !IsWrapped(t)
    requires TestText(t) == ExprText(t.e) + s && Head(s) == Blank && Lex(s) == Tail(t)
    ensures Lex(TestText(t)) == Lexemes(t)
  {
    hide Lex, ClassOf, Head, Tail, ExprText, TestText;
    var whole := PutText(ExprText(t.e), s);
  }

  lemma ScalarTestLexemes(t: Test)
    requires t.IsDistinctFrom? || t.LikePattern? || t.RegexPattern? || t.IsNotNull?
    ensures Lex(TestText(t)) == Lexemes(t)
  {
    hide Lex, Lexemes, Head, ExprText, OpText;
    var s: string;
    match t
    case IsDistinctFrom(_, p) =>
      s := DistinctTail(p);
      assert TestText(t) == ExprText(t.e) + s;
      Behind(t, s);
    case LikePattern(_, p) =>
      s := LikeTail(p);
      assert TestText(t) == ExprText(t.e) + s;
      Behind(t, s);
    case RegexPattern(_, p) =>
      s := RegexTail(p);
      assert TestText(t) == ExprText(t.e) + s;
      Behind(t, s);
    case IsNotNull(_) =>
      s := NotNullTail();
      assert TestText(t) == ExprText(t.e) + s;
      Behind(t, s);
  }

  lemma AmongTestLexemes(t: Test)
    requires t.EqualsAny? || t.DiffersFromAll?
    ensures Lex(TestText(t)) == Lexemes(t)
  {
    hide Lex, Lexemes, Head, ExprText, OpText;
    var s: string;
    match t
    case EqualsAny(_, p) =>
      s := AnyTail(p);
      assert TestText(t) == ExprText(t.e) + s;
      Behind(t, s);
    case DiffersFromAll(_, p) =>
      s := AllTail(p);
      assert TestText(t) == ExprText(t.e) + s;
      Behind(t, s);
  }

  lemma ArrayTestLexemes(t: Test)
    requires t.ArrayHolds? || t.ArrayOverlaps?
    ensures Lex(TestText(t)) == Lexemes(t)
  {
    hide Lex, Lexemes, Head, ExprText, OpText;
    var s: string;
    match t
    case ArrayHolds(_, p) =>
      s := HoldsTail(p);
      assert TestText(t) == ExprText(t.e) + s;
      Behind(t, s);
    case ArrayOverlaps(_, p) =>
      s := OverlapTail(p);
      assert TestText(t) == ExprText(t.e) + s;
      Behind(t, s);
  }

  lemma TestLexemes(t: Test)
    ensures Lex(TestText(t)) == Lexemes(t)
  {
    hide Lex, Lexemes, TestText;
    match t
    case Compare(_, _, _) => CompareLexemes(t);
    case SomeLike(_, _) | SomeRegex(_, _) => SubqueryLexemes(t);
    case IsDistinctFrom(_, _) | LikePattern(_, _) | RegexPattern(_, _) | IsNotNull(_) => ScalarTestLexemes(t);
    case EqualsAny(_, _) | DiffersFromAll(_, _) => AmongTestLexemes(t);
    case ArrayHolds(_, _) | ArrayOverlaps(_, _) => ArrayTestLexemes(t);
  }

  lemma ParamIsNoKeyword(p: nat)
    ensures ParamText(p) != "ANY" && ParamText(p) != "ALL"
  {
    assert ParamText(p)[0] == '$' && "ANY"[0] != '$' && "ALL"[0] != '$';
  }

  lemma BetweenBack(before: seq<string>, p: nat, after: seq<string>, rest: seq<string>)
    ensures Between(before, before + [ParamText(p)] + after + rest, after) == Some((p, rest))
  {
    hide ReadParam, ParamText;
    ParamBack(p);
    var ls := before + [ParamText(p)] + after + rest;
    assert ls[|before|] == ParamText(p);
    assert ls[|before| + 1..] == after + rest;
    assert ls[|before| + 1 + |after|..] == rest;
  }

  /** The operators and keywords tell each other apart by their first characters. */
  lemma FirstCharacters()
    ensures "="[0] == '=' && "<>"[0] == '<' && "<"[0] == '<' && "<="[0] == '<' && ">"[0] == '>' && ">="[0] == '>'
    ensures "~"[0] == '~' && "@>"[0] == '@' && "&&"[0] == '&' && "IS"[0] == 'I' && "LIKE"[0] == 'L'
    ensures "NOT"[0] == 'N' && "DISTINCT"[0] == 'D'
  {
  }

  lemma CompareBack(t: Test, rest: seq<string>)
    requires t.Compare?
    ensures ReadOperator(t.e, Tail(t) + rest) == Some((t, rest))
  {
    hide Between, ParamText;
    ParamIsNoKeyword(t.p);
    var ls := Tail(t) + rest;
    assert ls[0] == OpText(t.op) && ls[1] == ParamText(t.p);
    BetweenBack([OpText(t.op)], t.p, [], rest);
    assert [OpText(t.op)] + [ParamText(t.p)] + [] + rest == ls;
  }

  lemma ScalarBack(t: Test, rest: seq<string>)
    requires t.IsDistinctFrom? || t.LikePattern? || t.RegexPattern? || t.IsNotNull?
    ensures ReadOperator(t.e, Tail(t) + rest) == Some((t, rest))
  {
    hide Between, ParamText;
    FirstCharacters();
    var ls := Tail(t) + rest;
    match t
    case IsDistinctFrom(_, p) =>
      BetweenBack(["IS", "DISTINCT", "FROM"], p, [], rest);
      assert ["IS", "DISTINCT", "FROM"] + [ParamText(p)] + [] + rest == ls;
      assert ls[1] == "DISTINCT" && "DISTINCT"[0] != "NOT"[0];
    case LikePattern(_, p) =>
      BetweenBack(["LIKE"], p, [], rest);
      assert ["LIKE"] + [ParamText(p)] + [] + rest == ls && ls[0] == "LIKE";
    case RegexPattern(_, p) =>
      BetweenBack(["~"], p, [], rest);
      assert ["~"] + [ParamText(p)] + [] + rest == ls && ls[0] == "~";
    case IsNotNull(_) =>
      assert ls[3..] == rest;
  }

  lemma ListBack(t: Test, rest: seq<string>)
    requires t.EqualsAny? || t.DiffersFromAll? || t.ArrayHolds? || t.ArrayOverlaps?
    ensures ReadOperator(t.e, Tail(t) + rest) == Some((t, rest))
  {
    hide Between, ParamText;
    FirstCharacters();
    var ls := Tail(t) + rest;
    match t
    case EqualsAny(_, p) =>
      BetweenBack(["=", "ANY", "("], p, TEXT_LIST + [")"], rest);
      assert ["=", "ANY", "("] + [ParamText(p)] + (TEXT_LIST + [")"]) + rest == ls && ls[0] == "=";
    case DiffersFromAll(_, p) =>
      BetweenBack(["<>", "ALL", "("], p, TEXT_LIST + [")"], rest);
      assert ["<>", "ALL", "("] + [ParamText(p)] + (TEXT_LIST + [")"]) + rest == ls && ls[0] == "<>";
    case ArrayHolds(_, p) =>
      BetweenBack(["@>", "ARRAY", "["], p, ["::", "text", "]"], rest);
      assert ["@>", "ARRAY", "["] + [ParamText(p)] + ["::", "text", "]"] + rest == ls && ls[0] == "@>";
    case ArrayOverlaps(_, p) =>
      BetweenBack(["&&"], p, TEXT_LIST, rest);
      assert ["&&"] + [ParamText(p)] + TEXT_LIST + rest == ls && ls[0] == "&&";
  }

  lemma OperatorBack(t: Test, rest: seq<string>)
    requires !IsSubquery(t)
    ensures ReadOperator(t.e, Tail(t) + rest) == Some((t, rest))
    ensures Tail(t) != [] && Tail(t)[0] != "+"
    ensures !IsWrapped(t) ==> Tail(t)[0] in {"=", "<>", "IS", "LIKE", "~", "@>", "&&"}
  {
    hide ReadOperator, ParamText;
    match t
    case Compare(_, _, _) => CompareBack(t, rest);
    case IsDistinctFrom(_, _) | LikePattern(_, _) | RegexPattern(_, _) | IsNotNull(_) => ScalarBack(t, rest);
    case EqualsAny(_, _) | DiffersFromAll(_, _) | ArrayHolds(_, _) | ArrayOverlaps(_, _) => ListBack(t, rest);
  }

  lemma SubqueryBack(t: Test, rest: seq<string>)
    requires IsSubquery(t) && Spoken(t.e)
    ensures ReadTest(Lexemes(t) + rest) == Some((t, rest))
  {
    hide Between, ParamText, ReadExpr, Lex, ExprText;
    var ls := Lexemes(t) + rest;
    var word := if t.SomeLike? then "LIKE" else "~";
    var inner := AS_X + [word] + [ParamText(t.p)] + [")"] + rest;
    assert ls == UNNEST + (Lex(ExprText(t.e)) + inner);
    ExprBack(t.e, inner);
    SubqueryRead(ls, t, inner, rest);
  }

  lemma SubqueryRead(ls: seq<string>, t: Test, inner: seq<string>, rest: seq<string>)
    requires IsSubquery(t) && UNNEST <= ls && ReadExpr(ls[7..]) == Some((t.e, inner))
    requires inner == AS_X + [if t.SomeLike? then "LIKE" else "~"] + [ParamText(t.p)] + [")"] + rest
    ensures ReadTest(ls) == Some((t, rest))
  {
    hide Between, ParamText, ReadExpr;
    FirstCharacters();
    var word := if t.SomeLike? then "LIKE" else "~";
    BetweenBack(AS_X + [word], t.p, [")"], rest);
    assert inner[5] == word;
    assert (AS_X + ["LIKE"])[5] == "LIKE";
  }

  lemma UnwrappedBack(t: Test, rest: seq<string>)
    requires !IsSubquery(t) && !IsWrapped(t) && Spoken(t.e)
    ensures ReadTest(Lexemes(t) + rest) == Some((t, rest))
  {
    hide ParamText, ReadExpr, ReadOperator, Lex, ExprText, Tail, StartsExpr;
    var x, after := Lex(ExprText(t.e)), Tail(t) + rest;
    var ls := Lexemes(t) + rest;
    OperatorBack(t, rest);
    LexemesStart(t.e);
    assert ls == x + after && after[0] == Tail(t)[0] && ls[0] == x[0];
    ExprBack(t.e, after);
    NoSubquery(ls);
  }

  lemma WrappedBack(t: Test, rest: seq<string>)
    requires IsWrapped(t) && Spoken(t.e)
    ensures ReadTest(Lexemes(t) + rest) == Some((t, rest))
  {
    hide ParamText, ReadExpr, ReadOperator, Lex, ExprText, Tail;
    var x, after := Lex(ExprText(t.e)), Tail(t) + rest;
    var ls := Lexemes(t) + rest;
    OperatorBack(t, rest);
    assert ls == ["("] + (x + ([")"] + after)) && ls[1..] == x + ([")"] + after);
    ExprBack(t.e, [")"] + after);
    NoPrimary(ls, t.e, [")"] + after);
    assert ([")"] + after)[1..] == after;
  }

  lemma NoSubquery(ls: seq<string>)
    requires ls != [] && StartsExpr(ls[0])
    ensures !(UNNEST <= ls) && ls[0] !in {"TRUE", "FALSE", "NOT", "EXISTS"}
  {
    var w := ls[0];
    assert "TRUE"[0] == 'T' && "FALSE"[0] == 'F' && "NOT"[0] == 'N' && "EXISTS"[0] == 'E';
    assert w == "FLOOR" ==> w[1] == 'L' && "FALSE"[1] == 'A';
  }

  /** A parenthesis around something that does not go on with `> 0)` opens no expression. */
  lemma NoPrimary(ls: seq<string>, e: Expr, after: seq<string>)
    requires ls != [] && ls[0] == "(" && ReadExpr(ls[1..]) == Some((e, after)) && !([">", "0", ")"] <= after)
    ensures ReadExpr(ls) == None && !(UNNEST <= ls)
  {
    hide ReadExpr;
    assert ReadPrimary(ls) == None;
    assert "EXISTS"[0] != "("[0];
    PrimaryFirst(ls);
  }

  lemma PrimaryFirst(ls: seq<string>)
    requires ReadPrimary(ls) == None
    ensures ReadExpr(ls) == None
  {
  }

  lemma TestBack(t: Test, rest: seq<string>)
    requires Spoken(t.e)
    ensures ReadTest(Lex(TestText(t)) + rest) == Some((t, rest))
  {
    hide ReadTest, Lexemes, Lex, TestText;
    TestLexemes(t);
    if IsSubquery(t) {
      SubqueryBack(t, rest);
    } else if IsWrapped(t) {
      WrappedBack(t, rest);
    } else {
      UnwrappedBack(t, rest);
    }
  }

  // ---- whole clauses ----

  /** Rule expressions throughout, and no empty conjunction or disjunction, which would have no spelling. */
  predicate FactorSpoken(f: Factor)
    decreases f, 0
  {
    match f
    case Truth(_) => true
    case Atom(t) => Spoken(t.e)
    case Not(f1) => FactorSpoken(f1)
    case Parens(c) => TermsSpoken(c.terms)
  }

  predicate FactorsSpoken(fs: seq<Factor>)
    decreases fs, 0
  {
    fs != [] && FactorSpoken(fs[0]) && (|fs| > 1 ==> FactorsSpoken(fs[1..]))
  }

  predicate TermsSpoken(ts: seq<Term>)
    decreases ts, 0
  {
    ts != [] && FactorsSpoken(ts[0].factors) && (|ts| > 1 ==> TermsSpoken(ts[1..]))
  }

  function FactorsText(fs: seq<Factor>): string {
    Join(FactorTexts(fs), " AND ")
  }

  function TermsText(ts: seq<Term>): string {
    Join(TermTexts(ts), " OR ")
  }

  lemma Connectives()
    ensures IsWord("TRUE") && IsWord("FALSE") && IsWord("NOT") && IsWord("AND") && IsWord("OR")
  {
  }

  lemma TruthLexemes(b: bool)
    ensures Lex(FactorText(Truth(b))) == [if b then "TRUE" else "FALSE"]
  {
    hide Lex, IsWord, ClassOf, Head;
    Connectives();
    LexEmpty();
    var s := PutWord(if b then "TRUE" else "FALSE", "");
    assert s == FactorText(Truth(b));
  }

  lemma NotLexemes(x: string)
    ensures Lex("NOT " + x) == ["NOT"] + Lex(x)
  {
    hide Lex, IsWord, ClassOf, Head;
    Connectives();
    var s := PutBlank(x);
    s := PutWord("NOT", s);
    assert s == "NOT " + x;
  }

  lemma ParensLexemes(x: string)
    ensures Lex("(" + x + ")") == ["("] + Lex(x) + [")"]
  {
    hide Lex, ClassOf, Head;
    LexEmpty();
    var s := PutSingle(')', "");
    s := PutText(x, s);
    s := PutSingle('(', s);
    assert s == "(" + x + ")";
  }

  lemma JoinedLexemes(x: string, word: string, y: string)
    requires word == "AND" || word == "OR"
    ensures Lex(x + (" " + word + " ") + y) == Lex(x) + [word] + Lex(y)
  {
    hide Lex, IsWord, ClassOf, Head;
    Connectives();
    var s := PutBlank(y);
    s := PutWord(word, s);
    s := PutBlank(s);
    s := PutText(x, s);
    assert s == x + (" " + word + " ") + y;
  }

  lemma FactorsLexemes(fs: seq<Factor>)
    requires fs != []
    ensures Lex(FactorsText(fs))
         == Lex(FactorText(fs[0])) + if |fs| == 1 then [] else ["AND"] + Lex(FactorsText(fs[1..]))
  {
    hide Lex, FactorText;
    if |fs| > 1 {
      JoinedLexemes(FactorText(fs[0]), "AND", FactorsText(fs[1..]));
      assert FactorTexts(fs)[1..] == FactorTexts(fs[1..]);
      assert " " + "AND" + " " == " AND ";
    }
  }

  lemma TermsLexemes(ts: seq<Term>)
    requires ts != []
    ensures Lex(TermsText(ts))
         == Lex(FactorsText(ts[0].factors)) + if |ts| == 1 then [] else ["OR"] + Lex(TermsText(ts[1..]))
  {
    hide Lex, FactorTexts;
    if |ts| > 1 {
      JoinedLexemes(FactorsText(ts[0].factors), "OR", TermsText(ts[1..]));
      assert TermTexts(ts)[1..] == TermTexts(ts[1..]);
      assert " " + "OR" + " " == " OR ";
    }
  }

  /** What is left after an expression at the front is neither a closing parenthesis nor the rest of `> 0)`. */
  predicate NoExpr(ls: seq<string>) {
    var r := ReadExpr(ls);
    r == None || (r.value.1 != [] && r.value.1[0] != ")" && !([">", "0", ")"] <= r.value.1))
  }

  lemma WordIsNoExpr(ls: seq<string>)
    requires ls != [] && ls[0] in {"TRUE", "FALSE", "NOT", "EXISTS"}
    ensures ReadExpr(ls) == None
  {
    assert "TRUE"[0] == 'T' && "FALSE"[0] == 'F' && "NOT"[0] == 'N' && "EXISTS"[0] == 'E';
    assert "("[0] == '(' && "COALESCE"[0] == 'C' && "array_length"[0] == 'a' && "FLOOR"[1] == 'L' && "FALSE"[1] == 'A';
  }

  lemma AtomIsNoExpr(t: Test, tail: seq<string>)
    requires Spoken(t.e)
    ensures NoExpr(Lex(TestText(t)) + tail)
  {
    hide ReadExpr, Lex, TestText, Tail, ExprText, ReadOperator;
    TestLexemes(t);
    var ls := Lexemes(t) + tail;
    if IsSubquery(t) {
      WordIsNoExpr(ls);
    } else {
      OperatorBack(t, tail);
      var x, after := Lex(ExprText(t.e)), Tail(t) + tail;
      assert Tail(t) != [] && after[0] == Tail(t)[0];
      if IsWrapped(t) {
        assert ls == ["("] + (x + ([")"] + after));
        ExprBack(t.e, [")"] + after);
        NoPrimary(ls, t.e, [")"] + after);
      } else {
        assert ls == x + after;
        ExprBack(t.e, after);
        OperatorIsNoExpr(ls, t.e, after);
      }
    }
  }

  lemma OperatorIsNoExpr(ls: seq<string>, e: Expr, after: seq<string>)
    requires ReadExpr(ls) == Some((e, after)) && after != []
    requires after[0] in {"=", "<>", "IS", "LIKE", "~", "@>", "&&"}
    ensures NoExpr(ls)
  {
    hide ReadExpr;
    FirstCharacters();
    assert ")"[0] == ')';
  }

  lemma {:induction false} FactorIsNoExpr(f: Factor, tail: seq<string>)
    requires FactorSpoken(f)
    ensures NoExpr(Lex(FactorText(f)) + tail)
    decreases f, 0
  {
    hide ReadExpr, Lex, TestText;
    match f
    case Truth(b) =>
      TruthLexemes(b);
      WordIsNoExpr(Lex(FactorText(f)) + tail);
    case Atom(t) => AtomIsNoExpr(t, tail);
    case Not(f1) =>
      NotLexemes(FactorText(f1));
      WordIsNoExpr(Lex(FactorText(f)) + tail);
    case Parens(c) =>
      ParensLexemes(ClauseText(c));
      TermsAreNoExpr(c.terms, [")"] + tail);
      ParensAreNoExpr(Lex(FactorText(f)) + tail, Lex(TermsText(c.terms)) + ([")"] + tail));
  }

  lemma ParensAreNoExpr(ls: seq<string>, inner: seq<string>)
    requires ls == ["("] + inner && NoExpr(inner)
    ensures ReadExpr(ls) == None
  {
    hide ReadExpr;
    assert ls[1..] == inner;
    assert ReadPrimary(ls) == None;
    PrimaryFirst(ls);
  }

  lemma {:induction false} TermsAreNoExpr(ts: seq<Term>, tail: seq<string>)
    requires TermsSpoken(ts)
    ensures NoExpr(Lex(TermsText(ts)) + tail)
    decreases ts, 0
  {
    hide NoExpr, Lex, FactorText, FactorsText, TermsText;
    var fs := ts[0].factors;
    TermsLexemes(ts);
    FactorsLexemes(fs);
    var moreTerms := if |ts| == 1 then [] else ["OR"] + Lex(TermsText(ts[1..]));
    var moreFactors := if |fs| == 1 then [] else ["AND"] + Lex(FactorsText(fs[1..]));
    var x := Lex(FactorText(fs[0]));
    FactorIsNoExpr(fs[0], moreFactors + moreTerms + tail);
    assert Lex(TermsText(ts)) == x + moreFactors + moreTerms;
    assert x + moreFactors + moreTerms + tail == x + (moreFactors + moreTerms + tail);
  }

  lemma {:induction false} FactorBack(f: Factor, rest: seq<string>)
    requires FactorSpoken(f)
    ensures ReadFactor(Lex(FactorText(f)) + rest) == Some((f, rest))
    decreases f, 0
  {
    hide Lex, TestText, ReadTest, ReadTerms;
    var ls := Lex(FactorText(f)) + rest;
    match f
    case Truth(b) =>
      TruthLexemes(b);
    case Atom(t) =>
      TestBack(t, rest);
      TestStart(t);
    case Not(f1) =>
      NotLexemes(FactorText(f1));
      FactorBack(f1, rest);
      assert ls[1..] == Lex(FactorText(f1)) + rest;
    case Parens(c) =>
      ParensLexemes(ClauseText(c));
      var inner := Lex(TermsText(c.terms)) + ([")"] + rest);
      assert ls == ["("] + inner && ls[1..] == inner;
      TermsBack(c.terms, [")"] + rest);
      TermsAreNoExpr(c.terms, [")"] + rest);
      ParensAreNoTest(ls, inner);
      assert ([")"] + rest)[1..] == rest;
  }

  /** A test does not start like a truth value or a negation. */
  lemma TestStart(t: Test)
    requires Spoken(t.e)
    ensures Lex(TestText(t)) != [] && Lex(TestText(t))[0] !in {"TRUE", "FALSE", "NOT"}
  {
    hide Lex, TestText, ExprText, Tail, StartsExpr;
    TestLexemes(t);
    if IsSubquery(t) {
      assert "EXISTS"[0] == 'E' && "TRUE"[0] == 'T' && "FALSE"[0] == 'F' && "NOT"[0] == 'N';
    } else if IsWrapped(t) {
      assert "("[0] == '(' && "TRUE"[0] == 'T' && "FALSE"[0] == 'F' && "NOT"[0] == 'N';
    } else {
      LexemesStart(t.e);
      NoSubquery(Lex(ExprText(t.e)));
    }
  }

  lemma ParensAreNoTest(ls: seq<string>, inner: seq<string>)
    requires ls == ["("] + inner && NoExpr(inner)
    ensures ReadTest(ls) == None
  {
    hide ReadExpr, ReadOperator;
    assert ls[0] == "(" && ls[1..] == inner;
    ParensAreNoExpr(ls, inner);
    assert "EXISTS"[0] == 'E' && "("[0] == '(';
    assert !(UNNEST <= ls);
  }

  lemma {:induction false} FactorsBack(fs: seq<Factor>, rest: seq<string>)
    requires FactorsSpoken(fs) && (rest == [] || rest[0] == "OR" || rest[0] == ")")
    ensures ReadFactors(Lex(FactorsText(fs)) + rest) == Some((fs, rest))
    decreases fs, 0
  {
    hide Lex, FactorsText, FactorText, ReadFactor;
    FactorsLexemes(fs);
    if |fs| == 1 {
      FactorBack(fs[0], rest);
      assert Lex(FactorsText(fs)) + rest == Lex(FactorText(fs[0])) + rest && fs == [fs[0]];
      assert "OR"[0] != "AND"[0] && ")"[0] != "AND"[0];
    } else {
      var more := ["AND"] + (Lex(FactorsText(fs[1..])) + rest);
      FactorBack(fs[0], more);
      FactorsBack(fs[1..], rest);
      assert Lex(FactorsText(fs)) + rest == Lex(FactorText(fs[0])) + more;
      assert more[1..] == Lex(FactorsText(fs[1..])) + rest;
      assert fs == [fs[0]] + fs[1..];
    }
  }

  lemma {:induction false} TermsBack(ts: seq<Term>, rest: seq<string>)
    requires TermsSpoken(ts) && (rest == [] || rest[0] == ")")
    ensures ReadTerms(Lex(TermsText(ts)) + rest) == Some((ts, rest))
    decreases ts, 0
  {
    hide Lex, TermsText, FactorsText, ReadFactors;
    TermsLexemes(ts);
    if |ts| == 1 {
      FactorsBack(ts[0].factors, rest);
      assert Lex(TermsText(ts)) + rest == Lex(FactorsText(ts[0].factors)) + rest && ts == [And(ts[0].factors)];
      assert ")"[0] != "OR"[0];
    } else {
      var more := ["OR"] + (Lex(TermsText(ts[1..])) + rest);
      FactorsBack(ts[0].factors, more);
      TermsBack(ts[1..], rest);
      assert Lex(TermsText(ts)) + rest == Lex(FactorsText(ts[0].factors)) + more;
      assert more[1..] == Lex(TermsText(ts[1..])) + rest;
      assert ts == [And(ts[0].factors)] + ts[1..];
    }
  }

  /** The grammar is unambiguous on printed clauses: each is read back as exactly itself. */
  lemma {:induction false} ReadBack(c: Clause)
    requires TermsSpoken(c.terms)
    ensures ReadClause(ClauseText(c)) == Some(c)
  {
    hide Lex, ReadTerms, TermTexts, Join, TermsSpoken;
    var ls := Lex(ClauseText(c));
    TermsBack(c.terms, []);
    assert ls + [] == ls;
  }
}
