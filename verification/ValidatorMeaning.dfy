/** What validation makes of raw input, without its own words: which rule is stored, and what is refused and why. */
module ValidatorMeaning {
  import opened Text
  import opened Rule
  import opened RuleValidator

  // ---- text with blanks around it ----

  predicate Blanks(s: string) {
    forall i :: 0 <= i < |s| ==> IsSpace(s[i])
  }

  /** Text that begins and ends with something. */
  predicate Tight(s: string) {
    s != "" && !IsSpace(s[0]) && !IsSpace(s[|s| - 1])
  }

  /** The text is this core with blanks around it. */
  ghost predicate Around(s: string, core: string) {
    Tight(core) && exists i: nat, j: nat :: i <= j <= |s| && Blanks(s[..i]) && s[i..j] == core && Blanks(s[j..])
  }

  lemma {:induction false} TrimStartBlanks(s: string) returns (i: nat)
    ensures i <= |s| && Blanks(s[..i]) && TrimStart(s) == s[i..] && (i == |s| || !IsSpace(s[i]))
  {
    hide IsSpace;
    i := 0;
    if s != "" && IsSpace(s[0]) {
      i := TrimStartBlanks(s[1..]);
      i := i + 1;
      assert s[..i] == [s[0]] + s[1..][..i - 1] && s[1..][i - 1..] == s[i..];
    }
  }

  lemma {:induction false} TrimEndBlanks(s: string) returns (j: nat)
    ensures j <= |s| && Blanks(s[j..]) && TrimEnd(s) == s[..j] && (j == 0 || !IsSpace(s[j - 1]))
  {
    hide IsSpace;
    j := |s|;
    if s != "" && IsSpace(s[|s| - 1]) {
      var init := s[..|s| - 1];
      j := TrimEndBlanks(init);
      assert s[j..] == init[j..] + [s[|s| - 1]] && init[..j] == s[..j];
    }
  }

  /** Trimming finds the core, if there is any text at all. */
  lemma TrimFindsCore(s: string)
    ensures if Trim(s) == "" then Blanks(s) else Around(s, Trim(s))
  {
    hide IsSpace, TrimStart, TrimEnd, Blanks, Around;
    var i := TrimStartBlanks(s);
    var t := s[i..];
    var j := TrimEndBlanks(t);
    assert Trim(s) == t[..j];
    if j == 0 {
      assert t[0..] == t;
      BlanksConcat(s, i);
    } else {
      assert t[j..] == s[i + j..] && t[..j] == s[i..i + j] && t[j - 1] == s[i + j - 1];
      CoreAt(s, i, i + j);
    }
  }

  lemma BlanksConcat(s: string, i: nat)
    requires i <= |s| && Blanks(s[..i]) && Blanks(s[i..])
    ensures Blanks(s)
  {
    assert forall k :: 0 <= k < |s| ==> s[k] == if k < i then s[..i][k] else s[i..][k - i];
  }

  lemma CoreAt(s: string, i: nat, j: nat)
    requires i < j <= |s| && Blanks(s[..i]) && Blanks(s[j..]) && !IsSpace(s[i]) && !IsSpace(s[j - 1])
    ensures Around(s, s[i..j])
  {
    hide IsSpace;
  }

  lemma {:induction false} TrimStartSkips(s: string, i: nat)
    requires i <= |s| && Blanks(s[..i]) && (i == |s| || !IsSpace(s[i]))
    ensures TrimStart(s) == s[i..]
  {
    hide IsSpace;
    if i > 0 {
      assert s[0] == s[..i][0];
      assert s[1..][..i - 1] == s[..i][1..];
      TrimStartSkips(s[1..], i - 1);
      assert s[1..][i - 1..] == s[i..];
    }
  }

  lemma {:induction false} TrimEndSkips(s: string, j: nat)
    requires j <= |s| && Blanks(s[j..]) && (j == 0 || !IsSpace(s[j - 1]))
    ensures TrimEnd(s) == s[..j]
    decreases |s|
  {
    hide IsSpace;
    if j < |s| {
      var init := s[..|s| - 1];
      assert s[|s| - 1] == s[j..][|s| - 1 - j];
      assert forall k :: 0 <= k < |init| - j ==> init[j..][k] == s[j..][k];
      TrimEndSkips(init, j);
      assert init[..j] == s[..j];
    }
  }

  lemma CoreIsTrimmed(s: string, core: string)
    requires Around(s, core)
    ensures Trim(s) == core
  {
    hide IsSpace, TrimStart, TrimEnd;
    var i: nat, j: nat :| i <= j <= |s| && Blanks(s[..i]) && s[i..j] == core && Blanks(s[j..]);
    assert s[i] == core[0];
    TrimStartSkips(s, i);
    var t := s[i..];
    assert t[j - i..] == s[j..] && t[..j - i] == core && t[j - i - 1] == core[|core| - 1];
    TrimEndSkips(t, j - i);
  }

  lemma BlankIsTrimmed(s: string)
    ensures Blanks(s) <==> Trim(s) == ""
  {
    hide IsSpace, TrimStart, TrimEnd;
    TrimFindsCore(s);
    if Blanks(s) {
      assert s[..|s|] == s && s[|s|..] == "";
      TrimStartSkips(s, |s|);
      TrimEndSkips("", 0);
    }
  }

  // ---- single values ----

  /** The lower-case word, in any mixture of cases. */
  predicate SameLetters(w: string, word: string) {
    |w| == |word| && forall i :: 0 <= i < |w| ==> w[i] == word[i] || w[i] as int + 32 == word[i] as int
  }

  ghost predicate SpellsFlag(s: string, b: bool) {
    exists w ::
      Around(s, w)
      && if b then SameLetters(w, "true") || SameLetters(w, "yes") || w == "1"
         else SameLetters(w, "false") || SameLetters(w, "no") || w == "0"
  }

  /** An optional sign and decimal digits. */
  predicate SpellsInt(w: string, n: int) {
    var signed := w != "" && (w[0] == '-' || w[0] == '+');
    var digits := if signed then w[1..] else w;
    digits != "" && AllDigits(digits) && n == if w[0] == '-' then 0 - NatValue(digits) else NatValue(digits)
  }

  predicate TruncatesTo(r: real, n: int) {
    if r >= 0.0 then n as real <= r < n as real + 1.0 else n as real - 1.0 < r <= n as real
  }

  predicate IntegerPart(num: Number, m: int) {
    match num
    case Whole(k) => m == k
    case Float(r, _) => TruncatesTo(r, m)
  }

  /** The number without its fraction, or the end of the 64-bit range it lies beyond. */
  ghost predicate Saturates(num: Number, n: int) {
    exists m: int ::
      IntegerPart(num, m) && n == Clamped(m)
  }

  function Clamped(m: int): int {
    if m < -0x8000_0000_0000_0000 then -0x8000_0000_0000_0000
    else if m > 0x7fff_ffff_ffff_ffff then 0x7fff_ffff_ffff_ffff
    else m
  }

  // ---- lists ----

  function Without(items: seq<Json>, unwanted: set<Json>): seq<Json> {
    if items == [] then []
    else if items[0] in unwanted then Without(items[1..], unwanted)
    else [items[0]] + Without(items[1..], unwanted)
  }

  function Commas(pieces: seq<string>): string {
    if pieces == [] then "" else if |pieces| == 1 then pieces[0] else pieces[0] + "," + Commas(pieces[1..])
  }

  /** The cores of the pieces that are not blank, in order. */
  ghost predicate ArePieces(pieces: seq<string>, items: seq<Json>) {
    if pieces == [] then items == []
    else if Blanks(pieces[0]) then ArePieces(pieces[1..], items)
    else items != [] && items[0].Str? && Around(pieces[0], items[0].s) && ArePieces(pieces[1..], items[1..])
  }

  predicate IsSplit(pieces: seq<string>, s: string) {
    pieces != [] && Commas(pieces) == s && forall p :: p in pieces ==> ',' !in p
  }

  ghost predicate SpellsList(s: string, items: seq<Json>) {
    exists pieces :: IsSplit(pieces, s) && ArePieces(pieces, items)
  }

  // ---- what is stored ----

  /** The value stored for a raw one, by the kind of the target and the operator. */
  ghost predicate Stores(kind: Kind, op: Operator, raw: Json, out: Json) {
    match kind
    case KBool => out.Bool? && (raw == out || (raw.Str? && SpellsFlag(raw.s, out.b)))
    case KInt =>
      out.Num? && out.num.Whole?
      && (match raw
          case Num(num) => Saturates(num, out.num.n)
          case Str(s) => IsI64(out.num.n) && exists w :: Around(s, w) && SpellsInt(w, out.num.n)
          case _ => false)
    case KString =>
      if op == In || op == NotIn then
        out.Arr? && out.items != []
        && (match raw
            case Arr(items) => out.items == Without(items, {Null, Str("")})
            case Str(s) => SpellsList(s, out.items)
            case Null => false
            case _ => out.items == [raw])
      else
        out.Str?
        && (match raw
            case Str(s) => out == raw && !Blanks(s)
            case Num(Whole(n)) => out.s == ShowInt(n)
            case Num(Float(_, text)) => out.s == text
            case Bool(b) => out.s == if b then "true" else "false"
            case _ => false)
  }

  /** What is said of a value that cannot be stored. */
  function Wanting(kind: Kind, op: Operator): Reason {
    match kind
    case KBool => BooleanRequired
    case KInt => IntegerRequired
    case KString => if op == In || op == NotIn then ListEmpty else ValueRequired
  }

  lemma {:induction false} LowerIsSameLetters(w: string, word: string)
    requires forall i :: 0 <= i < |word| ==> 'a' <= word[i] <= 'z'
    ensures Lower(w) == word <==> SameLetters(w, word)
  {
    if w == "" || word == "" {
    } else {
      LowerIsSameLetters(w[1..], word[1..]);
      assert word == [word[0]] + word[1..];
      assert SameLetters(w, word) <==>
        (w[0] == word[0] || w[0] as int + 32 == word[0] as int) && SameLetters(w[1..], word[1..]) by {
        if SameLetters(w[1..], word[1..]) {
          assert forall i :: 0 < i < |w| ==> w[i] == w[1..][i - 1] && word[i] == word[1..][i - 1];
        }
      }
    }
  }

  lemma FlagWord(s: string, word: string)
    requires word != "" && forall i :: 0 <= i < |word| ==> 'a' <= word[i] <= 'z'
    ensures Lower(Trim(s)) == word <==> exists w :: Around(s, w) && SameLetters(w, word)
  {
    hide Trim, Lower, Around, SameLetters;
    TrimFindsCore(s);
    LowerIsSameLetters(Trim(s), word);
    LowerLength(Trim(s));
    if w :| Around(s, w) && SameLetters(w, word) {
      CoreIsTrimmed(s, w);
    }
  }

  lemma {:induction false} LowerLength(s: string)
    ensures |Lower(s)| == |s|
  {
    if s != "" {
      LowerLength(s[1..]);
    }
  }

  lemma FlagDigit(s: string, digit: string)
    requires digit == "0" || digit == "1"
    ensures Lower(Trim(s)) == digit <==> Around(s, digit)
  {
    hide Trim, Around;
    TrimFindsCore(s);
    LowerLength(Trim(s));
    LowerDigit(Trim(s), digit);
    if Around(s, digit) {
      CoreIsTrimmed(s, digit);
    }
  }

  lemma LowerDigit(t: string, digit: string)
    requires digit == "0" || digit == "1"
    ensures Lower(t) == digit <==> t == digit
  {
    LowerLength(t);
    if |t| == 1 {
      assert t == [t[0]] && t[1..] == "";
    }
  }

  lemma FlagsMeaning(s: string)
    ensures Lower(Trim(s)) in {"true", "1", "yes"} <==> SpellsFlag(s, true)
    ensures Lower(Trim(s)) in {"false", "0", "no"} <==> SpellsFlag(s, false)
  {
    hide Trim, Lower, Around, SameLetters;
    FlagWord(s, "true");
    FlagWord(s, "yes");
    FlagWord(s, "false");
    FlagWord(s, "no");
    FlagDigit(s, "1");
    FlagDigit(s, "0");
  }

  lemma IntMeaning(s: string, n: int)
    ensures ParseI64(Trim(s)) == Some(n) <==> IsI64(n) && exists w :: Around(s, w) && SpellsInt(w, n)
  {
    hide Trim, Around, IsI64, AllDigits;
    TrimFindsCore(s);
    if w :| Around(s, w) && SpellsInt(w, n) && IsI64(n) {
      CoreIsTrimmed(s, w);
    }
    if ParseI64(Trim(s)) == Some(n) {
      assert SpellsInt(Trim(s), n);
    }
  }

  lemma IntegerPartUnique(num: Number, m: int, n: int)
    requires IntegerPart(num, m) && IntegerPart(num, n)
    ensures m == n
  {
  }

  lemma NumberMeaning(num: Number, n: int)
    ensures Saturates(num, n) <==> n == NumberToI64(num)
  {
    var part := match num
      case Whole(k) => k
      case Float(r, _) => if r >= 0.0 then r.Floor else -((-r).Floor);
    assert IntegerPart(num, part);
    if m: int :| IntegerPart(num, m) && n == Clamped(m) {
      IntegerPartUnique(num, m, part);
    }
  }

  lemma {:induction false} ElementsMeaning(items: seq<Json>)
    ensures KeepElements(items) == Without(items, {Null, Str("")})
  {
    if items != [] {
      ElementsMeaning(items[1..]);
    }
  }

  lemma {:induction false} SplitIsCommas(s: string)
    ensures Commas(Split(s, ',')) == s && forall p :: p in Split(s, ',') ==> ',' !in p
  {
    if s != "" {
      var rest := Split(s[1..], ',');
      SplitIsCommas(s[1..]);
      assert s == [s[0]] + s[1..];
      if s[0] == ',' {
        assert ([""] + rest)[1..] == rest;
        assert "," + s[1..] == s;
      } else {
        var first := [s[0]] + rest[0];
        assert ([first] + rest[1..])[1..] == rest[1..];
        assert ',' !in first;
      }
    }
  }

  lemma {:induction false} PiecesMeaning(pieces: seq<string>)
    ensures ArePieces(pieces, TrimmedPieces(pieces))
  {
    hide Trim, Around, Blanks;
    if pieces != [] {
      PiecesMeaning(pieces[1..]);
      TrimFindsCore(pieces[0]);
      BlankIsTrimmed(pieces[0]);
      var items := TrimmedPieces(pieces);
      if Trim(pieces[0]) != "" {
        assert items[1..] == TrimmedPieces(pieces[1..]);
      } else {
        assert items == TrimmedPieces(pieces[1..]);
      }
    }
  }

  /** Only one list is spelled: pieces are determined by the text, and items by the pieces. */
  lemma {:induction false} PiecesDetermined(pieces: seq<string>, items: seq<Json>)
    requires ArePieces(pieces, items)
    ensures items == TrimmedPieces(pieces)
  {
    hide Trim, Around, Blanks;
    if pieces != [] {
      BlankIsTrimmed(pieces[0]);
      if Blanks(pieces[0]) {
        PiecesDetermined(pieces[1..], items);
      } else {
        CoreIsTrimmed(pieces[0], items[0].s);
        PiecesDetermined(pieces[1..], items[1..]);
        assert items == [items[0]] + items[1..];
      }
    }
  }

  lemma CommasCons(c: char, tail: string, rest: seq<string>)
    ensures Commas([[c] + tail] + rest) == [c] + Commas([tail] + rest)
  {
    assert ([[c] + tail] + rest)[1..] == rest && ([tail] + rest)[1..] == rest;
  }

  lemma SplitCons(c: char, s: string)
    requires c != ','
    ensures var rest := Split(s, ','); Split([c] + s, ',') == [[c] + rest[0]] + rest[1..]
  {
    assert ([c] + s)[1..] == s;
  }

  lemma {:induction false} CommasDetermine(pieces: seq<string>)
    requires pieces != [] && forall p :: p in pieces ==> ',' !in p
    ensures Split(Commas(pieces), ',') == pieces
    decreases |pieces|, |pieces[0]|
  {
    var first, rest := pieces[0], pieces[1..];
    if first == "" && rest == [] {
      assert pieces == [""];
    } else if first == "" {
      assert Commas(pieces) == "," + Commas(rest) && ("," + Commas(rest))[1..] == Commas(rest);
      CommasDetermine(rest);
      assert pieces == [""] + rest;
    } else {
      hide Split, Commas;
      var c, tail := first[0], first[1..];
      assert first == [c] + tail && pieces == [[c] + tail] + rest;
      assert c in first && forall d :: d in tail ==> d in first;
      CommasDetermine([tail] + rest);
      CommasCons(c, tail, rest);
      SplitCons(c, Commas([tail] + rest));
      assert ([tail] + rest)[1..] == rest;
    }
  }

  lemma ListMeaning(s: string, items: seq<Json>)
    ensures SpellsList(s, items) <==> items == TrimmedPieces(Split(s, ','))
  {
    hide ArePieces, Commas, TrimmedPieces;
    SplitIsCommas(s);
    PiecesMeaning(Split(s, ','));
    if pieces :| IsSplit(pieces, s) && ArePieces(pieces, items) {
      CommasDetermine(pieces);
      PiecesDetermined(pieces, items);
    }
  }

  /** A value is stored exactly if it is what the raw one means; if there is none, that is what is said. */
  lemma NormalizeMeaning(kind: Kind, op: Operator, raw: Json, v: Json)
    ensures NormalizeValue(kind, op, raw) == Ok(v) <==> Stores(kind, op, raw, v)
    ensures NormalizeValue(kind, op, raw).Err? ==> NormalizeValue(kind, op, raw) == Err(Wanting(kind, op), 0, 0)
  {
    match kind
    case KBool =>
      hide SpellsFlag, Lower, Trim;
      if raw.Str? {
        FlagsMeaning(raw.s);
      }
    case KInt => IntNormalized(op, raw, v);
    case KString =>
      if op == In || op == NotIn {
        ListNormalized(op, raw, v);
      } else {
        hide Trim, Blanks, ShowInt;
        if raw.Str? {
          BlankIsTrimmed(raw.s);
        }
      }
  }

  lemma IntNormalized(op: Operator, raw: Json, v: Json)
    ensures NormalizeValue(KInt, op, raw) == Ok(v) <==> Stores(KInt, op, raw, v)
  {
    hide Around, SpellsInt, ParseI64, Trim, Saturates, NumberToI64;
    if v.Num? && v.num.Whole? {
      match raw
      case Str(s) => IntMeaning(s, v.num.n);
      case Num(num) => NumberMeaning(num, v.num.n);
      case _ =>
    }
  }

  lemma ListNormalized(op: Operator, raw: Json, v: Json)
    requires op == In || op == NotIn
    ensures NormalizeValue(KString, op, raw) == Ok(v) <==> Stores(KString, op, raw, v)
  {
    hide SpellsList, TrimmedPieces, Split, KeepElements, Without;
    if v.Arr? {
      match raw
      case Str(s) => ListMeaning(s, v.items);
      case Arr(items) => ElementsMeaning(items);
      case _ =>
    }
  }

  // ---- names ----

  /** The names of the game modes, old ones included. */
  lemma ModeNames(s: string)
    ensures ModeFromKey(s) ==
      if s == "osu" || s == "standard" then Some(Osu)
      else if s == "taiko" then Some(Taiko)
      else if s == "fruits" || s == "catch" || s == "ctb" then Some(Fruits)
      else if s == "mania" then Some(Mania)
      else None
  {
  }

  /** A missing or blank mode is the default one; else the name counts, blanks around it aside. */
  lemma ModeMeaning(mode: Option<string>, m: Mode)
    ensures ParseMode(mode) == Some(m) <==>
      if mode == None || Blanks(mode.value) then m == Osu
      else exists name :: Around(mode.value, name) && ModeFromKey(name) == Some(m)
  {
    hide Trim, Around, Blanks, ModeFromKey;
    if mode.Some? {
      BlankIsTrimmed(mode.value);
      TrimFindsCore(mode.value);
      if name :| Around(mode.value, name) && ModeFromKey(name) == Some(m) {
        CoreIsTrimmed(mode.value, name);
      }
    }
  }

  /** A target answers to its own key and at most one short name; an operator to its key alone. */
  predicate Names(s: string, t: Target) {
    || s == TargetKey(t)
    || (s == "pp" && t == PerformancePoints)
    || (s == "playcount" && t == PlayCount)
    || (s == "accuracy" && t == HitAccuracy)
    || (s == "level" && t == LevelInt)
  }

  lemma ProfileNames(s: string, t: Target)
    requires KindOf(t) != KInt
    ensures TargetFromKey(s) == Some(t) ==> Names(s, t)
  {
  }

  lemma AgeNames(s: string, t: Target)
    requires t in {AccountAgeDays, DaysSinceLastVisit, BadgeCount, FollowerCount, MappingSubscribers, Kudosu}
    ensures TargetFromKey(s) == Some(t) ==> Names(s, t)
  {
  }

  lemma MappingNames(s: string, t: Target)
    requires t in {RankedBeatmaps, LovedBeatmaps, MappingPlaycount, ReplaysWatchedByOthers, FavouriteCount}
    ensures TargetFromKey(s) == Some(t) ==> Names(s, t)
  {
  }

  lemma RankNames(s: string, t: Target)
    requires t in {GlobalRank, CountryRank, PerformancePoints, PlayCount, PlayTimeHours, TotalScore, RankedScore}
    ensures TargetFromKey(s) == Some(t) ==> Names(s, t)
  {
  }

  lemma GradeNames(s: string, t: Target)
    requires t in {HitAccuracy, MaxCombo, LevelInt, SsCount, SCount, ACount}
    ensures TargetFromKey(s) == Some(t) ==> Names(s, t)
  {
  }

  lemma TargetNames(s: string, t: Target)
    ensures TargetFromKey(s) == Some(t) ==> Names(s, t)
  {
    hide TargetFromKey, Names;
    match t
    case AccountAgeDays | DaysSinceLastVisit | BadgeCount | FollowerCount | MappingSubscribers | Kudosu =>
      AgeNames(s, t);
    case RankedBeatmaps | LovedBeatmaps | MappingPlaycount | ReplaysWatchedByOthers | FavouriteCount =>
      MappingNames(s, t);
    case GlobalRank | CountryRank | PerformancePoints | PlayCount | PlayTimeHours | TotalScore | RankedScore =>
      RankNames(s, t);
    case HitAccuracy | MaxCombo | LevelInt | SsCount | SCount | ACount => GradeNames(s, t);
    case _ => ProfileNames(s, t);
  }

  lemma ShortNames()
    ensures TargetFromKey("pp") == Some(PerformancePoints) && TargetFromKey("playcount") == Some(PlayCount)
  {
  }

  lemma MoreShortNames()
    ensures TargetFromKey("accuracy") == Some(HitAccuracy) && TargetFromKey("level") == Some(LevelInt)
  {
  }

  lemma OperatorNames(s: string, op: Operator)
    ensures OperatorFromKey(s) == Some(op) <==> s == OperatorKey(op)
  {
  }

  // ---- conditions ----

  ghost predicate TargetNamed(s: string, t: Target) {
    exists name :: Around(s, name) && TargetFromKey(name) == Some(t)
  }

  ghost predicate OperatorNamed(s: string, op: Operator) {
    exists name :: Around(s, name) && OperatorFromKey(name) == Some(op)
  }

  /** The condition stored for a raw one. */
  ghost predicate IsStored(raw: ConditionInput, c: Condition, regexCompiles: string -> bool) {
    var kind := KindOf(c.target);
    && TargetNamed(raw.target, c.target) && OperatorNamed(raw.op, c.op) && ValidFor(c.op, kind)
    && Stores(kind, c.op, raw.value, c.value)
    && (if c.op == Between then
          raw.valueEnd.Some? && c.valueEnd.Some? && Stores(kind, c.op, raw.valueEnd.value, c.valueEnd.value)
        else c.valueEnd == None)
    && (c.op == Regex ==> regexCompiles(ScalarOf(c.value)))
  }

  function ScalarOf(v: Json): string {
    if v.Str? then v.s else ""
  }

  /** The first thing wrong with a raw condition: its target, its operator, the pair, its values, its pattern. */
  ghost predicate Refused(raw: ConditionInput, reason: Reason, regexCompiles: string -> bool) {
    if !exists t :: TargetNamed(raw.target, t) then reason == UnknownTarget
    else if !exists op :: OperatorNamed(raw.op, op) then reason == UnknownOperator
    else
      exists t, op ::
        TargetNamed(raw.target, t) && OperatorNamed(raw.op, op) && RefusedAs(raw, t, op, reason, regexCompiles)
  }

  ghost predicate Storable(kind: Kind, op: Operator, raw: Json) {
    exists v :: Stores(kind, op, raw, v)
  }

  ghost predicate RefusedAs(raw: ConditionInput, t: Target, op: Operator, reason: Reason,
                            regexCompiles: string -> bool) {
    var kind := KindOf(t);
    if !ValidFor(op, kind) then reason == OperatorNotValid
    else if !Storable(kind, op, raw.value) then reason == Wanting(kind, op)
    else if op == Between && raw.valueEnd == None then reason == MaximumMissing
    else if op == Between && !Storable(kind, op, raw.valueEnd.value) then reason == Wanting(kind, op)
    else
      && op == Regex && reason == BadRegex
      && exists v :: Stores(kind, op, raw.value, v) && !regexCompiles(ScalarOf(v))
  }

  lemma TargetMeaning(s: string, t: Target)
    ensures TargetFromKey(Trim(s)) == Some(t) <==> TargetNamed(s, t)
  {
    hide Trim, Around, TargetFromKey;
    TrimFindsCore(s);
    NoNameForNothing();
    if name :| Around(s, name) && TargetFromKey(name) == Some(t) {
      CoreIsTrimmed(s, name);
    }
  }

  lemma NoNameForNothing()
    ensures TargetFromKey("") == None && OperatorFromKey("") == None
  {
  }

  lemma OperatorMeaning(s: string, op: Operator)
    ensures OperatorFromKey(Trim(s)) == Some(op) <==> OperatorNamed(s, op)
  {
    hide Trim, Around, OperatorFromKey;
    TrimFindsCore(s);
    NoNameForNothing();
    if name :| Around(s, name) && OperatorFromKey(name) == Some(op) {
      CoreIsTrimmed(s, name);
    }
  }

  lemma StorableMeaning(kind: Kind, op: Operator, raw: Json)
    ensures Storable(kind, op, raw) <==> NormalizeValue(kind, op, raw).Ok?
    ensures NormalizeValue(kind, op, raw).Err? ==> NormalizeValue(kind, op, raw) == Err(Wanting(kind, op), 0, 0)
    ensures NormalizeValue(kind, op, raw).Ok? ==> Stores(kind, op, raw, NormalizeValue(kind, op, raw).value)
  {
    hide NormalizeValue, Stores;
    var r := NormalizeValue(kind, op, raw);
    NormalizeMeaning(kind, op, raw, if r.Ok? then r.value else Null);
    if v :| Stores(kind, op, raw, v) {
      NormalizeMeaning(kind, op, raw, v);
    }
  }

  lemma StoredIsOne(kind: Kind, op: Operator, raw: Json, v: Json)
    requires Stores(kind, op, raw, v)
    ensures NormalizeValue(kind, op, raw) == Ok(v)
  {
    hide NormalizeValue, Stores;
    NormalizeMeaning(kind, op, raw, v);
  }

  /** A condition is stored exactly if it is what the raw one means. */
  lemma ConditionStored(g: nat, k: nat, raw: ConditionInput, c: Condition, regexCompiles: string -> bool)
    ensures ValidateCondition(g, k, raw, regexCompiles) == Ok(c) <==> IsStored(raw, c, regexCompiles)
  {
    hide NormalizeValue, Stores, TargetFromKey, OperatorFromKey, TargetNamed, OperatorNamed, Trim, ValidFor, KindOf;
    TargetMeaning(raw.target, c.target);
    OperatorMeaning(raw.op, c.op);
    NormalizeMeaning(KindOf(c.target), c.op, raw.value, c.value);
    if raw.valueEnd.Some? && c.valueEnd.Some? {
      NormalizeMeaning(KindOf(c.target), c.op, raw.valueEnd.value, c.valueEnd.value);
    }
  }

  /** And refused with exactly the reason that comes first. */
  lemma ConditionRefused(g: nat, k: nat, raw: ConditionInput, reason: Reason, regexCompiles: string -> bool)
    ensures ValidateCondition(g, k, raw, regexCompiles) == Err(reason, g, k) <==> Refused(raw, reason, regexCompiles)
    ensures var r := ValidateCondition(g, k, raw, regexCompiles); r.Err? ==> r.group == g && r.condition == k
  {
    hide NormalizeValue, Stores, TargetFromKey, OperatorFromKey, TargetNamed, OperatorNamed, Trim, ValidFor, KindOf;
    hide RefusedAs;
    var target, op := TargetFromKey(Trim(raw.target)), OperatorFromKey(Trim(raw.op));
    forall t
      ensures target == Some(t) <==> TargetNamed(raw.target, t)
    {
      TargetMeaning(raw.target, t);
    }
    forall o
      ensures op == Some(o) <==> OperatorNamed(raw.op, o)
    {
      OperatorMeaning(raw.op, o);
    }
    if target.Some? && op.Some? {
      assert TargetNamed(raw.target, target.value) && OperatorNamed(raw.op, op.value);
      ValuesRefused(g, k, raw, target.value, op.value, reason, regexCompiles);
    }
  }

  lemma ValuesRefused(g: nat, k: nat, raw: ConditionInput, t: Target, op: Operator, reason: Reason,
                      regexCompiles: string -> bool)
    requires TargetFromKey(Trim(raw.target)) == Some(t) && OperatorFromKey(Trim(raw.op)) == Some(op)
    ensures ValidateCondition(g, k, raw, regexCompiles) == Err(reason, g, k)
       <==> RefusedAs(raw, t, op, reason, regexCompiles)
  {
    hide NormalizeValue, Stores, TargetFromKey, OperatorFromKey, Trim, ValidFor, KindOf, Storable;
    StorableMeaning(KindOf(t), op, raw.value);
    if raw.valueEnd.Some? {
      StorableMeaning(KindOf(t), op, raw.valueEnd.value);
    }
    if v :| Stores(KindOf(t), op, raw.value, v) && !regexCompiles(ScalarOf(v)) {
      StoredIsOne(KindOf(t), op, raw.value, v);
    }
  }

  // ---- whole rules ----

  ghost predicate AllStored(raws: seq<ConditionInput>, cs: seq<Condition>, regexCompiles: string -> bool) {
    |raws| == |cs| && forall j :: 0 <= j < |raws| ==> IsStored(raws[j], cs[j], regexCompiles)
  }

  ghost predicate IsFine(raw: ConditionInput, regexCompiles: string -> bool) {
    exists c :: IsStored(raw, c, regexCompiles)
  }

  /** Number `n`, counted from 0, is the first that cannot be stored. */
  ghost predicate FirstRefused(raws: seq<ConditionInput>, n: int, reason: Reason, regexCompiles: string -> bool) {
    && 0 <= n < |raws| && Refused(raws[n], reason, regexCompiles)
    && forall j :: 0 <= j < n ==> IsFine(raws[j], regexCompiles)
  }

  lemma FineMeaning(g: nat, k: nat, raw: ConditionInput, regexCompiles: string -> bool)
    ensures IsFine(raw, regexCompiles) <==> ValidateCondition(g, k, raw, regexCompiles).Ok?
  {
    hide ValidateCondition, IsStored;
    var r := ValidateCondition(g, k, raw, regexCompiles);
    if r.Ok? {
      ConditionStored(g, k, raw, r.value, regexCompiles);
    }
    if c :| IsStored(raw, c, regexCompiles) {
      ConditionStored(g, k, raw, c, regexCompiles);
    }
  }

  lemma {:induction false} ConditionsStored(g: nat, k: nat, raws: seq<ConditionInput>, cs: seq<Condition>,
                                            regexCompiles: string -> bool)
    ensures ValidateConditions(g, k, raws, regexCompiles) == Ok(cs) <==> AllStored(raws, cs, regexCompiles)
    decreases raws
  {
    hide ValidateCondition, IsStored;
    if raws != [] && cs != [] {
      ConditionStored(g, k, raws[0], cs[0], regexCompiles);
      ConditionsStored(g, k + 1, raws[1..], cs[1..], regexCompiles);
      assert cs == [cs[0]] + cs[1..];
      assert AllStored(raws, cs, regexCompiles) <==>
        IsStored(raws[0], cs[0], regexCompiles) && AllStored(raws[1..], cs[1..], regexCompiles) by {
        assert forall j :: 0 < j < |raws| ==> raws[j] == raws[1..][j - 1];
        assert forall j :: 0 < j < |cs| ==> cs[j] == cs[1..][j - 1];
        assert forall j :: 0 <= j < |raws| - 1 ==> raws[1..][j] == raws[j + 1];
        assert forall j :: 0 <= j < |cs| - 1 ==> cs[1..][j] == cs[j + 1];
      }
    }
  }

  lemma {:induction false} ConditionsRefused(g: nat, k: nat, raws: seq<ConditionInput>, reason: Reason, at: nat,
                                             regexCompiles: string -> bool)
    ensures ValidateConditions(g, k, raws, regexCompiles) == Err(reason, g, at)
       <==> FirstRefused(raws, at - k, reason, regexCompiles)
    ensures var r := ValidateConditions(g, k, raws, regexCompiles); r.Err? ==> r.group == g
    decreases raws
  {
    hide ValidateCondition, Refused, IsFine;
    if raws != [] {
      var rest := raws[1..];
      FineMeaning(g, k, raws[0], regexCompiles);
      ConditionRefused(g, k, raws[0], reason, regexCompiles);
      ConditionsRefused(g, k + 1, rest, reason, at, regexCompiles);
      assert forall j :: 0 < j < |raws| ==> raws[j] == rest[j - 1];
      assert forall j :: 0 <= j < |rest| ==> rest[j] == raws[j + 1];
      if IsFine(raws[0], regexCompiles) {
        assert FirstRefused(raws, at - k, reason, regexCompiles) ==> at != k by {
          NotBoth(g, k, raws[0], reason, regexCompiles);
        }
      }
    }
  }

  lemma NotBoth(g: nat, k: nat, raw: ConditionInput, reason: Reason, regexCompiles: string -> bool)
    ensures IsFine(raw, regexCompiles) ==> !Refused(raw, reason, regexCompiles)
  {
    hide ValidateCondition, Refused, IsFine;
    FineMeaning(g, k, raw, regexCompiles);
    ConditionRefused(g, k, raw, reason, regexCompiles);
  }

  ghost predicate GroupStored(raws: seq<ConditionInput>, cs: seq<Condition>, regexCompiles: string -> bool) {
    1 <= |raws| <= 12 && AllStored(raws, cs, regexCompiles)
  }

  /** Condition 0 stands for the group itself. */
  ghost predicate GroupRefused(raws: seq<ConditionInput>, reason: Reason, k: int, regexCompiles: string -> bool) {
    if raws == [] then reason == EmptyGroup && k == 0
    else if |raws| > 12 then reason == TooManyConditions && k == 0
    else FirstRefused(raws, k - 1, reason, regexCompiles)
  }

  ghost predicate GroupFine(raws: seq<ConditionInput>, regexCompiles: string -> bool) {
    exists cs :: GroupStored(raws, cs, regexCompiles)
  }

  lemma GroupStoredMeaning(g: nat, raws: seq<ConditionInput>, cs: seq<Condition>, regexCompiles: string -> bool)
    ensures ValidateGroup(g, raws, regexCompiles) == Ok(cs) <==> GroupStored(raws, cs, regexCompiles)
  {
    hide ValidateConditions, AllStored;
    ConditionsStored(g, 1, raws, cs, regexCompiles);
  }

  lemma GroupRefusedMeaning(g: nat, raws: seq<ConditionInput>, reason: Reason, k: nat, regexCompiles: string -> bool)
    ensures ValidateGroup(g, raws, regexCompiles) == Err(reason, g, k) <==> GroupRefused(raws, reason, k, regexCompiles)
    ensures var r := ValidateGroup(g, raws, regexCompiles); r.Err? ==> r.group == g
    ensures GroupFine(raws, regexCompiles) <==> ValidateGroup(g, raws, regexCompiles).Ok?
  {
    hide ValidateConditions, FirstRefused, GroupStored;
    ConditionsRefused(g, 1, raws, reason, k, regexCompiles);
    var r := ValidateGroup(g, raws, regexCompiles);
    if r.Ok? {
      GroupStoredMeaning(g, raws, r.value, regexCompiles);
    }
    if cs :| GroupStored(raws, cs, regexCompiles) {
      GroupStoredMeaning(g, raws, cs, regexCompiles);
    }
  }

  ghost predicate GroupsStored(raws: seq<seq<ConditionInput>>, gs: seq<seq<Condition>>, regexCompiles: string -> bool) {
    |raws| == |gs| && forall j :: 0 <= j < |raws| ==> GroupStored(raws[j], gs[j], regexCompiles)
  }

  /** Group number `n`, counted from 0, is the first with something wrong, and this is what. */
  ghost predicate FirstGroupRefused(raws: seq<seq<ConditionInput>>, n: int, reason: Reason, k: int,
                                    regexCompiles: string -> bool) {
    && 0 <= n < |raws| && GroupRefused(raws[n], reason, k, regexCompiles)
    && forall j :: 0 <= j < n ==> GroupFine(raws[j], regexCompiles)
  }

  lemma {:induction false} GroupsStoredMeaning(g: nat, raws: seq<seq<ConditionInput>>, gs: seq<seq<Condition>>,
                                               regexCompiles: string -> bool)
    ensures ValidateGroups(g, raws, regexCompiles) == Ok(gs) <==> GroupsStored(raws, gs, regexCompiles)
    decreases raws
  {
    hide ValidateGroup, GroupStored;
    if raws != [] && gs != [] {
      GroupStoredMeaning(g, raws[0], gs[0], regexCompiles);
      GroupsStoredMeaning(g + 1, raws[1..], gs[1..], regexCompiles);
      assert gs == [gs[0]] + gs[1..];
      assert GroupsStored(raws, gs, regexCompiles) <==>
        GroupStored(raws[0], gs[0], regexCompiles) && GroupsStored(raws[1..], gs[1..], regexCompiles) by {
        assert forall j :: 0 < j < |raws| ==> raws[j] == raws[1..][j - 1];
        assert forall j :: 0 < j < |gs| ==> gs[j] == gs[1..][j - 1];
        assert forall j :: 0 <= j < |raws| - 1 ==> raws[1..][j] == raws[j + 1];
        assert forall j :: 0 <= j < |gs| - 1 ==> gs[1..][j] == gs[j + 1];
      }
    }
  }

  lemma {:induction false} GroupsRefusedMeaning(g: nat, raws: seq<seq<ConditionInput>>, reason: Reason, at: nat, k: nat,
                                                regexCompiles: string -> bool)
    ensures ValidateGroups(g, raws, regexCompiles) == Err(reason, at, k)
       <==> FirstGroupRefused(raws, at - g, reason, k, regexCompiles)
    decreases raws
  {
    hide ValidateGroup, GroupRefused, GroupFine;
    if raws != [] {
      var rest := raws[1..];
      GroupRefusedMeaning(g, raws[0], reason, k, regexCompiles);
      GroupsRefusedMeaning(g + 1, rest, reason, at, k, regexCompiles);
      assert forall j :: 0 < j < |raws| ==> raws[j] == rest[j - 1];
      assert forall j :: 0 <= j < |rest| ==> rest[j] == raws[j + 1];
    }
  }

  ghost predicate ModeIs(mode: Option<string>, m: Mode) {
    if mode == None || Blanks(mode.value) then m == Osu
    else exists name :: Around(mode.value, name) && ModeFromKey(name) == Some(m)
  }

  /** The rule stored for a body. */
  ghost predicate RuleStored(body: Body, tree: RuleTree, regexCompiles: string -> bool) {
    && ModeIs(body.mode, tree.mode) && tree.grantOnAny == body.grantOnAny
    && if body.grantOnAny then tree.groups == []
       else 1 <= |body.groups| <= 8 && GroupsStored(body.groups, tree.groups, regexCompiles)
  }

  /** What is said of a body that cannot be stored: the first problem in reading order, with its group and condition. */
  ghost predicate RuleRefused(body: Body, reason: Reason, g: nat, k: nat, regexCompiles: string -> bool) {
    if !exists m :: ModeIs(body.mode, m) then reason == UnknownMode && g == k == 0
    else if body.grantOnAny then false
    else if body.groups == [] then reason == NoGroups && g == k == 0
    else if |body.groups| > 8 then reason == TooManyGroups && g == k == 0
    else FirstGroupRefused(body.groups, g - 1, reason, k, regexCompiles)
  }

  /** Validation, exactly: which rule is stored for a body, and which bodies are refused, for what, and where. */
  lemma RuleMeaning(body: Body, tree: RuleTree, reason: Reason, g: nat, k: nat, regexCompiles: string -> bool)
    ensures ParseTree(body, regexCompiles) == Ok(tree) <==> RuleStored(body, tree, regexCompiles)
    ensures ParseTree(body, regexCompiles) == Err(reason, g, k) <==> RuleRefused(body, reason, g, k, regexCompiles)
  {
    hide ValidateGroups, GroupsStored, FirstGroupRefused, ParseMode, ModeIs;
    forall m
      ensures ParseMode(body.mode) == Some(m) <==> ModeIs(body.mode, m)
    {
      ModeMeant(body.mode, m);
    }
    GroupsStoredMeaning(1, body.groups, tree.groups, regexCompiles);
    GroupsRefusedMeaning(1, body.groups, reason, g, k, regexCompiles);
  }

  lemma ModeMeant(mode: Option<string>, m: Mode)
    ensures ParseMode(mode) == Some(m) <==> ModeIs(mode, m)
  {
    hide ParseMode;
    ModeMeaning(mode, m);
  }
}
