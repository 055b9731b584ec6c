/** Where the two syncs lead: the same assignments, exactly when they can, and nothing more to do afterwards. */
module SyncConvergence {
  import opened Text
  import opened Rule
  import opened Schema
  import opened ConditionEval
  import opened CompilerProof
  import opened RoleLogic
  import opened Ordering
  import opened SyncEngine
  import opened SyncSafety
  import RuleValidator

  // ---- the compiled query and the interpreter pick the same members ----

  /** The roster's rows are ones on which the compiled rule and the interpreter are known to agree. */
  predicate Agreeable(w: World, now: int, tree: RuleTree, roster: seq<Id>) {
    forall who :: who in roster && who in w.users ==>
      var row := RowFor(w.users[who], tree.mode);
      TreeAgesAgree(tree, row, now) && (HasDegenerate(tree) ==> row.ou.countryCode.Some?)
  }

  function QualifyingMembers(w: World, cx: Context, tree: RuleTree, roster: seq<Id>): set<Id> {
    set who | who in roster && Qualifies(w, cx, who, tree)
  }

  /** One guild-wide query of the compiled rule selects the members whom the interpreter, one by one, lets in. */
  lemma SelectedIsQualifying(w: World, cx: Context, tree: RuleTree, roster: seq<Id>, limit: nat)
    requires Checked(tree, cx.regexCompiles) && (tree.grantOnAny || tree.groups != [])
    requires Agreeable(w, cx.now, tree, roster)
    ensures Selected(w, cx, tree, roster, limit) == QualifyingMembers(w, cx, tree, roster)
  {
    hide ClauseTrue, Evaluate, FactsOf, HasDegenerate, TreeAgesAgree;
    forall who | who in roster && who in w.users && !tree.grantOnAny
      ensures ClauseTrue(tree, RowFor(w.users[who], tree.mode), cx, QueryHead(tree, roster), [IntV(limit)])
         <==> Evaluate(tree, FactsOf(RowFor(w.users[who], tree.mode), cx.now), cx)
    {
      CompilerCorrect(tree, RowFor(w.users[who], tree.mode), cx, QueryHead(tree, roster), [IntV(limit)]);
    }
  }

  /** What a bulk sync wants is the longest listing of qualifying members the limit allows, least ids first. */
  lemma WantedIsFirstQualifying(w: World, cx: Context, tree: RuleTree, roster: seq<Id>, n: nat)
    requires Checked(tree, cx.regexCompiles) && Agreeable(w, cx.now, tree, roster)
    ensures Wanted(w, cx, tree, Some(roster), Limit(n)) == FirstOf(QualifyingMembers(w, cx, tree, roster), n)
  {
    hide Selected, Evaluate, FactsOf;
    if tree.grantOnAny || tree.groups != [] {
      SelectedIsQualifying(w, cx, tree, roster, n);
    }
    if (!tree.grantOnAny && tree.groups == []) || roster == [] {
      assert QualifyingMembers(w, cx, tree, roster) == {};
    }
  }

  // ---- every member synced one by one ----

  /** Player syncs one after another, each with the guilds the gateway reports for that player. */
  function SyncEach(w: World, cx: Context, order: seq<Id>, guildsOf: Id -> set<string>, replies: Id -> LinkId -> Http)
    : World
    decreases order
  {
    if order == [] then w
    else
      var who := order[0];
      SyncEach(PlayerSync(w, cx, who, Some(guildsOf(who)), replies(who)).0, cx, order[1..], guildsOf, replies)
  }

  lemma QualifiesAlike(w: World, v: World, cx: Context, who: Id, tree: RuleTree)
    requires v.users == w.users
    ensures Qualifies(v, cx, who, tree) == Qualifies(w, cx, who, tree)
  {
  }

  /** With RoleLogic accepting for this link, the players synced end up in the mirror exactly if they qualify. */
  lemma {:induction false} EachSynced(w: World, cx: Context, order: seq<Id>, guildsOf: Id -> set<string>,
                                      replies: Id -> LinkId -> Http, l: LinkId)
    requires l in w.links && forall who :: who in order ==> replies(who)(l) == Accepted
    ensures var v := SyncEach(w, cx, order, guildsOf, replies);
      && v.users == w.users && l in v.links && v.links[l] == w.links[l]
      && forall who :: who in Mirror(v, l) <==>
           if who in order && l.guild in guildsOf(who) then Qualifies(w, cx, who, w.links[l]) else who in Mirror(w, l)
    decreases order
  {
    hide Qualifies, PlayerSync;
    if order != [] {
      var first := order[0];
      var next := PlayerSync(w, cx, first, Some(guildsOf(first)), replies(first)).0;
      OneSynced(w, cx, first, guildsOf(first), replies(first), l);
      EachSynced(next, cx, order[1..], guildsOf, replies, l);
      forall who
        ensures Qualifies(next, cx, who, w.links[l]) == Qualifies(w, cx, who, w.links[l])
      {
        QualifiesAlike(w, next, cx, who, w.links[l]);
      }
    }
  }

  lemma OneSynced(w: World, cx: Context, who: Id, guilds: set<string>, replies: LinkId -> Http, l: LinkId)
    requires l in w.links && replies(l) == Accepted
    ensures var v := PlayerSync(w, cx, who, Some(guilds), replies).0;
      && v.users == w.users && l in v.links && v.links[l] == w.links[l]
      && forall id :: id in Mirror(v, l) <==>
           if id == who && l.guild in guilds then Qualifies(w, cx, who, w.links[l]) else id in Mirror(w, l)
  {
  }

  // ---- convergence ----

  /** RoleLogic takes a whole list, however it is sent. */
  ghost predicate TakesUploads(r: Replies) {
    r.put == Accepted && r.start == Accepted && r.idGiven && r.commit == Accepted && forall i :: r.chunk(i) == Accepted
  }

  lemma {:induction false} ChunksTaken(chunks: seq<seq<Id>>, i: nat, r: Replies)
    requires TakesUploads(r)
    ensures AllAccepted(chunks, i, r)
    decreases chunks
  {
    if chunks != [] {
      ChunksTaken(chunks[1..], i + 1, r);
    }
  }

  lemma UploadsTaken(ids: seq<Id>, r: Replies)
    requires TakesUploads(r)
    ensures UploadResult(ids, r) == Ok
  {
    ChunksTaken(Chunks(ids), 0, r);
  }

  /** Player syncs covering the guild leave its qualifying members in the mirror, and outsiders as they were. */
  lemma EachSyncedMirror(w: World, cx: Context, l: LinkId, roster: seq<Id>, order: seq<Id>, guildsOf: Id -> set<string>,
                         replies: Id -> LinkId -> Http)
    requires l in w.links && Members(roster) <= Members(order)
    requires forall who :: who in roster <==> l.guild in guildsOf(who)
    requires forall who :: who in order ==> replies(who)(l) == Accepted
    ensures Mirror(SyncEach(w, cx, order, guildsOf, replies), l)
         == (Mirror(w, l) - Members(roster)) + QualifyingMembers(w, cx, w.links[l], roster)
  {
    hide Qualifies, Mirror, SyncEach;
    EachSynced(w, cx, order, guildsOf, replies, l);
    forall who
      ensures who in Mirror(SyncEach(w, cx, order, guildsOf, replies), l)
         <==> who in (Mirror(w, l) - Members(roster)) + QualifyingMembers(w, cx, w.links[l], roster)
    {
      assert who in roster ==> who in Members(order);
    }
  }

  lemma BulkSyncedMirror(w: World, cx: Context, l: LinkId, roster: seq<Id>, n: nat, replies: Replies)
    requires l in w.links && Checked(w.links[l], cx.regexCompiles) && Agreeable(w, cx.now, w.links[l], roster)
    requires TakesUploads(replies)
    ensures Mirror(BulkSync(w, cx, l, Some(roster), Limit(n), replies).world, l)
         == Members(FirstOf(QualifyingMembers(w, cx, w.links[l], roster), n))
  {
    hide QualifyingMembers, BulkSync, Wanted, FirstOf, Checked, Agreeable, Mirror, UploadResult, TakesUploads;
    WantedIsFirstQualifying(w, cx, w.links[l], roster, n);
    UploadsTaken(FirstOf(QualifyingMembers(w, cx, w.links[l], roster), n), replies);
    BulkSyncPerLink(w, cx, l, Some(roster), Limit(n), replies, l);
    assert StateOf(w, l).mirror == Mirror(w, l);
    assert StateOf(BulkSync(w, cx, l, Some(roster), Limit(n), replies).world, l).mirror
        == Mirror(BulkSync(w, cx, l, Some(roster), Limit(n), replies).world, l);
  }

  /**
    Convergence: syncing every member of the guild player by player, in any order and with anyone else in between, gives
    the link the same assignments as one bulk sync exactly when nobody outside the guild was assigned before and the
    qualifying members fit the limit.  Other links may meet any refusal meanwhile.
    */
  lemma Converges(w: World, cx: Context, l: LinkId, roster: seq<Id>, n: nat, order: seq<Id>,
                  guildsOf: Id -> set<string>, replies: Id -> LinkId -> Http, bulk: Replies)
    requires l in w.links && Checked(w.links[l], cx.regexCompiles) && Agreeable(w, cx.now, w.links[l], roster)
    requires forall who :: who in roster <==> l.guild in guildsOf(who)
    requires Members(roster) <= Members(order)
    requires (forall who :: who in order ==> replies(who)(l) == Accepted) && TakesUploads(bulk)
    ensures var qualifying := QualifyingMembers(w, cx, w.links[l], roster);
      Mirror(SyncEach(w, cx, order, guildsOf, replies), l)
        == Mirror(BulkSync(w, cx, l, Some(roster), Limit(n), bulk).world, l)
      <==> Mirror(w, l) <= Members(roster) && |qualifying| <= n
  {
    hide Qualifies, BulkSync, FirstOf, Checked, Agreeable, Mirror, SyncEach, TakesUploads;
    var qualifying := QualifyingMembers(w, cx, w.links[l], roster);
    EachSyncedMirror(w, cx, l, roster, order, guildsOf, replies);
    BulkSyncedMirror(w, cx, l, roster, n, bulk);
    FirstOfSpec(qualifying, n);
    var first := Members(FirstOf(qualifying, n));
    assert first <= qualifying <= Members(roster);
    if (Mirror(w, l) - Members(roster)) + qualifying == first {
      assert qualifying == first;
      forall m | m in Mirror(w, l)
        ensures m in Members(roster)
      {
        assert m !in Members(roster) ==> m in first;
      }
    } else if Mirror(w, l) <= Members(roster) {
      assert Mirror(w, l) - Members(roster) == {};
    }
  }

  lemma {:induction false} EachSyncedInStep(w: World, cx: Context, l: LinkId, order: seq<Id>,
                                            guildsOf: Id -> set<string>, replies: Id -> LinkId -> Http)
    requires var s := StateOf(w, l); s == GONE || s.remote == Some(s.mirror)
    ensures var s := StateOf(SyncEach(w, cx, order, guildsOf, replies), l); s == GONE || s.remote == Some(s.mirror)
    decreases order
  {
    hide Mirror, Qualifies, PlayerSync;
    if order != [] {
      var who := order[0];
      var next := PlayerSync(w, cx, who, Some(guildsOf(who)), replies(who)).0;
      PlayerSyncPerLink(w, cx, who, guildsOf(who), replies(who), l);
      EachSyncedInStep(next, cx, l, order[1..], guildsOf, replies);
    }
  }

  /** And then RoleLogic's own lists come out the same as well, if the link was in step to begin with. */
  lemma ConvergesUpstream(w: World, cx: Context, l: LinkId, roster: seq<Id>, n: nat, order: seq<Id>,
                          guildsOf: Id -> set<string>, replies: Id -> LinkId -> Http, bulk: Replies)
    requires l in w.links && Checked(w.links[l], cx.regexCompiles) && Agreeable(w, cx.now, w.links[l], roster)
    requires StateOf(w, l).remote == Some(Mirror(w, l))
    requires forall who :: who in roster <==> l.guild in guildsOf(who)
    requires Members(roster) <= Members(order)
    requires (forall who :: who in order ==> replies(who)(l) == Accepted) && TakesUploads(bulk)
    ensures StateOf(SyncEach(w, cx, order, guildsOf, replies), l).remote
         == StateOf(BulkSync(w, cx, l, Some(roster), Limit(n), bulk).world, l).remote
       <==> Mirror(w, l) <= Members(roster) && |QualifyingMembers(w, cx, w.links[l], roster)| <= n
  {
    hide Qualifies, BulkSync, Wanted, Checked, Agreeable, Mirror, SyncEach, TakesUploads, UploadResult;
    hide QualifyingMembers;
    var v, b := SyncEach(w, cx, order, guildsOf, replies), BulkSync(w, cx, l, Some(roster), Limit(n), bulk).world;
    Converges(w, cx, l, roster, n, order, guildsOf, replies, bulk);
    EachSyncedInStep(w, cx, l, order, guildsOf, replies);
    EachSynced(w, cx, order, guildsOf, replies, l);
    UploadsTaken(Wanted(w, cx, w.links[l], Some(roster), Limit(n)), bulk);
    BulkSyncPerLink(w, cx, l, Some(roster), Limit(n), bulk, l);
    assert StateOf(v, l).remote == Some(Mirror(v, l)) && StateOf(b, l).remote == Some(Mirror(b, l));
  }

  // ---- nothing more to do ----

  lemma WantedAlike(w: World, v: World, cx: Context, tree: RuleTree, roster: Option<seq<Id>>, info: Info)
    requires v.users == w.users && Readable(tree, roster, info)
    ensures Wanted(v, cx, tree, roster, info) == Wanted(w, cx, tree, roster, info)
  {
  }

  /**
    A second bulk sync with unchanged inputs writes to RoleLogic only if the first one wanted to and was refused; else
    it changes nothing at all, whatever RoleLogic would have answered.
    */
  lemma SecondRunIdle(w: World, cx: Context, l: LinkId, roster: Option<seq<Id>>, info: Info,
                      first: Replies, second: Replies)
    requires l in w.links && Readable(w.links[l], roster, info)
    ensures var ids := Wanted(w, cx, w.links[l], roster, info);
      var after := BulkSync(w, cx, l, roster, info, first).world;
      var again := BulkSync(after, cx, l, roster, info, second);
      && (l in after.links ==> (again.uploaded <==> Mirror(w, l) != Members(ids) && UploadResult(ids, first) != Ok))
      && (!again.uploaded ==> again == Bulk(after, Ok, false))
  {
    hide Wanted, UploadResult, Mirror, BulkSync;
    var ids := Wanted(w, cx, w.links[l], roster, info);
    var after := BulkSync(w, cx, l, roster, info, first).world;
    BulkSyncPerLink(w, cx, l, roster, info, first, l);
    assert StateOf(w, l).mirror == Mirror(w, l) && StateOf(after, l).mirror == Mirror(after, l);
    if l in after.links {
      assert StateOf(after, l).rule == Some(after.links[l]);
      WantedAlike(w, after, cx, w.links[l], roster, info);
      BulkIsReplaceUnlessEqual(after, cx, l, roster, info, second);
      assert Replace(after, l, ids, second).uploaded;
    } else {
      assert BulkSync(after, cx, l, roster, info, second) == Bulk(after, Ok, false) by {
        Unregistered(after, cx, l, roster, info, second);
      }
    }
  }

  lemma Unregistered(w: World, cx: Context, l: LinkId, roster: Option<seq<Id>>, info: Info, replies: Replies)
    requires l !in w.links
    ensures BulkSync(w, cx, l, roster, info, replies) == Bulk(w, Ok, false)
  {
  }

  /**
    A bulk sync that RoleLogic accepts brings a list that had drifted from the mirror back in step only if the mirror
    itself needed changing: the skip test looks at the mirror alone.
    */
  lemma RepairsExactly(w: World, cx: Context, l: LinkId, roster: Option<seq<Id>>, info: Info, replies: Replies)
    requires l in w.links && Readable(w.links[l], roster, info) && TakesUploads(replies)
    ensures var after := StateOf(BulkSync(w, cx, l, roster, info, replies).world, l);
      after.remote == Some(after.mirror) <==>
        StateOf(w, l).remote == Some(Mirror(w, l)) || Mirror(w, l) != Members(Wanted(w, cx, w.links[l], roster, info))
  {
    hide Wanted, UploadResult, Mirror, BulkSync, TakesUploads;
    UploadsTaken(Wanted(w, cx, w.links[l], roster, info), replies);
    BulkSyncPerLink(w, cx, l, roster, info, replies, l);
  }

  /** After a registration that met another list than the mirror, so it is only while the mirror itself must change. */
  lemma RegistrationRepairedExactly(w: World, en: Engines, now: int, l: LinkId, list: set<Id>, roster: Option<seq<Id>>,
                                    info: Info, replies: Replies)
    requires l in w.links && list != Mirror(w, l) && Readable(w.links[l], roster, info) && TakesUploads(replies)
    ensures var met := Next(w, Register(l, list), en);
      var after := StateOf(Next(met, RunBulkSync(now, l, roster, info, replies), en), l);
      after.remote == Some(after.mirror) <==>
        Mirror(w, l) != Members(Wanted(w, At(now, en), w.links[l], roster, info))
  {
    hide Wanted, UploadResult, Mirror, BulkSync, TakesUploads;
    var met := Next(w, Register(l, list), en);
    EventState(w, Register(l, list), en, l);
    WantedAlike(w, met, At(now, en), w.links[l], roster, info);
    RepairsExactly(met, At(now, en), l, roster, info, replies);
  }

  /** A role for everyone who has linked an account. */
  const ANYONE := RuleValidator.Body(true, None, [])

  /**
    It happens, from empty tables on, with any player and link: the link is deleted upstream without the plugin hearing
    of it, and registered anew with an empty list.  The player stays in the mirror alone, however often a sync runs.
    */
  lemma StrandedByRegistration(en: Engines, now: int, l: LinkId, who: Id, player: Player, replies: Replies)
    requires TakesUploads(replies)
    ensures var sync := RunBulkSync(now, l, Some([who]), Limit(1), replies);
      var events := [SavePlayer(who, player), Register(l, {}), SaveRule(l, ANYONE), sync, Register(l, {})];
      var w := Run(EMPTY, events, en);
      && l in w.links && Mirror(w, l) == {who} && l in w.remote && w.remote[l] == {}
      && Next(w, sync, en) == w
  {
    var sync := RunBulkSync(now, l, Some([who]), Limit(1), replies);
    var ready := World(map[who := player], map[l := RuleTree(true, Osu, [])], {}, map[l := {}]);
    hide TakesUploads, RuleValidator.ParseTree;
    Readied(l, who, player, en);
    SyncedThenStranded(ready, en, now, l, who, replies);
    RunConcat(EMPTY, [SavePlayer(who, player), Register(l, {}), SaveRule(l, ANYONE)], [sync, Register(l, {})], en);
    assert [SavePlayer(who, player), Register(l, {}), SaveRule(l, ANYONE)] + [sync, Register(l, {})]
        == [SavePlayer(who, player), Register(l, {}), SaveRule(l, ANYONE), sync, Register(l, {})];
  }

  lemma Readied(l: LinkId, who: Id, player: Player, en: Engines)
    ensures Run(EMPTY, [SavePlayer(who, player), Register(l, {}), SaveRule(l, ANYONE)], en)
         == World(map[who := player], map[l := RuleTree(true, Osu, [])], {}, map[l := {}])
  {
    var a, b, c := SavePlayer(who, player), Register(l, {}), SaveRule(l, ANYONE);
    assert [a, b, c][1..] == [b, c] && [b, c][1..] == [c] && [c][1..] == [];
    var w1 := Next(EMPTY, a, en);
    var w2 := Next(w1, b, en);
    assert w2 == World(map[who := player], map[l := UNCONFIGURED], {}, map[l := {}]);
    assert Next(w2, c, en) == w2.(links := map[l := RuleTree(true, Osu, [])]);
    assert Run(w2, [c], en) == Next(w2, c, en);
    assert Run(w1, [b, c], en) == Run(w2, [c], en);
  }

  lemma SyncedThenStranded(w: World, en: Engines, now: int, l: LinkId, who: Id, replies: Replies)
    requires who in w.users && l in w.links && w.links[l] == RuleTree(true, Osu, []) && Mirror(w, l) == {}
    requires TakesUploads(replies)
    ensures var sync := RunBulkSync(now, l, Some([who]), Limit(1), replies);
      var v := Run(w, [sync, Register(l, {})], en);
      && StateOf(v, l) == LinkState(Some(w.links[l]), {who}, Some({}))
      && Next(v, sync, en) == v
  {
    hide TakesUploads, UploadResult, Wanted, Mirror, BulkSync, RuleValidator.ParseTree;
    var cx, roster := At(now, en), Some([who]);
    var sync := RunBulkSync(now, l, roster, Limit(1), replies);
    OneWanted(w, cx, who);
    UploadsTaken([who], replies);
    BulkSyncPerLink(w, cx, l, roster, Limit(1), replies, l);
    var synced := Next(w, sync, en);
    assert StateOf(synced, l) == LinkState(Some(w.links[l]), {who}, Some({who})) && synced.users == w.users;
    var v := Next(synced, Register(l, {}), en);
    EventState(synced, Register(l, {}), en, l);
    OneWanted(v, cx, who);
    BulkIsReplaceUnlessEqual(v, cx, l, roster, Limit(1), replies);
    assert [sync, Register(l, {})][1..] == [Register(l, {})] && [Register(l, {})][1..] == [];
    assert Run(synced, [Register(l, {})], en) == v;
  }

  lemma OneWanted(w: World, cx: Context, who: Id)
    requires who in w.users
    ensures Members(Wanted(w, cx, RuleTree(true, Osu, []), Some([who]), Limit(1))) == Members([who]) == {who}
    ensures Wanted(w, cx, RuleTree(true, Osu, []), Some([who]), Limit(1)) == [who]
  {
    hide FirstOf;
    assert Selected(w, cx, RuleTree(true, Osu, []), [who], 1) == {who};
    FirstOfSpec({who}, 1);
    SortedIsOrdered([who]);
  }

  lemma {:induction false} RunConcat(w: World, first: seq<Event>, rest: seq<Event>, en: Engines)
    ensures Run(w, first + rest, en) == Run(Run(w, first, en), rest, en)
    decreases first
  {
    hide Next;
    if first == [] {
      assert first + rest == rest;
    } else {
      assert (first + rest)[1..] == first[1..] + rest;
      RunConcat(Next(w, first[0], en), first[1..], rest, en);
    }
  }
}
