/**
  What the two syncs keep over whole runs, with any answers from RoleLogic: no assignment outlives its link, every link
  carries a checked rule, and the mirror equals the remote list exactly as long as every registration meets it so.
  */
module SyncSafety {
  import opened Text
  import opened Rule
  import opened Schema
  import opened RoleLogic
  import opened Ordering
  import opened SyncEngine
  import RuleValidator

  const EMPTY := World(map[], map[], {}, map[])

  /** The foreign key holds, and RoleLogic is taken to hold lists for exactly the links with a row. */
  ghost predicate Tied(w: World) {
    (forall a :: a in w.assignments ==> a.link in w.links) && w.remote.Keys == w.links.Keys
  }

  /** For every link RoleLogic's list is the mirror. */
  ghost predicate InStep(w: World) {
    forall l :: l in w.links && l in w.remote ==> w.remote[l] == Mirror(w, l)
  }

  predicate Checked(tree: RuleTree, regexCompiles: string -> bool) {
    tree == UNCONFIGURED || WellFormed(tree, regexCompiles)
  }

  ghost predicate AllChecked(w: World, regexCompiles: string -> bool) {
    forall l :: l in w.links ==> Checked(w.links[l], regexCompiles)
  }

  /** A link's own state: its rule if it has a row, its mirror, and RoleLogic's list if there is one. */
  datatype LinkState = LinkState(rule: Option<RuleTree>, mirror: set<Id>, remote: Option<set<Id>>)

  const GONE := LinkState(None, {}, None)

  function StateOf(w: World, l: LinkId): LinkState {
    LinkState(if l in w.links then Some(w.links[l]) else None, Mirror(w, l),
              if l in w.remote then Some(w.remote[l]) else None)
  }

  // ---- one link at a time ----

  /** What one player's effect does to one link. */
  function EffectOn(s: LinkState, who: Id, e: Effect): LinkState {
    match e
    case Nothing => s
    case Gone => GONE
    case Added => LinkState(s.rule, s.mirror + {who}, if s.remote.Some? then Some(s.remote.value + {who}) else None)
    case Removed => LinkState(s.rule, s.mirror - {who}, if s.remote.Some? then Some(s.remote.value - {who}) else None)
  }

  lemma MirrorAfter(w: World, who: Id, effects: map<LinkId, Effect>, l: LinkId)
    ensures Mirror(PerformAll(w, who, effects), l) ==
      if l !in effects then Mirror(w, l) else EffectOn(StateOf(w, l), who, effects[l]).mirror
  {
    var before, after := Mirror(w, l), Mirror(PerformAll(w, who, effects), l);
    forall id
      ensures id in after <==>
        (id in before && Survives(Assignment(l, id), who, effects)) || (HasEffect(effects, l, Added) && id == who)
    {
      if id in before {
        assert Assignment(l, id) in w.assignments;
      }
      if id in after {
        assert Assignment(l, id) in AssignmentsAfter(w, who, effects);
      }
      if id in before && Survives(Assignment(l, id), who, effects) {
        assert Assignment(l, id) in AssignmentsAfter(w, who, effects);
      }
      if HasEffect(effects, l, Added) {
        assert Assignment(l, who) in AssignmentsAfter(w, who, effects);
      }
    }
  }

  lemma StateAfter(w: World, who: Id, effects: map<LinkId, Effect>, l: LinkId)
    ensures StateOf(PerformAll(w, who, effects), l) ==
      if l in effects then EffectOn(StateOf(w, l), who, effects[l]) else StateOf(w, l)
  {
    hide Mirror, AssignmentsAfter;
    MirrorAfter(w, who, effects, l);
  }

  /**
    A player sync, link by link.  A link outside the player's guilds, or already right, is left alone.  Otherwise
    RoleLogic's answer decides: an accepted request moves mirror and remote list together, "link gone" removes the link
    with its whole mirror, and any other refusal or silence changes nothing.
    */
  lemma PlayerSyncPerLink(w: World, cx: Context, who: Id, guilds: set<string>, replies: LinkId -> Http, l: LinkId)
    ensures var (after, r) := PlayerSync(w, cx, who, Some(guilds), replies);
      var was, now := StateOf(w, l), StateOf(after, l);
      && r == Ok && after.users == w.users
      && (l in w.links && l.guild in guilds && ActionFor(w, cx, who, l) != Keep ==>
            var wanted := Qualifies(w, cx, who, w.links[l]);
            var answer := if wanted then AddUser(replies(l)) else Plain(replies(l));
            match answer
            case Ok =>
              && now.rule == was.rule
              && now.mirror == (if wanted then was.mirror + {who} else was.mirror - {who})
              && (was.remote.Some? <==> now.remote.Some?)
              && (was.remote.Some? ==>
                    now.remote.value == (if wanted then was.remote.value + {who} else was.remote.value - {who}))
            case Err(RoleLinkNotFound) => now == GONE
            case Err(_) => now == was)
      && (!(l in w.links && l.guild in guilds && ActionFor(w, cx, who, l) != Keep) ==> now == was)
  {
    hide Mirror, AssignmentsAfter, LinksAfter, RemoteAfter, Qualifies;
    var effects := EffectsFor(w, cx, who, guilds, replies);
    StateAfter(w, who, effects, l);
    if l in w.links {
      assert l in effects <==> l.guild in guilds;
    }
  }

  // ---- bulk sync, link by link ----

  lemma DropState(w: World, l: LinkId, k: LinkId)
    ensures StateOf(DropLink(w, l), k) == if k == l then GONE else StateOf(w, k)
  {
  }

  lemma ReplaceState(w: World, l: LinkId, ids: seq<Id>, replies: Replies, k: LinkId)
    requires l in w.links
    ensures var was, now := StateOf(w, k), StateOf(Replace(w, l, ids, replies).world, k);
      if k != l then now == was
      else
        match UploadResult(ids, replies)
        case Ok => now == LinkState(was.rule, Members(ids), Some(Members(ids)))
        case Err(RoleLinkNotFound) => now == GONE
        case Err(_) => now == was
  {
  }

  /** Is everything a bulk sync needs besides the upload itself at hand? */
  predicate Readable(tree: RuleTree, roster: Option<seq<Id>>, info: Info) {
    (!tree.grantOnAny && tree.groups == []) || (roster.Some? && (roster.value == [] || info.Limit?))
  }

  /** The list a bulk sync wants: nobody for an unconfigured rule or an empty guild, else whom the query selects. */
  ghost function Wanted(w: World, cx: Context, tree: RuleTree, roster: Option<seq<Id>>, info: Info): seq<Id>
    requires Readable(tree, roster, info)
  {
    if (!tree.grantOnAny && tree.groups == []) || roster.value == [] then []
    else FirstOf(Selected(w, cx, tree, roster.value, info.n), info.n)
  }

  lemma WantedSorted(w: World, cx: Context, tree: RuleTree, roster: Option<seq<Id>>, info: Info)
    requires Readable(tree, roster, info)
    ensures var ids := Wanted(w, cx, tree, roster, info);
      ids == Ordered(Members(ids)) && StrictlySorted(ids)
  {
    hide Selected, FirstOf;
    var ids := Wanted(w, cx, tree, roster, info);
    if ids == [] {
      SortedIsOrdered(ids);
    } else {
      FirstOfSpec(Selected(w, cx, tree, roster.value, info.n), info.n);
    }
  }

  /** The skip test is an exact set comparison: a list is uploaded when, and only when, the mirror is not that set. */
  lemma BulkIsReplaceUnlessEqual(w: World, cx: Context, l: LinkId, roster: Option<seq<Id>>, info: Info,
                                 replies: Replies)
    requires l in w.links && Readable(w.links[l], roster, info)
    ensures var ids := Wanted(w, cx, w.links[l], roster, info);
      BulkSync(w, cx, l, roster, info, replies) ==
        if Mirror(w, l) == Members(ids) then Bulk(w, Ok, false) else Replace(w, l, ids, replies)
  {
    hide Selected, FirstOf, Ordered, Mirror, Replace;
    var ids := Wanted(w, cx, w.links[l], roster, info);
    WantedSorted(w, cx, w.links[l], roster, info);
    SameListSameSet(Mirror(w, l), Members(ids));
  }

  /**
    A bulk sync, link by link.  Other links are left alone.  The link itself is unchanged, or gone with its whole
    mirror, or its mirror and remote list are both the wanted list; a removal held by the owner, a disabled link and
    every failure leave it unchanged.
    */
  lemma BulkSyncPerLink(w: World, cx: Context, l: LinkId, roster: Option<seq<Id>>, info: Info, replies: Replies,
                        k: LinkId)
    ensures var b := BulkSync(w, cx, l, roster, info, replies);
      var was, now := StateOf(w, k), StateOf(b.world, k);
      && b.world.users == w.users
      && (k != l || l !in w.links ==> now == was)
      && (k == l && l in w.links && Readable(w.links[l], roster, info) ==>
            var ids := Wanted(w, cx, w.links[l], roster, info);
            if was.mirror == Members(ids) then now == was && !b.uploaded && b.outcome == Ok
            else
              match UploadResult(ids, replies)
              case Ok => now == LinkState(was.rule, Members(ids), Some(Members(ids))) && b.outcome == Ok
              case Err(RoleLinkNotFound) => now == GONE && b.outcome == Ok
              case Err(RoleLinkDisabled) => now == was && b.outcome == Ok
              case Err(RemovalHeld) => now == was && b.outcome == Ok
              case Err(e) => now == was && b.outcome == Err(e))
      && (k == l && l in w.links && !Readable(w.links[l], roster, info) ==>
            && !b.uploaded
            && if roster.Some? && Plain(info.h) == Err(RoleLinkNotFound) then now == GONE && b.outcome == Ok
               else now == was && (b.outcome == Ok <==> roster.Some? && Plain(info.h) == Err(RoleLinkDisabled)))
  {
    hide Selected, FirstOf, Ordered, Mirror, UploadResult, Wanted;
    if l in w.links {
      DropState(w, l, k);
      if Readable(w.links[l], roster, info) {
        var ids := Wanted(w, cx, w.links[l], roster, info);
        BulkIsReplaceUnlessEqual(w, cx, l, roster, info, replies);
        ReplaceState(w, l, ids, replies, k);
      }
    }
  }

  // ---- both syncs, by RoleLogic's answers ----

  /**
    A player sync, by status and body: an acted-on link moves if the request was accepted, is deleted if RoleLogic says
    403 "Invalid or revoked token", and stays as it was on everything else: disabled, paused, full, failed or silent.
    */
  lemma PlayerByAnswers(w: World, cx: Context, who: Id, guilds: set<string>, answer: LinkId -> Http, l: LinkId)
    ensures var was, now := StateOf(w, l), StateOf(PlayerSync(w, cx, who, Some(guilds), answer).0, l);
      if l !in w.links || l.guild !in guilds || (Qualifies(w, cx, who, w.links[l]) <==> who in was.mirror) then
        now == was
      else if SaysGone(answer(l)) then now == GONE
      else if !answer(l).Accepted? then now == was
      else if Qualifies(w, cx, who, w.links[l]) then
        now == LinkState(was.rule, was.mirror + {who},
                         if was.remote.Some? then Some(was.remote.value + {who}) else None)
      else
        now == LinkState(was.rule, was.mirror - {who},
                         if was.remote.Some? then Some(was.remote.value - {who}) else None)
  {
    hide PlayerSync, Qualifies, Plain, AddUser;
    PlayerSyncPerLink(w, cx, who, guilds, answer, l);
    RequestByAnswer(answer(l));
    assert Assignment(l, who) in w.assignments <==> who in Mirror(w, l);
  }

  /**
    A bulk sync, by status and body: what becomes of the link, and whether the job is done.  A link is deleted only on a
    403 "Invalid or revoked token"; disabled, paused or held it stays as it was and the job is done; on any other
    refusal or silence it stays as it was and the job has failed.
    */
  lemma BulkByAnswers(w: World, cx: Context, l: LinkId, roster: Option<seq<Id>>, info: Info, replies: Replies)
    requires l in w.links
    ensures var tree, was := w.links[l], StateOf(w, l);
      var b := BulkSync(w, cx, l, roster, info, replies);
      var now := StateOf(b.world, l);
      if !Readable(tree, roster, info) then
        if roster == None then now == was && b.outcome == Err(Other)
        else if SaysGone(info.h) then now == GONE && b.outcome == Ok
        else now == was && b.outcome == if SaysOff(info.h) then Ok else Err(Other)
      else
        var ids := Wanted(w, cx, tree, roster, info);
        if was.mirror == Members(ids) then now == was && b.outcome == Ok
        else
          match UploadFate(ids, replies)
          case Took => now == LinkState(was.rule, Members(ids), Some(Members(ids))) && b.outcome == Ok
          case Vanished => now == GONE && b.outcome == Ok
          case Postponed => now == was && b.outcome == Ok
          case Failed => now == was && b.outcome == Err(Other)
  {
    hide BulkSync, Wanted, UploadResult, UploadFate, Plain, AddUser, Mirror;
    BulkSyncPerLink(w, cx, l, roster, info, replies, l);
    if Readable(w.links[l], roster, info) {
      UploadByAnswers(Wanted(w, cx, w.links[l], roster, info), replies);
    } else {
      Unreadable(w, cx, l, roster, info, replies);
      if roster.Some? {
        RequestByAnswer(info.h);
      }
    }
  }

  lemma Unreadable(w: World, cx: Context, l: LinkId, roster: Option<seq<Id>>, info: Info, replies: Replies)
    requires l in w.links && !Readable(w.links[l], roster, info)
    ensures BulkSync(w, cx, l, roster, info, replies).outcome in {Ok, Err(Other)}
  {
    hide Selected, FirstOf, Ordered, Mirror;
  }

  // ---- whole runs ----

  /**
    Everything that touches the tables, one job or request at a time, and RoleLogic's lists as the plugin's requests
    leave them or a registration meets them: a link may be registered anew, and then `list` is what its new token stands
    for.
    */
  datatype Event =
    | SavePlayer(who: Id, player: Player)
    | DeletePlayer(who: Id)
    | Register(l: LinkId, list: set<Id>)
    | Unregister(l: LinkId)
    | SaveRule(l: LinkId, body: RuleValidator.Body)
    | RunPlayerSync(now: int, who: Id, guilds: Option<set<string>>, answer: LinkId -> Http)
    | RunBulkSync(now: int, l: LinkId, roster: Option<seq<Id>>, info: Info, replies: Replies)

  /** One regular-expression engine serves every save and every sync. */
  datatype Engines = Engines(compiles: string -> bool, matches: (string, string) -> bool)

  function At(now: int, en: Engines): Context {
    Context(now, en.compiles, en.matches)
  }

  ghost function Next(w: World, e: Event, en: Engines): World {
    match e
    case SavePlayer(who, player) => w.(users := w.users[who := player])
    case DeletePlayer(who) => w.(users := w.users - {who})
    case Register(l, list) =>
      // a row that is there already keeps its rule and its assignments
      w.(links := if l in w.links then w.links else w.links[l := UNCONFIGURED], remote := w.remote[l := list])
    case Unregister(l) => DropLink(w, l)
    case SaveRule(l, body) =>
      var parsed := RuleValidator.ParseTree(body, en.compiles);
      if l in w.links && parsed.Ok? then w.(links := w.links[l := parsed.value]) else w
    case RunPlayerSync(now, who, guilds, answer) => PlayerSync(w, At(now, en), who, guilds, answer).0
    case RunBulkSync(now, l, roster, info, replies) => BulkSync(w, At(now, en), l, roster, info, replies).world
  }

  /** A link registered for the first time comes without a rule, under which nobody qualifies. */
  lemma NewLinkGrantsNobody(w: World, l: LinkId, list: set<Id>, en: Engines, cx: Context, who: Id)
    ensures var after := Next(w, Register(l, list), en);
      && l in after.links
      && (l !in w.links ==> !Qualifies(after, cx, who, after.links[l]))
      && (l in w.links ==> after.links == w.links)
  {
  }

  ghost function Run(w: World, events: seq<Event>, en: Engines): World
    decreases events
  {
    if events == [] then w else Run(Next(w, events[0], en), events[1..], en)
  }

  /** One link of a tied world: no row, no mirror, no list; or a checked rule and a list. */
  predicate Kept(s: LinkState, compiles: string -> bool) {
    if s.rule == None then s == GONE else Checked(s.rule.value, compiles) && s.remote.Some?
  }

  predicate LinkInStep(s: LinkState) {
    s.remote == None || s.remote == Some(s.mirror)
  }

  lemma KeptEverywhere(w: World, compiles: string -> bool)
    ensures Tied(w) && AllChecked(w, compiles) <==> forall l :: Kept(StateOf(w, l), compiles)
  {
    hide Checked;
    if Tied(w) && AllChecked(w, compiles) {
      forall l
        ensures Kept(StateOf(w, l), compiles)
      {
        if l !in w.links {
          assert forall a :: a in w.assignments ==> a.link != l;
        }
      }
    }
    if forall l :: Kept(StateOf(w, l), compiles) {
      forall a | a in w.assignments
        ensures a.link in w.links
      {
        assert Kept(StateOf(w, a.link), compiles);
        assert a.who in Mirror(w, a.link);
      }
      forall l
        ensures (l in w.remote <==> l in w.links) && (l in w.links ==> Checked(w.links[l], compiles))
      {
        assert Kept(StateOf(w, l), compiles);
      }
    }
  }

  lemma InStepEverywhere(w: World)
    requires Tied(w)
    ensures InStep(w) <==> forall l :: LinkInStep(StateOf(w, l))
  {
    hide Mirror;
    if forall l :: LinkInStep(StateOf(w, l)) {
      forall l | l in w.links && l in w.remote
        ensures w.remote[l] == Mirror(w, l)
      {
        assert LinkInStep(StateOf(w, l));
      }
    }
  }

  /** What an event other than a sync does to one link. */
  lemma EventState(w: World, e: Event, en: Engines, l: LinkId)
    requires !e.RunPlayerSync? && !e.RunBulkSync?
    ensures var was, now := StateOf(w, l), StateOf(Next(w, e, en), l);
      match e
      case Register(k, list) =>
        now == if k != l then was
               else LinkState(if was.rule == None then Some(UNCONFIGURED) else was.rule, was.mirror, Some(list))
      case Unregister(k) => now == if k == l then GONE else was
      case SaveRule(k, body) => now == was || (was.rule.Some? && now.rule.Some? && now == was.(rule := now.rule)
        && RuleValidator.ParseTree(body, en.compiles) == RuleValidator.Ok(now.rule.value))
      case _ => now == was
  {
    hide RuleValidator.ParseTree;
    match e
    case Unregister(k) => DropState(w, k, l);
    case SavePlayer(_, _) =>
    case DeletePlayer(_) =>
    case Register(_, _) => assert Mirror(Next(w, e, en), l) == Mirror(w, l);
    case SaveRule(_, _) => assert Mirror(Next(w, e, en), l) == Mirror(w, l);
  }

  lemma NothingRead(w: World, cx: Context, who: Id, guilds: Option<set<string>>, answer: LinkId -> Http)
    requires guilds.None?
    ensures PlayerSync(w, cx, who, guilds, answer) == (w, Err(Other))
  {
  }

  lemma StepKept(w: World, e: Event, en: Engines, l: LinkId)
    requires Kept(StateOf(w, l), en.compiles)
    ensures Kept(StateOf(Next(w, e, en), l), en.compiles)
  {
    hide WellFormed, RuleValidator.ParseTree, PerformAll, EffectsFor, BulkSync, Wanted, Qualifies, UploadResult, Mirror;
    match e
    case RunPlayerSync(now, who, guilds, answer) =>
      if guilds.Some? {
        PlayerSyncPerLink(w, At(now, en), who, guilds.value, answer, l);
      } else {
        NothingRead(w, At(now, en), who, guilds, answer);
      }
    case RunBulkSync(now, k, roster, info, replies) => BulkSyncPerLink(w, At(now, en), k, roster, info, replies, l);
    case SaveRule(_, body) =>
      EventState(w, e, en, l);
      RuleValidator.ParseSound(body, en.compiles);
    case _ => EventState(w, e, en, l);
  }

  /** Does a registration meet the list the mirror calls for?  For a link without a row that is the empty list. */
  predicate Meets(w: World, e: Event) {
    e.Register? ==> e.list == Mirror(w, e.l)
  }

  lemma StepInStep(w: World, e: Event, en: Engines, l: LinkId)
    requires LinkInStep(StateOf(w, l))
    ensures if e.Register? && e.l == l then LinkInStep(StateOf(Next(w, e, en), l)) <==> Meets(w, e)
            else LinkInStep(StateOf(Next(w, e, en), l))
  {
    hide RuleValidator.ParseTree, PerformAll, EffectsFor, BulkSync, Wanted, Qualifies, UploadResult, Mirror;
    match e
    case RunPlayerSync(now, who, guilds, answer) =>
      if guilds.Some? {
        PlayerSyncPerLink(w, At(now, en), who, guilds.value, answer, l);
      } else {
        NothingRead(w, At(now, en), who, guilds, answer);
      }
    case RunBulkSync(now, k, roster, info, replies) => BulkSyncPerLink(w, At(now, en), k, roster, info, replies, l);
    case _ => EventState(w, e, en, l);
  }

  lemma NextKept(w: World, e: Event, en: Engines)
    requires Tied(w) && AllChecked(w, en.compiles)
    ensures Tied(Next(w, e, en)) && AllChecked(Next(w, e, en), en.compiles)
  {
    hide Tied, AllChecked, Next, Kept;
    KeptEverywhere(w, en.compiles);
    forall l
      ensures Kept(StateOf(Next(w, e, en), l), en.compiles)
    {
      StepKept(w, e, en, l);
    }
    KeptEverywhere(Next(w, e, en), en.compiles);
  }

  /** An event takes a world in step to one in step exactly when it is no registration, or one that meets the mirror. */
  lemma NextInStep(w: World, e: Event, en: Engines)
    requires Tied(w) && AllChecked(w, en.compiles) && InStep(w)
    ensures InStep(Next(w, e, en)) <==> Meets(w, e)
  {
    hide Tied, AllChecked, InStep, Next, LinkInStep, Meets, Mirror;
    NextKept(w, e, en);
    InStepEverywhere(w);
    InStepEverywhere(Next(w, e, en));
    forall l
      ensures if e.Register? && e.l == l then LinkInStep(StateOf(Next(w, e, en), l)) <==> Meets(w, e)
              else LinkInStep(StateOf(Next(w, e, en), l))
    {
      StepInStep(w, e, en, l);
    }
    OnlyRegistrationsMeet(w, e);
    if e.Register? && !Meets(w, e) {
      assert !LinkInStep(StateOf(Next(w, e, en), e.l));
    }
  }

  lemma OnlyRegistrationsMeet(w: World, e: Event)
    ensures !e.Register? ==> Meets(w, e)
  {
  }

  /**
    Whatever is saved, registered, removed or synced, in whatever order, and whatever RoleLogic answers: no assignment
    outlives its link, and every stored rule is one the validator accepted.
    */
  lemma {:induction false} RunsKeepTables(w: World, events: seq<Event>, en: Engines)
    requires Tied(w) && AllChecked(w, en.compiles)
    ensures Tied(Run(w, events, en)) && AllChecked(Run(w, events, en), en.compiles)
    decreases events
  {
    hide Tied, AllChecked, Next;
    if events != [] {
      NextKept(w, events[0], en);
      RunsKeepTables(Next(w, events[0], en), events[1..], en);
    }
  }

  /** A link goes only with its registration, or on a 403 "Invalid or revoked token" to a request for it. */
  lemma LinksGoOnlyWhenTold(w: World, e: Event, en: Engines, l: LinkId)
    requires l in w.links && l !in Next(w, e, en).links
    ensures
      || e == Unregister(l)
      || (e.RunPlayerSync? && e.guilds.Some? && l.guild in e.guilds.value && SaysGone(e.answer(l)))
      || (e.RunBulkSync? && e.l == l
          && ((e.info.NoInfo? && SaysGone(e.info.h)) || SaysGone(e.replies.put) || SaysGone(e.replies.start)))
  {
    hide RuleValidator.ParseTree, PerformAll, EffectsFor, BulkSync, Wanted, Qualifies, UploadResult, Mirror, SaysGone;
    match e
    case RunPlayerSync(now, who, guilds, answer) =>
      if guilds.Some? {
        PlayerByAnswers(w, At(now, en), who, guilds.value, answer, l);
      } else {
        NothingRead(w, At(now, en), who, guilds, answer);
      }
    case RunBulkSync(now, k, roster, info, replies) =>
      BulkSyncPerLink(w, At(now, en), k, roster, info, replies, l);
      if k == l {
        BulkByAnswers(w, At(now, en), l, roster, info, replies);
      }
    case _ => EventState(w, e, en, l);
  }

  ghost predicate AlwaysInStep(w: World, events: seq<Event>, en: Engines)
    decreases events
  {
    InStep(w) && (events != [] ==> AlwaysInStep(Next(w, events[0], en), events[1..], en))
  }

  ghost predicate RegistrationsMeet(w: World, events: seq<Event>, en: Engines)
    decreases events
  {
    events != [] ==> Meets(w, events[0]) && RegistrationsMeet(Next(w, events[0], en), events[1..], en)
  }

  /**
    Mirror safety: over a whole run, with any answers from RoleLogic, mirrors and lists never part, exactly if every
    registration meets the list its link's mirror calls for.
    */
  lemma {:induction false} MirrorsMatchExactly(w: World, events: seq<Event>, en: Engines)
    requires Tied(w) && AllChecked(w, en.compiles) && InStep(w)
    ensures AlwaysInStep(w, events, en) <==> RegistrationsMeet(w, events, en)
    ensures RegistrationsMeet(w, events, en) ==> InStep(Run(w, events, en))
    decreases events
  {
    hide Tied, AllChecked, InStep, Next, Meets;
    if events != [] {
      var next := Next(w, events[0], en);
      NextKept(w, events[0], en);
      NextInStep(w, events[0], en);
      if InStep(next) {
        MirrorsMatchExactly(next, events[1..], en);
      } else {
        assert !AlwaysInStep(next, events[1..], en);
      }
    }
  }

  /** From empty tables on: rules and foreign keys always hold, mirrors match as long as registrations meet them. */
  lemma FromEmptyTables(events: seq<Event>, en: Engines)
    ensures Tied(Run(EMPTY, events, en)) && AllChecked(Run(EMPTY, events, en), en.compiles)
    ensures AlwaysInStep(EMPTY, events, en) <==> RegistrationsMeet(EMPTY, events, en)
  {
    assert Tied(EMPTY) && AllChecked(EMPTY, en.compiles) && InStep(EMPTY);
    RunsKeepTables(EMPTY, events, en);
    MirrorsMatchExactly(EMPTY, events, en);
  }
}
