/**
  The sync engine: a local mirror of who has which role, kept in step with RoleLogic's own lists by a per-player delta
  and by a bulk replacement per role link.
  */
module SyncEngine {
  import opened Text
  import opened Rule
  import opened Schema
  import opened ConditionEval
  import opened CompilerProof
  import opened RoleLogic
  import opened Ordering

  datatype LinkId = LinkId(guild: string, role: string)

  datatype Player = Player(user: User, stats: map<Mode, Stats>)

  datatype Assignment = Assignment(link: LinkId, who: Id)

  /** The local tables, and the list RoleLogic holds for each link. */
  datatype World = World(users: map<Id, Player>, links: map<LinkId, RuleTree>, assignments: set<Assignment>,
                         remote: map<LinkId, set<Id>>)

  function RowFor(p: Player, mode: Mode): Row {
    Row(p.user, if mode in p.stats then Some(p.stats[mode]) else None)
  }

  /** A player is judged by the profile and by the stats of the rule's mode, or by none without such stats. */
  lemma JudgedInMode(p: Player, mode: Mode, now: int)
    ensures var f := FactsOf(RowFor(p, mode), now);
      && f.username == p.user.osuUsername && f.badgeCount == p.user.badgeCount
      && (mode in p.stats ==> var s := p.stats[mode];
          && f.globalRank == s.globalRank && f.countryRank == s.countryRank
          && f.performancePoints == s.performancePoints && f.playCount == s.playCount
          && f.playTimeHours == s.playTimeHours && f.totalScore == s.totalScore && f.rankedScore == s.rankedScore
          && f.hitAccuracy == s.hitAccuracy && f.maxCombo == s.maxCombo && f.levelInt == s.levelInt
          && f.ssCount == s.countSs + s.countSsSilver && f.sCount == s.countS + s.countSSilver && f.aCount == s.countA)
      && (mode !in p.stats ==>
          && f.globalRank == None && f.countryRank == None
          && f.performancePoints == f.playCount == f.playTimeHours == f.totalScore == f.rankedScore == 0
          && f.hitAccuracy == f.maxCombo == f.levelInt == f.ssCount == f.sCount == f.aCount == 0)
  {
    hide FactsOf;
    var row := RowFor(p, mode);
    ProfileFacts(row, now);
    ModeFacts(row, now);
    GradeFacts(row, now);
  }

  function Mirror(w: World, l: LinkId): set<Id> {
    set a | a in w.assignments && a.link == l :: a.who
  }

  /** Deleting a link's row cascades to its assignments; the upstream list is gone already. */
  function DropLink(w: World, l: LinkId): World {
    w.(links := w.links - {l}, assignments := (set a | a in w.assignments && a.link != l), remote := w.remote - {l})
  }

  // ---- per-player sync ----

  /** The per-player decision, by interpreting the rule over the player's facts. */
  predicate Qualifies(w: World, cx: Context, who: Id, tree: RuleTree) {
    who in w.users &&
    (tree.grantOnAny
     || (tree.groups != [] && Evaluate(tree, FactsOf(RowFor(w.users[who], tree.mode), cx.now), cx)))
  }

  datatype Action = Add | Remove | Keep

  function ActionFor(w: World, cx: Context, who: Id, l: LinkId): Action
    requires l in w.links
  {
    var qualifies, has := Qualifies(w, cx, who, w.links[l]), Assignment(l, who) in w.assignments;
    if qualifies && !has then Add else if !qualifies && has then Remove else Keep
  }

  /** What carrying an action out amounts to, given RoleLogic's answer; a failed request leaves the link for later. */
  datatype Effect = Added | Removed | Gone | Nothing

  function EffectOf(action: Action, h: Http): Effect {
    match action
    case Keep => Nothing
    case Add =>
      if AddUser(h) == Ok then Added else if AddUser(h) == Err(RoleLinkNotFound) then Gone else Nothing
    case Remove =>
      if Plain(h) == Ok then Removed else if Plain(h) == Err(RoleLinkNotFound) then Gone else Nothing
  }

  function Perform(w: World, who: Id, l: LinkId, e: Effect): World {
    match e
    case Nothing => w
    case Gone => DropLink(w, l)
    case Added =>
      w.(assignments := w.assignments + {Assignment(l, who)},
         remote := if l in w.remote then w.remote[l := w.remote[l] + {who}] else w.remote)
    case Removed =>
      w.(assignments := w.assignments - {Assignment(l, who)},
         remote := if l in w.remote then w.remote[l := w.remote[l] - {who}] else w.remote)
  }

  predicate HasEffect(effects: map<LinkId, Effect>, l: LinkId, e: Effect) {
    l in effects && effects[l] == e
  }

  function LinksAfter(w: World, effects: map<LinkId, Effect>): map<LinkId, RuleTree> {
    map l | l in w.links && !HasEffect(effects, l, Gone) :: w.links[l]
  }

  predicate Survives(a: Assignment, who: Id, effects: map<LinkId, Effect>) {
    !HasEffect(effects, a.link, Gone) && !(HasEffect(effects, a.link, Removed) && a.who == who)
  }

  function AssignmentsAfter(w: World, who: Id, effects: map<LinkId, Effect>): set<Assignment> {
    (set a | a in w.assignments && Survives(a, who, effects))
    + (set l | l in effects && effects[l] == Added :: Assignment(l, who))
  }

  function RemoteAfter(w: World, who: Id, effects: map<LinkId, Effect>): map<LinkId, set<Id>> {
    map l | l in w.remote && !HasEffect(effects, l, Gone) ::
      if HasEffect(effects, l, Added) then w.remote[l] + {who}
      else if HasEffect(effects, l, Removed) then w.remote[l] - {who}
      else w.remote[l]
  }

  /** All effects on a set of links at once: the links do not interfere, so order does not matter. */
  function PerformAll(w: World, who: Id, effects: map<LinkId, Effect>): World {
    World(w.users, LinksAfter(w, effects), AssignmentsAfter(w, who, effects), RemoteAfter(w, who, effects))
  }

  lemma AssignmentsNext(w: World, who: Id, effects: map<LinkId, Effect>, l: LinkId, e: Effect)
    requires l !in effects
    ensures AssignmentsAfter(w, who, effects[l := e])
         == Perform(World(w.users, w.links, AssignmentsAfter(w, who, effects), w.remote), who, l, e).assignments
  {
  }

  lemma HasEffectNext(effects: map<LinkId, Effect>, l: LinkId, e: Effect)
    requires l !in effects
    ensures forall k, f :: HasEffect(effects[l := e], k, f) <==> (if k == l then f == e else HasEffect(effects, k, f))
    ensures forall f :: !HasEffect(effects, l, f)
  {
    var next := effects[l := e];
    forall k, f
      ensures HasEffect(next, k, f) <==> (if k == l then f == e else HasEffect(effects, k, f))
    {
      assert k != l ==> (k in next <==> k in effects);
    }
  }

  lemma LinksNext(w: World, effects: map<LinkId, Effect>, l: LinkId, e: Effect)
    requires l !in effects
    ensures LinksAfter(w, effects[l := e]) == if e == Gone then LinksAfter(w, effects) - {l} else LinksAfter(w, effects)
  {
  }

  lemma RemoteNext(w: World, who: Id, effects: map<LinkId, Effect>, l: LinkId, e: Effect)
    requires l !in effects
    ensures var now, next := RemoteAfter(w, who, effects), RemoteAfter(w, who, effects[l := e]);
      match e
      case Nothing => next == now
      case Gone => next == now - {l}
      case Added => next == if l in now then now[l := now[l] + {who}] else now
      case Removed => next == if l in now then now[l := now[l] - {who}] else now
  {
    HasEffectNext(effects, l, e);
    hide HasEffect;
  }

  lemma PerformNone(w: World, who: Id)
    ensures PerformAll(w, who, map[]) == w
  {
  }

  lemma PerformNext(w: World, who: Id, effects: map<LinkId, Effect>, l: LinkId, e: Effect)
    requires l !in effects
    ensures PerformAll(w, who, effects[l := e]) == Perform(PerformAll(w, who, effects), who, l, e)
  {
    hide AssignmentsAfter, LinksAfter, RemoteAfter;
    AssignmentsNext(w, who, effects, l, e);
    LinksNext(w, effects, l, e);
    RemoteNext(w, who, effects, l, e);
  }

  /** The effect on each link of a player's guilds. */
  function EffectsFor(w: World, cx: Context, who: Id, guilds: set<string>, replies: LinkId -> Http)
    : map<LinkId, Effect>
  {
    map l | l in w.links && l.guild in guilds :: EffectOf(ActionFor(w, cx, who, l), replies(l))
  }

  /** `guilds` is None when the gateway or a table could not be read: nothing happens and the job is retried. */
  function PlayerSync(w: World, cx: Context, who: Id, guilds: Option<set<string>>, replies: LinkId -> Http)
    : (World, Outcome)
  {
    if guilds == None then (w, Err(Other))
    else (PerformAll(w, who, EffectsFor(w, cx, who, guilds.value, replies)), Ok)
  }

  // ---- bulk sync ----

  /** The parameters in front of the rule's: the mode and the roster. */
  function QueryHead(tree: RuleTree, roster: seq<Id>): seq<Val> {
    [TextV(ModeKey(tree.mode)), TextsV(roster)]
  }

  /** The database's side of the bulk query: who among the roster the rule's WHERE clause selects. */
  function Selected(w: World, cx: Context, tree: RuleTree, roster: seq<Id>, limit: nat): set<Id> {
    if tree.grantOnAny then set who | who in roster && who in w.users
    else
      set who | who in roster && who in w.users
        && ClauseTrue(tree, RowFor(w.users[who], tree.mode), cx, QueryHead(tree, roster), [IntV(limit)])
  }

  /** RoleLogic's user info request: a limit, or a refusal. */
  datatype Info = Limit(n: nat) | NoInfo(h: Http)

  datatype Bulk = Bulk(world: World, outcome: Outcome, uploaded: bool)

  /** Upload a list and, if RoleLogic took it, make the mirror the same; held, disabled or failed it changes nothing. */
  function Replace(w: World, l: LinkId, ids: seq<Id>, replies: Replies): Bulk {
    var r := UploadResult(ids, replies);
    match r
    case Ok =>
      Bulk(w.(assignments := (set a | a in w.assignments && a.link != l) + (set who | who in ids :: Assignment(l, who)),
              remote := w.remote[l := Members(ids)]), Ok, true)
    case Err(RoleLinkNotFound) => Bulk(DropLink(w, l), Ok, true)
    case Err(RoleLinkDisabled) => Bulk(w, Ok, true)
    case Err(RemovalHeld) => Bulk(w, Ok, true)
    case Err(_) => Bulk(w, r, true)
  }

  function Drain(w: World, l: LinkId, replies: Replies): Bulk {
    if Mirror(w, l) == {} then Bulk(w, Ok, false) else Replace(w, l, [], replies)
  }

  ghost function BulkSync(w: World, cx: Context, l: LinkId, roster: Option<seq<Id>>, info: Info, replies: Replies)
    : Bulk
  {
    if l !in w.links then Bulk(w, Ok, false)
    else
      var tree := w.links[l];
      if !tree.grantOnAny && tree.groups == [] then Drain(w, l, replies)
      else if roster == None then Bulk(w, Err(Other), false)
      else if roster.value == [] then Drain(w, l, replies)
      else
        match info
        case NoInfo(h) =>
          (match Plain(h)
           case Err(RoleLinkNotFound) => Bulk(DropLink(w, l), Ok, false)
           case Err(RoleLinkDisabled) => Bulk(w, Ok, false)
           case _ => Bulk(w, Err(Other), false))
        case Limit(n) =>
          var qualifying := FirstOf(Selected(w, cx, tree, roster.value, n), n);
          if Ordered(Mirror(w, l)) == qualifying then Bulk(w, Ok, false)
          else Replace(w, l, qualifying, replies)
  }

  // ---- the engine as it runs ----

  class Engine {
    var users: map<Id, Player>
    var links: map<LinkId, RuleTree>
    var assignments: set<Assignment>
    var remote: map<LinkId, set<Id>>

    function Now(): World
      reads this
    {
      World(users, links, assignments, remote)
    }

    constructor ()
      ensures Now() == World(map[], map[], {}, map[])
    {
      users, links, assignments, remote := map[], map[], {}, map[];
    }

    method DeleteOrphan(l: LinkId)
      modifies this
      ensures Now() == DropLink(old(Now()), l)
    {
      links := links - {l};
      assignments := set a | a in assignments && a.link != l;
      remote := remote - {l};
    }

    /** Decide for every link first, then carry the actions out, in no particular order. */
    method SyncForPlayer(cx: Context, who: Id, guilds: Option<set<string>>, replies: LinkId -> Http)
      returns (r: Outcome)
      modifies this
      ensures (Now(), r) == PlayerSync(old(Now()), cx, who, guilds, replies)
    {
      hide Perform, ActionFor, EffectOf, PerformAll;
      if guilds == None {
        return Err(Other);
      }
      ghost var w := Now();
      var touched := set l | l in links && l.guild in guilds.value;
      var actions := map l | l in touched :: ActionFor(Now(), cx, who, l);
      ghost var done: map<LinkId, Effect> := map[];
      var rest := touched;
      PerformNone(w, who);
      while rest != {}
        invariant rest <= touched && done.Keys == touched - rest
        invariant Now() == PerformAll(w, who, done)
        invariant forall l :: l in done ==> done[l] == EffectOf(actions[l], replies(l))
      {
        var l :| l in rest;
        var e := CarryOut(who, l, actions[l], replies(l));
        PerformNext(w, who, done, l, e);
        done := done[l := e];
        rest := rest - {l};
      }
      assert done == EffectsFor(w, cx, who, guilds.value, replies);
      return Ok;
    }

    /** One request to RoleLogic and its local consequence. */
    method CarryOut(who: Id, l: LinkId, action: Action, h: Http) returns (ghost e: Effect)
      modifies this
      ensures e == EffectOf(action, h) && Now() == Perform(old(Now()), who, l, e)
    {
      e := EffectOf(action, h);
      match action {
        case Keep =>
        case Add =>
          var r := AddUser(h);
          if r == Ok {
            assignments := assignments + {Assignment(l, who)};
            if l in remote {
              remote := remote[l := remote[l] + {who}];
            }
          } else if r == Err(RoleLinkNotFound) {
            DeleteOrphan(l);
          }
        case Remove =>
          var r := Plain(h);
          if r == Ok {
            assignments := assignments - {Assignment(l, who)};
            if l in remote {
              remote := remote[l := remote[l] - {who}];
            }
          } else if r == Err(RoleLinkNotFound) {
            DeleteOrphan(l);
          }
      }
    }

    method SyncForRoleLink(cx: Context, l: LinkId, roster: Option<seq<Id>>, info: Info, replies: Replies)
      returns (r: Outcome, uploaded: bool)
      modifies this
      ensures Bulk(Now(), r, uploaded) == BulkSync(old(Now()), cx, l, roster, info, replies)
    {
      hide Ordered, FirstOf, ClauseTrue, UploadResult;
      if l !in links {
        return Ok, false;
      }
      var tree := links[l];
      if !tree.grantOnAny && tree.groups == [] {
        r, uploaded := DrainToEmpty(l, replies);
        return;
      }
      if roster == None {
        return Err(Other), false;
      }
      if roster.value == [] {
        r, uploaded := DrainToEmpty(l, replies);
        return;
      }
      if info.NoInfo? {
        var refusal := Plain(info.h);
        if refusal == Err(RoleLinkNotFound) {
          DeleteOrphan(l);
          return Ok, false;
        } else if refusal == Err(RoleLinkDisabled) {
          return Ok, false;
        }
        return Err(Other), false;
      }
      var qualifying := SelectFirst(Selected(Now(), cx, tree, roster.value, info.n), info.n);
      var mirror := Mirror(Now(), l);
      var current := SelectFirst(mirror, |mirror|);
      FirstOfAll(mirror);
      if current == qualifying {
        return Ok, false;
      }
      r := ReplaceList(l, qualifying, replies);
      uploaded := true;
    }

    method DrainToEmpty(l: LinkId, replies: Replies) returns (r: Outcome, uploaded: bool)
      modifies this
      ensures Bulk(Now(), r, uploaded) == Drain(old(Now()), l, replies)
    {
      if Mirror(Now(), l) == {} {
        return Ok, false;
      }
      r := ReplaceList(l, [], replies);
      uploaded := true;
    }

    /** RoleLogic's list is whatever the upload leaves in force there; the mirror follows only a success. */
    method ReplaceList(l: LinkId, ids: seq<Id>, replies: Replies) returns (r: Outcome)
      modifies this
      ensures Bulk(Now(), r, true) == Replace(old(Now()), l, ids, replies)
    {
      hide UploadResult;
      var list := new RemoteList(if l in remote then remote[l] else {});
      r := list.UploadUsers(ids, replies);
      if l in remote || r == Ok {
        remote := remote[l := list.users];
      }
      match r {
        case Ok =>
          assignments := set a | a in assignments && a.link != l;
          assignments := assignments + (set who | who in ids :: Assignment(l, who));
        case Err(RoleLinkNotFound) =>
          DeleteOrphan(l);
          r := Ok;
        case Err(RoleLinkDisabled) =>
          r := Ok;
        case Err(RemovalHeld) =>
          r := Ok;
        case Err(_) =>
      }
    }
  }
}
