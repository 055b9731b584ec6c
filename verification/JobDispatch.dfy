/** From a claimed job to a sync and back to the queue: which outcomes are retried and which are final. */
module JobDispatch {
  import opened Text
  import opened Rule
  import opened Schema
  import opened RoleLogic
  import opened Ordering
  import opened SyncEngine
  import opened SyncSafety
  import Jobs

  const PLAYER_SYNC := "player_sync"
  const CONFIG_SYNC := "config_sync"

  /** `JobError::from`: a vanished link and a full one are final, everything else is worth another try. */
  function VerdictOf(r: Outcome): Jobs.Verdict {
    match r
    case Ok => Jobs.Done
    case Err(RoleLinkNotFound) => Jobs.Terminal
    case Err(UserLimitReached) => Jobs.Terminal
    case Err(_) => Jobs.Retry
  }

  function Lookup(members: seq<(string, Json)>, key: string): Option<Json> {
    if members == [] then None
    else if members[0].0 == key then Some(members[0].1)
    else Lookup(members[1..], key)
  }

  function TextMember(payload: Json, key: string): Option<string> {
    if !payload.Obj? then None
    else
      var v := Lookup(payload.members, key);
      if v.Some? then v.value.AsStr() else None
  }

  /** Decoding a one-field record, which a JSON array of one string also spells. */
  function PlayerPayload(payload: Json): Option<Id> {
    match payload
    case Arr(items) => if |items| == 1 then items[0].AsStr() else None
    case _ => TextMember(payload, "discord_id")
  }

  datatype Task = SyncPlayer(who: Id) | SyncLink(l: LinkId)

  function TaskOf(kind: string, payload: Json): Option<Task> {
    if kind == PLAYER_SYNC then
      var who := PlayerPayload(payload);
      if who.Some? then Some(SyncPlayer(who.value)) else None
    else if kind == CONFIG_SYNC then
      var guild, role := TextMember(payload, "guild_id"), TextMember(payload, "role_id");
      if guild.Some? && role.Some? then Some(SyncLink(LinkId(guild.value, role.value))) else None
    else None
  }

  function PayloadOf(t: Task): Json {
    match t
    case SyncPlayer(who) => Obj([("discord_id", Str(who))])
    case SyncLink(l) => Obj([("guild_id", Str(l.guild)), ("role_id", Str(l.role))])
  }

  function KindOfTask(t: Task): string {
    match t
    case SyncPlayer(_) => PLAYER_SYNC
    case SyncLink(_) => CONFIG_SYNC
  }

  /** Everything the outside world answers during one dispatch. */
  datatype Answers = Answers(guilds: Option<set<string>>, roster: Option<seq<Id>>, info: Info, one: LinkId -> Http,
                             whole: Replies)

  ghost function Dispatched(w: World, cx: Context, kind: string, payload: Json, a: Answers): (World, Jobs.Verdict) {
    match TaskOf(kind, payload)
    case None => (w, Jobs.Terminal)
    case Some(SyncPlayer(who)) =>
      var (after, r) := PlayerSync(w, cx, who, a.guilds, a.one);
      (after, VerdictOf(r))
    case Some(SyncLink(l)) =>
      var b := BulkSync(w, cx, l, a.roster, a.info, a.whole);
      (b.world, VerdictOf(b.outcome))
  }

  method Dispatch(engine: Engine, cx: Context, kind: string, payload: Json, a: Answers) returns (v: Jobs.Verdict)
    modifies engine
    ensures (engine.Now(), v) == Dispatched(old(engine.Now()), cx, kind, payload, a)
  {
    hide PlayerSync, BulkSync, TextMember, PlayerPayload;
    if kind == PLAYER_SYNC {
      var who := PlayerPayload(payload);
      if who == None {
        return Jobs.Terminal;
      }
      var r := engine.SyncForPlayer(cx, who.value, a.guilds, a.one);
      return VerdictOf(r);
    }
    if kind == CONFIG_SYNC {
      var guild := TextMember(payload, "guild_id");
      if guild == None {
        return Jobs.Terminal;
      }
      var role := TextMember(payload, "role_id");
      if role == None {
        return Jobs.Terminal;
      }
      var r, _ := engine.SyncForRoleLink(cx, LinkId(guild.value, role.value), a.roster, a.info, a.whole);
      return VerdictOf(r);
    }
    return Jobs.Terminal;
  }

  /** What the enqueue helpers write is what dispatch reads. */
  lemma PayloadRoundTrip(t: Task)
    ensures TaskOf(KindOfTask(t), PayloadOf(t)) == Some(t)
  {
    match t
    case SyncPlayer(who) =>
    case SyncLink(l) =>
      var members := PayloadOf(t).members;
      assert members[1..][0] == ("role_id", Str(l.role));
      assert Lookup(members[1..], "role_id") == Some(Str(l.role));
  }

  /** Is the first member of that name this text? */
  ghost predicate Carries(members: seq<(string, Json)>, key: string, text: string) {
    exists i: nat :: i < |members| && members[i] == (key, Str(text)) && forall j: nat :: j < i ==> members[j].0 != key
  }

  /** Which jobs ask for which sync, and that all others ask for none. */
  lemma DecodesExactly(kind: string, payload: Json, who: Id, l: LinkId)
    ensures TaskOf(kind, payload) == Some(SyncPlayer(who)) <==>
      kind == "player_sync"
      && (payload == Arr([Str(who)]) || (payload.Obj? && Carries(payload.members, "discord_id", who)))
    ensures TaskOf(kind, payload) == Some(SyncLink(l)) <==>
      kind == "config_sync" && payload.Obj?
      && Carries(payload.members, "guild_id", l.guild) && Carries(payload.members, "role_id", l.role)
  {
    if payload.Obj? {
      LookupExactly(payload.members, "discord_id", who);
      LookupExactly(payload.members, "guild_id", l.guild);
      LookupExactly(payload.members, "role_id", l.role);
    }
  }

  lemma {:induction false} LookupExactly(members: seq<(string, Json)>, key: string, text: string)
    ensures Lookup(members, key) == Some(Str(text)) <==> Carries(members, key, text)
  {
    if members != [] && members[0].0 != key {
      var rest := members[1..];
      LookupExactly(rest, key, text);
      if Carries(rest, key, text) {
        var i: nat :| i < |rest| && rest[i] == (key, Str(text)) && forall j: nat :: j < i ==> rest[j].0 != key;
        assert members[i + 1] == (key, Str(text));
        assert forall j: nat :: j < i + 1 ==> members[j].0 == (if j == 0 then members[0] else rest[j - 1]).0;
      }
      if Carries(members, key, text) {
        var i: nat :| i < |members| && members[i] == (key, Str(text)) && forall j: nat :: j < i ==> members[j].0 != key;
        assert rest[i - 1] == (key, Str(text));
        assert forall j: nat :: j < i - 1 ==> rest[j].0 == members[j + 1].0;
      }
    } else if members != [] && members[0].1 == Str(text) {
      assert members[0] == (key, Str(text));
    }
  }

  /**
    A sync reports success or a plain failure, never a vanished link or a full one: those are dealt with on the spot.
    So a dispatch is final only for a job whose kind or payload makes no sense, whatever the world answers.
    */
  lemma OnlyNonsenseIsTerminal(w: World, cx: Context, kind: string, payload: Json, a: Answers)
    ensures var v := Dispatched(w, cx, kind, payload, a).1;
      && (v == Jobs.Terminal <==> TaskOf(kind, payload) == None)
      && v != Jobs.Released
  {
    hide Dispatched, TaskOf, LinkSyncFails;
    VerdictByInputs(w, cx, kind, payload, a);
  }

  /** Does a bulk sync fail: an unread roster, a refusal nobody foresaw, or an upload that broke off? */
  ghost predicate LinkSyncFails(w: World, cx: Context, l: LinkId, a: Answers) {
    l in w.links &&
    if !Readable(w.links[l], a.roster, a.info) then a.roster == None || (!SaysGone(a.info.h) && !SaysOff(a.info.h))
    else
      var ids := Wanted(w, cx, w.links[l], a.roster, a.info);
      Mirror(w, l) != Members(ids) && UploadFate(ids, a.whole) == Failed
  }

  /** A job that makes sense is retried exactly when its sync failed, and done otherwise. */
  lemma VerdictByInputs(w: World, cx: Context, kind: string, payload: Json, a: Answers)
    ensures var v := Dispatched(w, cx, kind, payload, a).1;
      match TaskOf(kind, payload)
      case None => v == Jobs.Terminal
      case Some(SyncPlayer(_)) => v == if a.guilds.Some? then Jobs.Done else Jobs.Retry
      case Some(SyncLink(l)) => v == if LinkSyncFails(w, cx, l, a) then Jobs.Retry else Jobs.Done
  {
    hide TaskOf, PerformAll, EffectsFor, BulkSync, Wanted, UploadFate, Mirror;
    match TaskOf(kind, payload)
    case None =>
    case Some(SyncPlayer(_)) =>
    case Some(SyncLink(l)) =>
      if l in w.links {
        BulkByAnswers(w, cx, l, a.roster, a.info, a.whole);
        assert StateOf(w, l).mirror == Mirror(w, l);
      } else {
        NoSuchLink(w, cx, l, a);
      }
  }

  lemma NoSuchLink(w: World, cx: Context, l: LinkId, a: Answers)
    requires l !in w.links
    ensures BulkSync(w, cx, l, a.roster, a.info, a.whole).outcome == Ok
  {
  }
}
