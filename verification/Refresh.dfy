/** The refresh scheduler: each tick re-fetches the stalest due users, and everyone handled moves out of the way. */
module Refresh {
  import opened Text

  const HOUR: int := 3600
  const REFRESH_HOURS: int := 6
  const MAX_BACKOFF_HOURS: int := 24

  /** `next_refresh_at` in seconds, and the count of failures in a row. */
  datatype Entry = Entry(due: int, failures: nat)

  /** How a fetch ends; `LateFailure` is one after the profile was committed, which has already reset the count. */
  datatype Outcome = Refreshed | Failure | LateFailure

  /** 2^(failures+1) hours, the exponent kept within 1..5, at most a day. */
  function BackoffHours(failures: nat): (h: int)
    ensures h == match failures case 0 => 2 case 1 => 4 case 2 => 8 case 3 => 16 case _ => 24
  {
    var e := if failures + 1 > 5 then 5 else failures + 1;
    assert Pow2(1) == 2 && Pow2(2) == 4 && Pow2(3) == 8 && Pow2(4) == 16 && Pow2(5) == 32;
    if Pow2(e) < MAX_BACKOFF_HOURS then Pow2(e) else MAX_BACKOFF_HOURS
  }

  function Handle(e: Entry, outcome: Outcome, at: int): Entry {
    match outcome
    case Refreshed => Entry(at + REFRESH_HOURS * HOUR, 0)
    case Failure => Entry(at + BackoffHours(e.failures) * HOUR, e.failures + 1)
    case LateFailure => Entry(at + BackoffHours(0) * HOUR, 1)
  }

  function DueSet(users: map<Id, Entry>, now: int): set<Id> {
    set u | u in users && users[u].due <= now
  }

  /** A possible answer to `WHERE next_refresh_at <= now ORDER BY next_refresh_at LIMIT batch`. */
  predicate IsBatch(users: map<Id, Entry>, now: int, batch: nat, picks: set<Id>) {
    && picks <= DueSet(users, now)
    && |picks| <= batch
    && (|picks| < batch ==> picks == DueSet(users, now))
    && forall p, q :: p in picks && q in DueSet(users, now) - picks ==> users[p].due <= users[q].due
  }

  function Handled(users: map<Id, Entry>, picks: set<Id>, outcomes: map<Id, Outcome>, clock: map<Id, int>)
    : map<Id, Entry>
    requires picks <= users.Keys && picks <= outcomes.Keys && picks <= clock.Keys
  {
    map u | u in users :: if u in picks then Handle(users[u], outcomes[u], clock[u]) else users[u]
  }

  /** Success is good for six hours and clears the record; a failure backs off from the record and adds to it. */
  lemma HandledByOutcome(users: map<Id, Entry>, picks: set<Id>, outcomes: map<Id, Outcome>, clock: map<Id, int>, u: Id)
    requires picks <= users.Keys && picks <= outcomes.Keys && picks <= clock.Keys && u in users
    ensures var was, now := users[u], Handled(users, picks, outcomes, clock)[u];
      if u !in picks then now == was
      else
        match outcomes[u]
        case Refreshed => now == Entry(clock[u] + 6 * 3600, 0)
        case Failure => now == Entry(clock[u] + 3600 * BackoffHours(was.failures), was.failures + 1)
        case LateFailure => now == Entry(clock[u] + 2 * 3600, 1)
  {
  }

  /** The least due of a non-empty set of users. */
  method Stalest(users: map<Id, Entry>, among: set<Id>) returns (u: Id)
    requires among != {} && among <= users.Keys
    ensures u in among && forall v :: v in among ==> users[u].due <= users[v].due
  {
    u :| u in among;
    var rest := among - {u};
    while rest != {}
      invariant u in among && rest <= among
      invariant forall v :: v in among - rest ==> users[u].due <= users[v].due
    {
      var v :| v in rest;
      if users[v].due < users[u].due {
        u := v;
      }
      rest := rest - {v};
    }
  }

  /** `SELECT ... WHERE next_refresh_at <= now ORDER BY next_refresh_at LIMIT batch`, ties broken arbitrarily. */
  method OldestDue(users: map<Id, Entry>, now: int, batch: nat) returns (picks: set<Id>)
    ensures IsBatch(users, now, batch, picks)
    ensures |picks| <= batch && forall p :: p in picks ==> p in users && users[p].due <= now
    ensures forall q :: q in users && q !in picks && users[q].due <= now ==>
      |picks| == batch && forall p :: p in picks ==> users[p].due <= users[q].due
  {
    picks := {};
    var due := DueSet(users, now);
    while |picks| < batch && picks != due
      invariant picks <= due && |picks| <= batch
      invariant forall p, q :: p in picks && q in due - picks ==> users[p].due <= users[q].due
      decreases batch - |picks|
    {
      var u := Stalest(users, due - picks);
      picks := picks + {u};
    }
  }

  class Scheduler {
    var users: map<Id, Entry>

    constructor ()
      ensures users == map[]
    {
      users := map[];
    }

    /** One tick: read the batch, then handle its users in any order. */
    method Tick(now: int, batch: nat, outcomes: map<Id, Outcome>, clock: map<Id, int>) returns (picks: set<Id>)
      requires users.Keys <= outcomes.Keys && users.Keys <= clock.Keys
      modifies this
      ensures IsBatch(old(users), now, batch, picks)
      ensures |picks| <= batch && forall p :: p in picks ==> p in old(users) && old(users)[p].due <= now
      ensures forall q :: q in old(users) && q !in picks && old(users)[q].due <= now ==>
        |picks| == batch && forall p :: p in picks ==> old(users)[p].due <= old(users)[q].due
      ensures users == Handled(old(users), picks, outcomes, clock)
    {
      picks := OldestDue(users, now, batch);
      var rest := picks;
      while rest != {}
        invariant rest <= picks <= old(users).Keys && users.Keys == old(users).Keys
        invariant users == Handled(old(users), picks - rest, outcomes, clock)
      {
        var u :| u in rest;
        users := users[u := Handle(users[u], outcomes[u], clock[u])];
        rest := rest - {u};
      }
      assert picks - {} == picks;
    }

    /** A member links or re-links an account: due in six hours, record clean; nobody else moves. */
    method Link(u: Id, now: int)
      modifies this
      ensures users.Keys == old(users).Keys + {u}
      ensures forall v :: v in users && v != u ==> users[v] == old(users)[v]
      ensures forall t :: u in DueSet(users, t) <==> t >= now + 6 * 3600
      ensures users[u].failures == 0 && Handle(users[u], Failure, now).due == now + 2 * 3600
      ensures users == Linked(old(users), u, now)
    {
      users := users[u := Entry(now + REFRESH_HOURS * HOUR, 0)];
    }

    method Unlink(u: Id)
      modifies this
      ensures users == old(users) - {u}
    {
      users := users - {u};
    }
  }

  function Linked(users: map<Id, Entry>, u: Id, now: int): map<Id, Entry> {
    users[u := Entry(now + REFRESH_HOURS * HOUR, 0)]
  }

  lemma {:induction false} SubsetSize(a: set<Id>, b: set<Id>)
    requires a <= b
    ensures |a| <= |b|
  {
    if a != {} {
      var x :| x in a;
      SubsetSize(a - {x}, b - {x});
    }
  }

  // ---- runs ----

  datatype Event =
    | Tick(now: int, picks: set<Id>, outcomes: map<Id, Outcome>, clock: map<Id, int>)
    | Link(now: int, who: Id)
    | Unlink(now: int, who: Id)

  /** Can this event happen here?  A handled user's clock is read no earlier than the tick's. */
  predicate Possible(users: map<Id, Entry>, e: Event, batch: nat) {
    e.Tick? ==>
      && IsBatch(users, e.now, batch, e.picks)
      && e.picks <= e.outcomes.Keys && e.picks <= e.clock.Keys
      && forall u :: u in e.picks ==> e.now <= e.clock[u]
  }

  function After(users: map<Id, Entry>, e: Event, batch: nat): map<Id, Entry>
    requires Possible(users, e, batch)
  {
    match e
    case Tick(now, picks, outcomes, clock) => Handled(users, picks, outcomes, clock)
    case Link(now, who) => Linked(users, who, now)
    case Unlink(now, who) => users - {who}
  }

  /** A run from `users`: time never goes back, and every event is possible where it happens. */
  predicate IsRun(users: map<Id, Entry>, start: int, events: seq<Event>, batch: nat)
    decreases events
  {
    events != [] ==>
      && start <= events[0].now
      && Possible(users, events[0], batch)
      && IsRun(After(users, events[0], batch), events[0].now, events[1..], batch)
  }

  predicate LeavesAlone(e: Event, u: Id) {
    match e
    case Tick(_, picks, _, _) => u !in picks
    case Link(_, who) => who != u
    case Unlink(_, who) => who != u
  }

  function Ticks(events: seq<Event>): nat {
    if events == [] then 0 else (if events[0].Tick? then 1 else 0) + Ticks(events[1..])
  }

  /** The other users no less stale than `u`. */
  function Ahead(users: map<Id, Entry>, u: Id): set<Id>
    requires u in users
  {
    set v | v in users && v != u && users[v].due <= users[u].due
  }

  /** Nobody joins the line ahead of a due user, and a tick that passes the user over takes a whole batch off it. */
  lemma EventShortensLine(users: map<Id, Entry>, e: Event, u: Id, start: int, batch: nat)
    requires u in users && users[u].due <= start <= e.now && Possible(users, e, batch) && LeavesAlone(e, u)
    ensures var users' := After(users, e, batch);
      && u in users' && users'[u] == users[u]
      && |Ahead(users', u)| + (if e.Tick? then batch else 0) <= |Ahead(users, u)|
  {
    var users' := After(users, e, batch);
    var line, line' := Ahead(users, u), Ahead(users', u);
    match e
    case Tick(now, picks, outcomes, clock) =>
      assert u in DueSet(users, now) - picks;
      assert |picks| == batch && picks <= line;
      assert line' == line - picks;
      assert |line - picks| == |line| - |picks|;
    case Link(now, who) =>
      assert line' <= line;
      SubsetSize(line', line);
    case Unlink(now, who) =>
      assert line' <= line;
      SubsetSize(line', line);
  }

  /**
    No starvation: while a due user is neither picked, re-linked nor unlinked, the ticks that have passed it over number
    at most a batch-th of the users that were ahead of it.
    */
  lemma {:induction false} NoStarvation(users: map<Id, Entry>, u: Id, start: int, events: seq<Event>, batch: nat)
    requires u in users && users[u].due <= start && IsRun(users, start, events, batch)
    requires forall i :: 0 <= i < |events| ==> LeavesAlone(events[i], u)
    ensures Ticks(events) * batch <= |Ahead(users, u)|
    decreases events
  {
    if events != [] {
      EventShortensLine(users, events[0], u, start, batch);
      var users' := After(users, events[0], batch);
      assert forall i :: 0 <= i < |events[1..]| ==> events[1..][i] == events[i + 1];
      NoStarvation(users', u, events[0].now, events[1..], batch);
    }
  }

  /** So within one tick more than that, something happens to the user: a tick picks it unless its link changed. */
  lemma PickedInTime(users: map<Id, Entry>, u: Id, start: int, events: seq<Event>, batch: nat)
    requires u in users && users[u].due <= start && IsRun(users, start, events, batch)
    requires batch > 0 && Ticks(events) >= |Ahead(users, u)| / batch + 1
    ensures exists i :: 0 <= i < |events| && !LeavesAlone(events[i], u)
  {
    var line := |Ahead(users, u)|;
    FullBatches(line, batch, Ticks(events));
    if forall i :: 0 <= i < |events| ==> LeavesAlone(events[i], u) {
      NoStarvation(users, u, start, events, batch);
    }
  }

  lemma FullBatches(line: nat, batch: nat, ticks: nat)
    requires batch > 0 && ticks >= line / batch + 1
    ensures ticks * batch > line
  {
    assert line == line / batch * batch + line % batch;
    assert ticks * batch >= (line / batch + 1) * batch;
  }
}
