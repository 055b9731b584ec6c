/**
  All interleavings of any number of queue workers.  A batch claim, reap or sweep is taken one row at a time, which
  only adds interleavings; every step also appends to a log that the invariants speak of.
  */
module JobRuns {
  import opened Text
  import opened Jobs

  /** A worker task.  Every replica numbers its own from 0, so the name a row records does not tell replicas apart. */
  datatype Runner = Runner(replica: nat, name: Worker)

  datatype Event =
    | Enqueued(id: JobId, delay: nat)
    | Claimed(id: JobId, n: nat)
    | Retried(id: JobId, n: nat, delay: nat)
    | ReleasedAt(id: JobId, n: nat, delay: nat)
    | Finished(id: JobId, n: nat)
    | Died(id: JobId, n: nat, terminal: bool)
    | Unrecorded(id: JobId, n: nat)
    | Reaped(id: JobId)
    | Swept(id: JobId)
    | Crashed(w: Runner)

  /**
    `limits` remembers the budget of every job ever enqueued, `held` is what each runner still has to dispose of, and
    `clock` says when each event of the log happened.
    */
  datatype Sys = Sys(rows: Table, nextId: JobId, limits: map<JobId, nat>, held: map<Runner, seq<Job>>, log: seq<Event>,
                     clock: seq<int>)

  datatype Step =
    | Enqueue(now: int, delay: nat, max: nat)
    | Claim(w: Runner, id: JobId, now: int)
    | Settle(w: Runner, d: Disposal)
    | Crash(w: Runner, now: int)
    | Reap(id: JobId, now: int)
    | Sweep(id: JobId, now: int)

  const START := Sys(map[], 1, map[], map[], [], [])

  function HeldBy(s: Sys, w: Runner): seq<Job> {
    if w in s.held then s.held[w] else []
  }

  predicate Enabled(s: Sys, step: Step) {
    match step
    case Enqueue(_, _, max) => max >= 1
    case Claim(_, id, now) => id in s.rows && Ready(s.rows[id], now)
    case Settle(w, d) => HeldBy(s, w) != [] && d.jitter < 1000
    case Crash(_, _) => true
    case Reap(id, now) => id in s.rows && Stuck(s.rows[id], now)
    case Sweep(id, now) => id in s.rows && Sweepable(s.rows[id], now)
  }

  function DisposalEvent(job: Job, d: Disposal): Event {
    if !d.written then Unrecorded(job.id, job.attempts)
    else
      match d.v
      case Released => ReleasedAt(job.id, job.attempts, BackoffMs(job.attempts, d.jitter))
      case Done => Finished(job.id, job.attempts)
      case Terminal => Died(job.id, job.attempts, true)
      case Retry =>
        if job.attempts >= job.maxAttempts then Died(job.id, job.attempts, false)
        else Retried(job.id, job.attempts, BackoffMs(job.attempts, d.jitter))
  }

  function EventOf(s: Sys, step: Step): Event
    requires Enabled(s, step)
  {
    match step
    case Enqueue(_, delay, _) => Enqueued(s.nextId, delay)
    case Claim(_, id, _) => Claimed(id, s.rows[id].attempts + 1)
    case Settle(w, d) => DisposalEvent(HeldBy(s, w)[0], d)
    case Crash(w, _) => Crashed(w)
    case Reap(id, _) => Reaped(id)
    case Sweep(id, _) => Swept(id)
  }

  function TimeOf(step: Step): int {
    if step.Settle? then step.d.now else step.now
  }

  function RowsAfter(s: Sys, step: Step): Table
    requires Enabled(s, step)
  {
    match step
    case Enqueue(now, delay, max) => s.rows[s.nextId := NewRow(now + delay, max)]
    case Claim(w, id, now) => s.rows[id := ClaimRow(s.rows[id], w.name, now)]
    case Settle(w, d) => if d.written then Dispose(s.rows, HeldBy(s, w)[0], d.v, d.now, d.jitter) else s.rows
    case Crash(_, _) => s.rows
    case Reap(id, now) => s.rows[id := RetryRow(s.rows[id], now)]
    case Sweep(id, _) => s.rows - {id}
  }

  function HeldAfter(s: Sys, step: Step): map<Runner, seq<Job>>
    requires Enabled(s, step)
  {
    match step
    case Claim(w, id, _) => s.held[w := HeldBy(s, w) + [Job(id, s.rows[id].attempts + 1, s.rows[id].maxAttempts)]]
    case Settle(w, _) => s.held[w := HeldBy(s, w)[1..]]
    case Crash(w, _) => s.held - {w}
    case _ => s.held
  }

  function Apply(s: Sys, step: Step): Sys
    requires Enabled(s, step)
  {
    Sys(RowsAfter(s, step),
        if step.Enqueue? then s.nextId + 1 else s.nextId,
        if step.Enqueue? then s.limits[s.nextId := step.max] else s.limits,
        HeldAfter(s, step),
        s.log + [EventOf(s, step)],
        s.clock + [TimeOf(step)])
  }

  // ---- what a log says of one job ----

  function Last(log: seq<Event>): Event
    requires log != []
  {
    log[|log| - 1]
  }

  /** How often the job was claimed. */
  function Claims(log: seq<Event>, id: JobId): nat {
    if log == [] then 0
    else Claims(log[..|log| - 1], id) + if Last(log).Claimed? && Last(log).id == id then 1 else 0
  }

  /** The claim numbers of its error-driven requeues, in order. */
  function RetriedNumbers(log: seq<Event>, id: JobId): seq<nat> {
    if log == [] then []
    else RetriedNumbers(log[..|log| - 1], id) + if Last(log).Retried? && Last(log).id == id then [Last(log).n] else []
  }

  /** The backoff it was given in all, in milliseconds. */
  function TotalBackoff(log: seq<Event>, id: JobId): nat {
    if log == [] then 0
    else TotalBackoff(log[..|log| - 1], id) + if Last(log).Retried? && Last(log).id == id then Last(log).delay else 0
  }

  predicate IsRequeue(e: Event, id: JobId) {
    (e.Retried? || e.ReleasedAt? || e.Reaped?) && e.id == id
  }

  // ---- invariants of every run ----

  /** Locked exactly while in progress. */
  predicate LockedWhileInProgress(s: Sys) {
    forall id :: id in s.rows ==>
      && (s.rows[id].status == InProgress <==> s.rows[id].lockedBy.Some?)
      && (s.rows[id].lockedBy.Some? <==> s.rows[id].lockedAt.Some?)
  }

  /** `attempts` counts the claims; ids are never handed out twice. */
  ghost predicate AttemptsAreClaims(s: Sys) {
    && s.rows.Keys <= s.limits.Keys
    && (forall id :: id in s.rows ==>
          s.rows[id].attempts == Claims(s.log, id) && s.rows[id].maxAttempts == s.limits[id])
    && (forall id :: id in s.limits ==> id < s.nextId && s.limits[id] >= 1)
    && (forall id :: id !in s.limits ==> Claims(s.log, id) == 0 && RetriedNumbers(s.log, id) == [])
  }

  lemma LocksKept(s: Sys, step: Step)
    requires LockedWhileInProgress(s) && Enabled(s, step)
    ensures LockedWhileInProgress(Apply(s, step))
  {
    hide EventOf, HeldAfter, BackoffMs, Stuck, Sweepable, Ready;
  }

  predicate Distinct(ns: seq<nat>) {
    forall i, j :: 0 <= i < j < |ns| ==> ns[i] != ns[j]
  }

  /** A held job is a ticket for one claim, which has not been requeued on error yet. */
  ghost predicate TicketOk(s: Sys, job: Job) {
    && job.id in s.limits && job.maxAttempts == s.limits[job.id]
    && 1 <= job.attempts <= Claims(s.log, job.id)
    && job.attempts !in RetriedNumbers(s.log, job.id)
  }

  ghost predicate TicketsOk(s: Sys) {
    forall w, i :: w in s.held && 0 <= i < |s.held[w]| ==> TicketOk(s, s.held[w][i])
  }

  predicate SameTicket(a: Job, b: Job) {
    a.id == b.id && a.attempts == b.attempts
  }

  /** No claim is held twice. */
  predicate TicketsApart(s: Sys) {
    forall w, i, v, j ::
      (w in s.held && 0 <= i < |s.held[w]| && v in s.held && 0 <= j < |s.held[v]|) ==>
      SameTicket(s.held[w][i], s.held[v][j]) ==> w == v && i == j
  }

  /** Each claim is requeued on error at most once, and only below the budget. */
  ghost predicate RetriesOk(s: Sys, id: JobId)
    requires id in s.limits
  {
    var ns := RetriedNumbers(s.log, id);
    Distinct(ns) && forall n :: n in ns ==> 1 <= n < s.limits[id] && n <= Claims(s.log, id)
  }

  ghost predicate AllRetriesOk(s: Sys) {
    forall id :: id in s.limits ==> RetriesOk(s, id)
  }

  lemma HeadTicket(s: Sys, w: Runner)
    requires TicketsOk(s) && HeldBy(s, w) != []
    ensures TicketOk(s, HeldBy(s, w)[0])
  {
  }

  /** What a step adds to the log of one job. */
  lemma StepLogged(s: Sys, step: Step, id: JobId)
    requires Enabled(s, step)
    ensures var e, log' := EventOf(s, step), Apply(s, step).log;
      && Claims(log', id) == Claims(s.log, id) + (if e.Claimed? && e.id == id then 1 else 0)
      && RetriedNumbers(log', id) == RetriedNumbers(s.log, id) + (if e.Retried? && e.id == id then [e.n] else [])
      && TotalBackoff(log', id) == TotalBackoff(s.log, id) + (if e.Retried? && e.id == id then e.delay else 0)
  {
  }

  lemma AttemptsKept(s: Sys, step: Step)
    requires AttemptsAreClaims(s) && TicketsOk(s) && Enabled(s, step)
    ensures AttemptsAreClaims(Apply(s, step))
  {
    hide Claims, RetriedNumbers, TotalBackoff, BackoffMs, TicketsOk, EventOf, HeldAfter, Ready, Stuck, Sweepable;
    var s' := Apply(s, step);
    forall id: JobId
      ensures id in s'.rows ==>
        id in s'.limits && s'.rows[id].attempts == Claims(s'.log, id) && s'.rows[id].maxAttempts == s'.limits[id]
      ensures id !in s'.limits ==> Claims(s'.log, id) == 0 && RetriedNumbers(s'.log, id) == []
    {
      StepLogged(s, step, id);
      EventIsOf(s, step, id);
    }
  }

  /** Which jobs an event counts for: a claim for the row claimed, a requeue for a job that is known. */
  lemma EventIsOf(s: Sys, step: Step, id: JobId)
    requires Enabled(s, step) && TicketsOk(s)
    ensures var e := EventOf(s, step);
      && (e.Claimed? && e.id == id <==> step.Claim? && step.id == id)
      && (e.Retried? && e.id == id ==> id in s.limits)
  {
    hide Claims, RetriedNumbers, TicketsOk;
    if step.Settle? {
      HeadTicket(s, step.w);
    }
  }

  lemma TicketsOkKept(s: Sys, step: Step)
    requires AttemptsAreClaims(s) && TicketsOk(s) && TicketsApart(s) && AllRetriesOk(s) && Enabled(s, step)
    ensures TicketsOk(Apply(s, step))
  {
    hide Claims, RetriedNumbers, TotalBackoff, BackoffMs, Ready, Stuck, Sweepable, RowsAfter;
    var s' := Apply(s, step);
    forall w, i | w in s'.held && 0 <= i < |s'.held[w]|
      ensures TicketOk(s', s'.held[w][i])
    {
      var job := s'.held[w][i];
      StepLogged(s, step, job.id);
      if step.Claim? && w == step.w && i == |HeldBy(s, w)| {
        assert job == Job(step.id, s.rows[step.id].attempts + 1, s.rows[step.id].maxAttempts);
        assert RetriesOk(s, job.id);
      } else if step.Settle? && w == step.w {
        assert job == s.held[w][i + 1];
        assert TicketOk(s, job);
        assert !SameTicket(job, HeldBy(s, w)[0]);
      } else {
        assert job == s.held[w][i];
        assert TicketOk(s, job);
        if step.Settle? {
          assert !SameTicket(job, HeldBy(s, step.w)[0]);
        }
      }
    }
  }

  lemma TicketsApartKept(s: Sys, step: Step)
    requires AttemptsAreClaims(s) && TicketsOk(s) && TicketsApart(s) && Enabled(s, step)
    ensures TicketsApart(Apply(s, step))
  {
    hide Claims, RetriedNumbers, TotalBackoff, BackoffMs, Ready, Stuck, Sweepable, RowsAfter, EventOf;
    var s' := Apply(s, step);
    forall w, i, v, j | w in s'.held && 0 <= i < |s'.held[w]| && v in s'.held && 0 <= j < |s'.held[v]|
      && SameTicket(s'.held[w][i], s'.held[v][j])
      ensures w == v && i == j
    {
      if step.Claim? {
        // the new ticket is for a claim later than any held before
        var n := |HeldBy(s, step.w)|;
        if w != step.w || i != n {
          assert TicketOk(s, s.held[w][i]);
        }
        if v != step.w || j != n {
          assert TicketOk(s, s.held[v][j]);
        }
      } else if step.Settle? {
        var i0 := if w == step.w then i + 1 else i;
        var j0 := if v == step.w then j + 1 else j;
        assert s'.held[w][i] == s.held[w][i0] && s'.held[v][j] == s.held[v][j0];
      }
    }
  }

  lemma RetriesKept(s: Sys, step: Step)
    requires AttemptsAreClaims(s) && TicketsOk(s) && AllRetriesOk(s) && Enabled(s, step)
    ensures AllRetriesOk(Apply(s, step))
  {
    hide Claims, RetriedNumbers, TotalBackoff, BackoffMs, Ready, Stuck, Sweepable, RowsAfter, HeldAfter;
    var s' := Apply(s, step);
    if step.Settle? {
      HeadTicket(s, step.w);
    }
    forall id | id in s'.limits
      ensures RetriesOk(s', id)
    {
      StepLogged(s, step, id);
      if id in s.limits {
        assert RetriesOk(s, id);
      }
    }
  }

  /** Distinct numbers from 1..m-1 are at most m-1 many. */
  lemma {:induction false} Pigeonhole(ns: seq<nat>, m: nat)
    requires m >= 1 && Distinct(ns) && forall n :: n in ns ==> 1 <= n < m
    ensures |ns| <= m - 1
    decreases m
  {
    if ns != [] {
      assert ns[0] in ns;
      if m - 1 in ns {
        var k :| 0 <= k < |ns| && ns[k] == m - 1;
        var rest := ns[..k] + ns[k + 1..];
        assert forall n :: n in rest ==> n in ns && n != m - 1;
        Pigeonhole(rest, m - 1);
      } else {
        Pigeonhole(ns, m - 1);
      }
    }
  }

  // ---- every disposal is of a claim, and each claim is disposed of once ----

  predicate IsDisposal(e: Event) {
    e.Retried? || e.ReleasedAt? || e.Finished? || e.Died? || e.Unrecorded?
  }

  /** What is logged of a claim's end: it comes after that claim, and there is one end at most. */
  predicate EndsOnce(log: seq<Event>) {
    && (forall j :: 0 <= j < |log| && IsDisposal(log[j]) ==> Claimed(log[j].id, log[j].n) in log[..j])
    && (forall i, j :: 0 <= i < j < |log| && IsDisposal(log[i]) && IsDisposal(log[j]) ==>
          log[i].id != log[j].id || log[i].n != log[j].n)
  }

  predicate Undisposed(log: seq<Event>, id: JobId, n: nat) {
    forall j :: 0 <= j < |log| && IsDisposal(log[j]) ==> log[j].id != id || log[j].n != n
  }

  /** A held job's claim has been logged and not been disposed of; no claim yet to come has. */
  ghost predicate DisposalsOk(s: Sys) {
    && EndsOnce(s.log)
    && (forall w, i :: w in s.held && 0 <= i < |s.held[w]| ==>
          var job := s.held[w][i];
          Claimed(job.id, job.attempts) in s.log && Undisposed(s.log, job.id, job.attempts))
    && (forall j :: 0 <= j < |s.log| && IsDisposal(s.log[j]) ==> s.log[j].n <= Claims(s.log, s.log[j].id))
  }

  lemma EndsOnceNext(log: seq<Event>, e: Event)
    requires EndsOnce(log)
    requires IsDisposal(e) ==> Claimed(e.id, e.n) in log && Undisposed(log, e.id, e.n)
    ensures EndsOnce(log + [e])
  {
    var log' := log + [e];
    forall j | 0 <= j < |log'| && IsDisposal(log'[j])
      ensures Claimed(log'[j].id, log'[j].n) in log'[..j]
    {
      assert log'[..j] == log[..j];
      assert j == |log| ==> log[..j] == log;
    }
  }

  lemma DisposalsKept(s: Sys, step: Step)
    requires DisposalsOk(s) && AttemptsAreClaims(s) && TicketsOk(s) && TicketsApart(s) && Enabled(s, step)
    ensures DisposalsOk(Apply(s, step))
  {
    hide Claims, RetriedNumbers, TotalBackoff, BackoffMs, Ready, Stuck, Sweepable, RowsAfter, EndsOnce, TicketOk;
    var s', e := Apply(s, step), EventOf(s, step);
    assert s'.log == s.log + [e];
    if step.Settle? {
      DisposalOfHead(s, step);
    }
    EndsOnceNext(s.log, e);
    forall w, i | w in s'.held && 0 <= i < |s'.held[w]|
      ensures Claimed(s'.held[w][i].id, s'.held[w][i].attempts) in s'.log
      ensures Undisposed(s'.log, s'.held[w][i].id, s'.held[w][i].attempts)
    {
      HeldOpen(s, step, w, i);
    }
    forall j | 0 <= j < |s'.log| && IsDisposal(s'.log[j])
      ensures s'.log[j].n <= Claims(s'.log, s'.log[j].id)
    {
      StepLogged(s, step, s'.log[j].id);
      if j < |s.log| {
        assert s'.log[j] == s.log[j];
      }
    }
  }

  lemma DisposalOfHead(s: Sys, step: Step)
    requires step.Settle? && Enabled(s, step) && DisposalsOk(s) && TicketsOk(s)
    ensures var e, job := EventOf(s, step), HeldBy(s, step.w)[0];
      && IsDisposal(e) && e.id == job.id && e.n == job.attempts <= Claims(s.log, job.id)
      && Claimed(e.id, e.n) in s.log && Undisposed(s.log, e.id, e.n)
  {
    hide Claims, RetriedNumbers, TotalBackoff, BackoffMs, EndsOnce, Undisposed, TicketsOk;
    HeadTicket(s, step.w);
  }

  lemma HeldOpen(s: Sys, step: Step, w: Runner, i: nat)
    requires DisposalsOk(s) && AttemptsAreClaims(s) && TicketsOk(s) && TicketsApart(s) && Enabled(s, step)
    requires w in Apply(s, step).held && i < |Apply(s, step).held[w]|
    ensures var s' := Apply(s, step);
      var job := s'.held[w][i];
      Claimed(job.id, job.attempts) in s'.log && Undisposed(s'.log, job.id, job.attempts)
  {
    hide Claims, RetriedNumbers, TotalBackoff, BackoffMs, Ready, Stuck, Sweepable, RowsAfter, EndsOnce, TicketOk,
      TicketsOk;
    var s', e := Apply(s, step), EventOf(s, step);
    var job := s'.held[w][i];
    assert s'.log == s.log + [e];
    if step.Claim? && w == step.w && i == |HeldBy(s, w)| {
      assert job == Job(step.id, s.rows[step.id].attempts + 1, s.rows[step.id].maxAttempts);
      assert s'.log[|s.log|] == e == Claimed(job.id, job.attempts);
    } else {
      var i0 := if step.Settle? && w == step.w then i + 1 else i;
      assert job == s.held[w][i0];
      assert Claimed(job.id, job.attempts) in s.log && Undisposed(s.log, job.id, job.attempts);
      if step.Settle? {
        DisposalOfHead(s, step);
        assert !SameTicket(job, HeldBy(s, step.w)[0]);
      }
    }
  }

  // ---- requeues between claims, outcomes, and keeping ----

  /** Between two claims of a job there is a requeue of it; a pending job has been requeued since its last claim. */
  ghost predicate RequeuedBetweenClaims(s: Sys) {
    && (forall i, j :: 0 <= i < j < |s.log| && s.log[i].Claimed? && s.log[j].Claimed? && s.log[i].id == s.log[j].id ==>
          exists k :: i < k < j && IsRequeue(s.log[k], s.log[i].id))
    && (forall i :: 0 <= i < |s.log| && s.log[i].Claimed? ==> s.log[i].id < s.nextId)
    && (forall i, id :: (0 <= i < |s.log| && s.log[i].Claimed? && s.log[i].id == id
          && id in s.rows && s.rows[id].status == Pending) ==>
          exists k :: i < k < |s.log| && IsRequeue(s.log[k], id))
  }

  lemma RequeuesKept(s: Sys, step: Step)
    requires RequeuedBetweenClaims(s) && Enabled(s, step) && s.rows.Keys <= s.limits.Keys
    requires forall id :: id in s.limits ==> id < s.nextId
    ensures RequeuedBetweenClaims(Apply(s, step))
  {
    hide Claims, RetriedNumbers, TotalBackoff, BackoffMs, HeldAfter, Stuck, Sweepable;
    var s' := Apply(s, step);
    var e, log, log' := EventOf(s, step), s.log, s'.log;
    assert forall i :: 0 <= i < |log| ==> log'[i] == log[i];
    assert log'[|log|] == e;
    forall i, j | 0 <= i < j < |log'| && log'[i].Claimed? && log'[j].Claimed? && log'[i].id == log'[j].id
      ensures exists k :: i < k < j && IsRequeue(log'[k], log'[i].id)
    {
      if j < |log| {
        var k :| i < k < j && IsRequeue(log[k], log[i].id);
        assert IsRequeue(log'[k], log'[i].id);
      } else {
        assert s.rows[e.id].status == Pending;
        var k :| i < k < |log| && IsRequeue(log[k], e.id);
        assert IsRequeue(log'[k], log'[i].id);
      }
    }
    forall i, id | 0 <= i < |log'| && log'[i].Claimed? && log'[i].id == id
      && id in s'.rows && s'.rows[id].status == Pending
      ensures exists k :: i < k < |log'| && IsRequeue(log'[k], id)
    {
      if IsRequeue(e, id) {
        assert IsRequeue(log'[|log|], id);
      } else {
        StillPending(s, step, id);
        var k :| i < k < |log| && IsRequeue(log[k], id);
        assert IsRequeue(log'[k], id);
      }
    }
  }

  /** Only a requeue makes an existing job pending. */
  lemma StillPending(s: Sys, step: Step, id: JobId)
    requires Enabled(s, step) && id in RowsAfter(s, step) && RowsAfter(s, step)[id].status == Pending
    requires id < s.nextId && !IsRequeue(EventOf(s, step), id)
    ensures id in s.rows && s.rows[id].status == Pending
    ensures EventOf(s, step).Claimed? ==> EventOf(s, step).id != id
  {
  }

  /** Finished only after some dispatch of the job succeeded; dead only on a terminal outcome or a spent budget. */
  ghost predicate OutcomesEarned(s: Sys) {
    && (forall id :: id in s.rows && s.rows[id].status == Completed ==> exists n :: Finished(id, n) in s.log)
    && (forall id :: id in s.rows && s.rows[id].status == Dead ==>
          exists n: nat, terminal :: Died(id, n, terminal) in s.log && (terminal || n >= s.rows[id].maxAttempts))
  }

  lemma OutcomesKept(s: Sys, step: Step)
    requires OutcomesEarned(s) && AttemptsAreClaims(s) && TicketsOk(s) && Enabled(s, step)
    ensures OutcomesEarned(Apply(s, step))
  {
    hide Claims, RetriedNumbers, TotalBackoff, BackoffMs, HeldAfter, Stuck, Sweepable, Ready, TicketsOk;
    var s' := Apply(s, step);
    if step.Settle? {
      HeadTicket(s, step.w);
    }
    assert forall e :: e in s.log ==> e in s'.log;
    assert EventOf(s, step) in s'.log;
    forall id | id in s'.rows && s'.rows[id].status == Completed
      ensures exists n :: Finished(id, n) in s'.log
    {
      if id in s.rows && s.rows[id].status == Completed {
        var n :| Finished(id, n) in s.log;
        assert Finished(id, n) in s'.log;
      }
    }
    forall id | id in s'.rows && s'.rows[id].status == Dead
      ensures exists n: nat, terminal :: Died(id, n, terminal) in s'.log && (terminal || n >= s'.rows[id].maxAttempts)
    {
      if id in s.rows && s.rows[id].status == Dead && s'.rows[id] == s.rows[id] {
        var n: nat, terminal :| Died(id, n, terminal) in s.log && (terminal || n >= s.rows[id].maxAttempts);
        assert Died(id, n, terminal) in s'.log;
      } else if step.Settle? {
        var job := HeldBy(s, step.w)[0];
        assert EventOf(s, step) in {Died(id, job.attempts, true), Died(id, job.attempts, false)};
      }
    }
  }

  /** Every job ever enqueued is still there, unless it was swept; and a swept job was finished or dead. */
  ghost predicate NothingLost(s: Sys) {
    forall id :: id in s.limits ==> id in s.rows || Swept(id) in s.log
  }

  lemma NothingLostKept(s: Sys, step: Step)
    requires NothingLost(s) && Enabled(s, step)
    ensures NothingLost(Apply(s, step))
    ensures forall id :: id in s.rows && id !in Apply(s, step).rows ==>
      s.rows[id].status == Completed || s.rows[id].status == Dead
  {
  }

  // ---- no claim before its time ----

  /** The events that say when a job is next to run: so much after they happen. */
  predicate Schedules(e: Event, id: JobId) {
    (e.Enqueued? || e.Retried? || e.ReleasedAt? || e.Reaped?) && e.id == id
  }

  function DelayOf(e: Event): nat {
    if e.Enqueued? || e.Retried? || e.ReleasedAt? then e.delay else 0
  }

  function DueAt(log: seq<Event>, clock: seq<int>, id: JobId): int
    requires |log| == |clock|
  {
    if log == [] then 0
    else if Schedules(Last(log), id) then clock[|log| - 1] + DelayOf(Last(log))
    else DueAt(log[..|log| - 1], clock[..|log| - 1], id)
  }

  /** Rows are due when the log says, and no claim came before that. */
  predicate ClaimsDue(s: Sys) {
    && |s.clock| == |s.log|
    && (forall id :: id in s.rows ==> s.rows[id].nextRunAt == DueAt(s.log, s.clock, id))
    && (forall j :: 0 <= j < |s.log| && s.log[j].Claimed? ==>
          DueAt(s.log[..j], s.clock[..j], s.log[j].id) <= s.clock[j])
  }

  lemma DueAtNext(log: seq<Event>, clock: seq<int>, e: Event, at: int, id: JobId)
    requires |log| == |clock|
    ensures DueAt(log + [e], clock + [at], id) == if Schedules(e, id) then at + DelayOf(e) else DueAt(log, clock, id)
  {
    assert (log + [e])[..|log|] == log && (clock + [at])[..|log|] == clock;
  }

  lemma ClaimsDueKept(s: Sys, step: Step)
    requires ClaimsDue(s) && Enabled(s, step) && s.rows.Keys <= s.limits.Keys
    requires forall id :: id in s.limits ==> id < s.nextId
    ensures ClaimsDue(Apply(s, step))
  {
    hide DueAt, BackoffMs, HeldAfter, Stuck, Sweepable;
    var s', e := Apply(s, step), EventOf(s, step);
    forall id | id in s'.rows
      ensures s'.rows[id].nextRunAt == DueAt(s'.log, s'.clock, id)
    {
      DueAtNext(s.log, s.clock, e, TimeOf(step), id);
      RowDue(s, step, id);
    }
    forall j | 0 <= j < |s'.log| && s'.log[j].Claimed?
      ensures DueAt(s'.log[..j], s'.clock[..j], s'.log[j].id) <= s'.clock[j]
    {
      assert s'.log[..j] == s.log[..j] && s'.clock[..j] == s.clock[..j];
      if j == |s.log| {
        assert s.log[..j] == s.log && s.clock[..j] == s.clock;
      } else {
        assert s'.log[j] == s.log[j] && s'.clock[j] == s.clock[j];
      }
    }
  }

  /** A step leaves a row's time alone unless it is logged as scheduling the job. */
  lemma RowDue(s: Sys, step: Step, id: JobId)
    requires Enabled(s, step) && id in RowsAfter(s, step)
    requires s.rows.Keys <= s.limits.Keys && forall k :: k in s.limits ==> k < s.nextId
    ensures var e, r := EventOf(s, step), RowsAfter(s, step)[id];
      if Schedules(e, id) then r.nextRunAt == TimeOf(step) + DelayOf(e)
      else id in s.rows && r.nextRunAt == s.rows[id].nextRunAt
  {
    hide BackoffMs, Stuck, Sweepable, Ready;
  }

  // ---- the time spent backing off ----

  /** Every backoff in the log is its attempt's power of two, plus under a second. */
  predicate TimedRight(log: seq<Event>) {
    forall i :: 0 <= i < |log| && log[i].Retried? ==>
      BackoffMs(log[i].n, 0) <= log[i].delay < BackoffMs(log[i].n, 0) + 1000
  }

  lemma TimedRightKept(s: Sys, step: Step)
    requires TimedRight(s.log) && Enabled(s, step)
    ensures TimedRight(Apply(s, step).log)
  {
  }

  /** Sum of the jitter-free delays after the given attempts. */
  function BaseMs(ns: seq<nat>): nat {
    if ns == [] then 0 else BaseMs(ns[..|ns| - 1]) + BackoffMs(ns[|ns| - 1], 0)
  }

  lemma BaseMsSnoc(ns: seq<nat>, n: nat)
    ensures BaseMs(ns + [n]) == BaseMs(ns) + BackoffMs(n, 0)
  {
  }

  lemma {:induction false} TotalWithinBase(log: seq<Event>, id: JobId)
    requires TimedRight(log)
    ensures var ns := RetriedNumbers(log, id);
      BaseMs(ns) <= TotalBackoff(log, id) <= BaseMs(ns) + 999 * |ns|
  {
    hide BackoffMs;
    if log != [] {
      var init, e := log[..|log| - 1], Last(log);
      TotalWithinBase(init, id);
      if e.Retried? && e.id == id {
        assert log[|log| - 1] == e;
        BaseMsSnoc(RetriedNumbers(init, id), e.n);
      }
      assert RetriedNumbers(init, id) + [] == RetriedNumbers(init, id);
    }
  }

  ghost predicate Sound(s: Sys) {
    && LockedWhileInProgress(s) && AttemptsAreClaims(s) && TicketsOk(s) && TicketsApart(s) && AllRetriesOk(s)
    && ClaimsDue(s) && DisposalsOk(s) && RequeuedBetweenClaims(s) && OutcomesEarned(s) && NothingLost(s)
    && TimedRight(s.log)
  }

  lemma SoundKept(s: Sys, step: Step)
    requires Sound(s) && Enabled(s, step)
    ensures Sound(Apply(s, step))
  {
    hide LockedWhileInProgress, AttemptsAreClaims, TicketsOk, TicketsApart, AllRetriesOk, RequeuedBetweenClaims,
      ClaimsDue, DisposalsOk, OutcomesEarned, NothingLost, TimedRight, Enabled, Apply;
    LocksKept(s, step);
    AttemptsKept(s, step);
    TicketsOkKept(s, step);
    TicketsApartKept(s, step);
    RetriesKept(s, step);
    KnownIds(s);
    RequeuesKept(s, step);
    OutcomesKept(s, step);
    NothingLostKept(s, step);
    DisposalsKept(s, step);
    ClaimsDueKept(s, step);
    TimedRightKept(s, step);
  }

  lemma KnownIds(s: Sys)
    requires AttemptsAreClaims(s)
    ensures s.rows.Keys <= s.limits.Keys && forall id :: id in s.limits ==> id < s.nextId
  {
  }

  // ---- runs ----

  predicate IsRun(s: Sys, steps: seq<Step>)
    decreases steps
  {
    steps != [] ==> Enabled(s, steps[0]) && IsRun(Apply(s, steps[0]), steps[1..])
  }

  function Final(s: Sys, steps: seq<Step>): Sys
    requires IsRun(s, steps)
    decreases steps
  {
    if steps == [] then s else Final(Apply(s, steps[0]), steps[1..])
  }

  lemma {:induction false} SoundRun(s: Sys, steps: seq<Step>)
    requires Sound(s) && IsRun(s, steps)
    ensures Sound(Final(s, steps))
    decreases steps
  {
    hide Sound, Enabled, Apply;
    if steps != [] {
      SoundKept(s, steps[0]);
      SoundRun(Apply(s, steps[0]), steps[1..]);
    }
  }

  /**
    Queue safety over all interleavings, crashes, failed writes and reaps included: rows are locked exactly while in
    progress, `attempts` is the number of claims, two claims have a requeue between them, every disposal is of an
    earlier claim and no claim is disposed of twice, outcomes are earned, no job is lost, delays are those of their
    attempts, and a job is requeued on error at most `max_attempts - 1` times.
    */
  lemma QueueSafety(steps: seq<Step>)
    requires IsRun(START, steps)
    ensures var s := Final(START, steps);
      && Sound(s)
      && forall id :: id in s.limits ==>
           |RetriedNumbers(s.log, id)| <= s.limits[id] - 1
  {
    hide LockedWhileInProgress, RequeuedBetweenClaims;
    StartSound();
    SoundRun(START, steps);
    var s := Final(START, steps);
    forall id | id in s.limits
      ensures |RetriedNumbers(s.log, id)| <= s.limits[id] - 1
    {
      assert RetriesOk(s, id);
      Pigeonhole(RetriedNumbers(s.log, id), s.limits[id]);
    }
  }

  lemma {:induction false} DueAtLast(log: seq<Event>, clock: seq<int>, id: JobId, i: nat)
    requires |log| == |clock| && i < |log| && Schedules(log[i], id)
    requires forall k :: i < k < |log| ==> !Schedules(log[k], id)
    ensures DueAt(log, clock, id) == clock[i] + DelayOf(log[i])
    decreases |log|
  {
    if i < |log| - 1 {
      DueAtLast(log[..|log| - 1], clock[..|log| - 1], id, i);
    }
  }

  /**
    Nobody is early, in any run: a job enqueued with a delay, or told to back off or released with one, is not claimed
    until that much later, unless a reap or another requeue has rescheduled it in between.
    */
  lemma NeverEarly(steps: seq<Step>, i: nat, j: nat)
    requires IsRun(START, steps)
    requires var log := Final(START, steps).log;
      && i < j < |log| && log[j].Claimed?
      && (log[i].Enqueued? || log[i].Retried? || log[i].ReleasedAt?) && log[i].id == log[j].id
      && forall k :: i < k < j ==> !Schedules(log[k], log[j].id)
    ensures var s := Final(START, steps);
      |s.clock| == |s.log| && s.clock[j] >= s.clock[i] + s.log[i].delay
  {
    hide LockedWhileInProgress, AttemptsAreClaims, TicketsOk, TicketsApart, AllRetriesOk, RequeuedBetweenClaims,
      DisposalsOk, OutcomesEarned, NothingLost, TimedRight;
    StartSound();
    SoundRun(START, steps);
    var s := Final(START, steps);
    var log, clock := s.log[..j], s.clock[..j];
    DueAtLast(log, clock, s.log[j].id, i);
  }

  /** The retry-time bound, for every run: reaps, releases and crashes add nothing to what a job is told to back off. */
  lemma BackoffBound(steps: seq<Step>, id: JobId)
    requires IsRun(START, steps)
    ensures var log := Final(START, steps).log;
      var ns := RetriedNumbers(log, id);
      BaseMs(ns) <= TotalBackoff(log, id) <= BaseMs(ns) + 999 * |ns|
  {
    hide LockedWhileInProgress, AttemptsAreClaims, TicketsOk, TicketsApart, AllRetriesOk, RequeuedBetweenClaims,
      ClaimsDue, DisposalsOk, OutcomesEarned, NothingLost, TimedRight;
    StartSound();
    SoundRun(START, steps);
    TotalWithinBase(Final(START, steps).log, id);
  }

  lemma StartSound()
    ensures Sound(START) && Exclusive(START)
  {
  }

  // ---- exclusivity: no reap of a job that is still being worked on ----

  predicate IsHeld(s: Sys, id: JobId) {
    exists w, i :: w in s.held && 0 <= i < |s.held[w]| && s.held[w][i].id == id
  }

  predicate Fair(s: Sys, step: Step) {
    step.Reap? ==> !IsHeld(s, step.id)
  }

  predicate OwnsRow(s: Sys, w: Runner, job: Job) {
    && job.id in s.rows && s.rows[job.id].status == InProgress
    && s.rows[job.id].lockedBy == Some(w.name) && s.rows[job.id].attempts == job.attempts
  }

  /** Whoever holds a job holds its lock, for its latest claim. */
  predicate Exclusive(s: Sys) {
    forall w, i :: w in s.held && 0 <= i < |s.held[w]| ==> OwnsRow(s, w, s.held[w][i])
  }

  /** Then nobody else holds it, whatever the names: there is one latest claim, and no claim is held twice. */
  lemma HeldOnce(s: Sys, w: Runner, i: nat, v: Runner, j: nat)
    requires Exclusive(s) && TicketsApart(s)
    requires w in s.held && v in s.held && i < |s.held[w]| && j < |s.held[v]|
    ensures s.held[w][i].id == s.held[v][j].id ==> w == v && i == j
  {
    assert OwnsRow(s, w, s.held[w][i]) && OwnsRow(s, v, s.held[v][j]);
  }

  lemma ExclusiveKept(s: Sys, step: Step)
    requires Exclusive(s) && TicketsApart(s) && AttemptsAreClaims(s) && Enabled(s, step) && Fair(s, step)
    ensures Exclusive(Apply(s, step))
  {
    hide Claims, RetriedNumbers, TotalBackoff, BackoffMs, EventOf, Stuck;
    var s' := Apply(s, step);
    forall w, i | w in s'.held && 0 <= i < |s'.held[w]|
      ensures OwnsRow(s', w, s'.held[w][i])
    {
      var i0 := if step.Settle? && w == step.w then i + 1 else i;
      if step.Claim? && w == step.w && i == |HeldBy(s, w)| {
        assert s'.held[w][i].id == step.id;
      } else {
        var job := s.held[w][i0];
        assert s'.held[w][i] == job && OwnsRow(s, w, job);
        if step.Settle? {
          HeldOnce(s, w, i0, step.w, 0);
        }
      }
    }
  }

  /** A step keeps everyone's locks exactly when it is not the reap of a job being worked on. */
  lemma FairExactly(s: Sys, step: Step)
    requires Exclusive(s) && TicketsApart(s) && AttemptsAreClaims(s) && Enabled(s, step)
    ensures Exclusive(Apply(s, step)) <==> Fair(s, step)
  {
    hide Claims, RetriedNumbers, TotalBackoff, BackoffMs, EventOf, Stuck;
    if Fair(s, step) {
      ExclusiveKept(s, step);
    } else {
      var w, i :| w in s.held && 0 <= i < |s.held[w]| && s.held[w][i].id == step.id;
      var s' := Apply(s, step);
      assert s'.held[w][i] == s.held[w][i] && !OwnsRow(s', w, s'.held[w][i]);
    }
  }

  /** A finished or dead job stays as it is until swept. */
  lemma OutcomesFinal(s: Sys, step: Step, id: JobId)
    requires Exclusive(s) && AttemptsAreClaims(s) && Enabled(s, step)
    requires id in s.rows && (s.rows[id].status == Completed || s.rows[id].status == Dead)
    ensures var rows := Apply(s, step).rows;
      if step.Sweep? && step.id == id then id !in rows else id in rows && rows[id] == s.rows[id]
  {
  }

  /** The reaper's premise, in terms of the clock: no one is still at work on a job it claimed 45 minutes ago. */
  predicate InTime(s: Sys, step: Step) {
    step.Reap? ==>
      forall w, i :: w in s.held && 0 <= i < |s.held[w]| ==>
        var id := s.held[w][i].id;
        id in s.rows && s.rows[id].lockedAt.Some? ==> step.now - s.rows[id].lockedAt.value <= STUCK_LOCK_MS
  }

  lemma InTimeIsFair(s: Sys, step: Step)
    requires Enabled(s, step) && InTime(s, step)
    ensures Fair(s, step)
  {
  }

  predicate IsTimelyRun(s: Sys, steps: seq<Step>)
    decreases steps
  {
    steps != [] ==> Enabled(s, steps[0]) && InTime(s, steps[0]) && IsTimelyRun(Apply(s, steps[0]), steps[1..])
  }

  lemma {:induction false} TimelyRunKeeps(s: Sys, steps: seq<Step>)
    requires Sound(s) && Exclusive(s) && IsTimelyRun(s, steps)
    ensures IsRun(s, steps) && Sound(Final(s, steps)) && Exclusive(Final(s, steps))
    decreases steps
  {
    hide Exclusive, Enabled, Fair, InTime, Apply, LockedWhileInProgress, AttemptsAreClaims, TicketsOk, TicketsApart,
      AllRetriesOk, RequeuedBetweenClaims, ClaimsDue, DisposalsOk, OutcomesEarned, NothingLost, TimedRight;
    if steps != [] {
      InTimeIsFair(s, steps[0]);
      SoundKept(s, steps[0]);
      ExclusiveKept(s, steps[0]);
      TimelyRunKeeps(Apply(s, steps[0]), steps[1..]);
    }
  }

  /**
    Exclusivity: if at every reap each job still being worked on was claimed within the reaper's limit, no job is ever
    held by two workers, or twice by one.
    */
  lemma NoDoubleProcessing(steps: seq<Step>, w: Runner, i: nat, v: Runner, j: nat)
    requires IsTimelyRun(START, steps)
    ensures IsRun(START, steps)
    ensures var held := Final(START, steps).held;
      (w in held && i < |held[w]| && v in held && j < |held[v]|) ==>
      held[w][i].id == held[v][j].id ==> w == v && i == j
  {
    hide Exclusive, AttemptsAreClaims, TicketsApart;
    StartSound();
    TimelyRunKeeps(START, steps);
    var s := Final(START, steps);
    if w in s.held && i < |s.held[w]| && v in s.held && j < |s.held[v]| {
      HeldOnce(s, w, i, v, j);
    }
  }

  /**
    The premise is needed.  (A lock's age is that of its whole batch, and no write checks the lock.)  Wherever a reap
    hits a job that is still being worked on, any other worker may claim it as well, and then both hold it.
    */
  lemma UnfairReapDoubles(s: Sys, id: JobId, now: int, w: Runner, i: nat, v: Runner)
    requires Enabled(s, Reap(id, now))
    requires w in s.held && i < |s.held[w]| && s.held[w][i].id == id && v != w
    ensures Enabled(Apply(s, Reap(id, now)), Claim(v, id, now))
    ensures var held := Apply(Apply(s, Reap(id, now)), Claim(v, id, now)).held;
      && w in held && i < |held[w]| && held[w][i].id == id
      && v in held && held[v] != [] && held[v][|held[v]| - 1].id == id
  {
    hide EventOf;
  }

  /**
    A crash is always possible and forgets only what the worker held.  Every row in progress carries its lock, so 45
    minutes after it was locked it can be reaped, and at once any worker can claim it, its claims so far still counted.
    */
  lemma CrashRecovers(s: Sys, w: Runner, id: JobId, now: int, late: int, v: Runner)
    requires Sound(s) && id in s.rows && s.rows[id].status == InProgress
    ensures Enabled(s, Crash(w, now)) && s.rows[id].lockedBy.Some? && s.rows[id].lockedAt.Some?
    ensures var s' := Apply(s, Crash(w, now));
      s'.rows == s.rows && HeldBy(s', w) == [] && forall v :: v != w ==> HeldBy(s', v) == HeldBy(s, v)
    ensures late > s.rows[id].lockedAt.value + 45 * 60 * 1000 ==>
      var crashed := Apply(s, Crash(w, now));
      && Enabled(crashed, Reap(id, late))
      && var reaped := Apply(crashed, Reap(id, late));
      && Enabled(reaped, Claim(v, id, late))
      && var row := Apply(reaped, Claim(v, id, late)).rows[id];
      && row.status == InProgress && row.lockedBy == Some(v.name) && row.lockedAt == Some(late)
      && row.attempts == s.rows[id].attempts + 1 && row.maxAttempts == s.rows[id].maxAttempts
  {
    hide EventOf, AttemptsAreClaims, TicketsOk, TicketsApart, AllRetriesOk, ClaimsDue, DisposalsOk,
      RequeuedBetweenClaims, OutcomesEarned, NothingLost, TimedRight;
  }

  /** And it happens: one job, claimed by the first worker of one replica and, 45 minutes later, by that of another. */
  lemma DoubleProcessing()
    ensures var a, b := Runner(0, "job-worker-0"), Runner(1, "job-worker-0");
      var steps := [Enqueue(0, 0, 8), Claim(a, 1, 0), Reap(1, STUCK_LOCK_MS + 1), Claim(b, 1, STUCK_LOCK_MS + 1)];
      && IsRun(START, steps)
      && HeldBy(Final(START, steps), a) == [Job(1, 1, 8)]
      && HeldBy(Final(START, steps), b) == [Job(1, 2, 8)]
  {
    var a, b := Runner(0, "job-worker-0"), Runner(1, "job-worker-0");
    var late := STUCK_LOCK_MS + 1;
    var enqueue, claimA, reap, claimB := Enqueue(0, 0, 8), Claim(a, 1, 0), Reap(1, late), Claim(b, 1, late);
    var s1 := Apply(START, enqueue);
    assert s1.rows[1] == NewRow(0, 8) && HeldBy(s1, a) == [];
    var s2 := Apply(s1, claimA);
    assert s2.rows[1].lockedAt == Some(0) && HeldBy(s2, a) == [Job(1, 1, 8)];
    var s3 := Apply(s2, reap);
    assert s3.rows[1].status == Pending && s3.rows[1].nextRunAt == late && HeldBy(s3, b) == [];
    var s4 := Apply(s3, claimB);
    assert HeldBy(s4, a) == [Job(1, 1, 8)] && HeldBy(s4, b) == [Job(1, 2, 8)];
    RunStep(s3, claimB, []);
    RunStep(s2, reap, [claimB]);
    RunStep(s1, claimA, [reap, claimB]);
    RunStep(START, enqueue, [claimA, reap, claimB]);
    assert [reap] + [claimB] == [reap, claimB] && [claimA] + [reap, claimB] == [claimA, reap, claimB];
    assert [enqueue] + [claimA, reap, claimB] == [enqueue, claimA, reap, claimB];
  }

  lemma RunStep(s: Sys, step: Step, rest: seq<Step>)
    requires Enabled(s, step) && IsRun(Apply(s, step), rest)
    ensures IsRun(s, [step] + rest) && Final(s, [step] + rest) == Final(Apply(s, step), rest)
  {
    hide Enabled, Apply;
    assert ([step] + rest)[1..] == rest;
  }

  // ---- runs without reaps and shutdown releases: the attempts budget and the time spent backing off ----

  predicate Quiet(step: Step) {
    !step.Reap? && (step.Settle? ==> step.d.v != Released)
  }

  /** 1, 2, ..., m */
  function Upto(m: nat): seq<nat> {
    if m == 0 then [] else Upto(m - 1) + [m]
  }

  /** Each requeue follows the next claim in turn, and there is a claim left whenever the job is pending. */
  ghost predicate InTurn(s: Sys) {
    forall id :: id in s.limits ==>
      var m, c := |RetriedNumbers(s.log, id)|, Claims(s.log, id);
      && RetriedNumbers(s.log, id) == Upto(m)
      && c <= s.limits[id]
      && (id in s.rows ==> if s.rows[id].status == Pending then c == m < s.limits[id] else c == m + 1)
  }

  lemma InTurnKept(s: Sys, step: Step)
    requires InTurn(s) && AttemptsAreClaims(s) && Exclusive(s) && TicketsOk(s) && Enabled(s, step) && Quiet(step)
    ensures InTurn(Apply(s, step))
  {
    hide Claims, RetriedNumbers, TotalBackoff, BackoffMs, HeldAfter, Stuck, Sweepable, TicketsOk;
    var s' := Apply(s, step);
    if step.Settle? {
      HeadTicket(s, step.w);
      assert OwnsRow(s, step.w, HeldBy(s, step.w)[0]);
    }
    forall id | id in s'.limits
      ensures var m, c := |RetriedNumbers(s'.log, id)|, Claims(s'.log, id);
        && RetriedNumbers(s'.log, id) == Upto(m)
        && c <= s'.limits[id]
        && (id in s'.rows ==> if s'.rows[id].status == Pending then c == m < s'.limits[id] else c == m + 1)
    {
      StepLogged(s, step, id);
    }
  }

  predicate IsQuietRun(s: Sys, steps: seq<Step>)
    decreases steps
  {
    steps != [] ==> Enabled(s, steps[0]) && Quiet(steps[0]) && IsQuietRun(Apply(s, steps[0]), steps[1..])
  }

  ghost predicate QuietInv(s: Sys) {
    Sound(s) && Exclusive(s) && InTurn(s)
  }

  lemma QuietKept(s: Sys, step: Step)
    requires QuietInv(s) && Enabled(s, step) && Quiet(step)
    ensures QuietInv(Apply(s, step))
  {
    hide LockedWhileInProgress, AttemptsAreClaims, TicketsOk, TicketsApart, AllRetriesOk, RequeuedBetweenClaims,
      ClaimsDue, DisposalsOk, OutcomesEarned, NothingLost, TimedRight, Exclusive, InTurn, Enabled, Apply;
    SoundKept(s, step);
    ExclusiveKept(s, step);
    InTurnKept(s, step);
  }

  lemma {:induction false} QuietRunKeeps(s: Sys, steps: seq<Step>)
    requires QuietInv(s) && IsQuietRun(s, steps)
    ensures IsRun(s, steps) && QuietInv(Final(s, steps))
    decreases steps
  {
    hide QuietInv, Enabled, Apply, Quiet;
    if steps != [] {
      QuietKept(s, steps[0]);
      QuietRunKeeps(Apply(s, steps[0]), steps[1..]);
    }
  }

  /** The bound in closed form: 2 + 4 + ... + 128 seconds, then 256 seconds a time. */
  function ScheduleMs(m: nat): int {
    1000 * (if m <= 8 then Pow2(m + 1) - 2 else 510 + 256 * (m - 8))
  }

  lemma {:induction false} ScheduleIsBase(m: nat)
    ensures BaseMs(Upto(m)) == ScheduleMs(m)
  {
    if m > 0 {
      ScheduleIsBase(m - 1);
      BaseMsSnoc(Upto(m - 1), m);
      assert Pow2(8) == 256 && Pow2(9) == 512 by {
        assert Pow2(4) == 16 && Pow2(6) == 64;
      }
    }
  }

  ghost predicate WithinBudget(s: Sys, id: JobId) {
    id in s.limits ==>
      var m := |RetriedNumbers(s.log, id)|;
      && Claims(s.log, id) <= s.limits[id]
      && m < s.limits[id] && RetriedNumbers(s.log, id) == Upto(m)
      && ScheduleMs(m) <= TotalBackoff(s.log, id) <= ScheduleMs(m) + 999 * m
  }

  lemma BudgetKept(s: Sys, id: JobId)
    requires QuietInv(s)
    ensures WithinBudget(s, id)
  {
    hide Claims, RetriedNumbers, TotalBackoff, BackoffMs, Upto, BaseMs, ScheduleMs;
    if id in s.limits {
      assert RetriesOk(s, id);
      Pigeonhole(RetriedNumbers(s.log, id), s.limits[id]);
      TotalWithinBase(s.log, id);
      ScheduleIsBase(|RetriedNumbers(s.log, id)|);
    }
  }

  /** A job dead of a spent budget was requeued after every claim but the last. */
  lemma SpentBudget(s: Sys, id: JobId)
    requires QuietInv(s) && id in s.rows && s.rows[id].status == Dead
    requires forall n :: Died(id, n, true) !in s.log
    ensures id in s.limits && |RetriedNumbers(s.log, id)| == s.limits[id] - 1
  {
  }

  /**
    Without reaps and shutdown releases a job is claimed at most `max_attempts` times, its k-th requeue follows its k-th
    claim, the m requeues back off for the m-th partial sum of the schedule plus under m seconds, and a default job
    dead of a spent budget has backed off for 254 to 261 seconds.
    */
  lemma RetryBudget(steps: seq<Step>, id: JobId)
    requires IsQuietRun(START, steps)
    ensures IsRun(START, steps)
    ensures var s := Final(START, steps);
      && WithinBudget(s, id)
      && ((id in s.rows && s.rows[id].status == Dead && forall n :: Died(id, n, true) !in s.log) ==>
          |RetriedNumbers(s.log, id)| == s.rows[id].maxAttempts - 1
          && (s.rows[id].maxAttempts == DEFAULT_MAX_ATTEMPTS ==> 254_000 <= TotalBackoff(s.log, id) < 261_000))
  {
    assert QuietInv(START);
    QuietRunKeeps(START, steps);
    var s := Final(START, steps);
    hide *;
    BudgetOf(s, id);
  }

  lemma BudgetOf(s: Sys, id: JobId)
    requires QuietInv(s)
    ensures WithinBudget(s, id)
    ensures (id in s.rows && s.rows[id].status == Dead && forall n :: Died(id, n, true) !in s.log) ==>
      |RetriedNumbers(s.log, id)| == s.rows[id].maxAttempts - 1
      && (s.rows[id].maxAttempts == DEFAULT_MAX_ATTEMPTS ==> 254_000 <= TotalBackoff(s.log, id) < 261_000)
  {
    hide Claims, RetriedNumbers, TotalBackoff, BackoffMs, Upto, TicketsOk, TicketsApart, RequeuedBetweenClaims,
      Exclusive;
    BudgetKept(s, id);
    if id in s.rows && s.rows[id].status == Dead && forall n :: Died(id, n, true) !in s.log {
      SpentBudget(s, id);
      assert s.rows[id].maxAttempts == s.limits[id];
    }
    assert ScheduleMs(7) == 254_000 by {
      assert Pow2(4) == 16 && Pow2(6) == 64;
    }
  }

  // ---- the queue's own operations are runs of these steps ----

  function ClaimSteps(w: Runner, ids: seq<JobId>, now: int): seq<Step> {
    if ids == [] then [] else [Claim(w, ids[0], now)] + ClaimSteps(w, ids[1..], now)
  }

  function ReapSteps(ids: seq<JobId>, now: int): seq<Step> {
    if ids == [] then [] else [Reap(ids[0], now)] + ReapSteps(ids[1..], now)
  }

  function SweepSteps(ids: seq<JobId>, now: int): seq<Step> {
    if ids == [] then [] else [Sweep(ids[0], now)] + SweepSteps(ids[1..], now)
  }

  function SettleSteps(w: Runner, ds: seq<Disposal>): seq<Step> {
    if ds == [] then [] else [Settle(w, ds[0])] + SettleSteps(w, ds[1..])
  }

  function TicketFor(rows: Table, id: JobId): Job {
    if id in rows then Job(id, rows[id].attempts + 1, rows[id].maxAttempts) else Job(id, 0, 0)
  }

  /** The jobs a batch claim of these rows hands out. */
  function ClaimedJobs(rows: Table, ids: seq<JobId>): seq<Job> {
    if ids == [] then [] else [TicketFor(rows, ids[0])] + ClaimedJobs(rows, ids[1..])
  }

  lemma {:induction false} ClaimedJobsFrame(rows: Table, rows': Table, ids: seq<JobId>)
    requires forall id :: id in ids ==> TicketFor(rows, id) == TicketFor(rows', id)
    ensures ClaimedJobs(rows, ids) == ClaimedJobs(rows', ids)
  {
    if ids != [] {
      ClaimedJobsFrame(rows, rows', ids[1..]);
    }
  }

  function IdSet(ids: seq<JobId>): set<JobId> {
    set id | id in ids
  }

  lemma ClaimAllStep(rows: Table, w: Worker, ids: seq<JobId>, now: int)
    requires ids != [] && ids[0] in rows && ids[0] !in ids[1..]
    ensures ClaimAll(rows[ids[0] := ClaimRow(rows[ids[0]], w, now)], IdSet(ids[1..]), w, now)
         == ClaimAll(rows, IdSet(ids), w, now)
  {
  }

  lemma ClaimStepEffect(s: Sys, w: Runner, id: JobId, now: int)
    requires id in s.rows && Ready(s.rows[id], now)
    ensures Enabled(s, Claim(w, id, now))
    ensures var t := Apply(s, Claim(w, id, now));
      && t.rows == s.rows[id := ClaimRow(s.rows[id], w.name, now)]
      && HeldBy(t, w) == HeldBy(s, w) + [TicketFor(s.rows, id)]
  {
  }

  /** A batch claim is a run of single claims by the same worker, in whatever order. */
  lemma {:induction false} ClaimBatchIsRun(s: Sys, w: Runner, ids: seq<JobId>, now: int)
    requires Distinct(ids) && forall id :: id in ids ==> id in s.rows && Ready(s.rows[id], now)
    ensures var steps := ClaimSteps(w, ids, now);
      && IsRun(s, steps)
      && Final(s, steps).rows == ClaimAll(s.rows, IdSet(ids), w.name, now)
      && HeldBy(Final(s, steps), w) == HeldBy(s, w) + ClaimedJobs(s.rows, ids)
    decreases ids
  {
    hide ClaimAll, ClaimRow, Enabled, Apply, HeldBy, IdSet, Ready;
    if ids == [] {
      NoneClaimed(s.rows, w.name, now);
    } else {
      var first, rest := ids[0], ids[1..];
      assert first in ids && first !in rest by {
        assert forall i :: 0 <= i < |rest| ==> rest[i] == ids[i + 1];
      }
      ClaimStepEffect(s, w, first, now);
      var t := Apply(s, Claim(w, first, now));
      forall id | id in rest
        ensures id in t.rows && Ready(t.rows[id], now) && TicketFor(t.rows, id) == TicketFor(s.rows, id)
      {
        assert id in ids;
      }
      ClaimBatchIsRun(t, w, rest, now);
      ClaimAllStep(s.rows, w.name, ids, now);
      ClaimedJobsFrame(s.rows, t.rows, rest);
      var steps := ClaimSteps(w, ids, now);
      assert steps[0] == Claim(w, first, now) && steps[1..] == ClaimSteps(w, rest, now);
      assert HeldBy(s, w) + [TicketFor(s.rows, first)] + ClaimedJobs(s.rows, rest)
          == HeldBy(s, w) + ClaimedJobs(s.rows, ids);
    }
  }

  lemma NoneClaimed(rows: Table, w: Worker, now: int)
    ensures ClaimAll(rows, IdSet([]), w, now) == rows
  {
  }

  /** The worker's inner loop is a run of its disposals. */
  lemma {:induction false} WorkBatchIsRun(s: Sys, w: Runner, ds: seq<Disposal>)
    requires |HeldBy(s, w)| == |ds| && forall d :: d in ds ==> d.jitter < 1000
    ensures var steps := SettleSteps(w, ds);
      && IsRun(s, steps)
      && Final(s, steps).rows == DisposeAll(s.rows, HeldBy(s, w), ds)
      && HeldBy(Final(s, steps), w) == []
    decreases ds
  {
    hide Claims, RetriedNumbers, TotalBackoff, BackoffMs, Dispose, EventOf;
    if ds != [] {
      assert ds[0] in ds;
      WorkBatchIsRun(Apply(s, Settle(w, ds[0])), w, ds[1..]);
      assert SettleSteps(w, ds)[1..] == SettleSteps(w, ds[1..]);
    }
  }

  /** One reap or sweep of the whole table is a run of single-row ones. */
  lemma {:induction false} ReapIsRun(s: Sys, ids: seq<JobId>, now: int)
    requires Distinct(ids) && forall id :: id in ids <==> id in s.rows && Stuck(s.rows[id], now)
    ensures var steps := ReapSteps(ids, now);
      IsRun(s, steps) && Final(s, steps).rows == ReapAll(s.rows, now)
    decreases ids
  {
    hide Claims, RetriedNumbers, TotalBackoff, BackoffMs, Sweepable;
    if ids != [] {
      var rest := ids[1..];
      assert forall i :: 0 <= i < |rest| ==> rest[i] == ids[i + 1];
      assert ids[0] !in rest && ids[0] in ids && forall id :: id in ids <==> id == ids[0] || id in rest;
      ReapIsRun(Apply(s, Reap(ids[0], now)), rest, now);
      assert ReapSteps(ids, now)[1..] == ReapSteps(rest, now);
    }
  }

  lemma {:induction false} SweepIsRun(s: Sys, ids: seq<JobId>, now: int)
    requires Distinct(ids) && forall id :: id in ids <==> id in s.rows && Sweepable(s.rows[id], now)
    ensures var steps := SweepSteps(ids, now);
      IsRun(s, steps) && Final(s, steps).rows == SweepAll(s.rows, now)
    decreases ids
  {
    hide Claims, RetriedNumbers, TotalBackoff, BackoffMs, Stuck;
    if ids != [] {
      var rest := ids[1..];
      assert forall i :: 0 <= i < |rest| ==> rest[i] == ids[i + 1];
      assert ids[0] !in rest && ids[0] in ids && forall id :: id in ids <==> id == ids[0] || id in rest;
      SweepIsRun(Apply(s, Sweep(ids[0], now)), rest, now);
      assert SweepSteps(ids, now)[1..] == SweepSteps(rest, now);
    }
  }
}
