# osu! player roles: a verified model

The plugin gives Discord roles to members by rules over their osu! profile. This project models the parts of it in which
mistakes would hide, and proves what they promise:

- **Rules.** An administrator's rule is an OR of groups of ANDed conditions. It is checked when saved
  (`RuleValidator`, and in plain terms `ValidatorMeaning`), interpreted for one player (`ConditionEval`), and compiled to
  a parameterised SQL clause for a whole guild (`RuleSql`, and as it runs `RuleBuilder`). `SqlClause`, `Like` and
  `Schema` give search conditions their three-valued meaning. `SqlReader` is the database's side: a lexer and a parser
  that know nothing of how clauses are printed; `SqlSpelling` and `RuleReads` show that the text sent is read as what was
  compiled. `CompilerProof` and `CompilerShape` show that text and interpreter agree, and exactly where they do not.
- **Sync.** Per-player deltas and bulk replacement keep a local mirror in step with RoleLogic's lists (`SyncEngine`, on
  top of the client in `RoleLogic` and the ordered queries in `Ordering`). `SyncSafety` is about every run with every
  pattern of answers; `SyncConvergence` is about where the two algorithms lead.
- **Jobs.** A database-backed queue with claims, retries, backoff, dead letters, reaping and sweeping (`Jobs`), under all
  interleavings of workers (`JobRuns`), and the mapping from sync errors to retries (`JobDispatch`).
- **Refresh and tokens.** The oldest-first refresh scheduler (`Refresh`) and the signed iframe-session token (`RlToken`).

The current time, regular expressions, the MAC, jitter, and everything RoleLogic, the gateway and osu! answer are
parameters, of which nothing is assumed unless a lemma says so. Times are integers; integers are unbounded except where
the code parses or stores 64 bits.

Where the code falls short of its own comments, the model follows the code, and the difference is stated exactly:

- A `not_in` on the country whose list holds no string compiles to TRUE (src/services/rule_sql.rs:197-201), although the
  module comment says missing data fails closed (src/services/rule_sql.rs:12-14): it then selects players without a
  country, whom the interpreter turns away. The validator does let such lists through.
- The interpreter rounds an age toward zero, the clause rounds it down; they differ for instants a fractional number of
  days in the future.
- Neither a disposal nor a reap looks at who holds the lock, and the lock's age is that of a whole batch worked through
  one job after the other. A batch that takes longer than the reap limit can therefore be processed twice:
  `JobRuns.DoubleProcessing` is such a run, `JobRuns.NoDoubleProcessing` shows that nothing else can lead to one.
- A rule's regular expression is checked by Rust's engine when saved and run by PostgreSQL's in a bulk sync. Where the
  second refuses what the first accepts, players are still handled one by one, but the guild-wide query can fail
  (`CompilerShape.RefusedPattern`), and with it every config job for the link.
- Registering a link that has a row keeps its assignments (src/routes/plugin.rs:40-42). If RoleLogic deleted the link
  without the plugin hearing of it, the new token stands for another list, and mirror and list part
  (`SyncConvergence.StrandedByRegistration`) until the mirror itself has to change.
- The skip test of a bulk sync compares the computed list with the mirror, not with RoleLogic's list. A remote list that
  has drifted is brought back only when the mirror has to change too (`SyncConvergence.RepairsExactly`).
- The arms of `JobError` for a vanished and for a full role link (src/tasks/job_worker.rs:116-128) are never reached: both
  syncs deal with these answers themselves (`JobDispatch.OnlyNonsenseIsTerminal`).
- A refresh that fails after the profile was committed resets the failure count first (src/routes/oauth.rs:287), so its
  backoff starts over. The jitter its comment mentions (src/tasks/refresh.rs:107) is not in the code.

## Model

| member | source | states |
|---|---|---|
| Like.EscapeLikeIsEscapeEach | src/services/rule_sql.rs:281-285 | the three whole-string replaces, in that order, amount to one escape per character |
| Like.LikeIsContains | src/services/rule_sql.rs:176-181 | `%` + escaped needle + `%` is a well-formed pattern that matches a text iff the needle is a substring of it, for all texts |
| RuleBuilder.BuildRuleWhere | src/services/rule_sql.rs:30-54 | the loops over groups with one growing bind buffer return text that the database reads as exactly the compiled clause, and its binds in order |
| RuleBuilder.BuildGroup | src/services/rule_sql.rs:42-50 | the inner loop appends the conditions' binds in order and returns their spellings in order |
| RuleBuilder.BuildCondition | src/services/rule_sql.rs:108-207 | a condition's text and the binds it pushes, placeholders numbered from the buffer's length on |
| RuleBuilder.BuildArrayCondition | src/services/rule_sql.rs:212-268 | the same for list columns, with array operators and unnested patterns |
| CompilerProof.TargetValue | src/services/rule_sql.rs:60-106 | a target's SQL expression evaluates to the fact the per-player query projects for it, NULL for a missing one, iff the target is no age, or one that rounds alike |
| ConditionEval.DaysCounted | src/services/condition_eval.rs:189-191 | the age read is the count of whole 24-hour days since the instant, or the negated count of those ahead of it |
| CompilerProof.RoundingExact | src/services/condition_eval.rs:189-191 | FLOOR and `num_days` give the same day count iff the instant is not a fractional number of days in the future |
| Schema.ProfileFacts | src/services/sync.rs:29-127 | the profile facts are the columns of the player's row, one by one |
| Schema.ModeFacts | src/services/sync.rs:50-56 | ranks and counts of the mode are the stats row's, or none and 0 without one |
| Schema.GradeFacts | src/services/sync.rs:57-64 | so are the other stats, silver grades added to the gold |
| CompilerProof.ConditionsMeaning | src/services/rule_sql.rs:46-50 | an AND of compiled conditions is TRUE iff each condition's meaning holds: UNKNOWN counts as not true |
| CompilerProof.GroupsMeaning | src/services/rule_sql.rs:41-53 | an OR of compiled groups is TRUE iff some group is non-empty and all its conditions hold |
| CompilerProof.ConditionMeaning | src/services/rule_sql.rs:108-268 | a compiled condition, if it reads no age that rounds differently, is TRUE iff the interpreter says yes or it is a `not_in` on the country without string elements |
| CompilerProof.ClauseMeaning | src/services/rule_sql.rs:30-54 | among any parameters before and after, the text of any checked tree's clause, as the database reads it, is TRUE exactly when the interpreter, taking those degenerate conditions as true, accepts; ages matter only where the tree reads them |
| CompilerProof.CompilerCorrect | src/services/rule_sql.rs:3-14 | compiler correctness: on a tree without a degenerate condition, or a row with a country, and no age read that rounds differently, the text of the clause is TRUE in three-valued logic exactly when `evaluate` accepts the facts of the same row |
| CompilerProof.DegenerateIsCountryTest | src/services/rule_sql.rs:197-201 | the interpreter takes a degenerate `not_in` to ask whether there is a country |
| CompilerShape.AgreeOnRowExactly | src/services/sync.rs:25-28 | the rows on which clause and interpreter agree for every checked condition: exactly those with a country and with ages that round alike |
| CompilerShape.AgreeOnConditionExactly | src/services/rule_sql.rs:195-205 | the checked conditions on which they agree for every row where the age read, if any, rounds alike: exactly the non-degenerate ones |
| CompilerShape.Placeholders | src/services/sync.rs:369-394 | placeholders read left to right are offset+1, offset+2, ..., one per bind, so the caller's limit parameter is fresh |
| CompilerShape.ClauseFits | src/services/rule_sql.rs:108-268 | every comparison of a checked tree's clause is well typed under its binds and every LIKE pattern well formed, and no test can fail iff the database compiles every regular expression of the rule |
| CompilerShape.FittingTestDecides | src/services/rule_sql.rs:108-268 | a test that fits compares values of like type, is unknown only where its operand is NULL, and is given a pattern where it needs one |
| CompilerShape.TypedValue | src/services/rule_sql.rs:60-106 | a typed expression has values of its type, or NULL, on every row |
| CompilerShape.RefusedPattern | src/services/rule_validator.rs:136-149 | any pattern that the validator's engine compiles and the database's does not makes a rule that is saved and whose query can fail |
| CompilerShape.FallbacksUnreached | src/services/rule_sql.rs:114-207 | on a checked condition the scalar values and the upper end are the condition's own, never a stand-in, and no operator is out of place |
| CompilerShape.TargetType | src/services/rule_sql.rs:60-106 | each target expression has the SQL type its target kind calls for |
| RuleReads.ReadsBack | src/services/rule_sql.rs:30-268 | cut into lexemes and read by SQL's precedence rules, the text of every compiled rule is exactly the clause compiled: columns, operators, casts, placeholder numbers and nesting |
| SqlSpelling.ReadBack | src/services/rule_sql.rs:41-53 | the text of any clause over rule expressions reads back as that clause and nothing else: NOT binds tighter than AND, AND than OR |
| SqlSpelling.TestBack | src/services/rule_sql.rs:108-268 | the text of every comparison, pattern match, list and array test reads back as that test, whatever follows it |
| SqlSpelling.ExprBack | src/services/rule_sql.rs:60-106 | the text of every target expression reads back as that expression |
| SqlReader.LexConcat | src/services/rule_sql.rs:50-53 | texts joined where no lexeme can go on are cut as their parts are |
| Rule.TargetKeyRoundTrip | src/models/condition.rs:155-232 | reading back a target's key gives the target |
| Rule.OperatorKeyRoundTrip | src/models/condition.rs:252-285 | reading back an operator's key gives the operator |
| Rule.ModeKeyRoundTrip | src/models/mode.rs:25-43 | reading back a mode's key gives the mode |
| ConditionEval.OperatorsMeaningful | src/models/condition.rs:286-298 | the operators valid for a kind are exactly those under which some condition holds of some fact of that kind |
| RuleValidator.ParseRuleTree | src/services/rule_validator.rs:46-98 | the nested loops return the checked tree, or the first problem in reading order with its group and condition number, as `ValidatorMeaning.RuleMeaning` spells them out |
| RuleValidator.ParseGroup | src/services/rule_validator.rs:71-88 | the same for one group |
| RuleValidator.NormalizedFits | src/services/rule_validator.rs:159-225 | whatever normalisation yields has the shape its target kind and operator need |
| RuleValidator.ConditionSound | src/services/rule_validator.rs:100-157 | an accepted condition has a valid operator, fitting values, an upper end iff it is `between`, and a regex that compiles |
| RuleValidator.ParseSound | src/services/rule_validator.rs:46-98 | an accepted tree is grant-any without groups, or has 1 to 8 groups of 1 to 12 valid conditions, with the body's targets and operators in order |
| RuleValidator.ParseImage | src/services/rule_validator.rs:46-225 | the trees that can be accepted are exactly the well-formed ones, and resubmitting an accepted tree yields it again |
| ValidatorMeaning.NormalizeMeaning | src/services/rule_validator.rs:159-225 | which value is stored for a raw one, exactly: flag words in any case and with blanks, the integer a text spells or a number truncates and saturates to, the elements of a list or comma-separated text in order, numbers and booleans as text; where there is none, the reason given |
| ValidatorMeaning.ConditionStored | src/services/rule_validator.rs:100-157 | a condition is stored iff its target and operator are those named, valid together, and its values those meant |
| ValidatorMeaning.ConditionRefused | src/services/rule_validator.rs:100-157 | and refused with a reason iff that is the first thing wrong with it |
| ValidatorMeaning.RuleMeaning | src/services/rule_validator.rs:46-98 | a body is stored as a rule iff mode, groups and conditions are what it means, and refused with a reason, group and condition iff that is its first problem in reading order |
| ValidatorMeaning.ModeNames | src/models/mode.rs:34-43 | the names of the modes with their old aliases, and no others |
| ValidatorMeaning.TargetNames | src/models/condition.rs:194-232 | a target answers to its key or its one short name only |
| ValidatorMeaning.OperatorNames | src/models/condition.rs:268-285 | an operator answers to its key only |
| RoleLogic.RemoteList.UploadUsers | src/services/rolelogic.rs:249-311 | on success RoleLogic's list is exactly the given one, on any error it is untouched; the calls sent are those of the protocol |
| RoleLogic.ChunksCover | src/services/rolelogic.rs:269-275 | chunks are non-empty, at most 100000 long, full but for the last, and concatenate to the list |
| RoleLogic.CommitOnlyWhole | src/services/rolelogic.rs:268-310 | commit is the last call and only follows acceptance of every chunk, the accepted chunks spelling out the whole list in order; a refused chunk means cancel and an error |
| RoleLogic.LimitOnlyOnAdd | src/services/rolelogic.rs:106-311 | uploads, removals and info requests never report the user limit, and a chunked upload that was started never reports the link gone |
| RoleLogic.RequestByAnswer | src/services/rolelogic.rs:17-41 | what a single request makes of each status and body: gone, disabled or paused, full, failed |
| RoleLogic.UploadByAnswers | src/services/rolelogic.rs:201-311 | how an upload ends, from the statuses and bodies of its answers alone, held writes included |
| Ordering.SelectFirst | src/services/sync.rs:377-381 | the ordered, limited query returns the first n of the one strictly increasing listing of the selected set |
| Ordering.FirstOfSpec | src/services/sync.rs:358-395 | those are min(n, size) distinct members, none of them above one left out, and all of them iff the set fits the limit |
| Ordering.SameListSameSet | src/services/sync.rs:397-410 | two ordered listings are the same list iff they are the same set |
| Ordering.LeqTotal | src/services/sync.rs:380 | the order on ids is total and antisymmetric |
| Ordering.LeqByFirstDifference | src/services/sync.rs:380 | the order is ascending by code point: prefixes first, else the first difference decides |
| SyncEngine.JudgedInMode | src/services/sync.rs:25-66 | a player is judged by the profile and the stats of the rule's mode, silver grades added to the gold, and by no ranks and zeros without such stats |
| SyncEngine.Engine.SyncForPlayer | src/services/sync.rs:149-300 | decide for every link of the player's guilds, then act link by link in any order: the outcome is the simultaneous effect on all links |
| SyncEngine.Engine.CarryOut | src/services/sync.rs:245-295 | one request and its local consequence, by RoleLogic's answer |
| SyncEngine.Engine.SyncForRoleLink | src/services/sync.rs:306-445 | tables, remote list, outcome and whether an upload was sent, for every roster, limit and answer |
| SyncEngine.Engine.DrainToEmpty | src/services/sync.rs:447-486 | an empty mirror sends nothing; otherwise the empty list replaces it |
| SyncEngine.Engine.ReplaceList | src/services/sync.rs:412-444 | runs the upload protocol against RoleLogic's list; mirror and list become the given list together, or neither changes, or the link is dropped |
| SyncEngine.Engine.DeleteOrphan | src/services/sync.rs:504-518 | the link's row and, by cascade, all its assignments go |
| SyncEngine.PerformNext | src/services/sync.rs:239-297 | actions on different links do not interfere: one more action is one more simultaneous effect |
| SyncSafety.PlayerSyncPerLink | src/services/sync.rs:240-299 | link by link: accepted moves mirror and remote list together, gone removes the link with its mirror, any other answer changes nothing, links not concerned stay as they were |
| SyncSafety.BulkSyncPerLink | src/services/sync.rs:306-518 | link by link: unchanged, or gone with its mirror, or mirror and remote list both the wanted list; held, disabled and failed writes change nothing, and only the last are reported |
| SyncSafety.PlayerByAnswers | src/services/sync.rs:240-299 | a player sync by status and body: accepted moves the link, 403 "Invalid or revoked token" deletes it, every other answer leaves it as it was |
| SyncSafety.BulkByAnswers | src/services/sync.rs:348-424 | a bulk sync by status and body: what becomes of the link for each answer to the info request and the upload, and whether the job has failed |
| SyncSafety.LinksGoOnlyWhenTold | src/services/sync.rs:502-518 | in every step of every run a link goes only with its registration or on a 403 "Invalid or revoked token" to a request for it |
| SyncSafety.BulkIsReplaceUnlessEqual | src/services/sync.rs:397-410 | a list is uploaded when and only when the mirror is not that set |
| SyncSafety.RunsKeepTables | migrations/001_initial_schema.sql:35-45 | any sequence of saves, registrations, removals and syncs with any answers keeps assignments within links and every stored rule one the validator accepted |
| SyncSafety.NewLinkGrantsNobody | migrations/001_initial_schema.sql:20-28 | a link registered for the first time lets nobody in, and registering one again changes no rule |
| SyncSafety.NextInStep | src/routes/plugin.rs:33-65 | one event leaves mirrors equal to remote lists iff it is no registration, or one that meets the list the mirror calls for |
| SyncSafety.MirrorsMatchExactly | src/services/sync.rs:149-518 | mirror safety: over a whole run with any answers, every mirror equals its remote list throughout iff every registration, of a new link or of one that has a row already, meets its mirror |
| SyncSafety.FromEmptyTables | src/services/sync.rs:149-518 | both, from empty tables on |
| SyncSafety.KeptEverywhere | migrations/001_initial_schema.sql:38-45 | the invariant of the whole tables is the same thing as its per-link form |
| SyncConvergence.SelectedIsQualifying | src/services/sync.rs:358-395 | the guild-wide query selects exactly the members the per-player decision lets in |
| SyncConvergence.WantedIsFirstQualifying | src/services/sync.rs:328-395 | the list a bulk sync wants is the first n qualifying members, drained cases included |
| SyncConvergence.EachSynced | src/services/sync.rs:197-299 | after player syncs in any order, exactly the qualifying ones of those synced are in the mirror and the others are as before, whatever other links met |
| SyncConvergence.Converges | src/services/sync.rs:149-445 | player-by-player and bulk sync end with the same assignments iff nobody outside the guild was assigned and the qualifying members fit the limit |
| SyncConvergence.ConvergesUpstream | src/services/sync.rs:149-445 | and so do RoleLogic's own lists, if the link was in step |
| SyncConvergence.SecondRunIdle | src/services/sync.rs:397-410 | a second bulk sync with unchanged inputs uploads only if the first one's upload was refused, and else changes nothing |
| SyncConvergence.RepairsExactly | src/tasks/reconcile.rs:32-43 | an accepted bulk sync ends in step iff the link was in step or its mirror had to change |
| SyncConvergence.RegistrationRepairedExactly | src/routes/plugin.rs:40-47 | after a registration that met another list, an accepted bulk sync brings the link back in step iff its mirror has to change |
| SyncConvergence.StrandedByRegistration | src/routes/plugin.rs:40-47 | a run from empty tables in which a link registered anew keeps a player in the mirror whom RoleLogic's list lacks, and every further sync changes nothing |
| JobDispatch.Dispatch | src/tasks/job_worker.rs:130-155 | a job's kind and payload select the sync, and its outcome the verdict |
| JobDispatch.DecodesExactly | src/tasks/job_worker.rs:130-156 | which kinds and payloads ask for which sync, exactly, and that every other job asks for none |
| JobDispatch.PayloadRoundTrip | src/services/jobs.rs:178-200 | what the enqueue helpers write, dispatch reads back |
| JobDispatch.OnlyNonsenseIsTerminal | src/tasks/job_worker.rs:111-155 | a dispatch is final iff kind or payload make no sense, whatever the tables hold and the world answers |
| JobDispatch.VerdictByInputs | src/tasks/job_worker.rs:111-155 | a decodable job is retried iff its sync failed (gateway or roster unread, an info request or upload failed other than by a gone, inactive or held link), and done otherwise |
| Jobs.BackoffGrows | src/services/jobs.rs:164-172 | delays start at two seconds, strictly increase up to attempt 8 despite jitter and then stay within [256, 257) seconds |
| Jobs.JobQueue.Enqueue | src/services/jobs.rs:59-83 | a new pending row under a fresh id, with eight attempts |
| Jobs.JobQueue.ClaimBatch | src/services/jobs.rs:85-109 | claimed are pending rows that are due and not locked elsewhere, the lowest ids first, a full batch or all there are; they are marked, locked, counted and come back one job each, all other rows stay |
| Jobs.LowestReady | src/services/jobs.rs:95-101 | chooses at most a batch of ready rows, all if they fit, never one above a row left out |
| Jobs.JobQueue.Complete | src/services/jobs.rs:111-120 | the row is finished and unlocked; a missing row is not an error |
| Jobs.JobQueue.FailRetry | src/services/jobs.rs:122-136 | the row is pending again after the backoff of its attempt |
| Jobs.JobQueue.FailDead | src/services/jobs.rs:138-149 | the row is dead and unlocked |
| Jobs.JobQueue.ReapStuck | src/services/jobs.rs:151-162 | exactly the rows in progress and locked for over 45 minutes become ready and unlocked, attempts and budget as they were; all others stay, none is left to reap, and the number is returned |
| Jobs.JobQueue.Sweep | src/tasks/reconcile.rs:58-70 | what goes was dead for over 30 days or completed for over 24 hours, everything else stays as it is, and nothing of the kind is left |
| Jobs.JobQueue.WorkBatch | src/tasks/job_worker.rs:63-105 | the inner loop disposes of the claimed jobs in order: release, complete, dead letter or retry by verdict and budget |
| JobRuns.QueueSafety | src/tasks/job_worker.rs:23-109 | in every interleaving of the workers of any replicas, crashes and lost writes included: rows are locked iff in progress, attempts are claims, two claims have a requeue between them, every disposal follows its own claim and is the only one of it, completed needs a success and dead a terminal or over-budget outcome, no job is lost, every delay fits its attempt, at most max_attempts - 1 error requeues |
| JobRuns.DisposalsKept | src/tasks/job_worker.rs:63-104 | each step keeps it so that a release, completion, death or retry is logged once per claim and after it |
| JobRuns.SoundKept | src/services/jobs.rs:85-162 | each step keeps these invariants |
| JobRuns.NothingLostKept | src/tasks/reconcile.rs:58-70 | only finished and dead rows ever leave the table |
| JobRuns.NoDoubleProcessing | src/tasks/job_worker.rs:17-41 | if at every reap each job still being worked on was claimed at most 45 minutes ago, no job is ever held by two workers of whatever replica and name, or twice by one |
| JobRuns.FairExactly | src/services/jobs.rs:151-162 | a step keeps every held job locked for its holder's claim iff it is not the reap of a held job |
| JobRuns.CrashRecovers | src/services/jobs.rs:151-162 | after any run a crash leaves every row in progress locked, and 45 minutes after its lock it can be reaped and at once claimed by any worker, its claims still counted |
| JobRuns.UnfairReapDoubles | src/services/jobs.rs:151-162 | a reap that hits a job some worker holds lets any other worker claim it, and both then hold it |
| JobRuns.DoubleProcessing | src/services/jobs.rs:151-162 | a run from the empty queue in which this happens: one enqueue, a claim, a reap 45 minutes later, another claim |
| JobRuns.OutcomesFinal | src/services/jobs.rs:111-149 | under exclusivity a finished or dead row stays as it is until swept |
| JobRuns.RetryBudget | src/tasks/job_worker.rs:84-101 | without reaps and releases: at most max_attempts claims, the k-th requeue follows the k-th claim, m requeues back off for the m-th partial sum plus under m seconds, and a default job dead of a spent budget has backed off for [254, 261) seconds |
| JobRuns.BackoffBound | src/services/jobs.rs:164-172 | in every run, reaps, releases and crashes included, a job's total backoff lies between the sum of 2^min(k, 8) seconds over its requeued attempts k and that plus 0.999 seconds each |
| JobRuns.NeverEarly | src/services/jobs.rs:96-98 | in every run, a job enqueued with a delay, or backing off, or released, is claimed no earlier than that much later, unless it was rescheduled in between |
| JobRuns.ScheduleIsBase | src/services/jobs.rs:166-172 | the sum in closed form |
| JobRuns.ClaimBatchIsRun | src/services/jobs.rs:85-109 | a batch claim is a run of single claims by that worker, in any order |
| JobRuns.WorkBatchIsRun | src/tasks/job_worker.rs:63-105 | a worker's inner loop is a run of its disposals |
| JobRuns.ReapIsRun | src/services/jobs.rs:151-162 | a reap is a run of single-row reaps |
| JobRuns.SweepIsRun | src/tasks/reconcile.rs:58-70 | a sweep is a run of single-row sweeps |
| Refresh.Scheduler.Tick | src/tasks/refresh.rs:59-130 | a tick handles a batch of the stalest due users and no one else, each by its own outcome |
| Refresh.HandledByOutcome | src/tasks/refresh.rs:87-126 | a refreshed user is due in six hours with a clean record; a failed one backs off by the record found, which grows by one; after a late failure the record starts over |
| Refresh.OldestDue | src/tasks/refresh.rs:62-71 | the query's answer: at most a batch of due users, all if they fit, none staler left out |
| Refresh.BackoffHours | src/tasks/refresh.rs:115-117 | failures in a row back off by 2, 4, 8, 16 and from then on 24 hours |
| Refresh.Scheduler.Link | src/routes/oauth.rs:251-287 | the user is due from six hours on and no earlier, its next failure backs off as a first one, and nobody else changes |
| Refresh.EventShortensLine | src/tasks/refresh.rs:59-130 | nobody ever gets ahead of a due user, and a tick that passes it over takes a full batch out of its way |
| Refresh.NoStarvation | src/tasks/refresh.rs:59-130 | the ticks that pass a due user over, times the batch, never exceed the users that were ahead |
| Refresh.PickedInTime | src/tasks/refresh.rs:59-130 | within floor(r / batch) + 1 ticks a due user with r users ahead is picked, unless it is linked or unlinked meanwhile |
| RlToken.ConstantTimeEq | src/services/rl_token.rs:220-229 | true iff the byte sequences are equal, whatever their lengths |
| RlToken.VerifyIframeSession | src/services/rl_token.rs:179-218 | verification as it runs, over any injective byte encoding, decides what `Verify` defines |
| RlToken.VerifySound | src/services/rl_token.rs:179-218 | an accepted token is exactly the prefix, the colon-free fields returned, an unexpired time and the signature over them |
| RlToken.PlainRoundTrip | src/services/rl_token.rs:155-218 | a minted token for colon-free ids verifies to the same session up to its expiry and to nothing after |
| RlToken.RoundTripExactly | src/services/rl_token.rs:155-218 | it does so exactly for colon-free ids and before expiry, for every MAC |
| RlToken.MintedForAnHour | src/services/rl_token.rs:152-170 | the token's text, field by field, and that it verifies to nothing more than 3600 seconds after minting |
| RlToken.PayloadInjective | src/services/rl_token.rs:155-170 | distinct sessions or expiries never share a signed payload |
| Text.ShowParse | src/services/rl_token.rs:200 | parsing a printed 64-bit integer gives it back, and it is printed with a minus sign or leading zero only where one belongs |

## Left out

- RuleReads.ReadsBack: the reader knows the expressions and tests that rules use, not all of SQL.
- CompilerProof.CompilerCorrect: what a regular expression matches is one predicate shared by both sides, because the
  Rust and the PostgreSQL dialects differ; text is compared code point by code point, without collations.
- SyncSafety.MirrorsMatchExactly: one job or request at a time; jobs that overlap on one link, a request RoleLogic
  carried out although its answer was lost or unreadable, lists changed at RoleLogic behind the plugin's back, and local
  writes failing after RoleLogic accepted (their errors are ignored, src/services/sync.rs:262-270) are not modelled, and
  there mirror and list can drift apart.
- SyncSafety.RunsKeepTables: a link deleted upstream without notice counts as having its list until RoleLogic reports it
  gone, its row is deleted, or it is registered anew.
- SyncEngine.Engine.SyncForRoleLink: a query the database refuses is, like every failed read, one missing input.
- SyncEngine.Engine.SyncForPlayer: the up to ten concurrent requests are taken one after the other in any order; a failed
  read of the gateway or a table is one missing input.
- SyncConvergence.Converges: facts, rule, clock and roster are fixed meanwhile, RoleLogic accepts for this link, and the
  members' rows are ones on which clause and interpreter are proved to agree.
- JobRuns.QueueSafety: a batch claim, reap or sweep is taken row by row, which allows more interleavings than the
  database does; the endless outer loops of the workers are a step relation; kind, payload and error text of a row are
  not part of the queue's state.
- JobRuns.RetryBudget: reaps and shutdown releases are excluded, since neither is charged to the retry budget.
- Refresh.NoStarvation: the updates that end a fetch succeed, and a tick is one event: the ticks counted are those of one
  worker that ran their query, while every replica runs one (src/main.rs:121).
- RlToken.PlainRoundTrip: the MAC is any function of secret and payload; that signatures cannot be forged is an
  assumption about HMAC, not a theorem here.
- Storing the rule tree as JSONB and reading it back, which normalises numbers and keys.
- PostgreSQL's row locks, NOTIFY, integer overflow, and text encoding.
- Optimistic versioning of rule saves, consumption of OAuth states, and the RoleLogic JWT: single checks without state
  worth modelling.
- HTTP routing, pages, sessions, CSRF and headers, configuration, health checks, and the osu! and gateway clients.
