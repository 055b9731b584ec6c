/** The RoleLogic client: what each refusal means, and the PUT or chunked upload of a whole user list. */
module RoleLogic {
  import opened Ordering
  import opened Text

  const PUT_MAX_USERS: nat := 100_000
  const CHUNK_SIZE: nat := 100_000

  const GONE_MESSAGE := "Invalid or revoked token"
  const DISABLED_MESSAGE := "This role link is disabled"
  const PAUSED_MESSAGE := "This role link is paused"
  const CONFIRM_REQUIRED := "confirm_required"
  const LIMIT_WORD := "limit"

  /** What comes back from a request: a 2xx with a readable body, another status, or nothing. */
  datatype Http = Accepted | Refused(status: int, body: string) | NoAnswer

  datatype AppError = RoleLinkNotFound | RoleLinkDisabled | RemovalHeld | UserLimitReached | Other

  datatype Outcome = Ok | Err(error: AppError)

  predicate LinkGone(status: int, body: string) {
    status == 403 && Contains(body, GONE_MESSAGE)
  }

  predicate LinkInactive(status: int, body: string) {
    status == 403 && (Contains(body, DISABLED_MESSAGE) || Contains(body, PAUSED_MESSAGE))
  }

  predicate IsRemovalHeld(status: int, body: string) {
    status == 409 && Contains(body, CONFIRM_REQUIRED)
  }

  /** `remove_user`, `get_user_info` and `start_upload`. */
  function Plain(h: Http): Outcome {
    match h
    case Accepted => Ok
    case NoAnswer => Err(Other)
    case Refused(status, body) =>
      if LinkGone(status, body) then Err(RoleLinkNotFound)
      else if LinkInactive(status, body) then Err(RoleLinkDisabled)
      else Err(Other)
  }

  function AddUser(h: Http): Outcome {
    if h.Refused? && Plain(h) == Err(Other) && (h.status == 400 || h.status == 403) && Contains(h.body, LIMIT_WORD)
    then Err(UserLimitReached)
    else Plain(h)
  }

  function ReplaceUsers(h: Http): Outcome {
    if h.Refused? && Plain(h) == Err(Other) && IsRemovalHeld(h.status, h.body) then Err(RemovalHeld) else Plain(h)
  }

  function UploadChunk(h: Http): Outcome {
    if h.Accepted? then Ok else Err(Other)
  }

  function CommitUpload(h: Http): Outcome {
    if h.Accepted? then Ok
    else if h.Refused? && IsRemovalHeld(h.status, h.body) then Err(RemovalHeld)
    else Err(Other)
  }

  // ---- the upload protocol ----

  /** Everything RoleLogic may answer during one upload; `chunk(i)` answers the i-th chunk. */
  datatype Replies = Replies(put: Http, start: Http, idGiven: bool, chunk: nat -> Http, cancel: Http, commit: Http)

  datatype Call =
    | Put(ids: seq<Id>)
    | Start
    | Chunk(ids: seq<Id>, accepted: bool)
    | Cancel
    | Commit

  function Flatten(chunks: seq<seq<Id>>): seq<Id> {
    if chunks == [] then [] else chunks[0] + Flatten(chunks[1..])
  }

  /** `ids.chunks(CHUNK_SIZE)`. */
  function Chunks(ids: seq<Id>): seq<seq<Id>> {
    if ids == [] then []
    else if |ids| <= CHUNK_SIZE then [ids]
    else [ids[..CHUNK_SIZE]] + Chunks(ids[CHUNK_SIZE..])
  }

  function StartUpload(r: Replies): Outcome {
    if Plain(r.start) == Ok && !r.idGiven then Err(Other) else Plain(r.start)
  }

  /** Are all chunks from number `i` on accepted? */
  predicate AllAccepted(chunks: seq<seq<Id>>, i: nat, r: Replies)
    decreases chunks
  {
    chunks == [] || (UploadChunk(r.chunk(i)) == Ok && AllAccepted(chunks[1..], i + 1, r))
  }

  /** The calls of the chunk loop from chunk `i` on, and the one that ends the session. */
  function ChunkCalls(chunks: seq<seq<Id>>, i: nat, r: Replies): seq<Call>
    decreases chunks
  {
    if chunks == [] then [Commit]
    else if UploadChunk(r.chunk(i)) == Ok then [Chunk(chunks[0], true)] + ChunkCalls(chunks[1..], i + 1, r)
    else [Chunk(chunks[0], false), Cancel]
  }

  function UploadCalls(ids: seq<Id>, r: Replies): seq<Call> {
    if |ids| <= PUT_MAX_USERS then [Put(ids)]
    else if StartUpload(r) != Ok then [Start]
    else [Start] + ChunkCalls(Chunks(ids), 0, r)
  }

  function UploadResult(ids: seq<Id>, r: Replies): Outcome {
    if |ids| <= PUT_MAX_USERS then ReplaceUsers(r.put)
    else if StartUpload(r) != Ok then StartUpload(r)
    else if !AllAccepted(Chunks(ids), 0, r) then Err(Other)
    else CommitUpload(r.commit)
  }

  /** RoleLogic's side of one link: the list in force, the chunks staged in an open session, and the calls received. */
  class RemoteList {
    var users: set<Id>
    var staged: Option<seq<seq<Id>>>
    var calls: seq<Call>

    constructor (inForce: set<Id>)
      ensures users == inForce && staged == None && calls == []
    {
      users, staged, calls := inForce, None, [];
    }

    method ReplaceAll(ids: seq<Id>, h: Http) returns (r: Outcome)
      modifies this
      ensures r == ReplaceUsers(h) && calls == old(calls) + [Put(ids)] && staged == old(staged)
      ensures users == if r == Ok then Members(ids) else old(users)
    {
      calls := calls + [Put(ids)];
      r := ReplaceUsers(h);
      if r == Ok {
        users := Members(ids);
      }
    }

    method Open(replies: Replies) returns (r: Outcome)
      modifies this
      ensures r == StartUpload(replies) && calls == old(calls) + [Start] && users == old(users)
      ensures r == Ok ==> staged == Some([])
    {
      calls := calls + [Start];
      r := StartUpload(replies);
      if Plain(replies.start) == Ok {
        staged := Some([]);
      }
    }

    method Append(ids: seq<Id>, h: Http) returns (r: Outcome)
      requires staged.Some?
      modifies this
      ensures r == UploadChunk(h) && calls == old(calls) + [Chunk(ids, r == Ok)] && users == old(users)
      ensures staged == if r == Ok then Some(old(staged).value + [ids]) else old(staged)
    {
      r := UploadChunk(h);
      calls := calls + [Chunk(ids, r == Ok)];
      if r == Ok {
        staged := Some(staged.value + [ids]);
      }
    }

    method Abandon(h: Http)
      modifies this
      ensures calls == old(calls) + [Cancel] && users == old(users)
    {
      calls := calls + [Cancel];
      if h.Accepted? {
        staged := None;
      }
    }

    /** Committing puts whatever was staged in force. */
    method Finish(h: Http) returns (r: Outcome)
      requires staged.Some?
      modifies this
      ensures r == CommitUpload(h) && calls == old(calls) + [Commit]
      ensures users == if r == Ok then Members(Flatten(old(staged).value)) else old(users)
    {
      calls := calls + [Commit];
      r := CommitUpload(h);
      if r == Ok {
        users := Members(Flatten(staged.value));
        staged := None;
      }
    }

    /** A whole-list upload either puts exactly the given list in force or leaves the list in force alone. */
    method UploadUsers(ids: seq<Id>, replies: Replies) returns (r: Outcome)
      modifies this
      ensures r == UploadResult(ids, replies)
      ensures users == if r == Ok then Members(ids) else old(users)
      ensures calls == old(calls) + UploadCalls(ids, replies)
    {
      if |ids| <= PUT_MAX_USERS {
        r := ReplaceAll(ids, replies.put);
        return;
      }
      r := Open(replies);
      if r != Ok {
        return;
      }
      var chunks := Chunks(ids);
      ChunksCover(ids);
      ghost var callsSoFar := calls;
      for i := 0 to |chunks|
        invariant users == old(users) && staged == Some(chunks[..i])
        invariant callsSoFar + ChunkCalls(chunks, 0, replies) == calls + ChunkCalls(chunks[i..], i, replies)
        invariant AllAccepted(chunks, 0, replies) <==> AllAccepted(chunks[i..], i, replies)
      {
        assert chunks[i..][1..] == chunks[i + 1..];
        assert chunks[..i + 1] == chunks[..i] + [chunks[i]];
        ghost var before := calls;
        r := Append(chunks[i], replies.chunk(i));
        if r != Ok {
          Abandon(replies.cancel);
          assert calls == before + ChunkCalls(chunks[i..], i, replies);
          assert old(calls) + UploadCalls(ids, replies) == callsSoFar + ChunkCalls(chunks, 0, replies);
          return;
        }
      }
      assert chunks[..|chunks|] == chunks;
      r := Finish(replies.commit);
      assert old(calls) + UploadCalls(ids, replies) == callsSoFar + ChunkCalls(chunks, 0, replies);
    }
  }

  /** Chunks are non-empty, within the cap, full but for the last, and together they are the list in order. */
  lemma {:induction false} ChunksCover(ids: seq<Id>)
    ensures var cs := Chunks(ids);
      && Flatten(cs) == ids
      && (forall i :: 0 <= i < |cs| ==> 1 <= |cs[i]| <= CHUNK_SIZE)
      && (forall i :: 0 <= i < |cs| - 1 ==> |cs[i]| == CHUNK_SIZE)
    decreases |ids|
  {
    if ids == [] {
    } else if |ids| <= CHUNK_SIZE {
      assert [ids][1..] == [];
      assert Flatten([ids]) == ids + [];
    } else {
      var head, tail := ids[..CHUNK_SIZE], ids[CHUNK_SIZE..];
      ChunksCover(tail);
      var rest := Chunks(tail);
      assert Chunks(ids) == [head] + rest;
      assert ([head] + rest)[1..] == rest;
      assert forall i :: 0 < i < |rest| + 1 ==> ([head] + rest)[i] == rest[i - 1];
    }
  }

  function AcceptedIds(calls: seq<Call>): seq<Id> {
    if calls == [] then []
    else (if calls[0].Chunk? && calls[0].accepted then calls[0].ids else []) + AcceptedIds(calls[1..])
  }

  predicate AllChunksAccepted(calls: seq<Call>) {
    forall i :: 0 <= i < |calls| && calls[i].Chunk? ==> calls[i].accepted
  }

  lemma {:induction false} ChunkCallsEnd(chunks: seq<seq<Id>>, i: nat, r: Replies)
    ensures var calls := ChunkCalls(chunks, i, r);
      && calls != []
      && (Commit in calls ==> calls[|calls| - 1] == Commit)
      && (Commit in calls <==> AllAccepted(chunks, i, r))
      && (Cancel in calls <==> !AllAccepted(chunks, i, r))
    decreases chunks
  {
    if chunks != [] && UploadChunk(r.chunk(i)) == Ok {
      ChunkCallsEnd(chunks[1..], i + 1, r);
    }
  }

  lemma {:induction false} ChunkCallsAccepted(chunks: seq<seq<Id>>, i: nat, r: Replies)
    ensures AllAccepted(chunks, i, r) <==> AllChunksAccepted(ChunkCalls(chunks, i, r))
    decreases chunks
  {
    var calls := ChunkCalls(chunks, i, r);
    if chunks != [] && UploadChunk(r.chunk(i)) == Ok {
      var rest := ChunkCalls(chunks[1..], i + 1, r);
      ChunkCallsAccepted(chunks[1..], i + 1, r);
      assert forall k :: 0 < k < |calls| ==> calls[k] == rest[k - 1];
      assert forall k :: 0 <= k < |rest| ==> rest[k] == calls[k + 1];
    } else if chunks != [] {
      assert calls[0] == Chunk(chunks[0], false);
    }
  }

  lemma {:induction false} ChunkCallsContents(chunks: seq<seq<Id>>, i: nat, r: Replies)
    ensures var ids := AcceptedIds(ChunkCalls(chunks, i, r));
      ids <= Flatten(chunks) && (AllAccepted(chunks, i, r) ==> ids == Flatten(chunks))
    decreases chunks
  {
    var calls := ChunkCalls(chunks, i, r);
    if chunks == [] {
      assert calls[1..] == [];
    } else if UploadChunk(r.chunk(i)) == Ok {
      ChunkCallsContents(chunks[1..], i + 1, r);
      assert calls[1..] == ChunkCalls(chunks[1..], i + 1, r);
    } else {
      assert calls[1..] == [Cancel] && [Cancel][1..] == [];
    }
  }

  /**
    Commit is sent only as the last call and only when every chunk was accepted, and then the accepted chunks spell out
    the whole list in order; after a refused chunk the session is cancelled instead.  A list within the cap is one PUT.
    */
  lemma CommitOnlyWhole(ids: seq<Id>, r: Replies)
    ensures var calls := UploadCalls(ids, r);
      && AcceptedIds(calls) <= ids
      && (Commit in calls ==>
            && AllChunksAccepted(calls) && AcceptedIds(calls) == ids
            && calls[|calls| - 1] == Commit && Cancel !in calls)
      && (!AllChunksAccepted(calls) ==> Cancel in calls && UploadResult(ids, r) == Err(Other))
      && (UploadResult(ids, r) == Ok ==> Put(ids) in calls || Commit in calls)
  {
    var calls := UploadCalls(ids, r);
    if |ids| > PUT_MAX_USERS && StartUpload(r) == Ok {
      var rest := ChunkCalls(Chunks(ids), 0, r);
      ChunkCallsEnd(Chunks(ids), 0, r);
      ChunkCallsAccepted(Chunks(ids), 0, r);
      ChunkCallsContents(Chunks(ids), 0, r);
      ChunksCover(ids);
      assert calls == [Start] + rest && calls[1..] == rest;
      assert forall k :: 0 < k < |calls| ==> calls[k] == rest[k - 1];
      assert forall k :: 0 <= k < |rest| ==> rest[k] == calls[k + 1];
    } else {
      assert calls[1..] == [];
    }
  }

  /** No upload or removal is ever refused for the user limit; only adding a user is. */
  lemma LimitOnlyOnAdd(ids: seq<Id>, r: Replies, h: Http)
    ensures UploadResult(ids, r) != Err(UserLimitReached) && Plain(h) != Err(UserLimitReached)
    ensures |ids| > PUT_MAX_USERS && StartUpload(r) == Ok ==> UploadResult(ids, r) != Err(RoleLinkNotFound)
  {
  }

  // ---- what RoleLogic's answers mean, by status and body ----

  predicate SaysGone(h: Http) {
    h.Refused? && h.status == 403 && Contains(h.body, "Invalid or revoked token")
  }

  /** Switched off by its owner, or paused over the guild's quota. */
  predicate SaysOff(h: Http) {
    h.Refused? && h.status == 403
    && (Contains(h.body, "This role link is disabled") || Contains(h.body, "This role link is paused"))
  }

  /** Held until the owner confirms the removals. */
  predicate SaysHeld(h: Http) {
    h.Refused? && h.status == 409 && Contains(h.body, "confirm_required")
  }

  predicate SaysFull(h: Http) {
    h.Refused? && (h.status == 400 || h.status == 403) && Contains(h.body, "limit")
  }

  /** How a request ends: RoleLogic took it, or no longer knows the link, or wants it later, or something failed. */
  datatype Fate = Took | Vanished | Postponed | Failed

  function FateOf(h: Http): Fate {
    if h.Accepted? then Took else if SaysGone(h) then Vanished else if SaysOff(h) then Postponed else Failed
  }

  ghost function UploadFate(ids: seq<Id>, r: Replies): Fate {
    if |ids| <= 100_000 then (if FateOf(r.put) == Failed && SaysHeld(r.put) then Postponed else FateOf(r.put))
    else if FateOf(r.start) != Took then FateOf(r.start)
    else if !r.idGiven || exists i: nat :: i < (|ids| + 99_999) / 100_000 && !r.chunk(i).Accepted? then Failed
    else if r.commit.Accepted? then Took
    else if SaysHeld(r.commit) then Postponed
    else Failed
  }

  function FateOfOutcome(r: Outcome): Fate {
    match r
    case Ok => Took
    case Err(RoleLinkNotFound) => Vanished
    case Err(RoleLinkDisabled) => Postponed
    case Err(RemovalHeld) => Postponed
    case Err(_) => Failed
  }

  /** What each single request makes of each answer. */
  lemma RequestByAnswer(h: Http)
    ensures FateOfOutcome(Plain(h)) == FateOf(h)
    ensures FateOfOutcome(AddUser(h)) == FateOf(h)
    ensures AddUser(h) == Err(UserLimitReached) <==> FateOf(h) == Failed && SaysFull(h)
    ensures Plain(h) in {Ok, Err(RoleLinkNotFound), Err(RoleLinkDisabled), Err(Other)}
    ensures AddUser(h) in {Ok, Err(RoleLinkNotFound), Err(RoleLinkDisabled), Err(UserLimitReached), Err(Other)}
  {
  }

  lemma {:induction false} AllAcceptedMeans(chunks: seq<seq<Id>>, i: nat, r: Replies)
    ensures AllAccepted(chunks, i, r) <==> forall k: nat :: i <= k < i + |chunks| ==> r.chunk(k).Accepted?
    decreases chunks
  {
    if chunks != [] {
      AllAcceptedMeans(chunks[1..], i + 1, r);
    }
  }

  lemma {:induction false} ChunkCount(ids: seq<Id>)
    ensures |Chunks(ids)| == (|ids| + 99_999) / 100_000
    decreases |ids|
  {
    if |ids| > CHUNK_SIZE {
      ChunkCount(ids[CHUNK_SIZE..]);
    }
  }

  /** An upload's outcome, from the statuses and bodies of the answers alone. */
  lemma UploadByAnswers(ids: seq<Id>, r: Replies)
    ensures FateOfOutcome(UploadResult(ids, r)) == UploadFate(ids, r)
    ensures UploadResult(ids, r) != Err(UserLimitReached)
  {
    hide Contains;
    AllAcceptedMeans(Chunks(ids), 0, r);
    ChunkCount(ids);
  }
}
