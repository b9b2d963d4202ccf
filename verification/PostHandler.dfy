/** The handler that creates posts, as the code it is, with other requests at work between any two of its
  database calls (internal/handlers/post_handler.go, internal/repository/idempotency_repository.go,
  internal/service/post_service.go). */
module PostHandlers {
  import opened Options
  import opened Posts
  import opened Idempotency

  class IdempotencyRepository {
    var keys: map<Slot, Record>

    constructor ()
      ensures keys == map[]
    {
      keys := map[];
    }

    /** Inserts a key and says whether this call did; None is an error. */
    method Create(slot: Slot, hash: string, outcome: Outcome) returns (claimed: Option<bool>)
      modifies this
      ensures keys == if outcome.FailsBefore? || !SlotFits(slot) then old(keys) else WithKey(old(keys), slot, hash)
      ensures claimed == if outcome.Works? && SlotFits(slot) then Some(slot !in old(keys)) else None
      ensures claimed.Some? ==> forall i :: 0 <= i < |slot.key| ==> slot.key[i] != '\0'
      ensures slot in keys && slot !in old(keys) ==> keys == old(keys)[slot := Record(hash, "processing", None, None)]
    {
      if outcome.FailsBefore? || !SlotFits(slot) {
        return None;
      }
      var inserted := slot !in keys;
      if inserted {
        keys := keys[slot := Record(hash, PROCESSING, None, None)];
      }
      return if outcome.Works? then Some(inserted) else None;
    }

    method Get(slot: Slot, outcome: Outcome) returns (r: Option<Record>)
      ensures r == if outcome.Works? && slot in keys then Some(keys[slot]) else None
    {
      return if outcome.Works? && slot in keys then Some(keys[slot]) else None;
    }

    method Complete(slot: Slot, status: int, body: Post, outcome: Outcome) returns (ok: bool)
      modifies this
      ensures keys == if outcome.FailsBefore? then old(keys) else WithResponse(old(keys), slot, status, body)
      ensures ok == outcome.Works?
      ensures keys != old(keys) ==>
                slot in old(keys)
                && keys == old(keys)[slot := Record(old(keys)[slot].hash, "completed", Some(status), Some(body))]
    {
      if !outcome.FailsBefore? && slot in keys {
        keys := keys[slot := Record(keys[slot].hash, COMPLETED, Some(status), Some(body))];
      }
      return outcome.Works?;
    }
  }

  datatype PostResult = Created(post: Post) | Invalid | Failed

  class PostService {
    var posts: seq<Creation>

    constructor ()
      ensures posts == []
    {
      posts := [];
    }

    /** Validates, then inserts; the database draws the id and reads its clock, and refuses U+0000. */
    method Create(slot: Slot, maker: nat, draft: Draft, outcome: Outcome, newId: string, now: int) returns (r: PostResult)
      modifies this
      ensures Validated(draft).None? ==> r == Invalid && posts == old(posts)
      ensures Validated(draft).Some? ==>
                var post := Post(newId, slot.user, Validated(draft).value.0, draft.content, Validated(draft).value.1, now, now);
                && r == (if outcome.Works? && Fits(draft) then Created(post) else Failed)
                && posts == old(posts) + if outcome.FailsBefore? || !Fits(draft) then [] else [Creation(slot, maker, post)]
      ensures r.Invalid? <==>
                || (forall i :: 0 <= i < |draft.title| ==> IsSpace(draft.title[i]))
                || ByteLength(Trim(draft.title)) > 300
                || (draft.status != "" && draft.status != "draft" && draft.status != "published" && draft.status != "archived")
      ensures posts != old(posts) ==>
                posts == old(posts) + [Creation(slot, maker, Post(newId, slot.user, Trim(draft.title), draft.content,
                                                                  if draft.status == "" then "draft" else draft.status, now, now))]
      ensures r.Created? ==> posts == old(posts) + [Creation(slot, maker, r.post)]
      ensures r.Created? <==>
                && !r.Invalid? && outcome == Works
                && (forall i :: 0 <= i < |Trim(draft.title)| ==> Trim(draft.title)[i] != '\0')
                && (forall i :: 0 <= i < |draft.content| ==> draft.content[i] != '\0')
    {
      ValidatedIs(draft);
      hide IsSpace, ByteLength, Trim;
      var title := Trim(draft.title);
      if title == "" {
        return Invalid;
      }
      if ByteLength(title) > 300 {
        return Invalid;
      }
      var status := draft.status;
      if status == "" {
        status := DRAFT;
      }
      if !IsValidStatus(status) {
        return Invalid;
      }
      if outcome.FailsBefore? || !Storable(title) || !Storable(draft.content) {
        return Failed;
      }
      var post := Post(newId, slot.user, title, draft.content, status, now, now);
      posts := posts + [Creation(slot, maker, post)];
      return if outcome.Works? then Created(post) else Failed;
    }
  }

  /** What other requests do before a database call of this one, how that call ends, and the clock. */
  datatype Turn = Turn(others: seq<Action>, outcome: Outcome, now: int)

  predicate Leaves(others: seq<Action>, id: nat) {
    forall i :: 0 <= i < |others| ==> others[i].id != id
  }

  lemma {:induction false} OthersLeaveRequest(s: State, others: seq<Action>, id: nat)
    requires Leaves(others, id) && id in s.requests
    ensures id in Exec(s, others).requests && Exec(s, others).requests[id] == s.requests[id]
  {
    if others != [] {
      hide Fits, SlotFits, Validated, Existing;
      OthersLeaveRequest(s, others[..|others| - 1], id);
    }
  }

  class PostHandler {
    const idempotency: IdempotencyRepository
    const posts: PostService
    var requests: map<nat, Invocation>   // where each handler stands
    var owners: map<Slot, nat>           // and which of them has which key

    constructor ()
      ensures State() == START && fresh(idempotency) && fresh(posts)
    {
      idempotency := new IdempotencyRepository();
      posts := new PostService();
      requests, owners := map[], map[];
    }

    function State(): Idempotency.State
      reads this, idempotency, posts
    {
      Idempotency.State(idempotency.keys, posts.posts, requests, owners)
    }

    method Others(others: seq<Action>)
      modifies this, idempotency, posts
      ensures State() == Exec(old(State()), others)
    {
      var s := Exec(State(), others);
      idempotency.keys, posts.posts, requests, owners := s.keys, s.posts, s.requests, s.owners;
    }

    /** Records where the handler of a request stands. */
    method At(id: nat, stage: Stage)
      requires id in requests
      modifies this
      ensures State() == Moved(old(State()), id, stage) && owners == old(owners)
    {
      requests := requests[id := requests[id].(stage := stage)];
    }

    /** Takes the key; the model notes who got it. */
    method Claim(id: nat, turn: Turn) returns (claimed: Option<bool>, ghost run: seq<Action>)
      requires id in requests && requests[id].stage.Claiming? && Leaves(turn.others, id)
      modifies this, idempotency, posts
      ensures State() == Exec(old(State()), run)
      ensures id in requests && requests[id] == old(requests[id]).(stage := requests[id].stage)
      ensures requests[id].stage == if claimed.None? then Answered(INTERNAL) else if claimed.value then Creating else Reading
    {
      OthersLeaveRequest(State(), turn.others, id);
      Others(turn.others);
      ghost var before := State();
      var i := requests[id];
      var free := i.slot !in idempotency.keys;
      claimed := idempotency.Create(i.slot, i.hash, turn.outcome);
      if !turn.outcome.FailsBefore? && SlotFits(i.slot) && free {
        owners := owners[i.slot := id];
      }
      At(id, if claimed.None? then Answered(INTERNAL) else if claimed.value then Creating else Reading);
      run := turn.others + [Step(id, turn.outcome, FreshId(before.posts), turn.now)];
      ExecSnoc(old(State()), turn.others, Step(id, turn.outcome, FreshId(before.posts), turn.now));
    }
  
    /** Answers a request that found its key taken. */
    method Replay(id: nat, turn: Turn) returns (answer: Answer, ghost run: seq<Action>)
      requires id in requests && requests[id].stage.Reading? && Leaves(turn.others, id)
      modifies this, idempotency, posts
      ensures State() == Exec(old(State()), run)
      ensures id in requests && requests[id] == old(requests[id]).(stage := Answered(answer))
    {
      OthersLeaveRequest(State(), turn.others, id);
      Others(turn.others);
      ghost var before := State();
      var i := requests[id];
      var existing := idempotency.Get(i.slot, turn.outcome);
      if existing.None? {
        answer := INTERNAL;
      } else if existing.value.hash != i.hash {
        answer := Failure(422, "idempotency_key_reused");
      } else if existing.value.status == PROCESSING {
        answer := Failure(409, "request_in_progress");
      } else if existing.value.status == COMPLETED && existing.value.responseStatus.Some? {
        answer := Reply(existing.value.responseStatus.value, existing.value.responseBody);
      } else {
        answer := INTERNAL;
      }
      At(id, Answered(answer));
      run := turn.others + [Step(id, turn.outcome, FreshId(before.posts), turn.now)];
      ExecSnoc(old(State()), turn.others, Step(id, turn.outcome, FreshId(before.posts), turn.now));
    }

    /** Makes the post of the request that has the key. */
    method MakePost(id: nat, turn: Turn) returns (made: PostResult, ghost run: seq<Action>)
      requires id in requests && requests[id].stage.Creating? && Leaves(turn.others, id)
      modifies this, idempotency, posts
      ensures State() == Exec(old(State()), run)
      ensures id in requests && requests[id] == old(requests[id]).(stage := requests[id].stage)
      ensures requests[id].stage == match made
                                    case Created(post) => Completing(post)
                                    case Invalid => Answered(Failure(400, "validation_error"))
                                    case Failed => Answered(INTERNAL)
    {
      hide Fits, SlotFits, Validated, Unused, Do, Exec;
      OthersLeaveRequest(State(), turn.others, id);
      Others(turn.others);
      ghost var before := State();
      var i := requests[id];
      var newId := FreshId(posts.posts);
      made := posts.Create(i.slot, id, i.draft, turn.outcome, newId, turn.now);
      At(id, match made
             case Created(post) => Completing(post)
             case Invalid => Answered(Failure(400, "validation_error"))
             case Failed => Answered(INTERNAL));
      FreshIsUnused(before.posts);
      CreateIs(before, id, turn, newId);
      run := turn.others + [Step(id, turn.outcome, newId, turn.now)];
      ExecSnoc(old(State()), turn.others, Step(id, turn.outcome, newId, turn.now));
    }

    /** Stores the response. */
    method Save(id: nat, post: Post, turn: Turn) returns (answer: Answer, ghost run: seq<Action>)
      requires id in requests && requests[id].stage == Completing(post) && Leaves(turn.others, id)
      modifies this, idempotency, posts
      ensures State() == Exec(old(State()), run)
      ensures id in requests && requests[id] == old(requests[id]).(stage := Answered(answer))
    {
      OthersLeaveRequest(State(), turn.others, id);
      Others(turn.others);
      ghost var before := State();
      var ok := idempotency.Complete(requests[id].slot, 201, post, turn.outcome);
      answer := if ok then Reply(201, Some(post)) else INTERNAL;
      At(id, Answered(answer));
      run := turn.others + [Step(id, turn.outcome, FreshId(before.posts), turn.now)];
      ExecSnoc(old(State()), turn.others, Step(id, turn.outcome, FreshId(before.posts), turn.now));
    }

    /** The whole handler.  Whatever the other requests do meanwhile, it comes to a run of the protocol, and
        the answer is the one that run gives this request; a refused request leaves no trace. */
    method Create(id: nat, r: Incoming, turns: seq<Turn>) returns (answer: Answer, ghost run: seq<Action>)
      requires id !in requests && |turns| == 3 && forall t :: t in turns ==> Leaves(t.others, id)
      modifies this, idempotency, posts
      ensures State() == Exec(old(State()), run)
      ensures Refusal(r).Some? ==> answer == Refusal(r).value && State() == old(State())
      ensures Refusal(r).None? ==> id in requests && requests[id] == Admitted(r).(stage := Answered(answer))
      ensures r.user.None? ==> answer == Failure(401, "unauthenticated")
      ensures r.user.Some? && Trim(r.header) == "" ==> answer == Failure(400, "missing_idempotency_key")
      ensures r.user.Some? && Trim(r.header) != "" && ByteLength(Trim(r.header)) > 255 ==>
                answer == Failure(400, "invalid_idempotency_key")
      ensures r.user.Some? && Trim(r.header) != "" && ByteLength(Trim(r.header)) <= 255 ==>
                && (r.body.TooLarge? ==> answer == Failure(413, "payload_too_large"))
                && (r.body.Malformed? ==> answer == Failure(400, "bad_request"))
                && (r.body.Good? ==>
                      && id in requests
                      && requests[id] == Invocation(Slot(Trim(r.header), r.user.value, r.endpoint), r.hash, r.body.draft, Answered(answer)))
    {
      run := [];
      if r.user.None? {
        return Failure(401, "unauthenticated"), run;
      }
      var key := Trim(r.header);
      if key == "" {
        return Failure(400, "missing_idempotency_key"), run;
      }
      if ByteLength(key) > 255 {
        return Failure(400, "invalid_idempotency_key"), run;
      }
      if r.body.TooLarge? {
        return Failure(413, "payload_too_large"), run;
      }
      if r.body.Malformed? {
        return Failure(400, "bad_request"), run;
      }
      hide Do, DoStep, Trim, Exec;
      ghost var before := State();
      requests := requests[id := Invocation(Slot(key, r.user.value, r.endpoint), r.hash, r.body.draft, Claiming)];
      ArriveAlone(before, id, r);
      ghost var next;
      var claimed;
      claimed, next := Claim(id, turns[0]);
      run := [Arrive(id, r)] + next;
      ExecAppend(before, [Arrive(id, r)], next);
      if claimed.None? {
        return INTERNAL, run;
      }
      if !claimed.value {
        answer, next := Replay(id, turns[1]);
        ExecAppend(before, run, next);
        run := run + next;
        return;
      }
      var made;
      made, next := MakePost(id, turns[1]);
      ExecAppend(before, run, next);
      run := run + next;
      if made.Invalid? {
        return Failure(400, "validation_error"), run;
      }
      if made.Failed? {
        return INTERNAL, run;
      }
      answer, next := Save(id, made.post, turns[2]);
      ExecAppend(before, run, next);
      run := run + next;
    }
  }

  lemma CreateIs(s: State, id: nat, turn: Turn, newId: string)
    requires id in s.requests && s.requests[id].stage.Creating? && Unused(s.posts, newId)
    ensures var i := s.requests[id];
            var s' := Do(s, Step(id, turn.outcome, newId, turn.now));
            && (Validated(i.draft).None? ==> s' == Moved(s, id, Answered(Failure(400, "validation_error"))))
            && (Validated(i.draft).Some? ==>
                  var post := NewPost(i, newId, turn.now);
                  var outcome := Attempted(turn.outcome, Fits(i.draft));
                  s' == Moved(s.(posts := s.posts + if outcome.FailsBefore? then [] else [Creation(i.slot, id, post)]),
                              id, if outcome.Works? then Completing(post) else Answered(INTERNAL)))
  {
    hide Fits, SlotFits, Validated, Unused;
  }

  lemma FreshIsUnused(posts: seq<Creation>)
    ensures Unused(posts, FreshId(posts))
  {
  }

  lemma ArriveAlone(s: State, id: nat, r: Incoming)
    requires id !in s.requests && Refusal(r) == None
    ensures Exec(s, [Arrive(id, r)]) == s.(requests := s.requests[id := Admitted(r)])
  {
    hide Refusal;
    ExecSnoc(s, [], Arrive(id, r));
    assert [] + [Arrive(id, r)] == [Arrive(id, r)];
  }
}
