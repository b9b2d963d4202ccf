/** Creating posts under an Idempotency-Key (internal/handlers/post_handler.go,
  internal/repository/idempotency_repository.go): any number of requests at once, each a program with a
  counter, over one table of keys.

  A run is any sequence of actions.  Each database call of a request may work, fail without effect, or
  fail after its effect, and a request may crash between any two of its steps. */
module Idempotency {
  import opened Options
  import opened Posts

  datatype Slot = Slot(key: string, user: string, endpoint: string)

  /** A row of idempotency_keys; its key is the slot. */
  datatype Record = Record(hash: string, status: string, responseStatus: Option<int>, responseBody: Option<Post>)

  const PROCESSING := "processing"
  const COMPLETED := "completed"

  /** What a client receives: an error, or the JSON value of a post. */
  datatype Answer = Failure(status: int, code: string) | Reply(status: int, body: Option<Post>)

  const INTERNAL := Failure(500, "internal_error")

  datatype Stage =
    | Claiming
    | Reading                  // somebody else has the key
    | Creating                 // this request has the key
    | Completing(post: Post)
    | Answered(answer: Answer)
    | Crashed

  datatype Invocation = Invocation(slot: Slot, hash: string, draft: Draft, stage: Stage)

  /** A post made, and the request that made it. */
  datatype Creation = Creation(slot: Slot, maker: nat, post: Post)

  datatype State = State(
    keys: map<Slot, Record>,
    posts: seq<Creation>,
    requests: map<nat, Invocation>,
    owners: map<Slot, nat>)    // the request that inserted the row

  const START := State(map[], [], map[], map[])

  datatype Outcome = Works | FailsBefore | FailsAfter

  datatype Body = TooLarge | Malformed | Good(draft: Draft)

  /** What arrives over HTTP; `hash` is the hash of the body. */
  datatype Incoming = Incoming(user: Option<string>, header: string, endpoint: string, body: Body, hash: string)

  datatype Action =
    | Arrive(id: nat, incoming: Incoming)
    | Step(id: nat, outcome: Outcome, newId: string, now: int)
    | Crash(id: nat)

  // ---------------------------------------------------------------- one step

  /** The answer to a request that never reaches the table of keys. */
  function Refusal(r: Incoming): Option<Answer> {
    var key := Trim(r.header);
    if r.user.None? then Some(Failure(401, "unauthenticated"))
    else if key == "" then Some(Failure(400, "missing_idempotency_key"))
    else if ByteLength(key) > 255 then Some(Failure(400, "invalid_idempotency_key"))
    else if r.body.TooLarge? then Some(Failure(413, "payload_too_large"))
    else if r.body.Malformed? then Some(Failure(400, "bad_request"))
    else None
  }

  function Admitted(r: Incoming): Invocation
    requires Refusal(r) == None
  {
    Invocation(Slot(Trim(r.header), r.user.value, r.endpoint), r.hash, r.body.draft, Claiming)
  }

  /** INSERT ... ON CONFLICT DO NOTHING. */
  function WithKey(keys: map<Slot, Record>, slot: Slot, hash: string): map<Slot, Record> {
    if slot in keys then keys else keys[slot := Record(hash, PROCESSING, None, None)]
  }

  function WithResponse(keys: map<Slot, Record>, slot: Slot, status: int, body: Post): map<Slot, Record> {
    if slot !in keys then keys
    else keys[slot := keys[slot].(status := COMPLETED, responseStatus := Some(status), responseBody := Some(body))]
  }

  /** The answer to a request that finds its key taken. */
  function Existing(r: Record, hash: string): Answer {
    if r.hash != hash then Failure(422, "idempotency_key_reused")
    else if r.status == PROCESSING then Failure(409, "request_in_progress")
    else if r.status != COMPLETED || r.responseStatus.None? then INTERNAL
    else Reply(r.responseStatus.value, r.responseBody)
  }

  function NewPost(i: Invocation, newId: string, now: int): Post
    requires Validated(i.draft).Some?
  {
    Post(newId, i.slot.user, Validated(i.draft).value.0, i.draft.content, Validated(i.draft).value.1, now, now)
  }

  /** How a statement ends when the database can or cannot take its arguments. */
  function Attempted(outcome: Outcome, fits: bool): Outcome {
    if fits then outcome else FailsBefore
  }

  predicate SlotFits(slot: Slot) {
    Storable(slot.key) && Storable(slot.endpoint)
  }

  predicate Unused(posts: seq<Creation>, id: string) {
    forall c :: c in posts ==> c.post.id != id
  }

  predicate Possible(s: State, a: Action) {
    match a
    case Arrive(id, _) => id !in s.requests
    case Step(id, _, newId, _) => id in s.requests && Unused(s.posts, newId)
    case Crash(id) => id in s.requests
  }

  function Moved(s: State, id: nat, stage: Stage): State
    requires id in s.requests
  {
    s.(requests := s.requests[id := s.requests[id].(stage := stage)])
  }

  function DoClaim(s: State, id: nat, outcome: Outcome): State
    requires id in s.requests
  {
    var i := s.requests[id];
    var outcome := Attempted(outcome, SlotFits(i.slot));
    var inserted := if outcome.FailsBefore? then s else
      s.(keys := WithKey(s.keys, i.slot, i.hash),
         owners := if i.slot in s.keys then s.owners else s.owners[i.slot := id]);
    Moved(inserted, id, if !outcome.Works? then Answered(INTERNAL) else if i.slot in s.keys then Reading else Creating)
  }

  function DoRead(s: State, id: nat, outcome: Outcome): State
    requires id in s.requests
  {
    var i := s.requests[id];
    Moved(s, id, Answered(if outcome.Works? && i.slot in s.keys then Existing(s.keys[i.slot], i.hash) else INTERNAL))
  }

  function DoCreate(s: State, id: nat, outcome: Outcome, newId: string, now: int): State
    requires id in s.requests
  {
    var i := s.requests[id];
    if Validated(i.draft).None? then Moved(s, id, Answered(Failure(400, "validation_error")))
    else
      var post := NewPost(i, newId, now);
      var outcome := Attempted(outcome, Fits(i.draft));
      Moved(if outcome.FailsBefore? then s else s.(posts := s.posts + [Creation(i.slot, id, post)]),
            id, if outcome.Works? then Completing(post) else Answered(INTERNAL))
  }

  function DoComplete(s: State, id: nat, outcome: Outcome): State
    requires id in s.requests && s.requests[id].stage.Completing?
  {
    var i := s.requests[id];
    Moved(if outcome.FailsBefore? then s else s.(keys := WithResponse(s.keys, i.slot, 201, i.stage.post)),
          id, Answered(if outcome.Works? then Reply(201, Some(i.stage.post)) else INTERNAL))
  }

  function DoStep(s: State, id: nat, outcome: Outcome, newId: string, now: int): State
    requires id in s.requests
  {
    match s.requests[id].stage
    case Claiming => DoClaim(s, id, outcome)
    case Reading => DoRead(s, id, outcome)
    case Creating => DoCreate(s, id, outcome, newId, now)
    case Completing(_) => DoComplete(s, id, outcome)
    case Answered(_) => s
    case Crashed => s
  }

  function Do(s: State, a: Action): State {
    if !Possible(s, a) then s else
    match a
    case Arrive(id, r) => if Refusal(r) == None then s.(requests := s.requests[id := Admitted(r)]) else s
    case Step(id, outcome, newId, now) => DoStep(s, id, outcome, newId, now)
    case Crash(id) => if s.requests[id].stage.Answered? then s else Moved(s, id, Crashed)
  }

  function Exec(s: State, run: seq<Action>): State {
    if run == [] then s else Do(Exec(s, run[..|run| - 1]), run[|run| - 1])
  }

  lemma ExecSnoc(s: State, run: seq<Action>, a: Action)
    ensures Exec(s, run + [a]) == Do(Exec(s, run), a)
  {
    assert (run + [a])[..|run|] == run;
  }

  lemma {:induction false} ExecAppend(s: State, run: seq<Action>, more: seq<Action>)
    ensures Exec(s, run + more) == Exec(Exec(s, run), more)
  {
    if more == [] {
      assert run + more == run;
    } else {
      hide Do;
      ExecAppend(s, run, more[..|more| - 1]);
      assert (run + more)[..|run + more| - 1] == run + more[..|more| - 1];
    }
  }

  // ---------------------------------------------------------------- what every run keeps

  predicate Gone(stage: Stage) {
    stage.Answered? || stage.Crashed?
  }

  /** The post is the one made for the slot, by the request that owns it. */
  predicate Made(s: State, slot: Slot, post: Post) {
    slot in s.owners && Creation(slot, s.owners[slot], post) in s.posts
  }

  /** A row belongs to a request with its hash, and is processing without a response or completed with the
      JSON of the post made for it. */
  predicate SlotOk(s: State, slot: Slot)
    requires slot in s.keys
  {
    var r := s.keys[slot];
    && slot in s.owners && s.owners[slot] in s.requests
    && var owner := s.requests[s.owners[slot]];
    && owner.slot == slot && owner.hash == r.hash && !owner.stage.Claiming? && !owner.stage.Reading?
    && (|| (r.status == PROCESSING && r.responseStatus == None && r.responseBody == None)
        || (&& r.status == COMPLETED && r.responseStatus == Some(201)
            && r.responseBody.Some? && Made(s, slot, r.responseBody.value) && Gone(owner.stage)))
  }

  /** A request creates and completes only as the owner of its key, and its 201 carries the post made for
      that key. */
  predicate RequestOk(s: State, id: nat)
    requires id in s.requests
  {
    var i := s.requests[id];
    match i.stage
    case Claiming => true
    case Reading => i.slot in s.keys
    case Creating => i.slot in s.keys && i.slot in s.owners && s.owners[i.slot] == id
    case Completing(post) =>
      i.slot in s.keys && s.keys[i.slot].status == PROCESSING && Made(s, i.slot, post) && s.owners[i.slot] == id
    case Answered(answer) => answer.Reply? ==>
      && i.slot in s.keys && s.keys[i.slot].status == COMPLETED && s.keys[i.slot].hash == i.hash
      && answer == Reply(201, s.keys[i.slot].responseBody)
    case Crashed => true
  }

  /** A post was made by the owner of a key, who is past creating, from what the owner asked for. */
  predicate CreationOk(s: State, c: Creation) {
    && c.slot in s.owners && s.owners[c.slot] == c.maker && c.maker in s.requests
    && var maker := s.requests[c.maker];
    && maker.slot == c.slot && !maker.stage.Creating? && !maker.stage.Claiming? && !maker.stage.Reading?
    && Validated(maker.draft).Some? && c.post == NewPost(maker, c.post.id, c.post.createdAt)
  }

  predicate OnePostEach(posts: seq<Creation>) {
    forall i, j :: 0 <= i < j < |posts| ==> posts[i].slot != posts[j].slot
  }

  predicate Invariant(s: State) {
    && s.owners.Keys == s.keys.Keys
    && (forall slot :: slot in s.keys ==> SlotOk(s, slot))
    && (forall id :: id in s.requests ==> RequestOk(s, id))
    && (forall c :: c in s.posts ==> CreationOk(s, c))
    && OnePostEach(s.posts)
  }

  lemma ClaimSlot(s: State, id: nat, outcome: Outcome, slot: Slot)
    requires Invariant(s) && id in s.requests && s.requests[id].stage.Claiming? && slot in DoClaim(s, id, outcome).keys
    ensures SlotOk(DoClaim(s, id, outcome), slot)
  {
    hide Fits, SlotFits, Validated, OnePostEach, Existing;
  }

  lemma ClaimRequest(s: State, id: nat, outcome: Outcome, other: nat)
    requires Invariant(s) && id in s.requests && s.requests[id].stage.Claiming? && other in DoClaim(s, id, outcome).requests
    ensures RequestOk(DoClaim(s, id, outcome), other)
  {
    hide Fits, SlotFits, Validated, OnePostEach, Existing;
  }

  lemma ClaimCreation(s: State, id: nat, outcome: Outcome, c: Creation)
    requires Invariant(s) && id in s.requests && s.requests[id].stage.Claiming? && c in DoClaim(s, id, outcome).posts
    ensures CreationOk(DoClaim(s, id, outcome), c)
  {
    hide Fits, SlotFits, Validated, OnePostEach, Existing;
  }

  lemma ReadSlot(s: State, id: nat, outcome: Outcome, slot: Slot)
    requires Invariant(s) && id in s.requests && s.requests[id].stage.Reading? && slot in DoRead(s, id, outcome).keys
    ensures SlotOk(DoRead(s, id, outcome), slot)
  {
    hide Fits, SlotFits, Validated, OnePostEach, Existing;
  }

  lemma ReadRequest(s: State, id: nat, outcome: Outcome, other: nat)
    requires Invariant(s) && id in s.requests && s.requests[id].stage.Reading? && other in DoRead(s, id, outcome).requests
    ensures RequestOk(DoRead(s, id, outcome), other)
  {
    hide Fits, SlotFits, Validated, OnePostEach;
    assert SlotOk(s, s.requests[id].slot);
  }

  lemma ReadCreation(s: State, id: nat, outcome: Outcome, c: Creation)
    requires Invariant(s) && id in s.requests && s.requests[id].stage.Reading? && c in DoRead(s, id, outcome).posts
    ensures CreationOk(DoRead(s, id, outcome), c)
  {
    hide Fits, SlotFits, Validated, OnePostEach, Existing;
  }

  lemma CreateSlot(s: State, id: nat, outcome: Outcome, newId: string, now: int, slot: Slot)
    requires Invariant(s) && id in s.requests && s.requests[id].stage.Creating? && slot in DoCreate(s, id, outcome, newId, now).keys
    ensures SlotOk(DoCreate(s, id, outcome, newId, now), slot)
  {
    hide Fits, SlotFits, Validated, OnePostEach, Existing;
  }

  lemma CreateRequest(s: State, id: nat, outcome: Outcome, newId: string, now: int, other: nat)
    requires Invariant(s) && id in s.requests && s.requests[id].stage.Creating? && other in DoCreate(s, id, outcome, newId, now).requests
    ensures RequestOk(DoCreate(s, id, outcome, newId, now), other)
  {
    hide Fits, SlotFits, Validated, OnePostEach, Existing;
  }

  lemma CreateCreation(s: State, id: nat, outcome: Outcome, newId: string, now: int, c: Creation)
    requires Invariant(s) && id in s.requests && s.requests[id].stage.Creating? && c in DoCreate(s, id, outcome, newId, now).posts
    ensures CreationOk(DoCreate(s, id, outcome, newId, now), c)
  {
    hide Fits, SlotFits, Validated, OnePostEach, Existing;
  }

  lemma CompleteSlot(s: State, id: nat, outcome: Outcome, slot: Slot)
    requires Invariant(s) && id in s.requests && s.requests[id].stage.Completing? && slot in DoComplete(s, id, outcome).keys
    ensures SlotOk(DoComplete(s, id, outcome), slot)
  {
    hide Fits, SlotFits, Validated, OnePostEach, Existing;
  }

  lemma CompleteRequest(s: State, id: nat, outcome: Outcome, other: nat)
    requires Invariant(s) && id in s.requests && s.requests[id].stage.Completing? && other in DoComplete(s, id, outcome).requests
    ensures RequestOk(DoComplete(s, id, outcome), other)
  {
    hide Fits, SlotFits, Validated, OnePostEach, Existing;
  }

  lemma CompleteCreation(s: State, id: nat, outcome: Outcome, c: Creation)
    requires Invariant(s) && id in s.requests && s.requests[id].stage.Completing? && c in DoComplete(s, id, outcome).posts
    ensures CreationOk(DoComplete(s, id, outcome), c)
  {
    hide Fits, SlotFits, Validated, OnePostEach, Existing;
  }

  /** One more post, for a key whose owner is only now creating it. */
  lemma CreateOnce(s: State, id: nat, outcome: Outcome, newId: string, now: int)
    requires Invariant(s) && id in s.requests && s.requests[id].stage.Creating?
    ensures OnePostEach(DoCreate(s, id, outcome, newId, now).posts)
  {
    hide Fits, SlotFits, Validated, SlotOk;
    assert RequestOk(s, id);
    forall c | c in s.posts
      ensures c.slot != s.requests[id].slot
    {
      assert CreationOk(s, c);
    }
  }

  lemma CrashKeeps(s: State, id: nat)
    requires Invariant(s) && id in s.requests && !s.requests[id].stage.Answered?
    ensures Invariant(Moved(s, id, Crashed))
  {
    hide Fits, SlotFits, Validated, OnePostEach;
    var s' := Moved(s, id, Crashed);
    forall slot | slot in s'.keys ensures SlotOk(s', slot) {}
    forall other | other in s'.requests ensures RequestOk(s', other) {}
    forall c | c in s'.posts ensures CreationOk(s', c) {}
  }

  lemma ArriveKeeps(s: State, id: nat, i: Invocation)
    requires Invariant(s) && id !in s.requests && i.stage.Claiming?
    ensures Invariant(s.(requests := s.requests[id := i]))
  {
    hide Fits, SlotFits, Validated, OnePostEach;
  }

  lemma KeysAreOwned(s: State, id: nat, outcome: Outcome, newId: string, now: int)
    requires Invariant(s) && id in s.requests
    ensures var s' := DoStep(s, id, outcome, newId, now);
            s'.owners.Keys == s'.keys.Keys && (!s.requests[id].stage.Creating? ==> s'.posts == s.posts)
  {
    hide Fits, SlotFits, Validated, SlotOk, CreationOk, OnePostEach;
    assert RequestOk(s, id);
  }

  lemma StepKeeps(s: State, id: nat, outcome: Outcome, newId: string, now: int)
    requires Invariant(s) && id in s.requests
    ensures Invariant(DoStep(s, id, outcome, newId, now))
  {
    hide SlotOk, RequestOk, CreationOk, OnePostEach, DoClaim, DoRead, DoCreate, DoComplete;
    var s' := DoStep(s, id, outcome, newId, now);
    KeysAreOwned(s, id, outcome, newId, now);
    match s.requests[id].stage {
      case Claiming =>
        forall slot | slot in s'.keys ensures SlotOk(s', slot) { ClaimSlot(s, id, outcome, slot); }
        forall other | other in s'.requests ensures RequestOk(s', other) { ClaimRequest(s, id, outcome, other); }
        forall c | c in s'.posts ensures CreationOk(s', c) { ClaimCreation(s, id, outcome, c); }
      case Reading =>
        forall slot | slot in s'.keys ensures SlotOk(s', slot) { ReadSlot(s, id, outcome, slot); }
        forall other | other in s'.requests ensures RequestOk(s', other) { ReadRequest(s, id, outcome, other); }
        forall c | c in s'.posts ensures CreationOk(s', c) { ReadCreation(s, id, outcome, c); }
      case Creating =>
        forall slot | slot in s'.keys ensures SlotOk(s', slot) { CreateSlot(s, id, outcome, newId, now, slot); }
        forall other | other in s'.requests ensures RequestOk(s', other) { CreateRequest(s, id, outcome, newId, now, other); }
        forall c | c in s'.posts ensures CreationOk(s', c) { CreateCreation(s, id, outcome, newId, now, c); }
        CreateOnce(s, id, outcome, newId, now);
      case Completing(_) =>
        forall slot | slot in s'.keys ensures SlotOk(s', slot) { CompleteSlot(s, id, outcome, slot); }
        forall other | other in s'.requests ensures RequestOk(s', other) { CompleteRequest(s, id, outcome, other); }
        forall c | c in s'.posts ensures CreationOk(s', c) { CompleteCreation(s, id, outcome, c); }
      case _ =>
    }
  }

  lemma {:induction false} EveryRun(run: seq<Action>)
    ensures Invariant(Exec(START, run))
  {
    if run != [] {
      hide Invariant, DoStep, Refusal, Moved;
      var s, a := Exec(START, run[..|run| - 1]), run[|run| - 1];
      EveryRun(run[..|run| - 1]);
      if Possible(s, a) {
        match a {
          case Arrive(id, r) => if Refusal(r) == None { ArriveKeeps(s, id, Admitted(r)); }
          case Step(id, outcome, newId, now) => StepKeeps(s, id, outcome, newId, now);
          case Crash(id) => if !s.requests[id].stage.Answered? { CrashKeeps(s, id); }
        }
      }
    }
  }

  // ---------------------------------------------------------------- what the protocol is for

  /** However many requests carry a key, and whenever they crash or the database fails, at most one post is
      made for it; the post is what the request that got the key asked for. */
  lemma AtMostOnePost(run: seq<Action>)
    ensures var s := Exec(START, run);
            && (forall i, j :: 0 <= i < j < |s.posts| ==> s.posts[i].slot != s.posts[j].slot)
            && (forall c :: c in s.posts ==>
                  && c.slot in s.keys && c.maker in s.requests
                  && var maker := s.requests[c.maker];
                  && maker.slot == c.slot && maker.hash == s.keys[c.slot].hash
                  && Validated(maker.draft) == Some((c.post.title, c.post.status))
                  && c.post.title == Trim(maker.draft.title)
                  && c.post.status == (if maker.draft.status == "" then "draft" else maker.draft.status)
                  && c.post.user == c.slot.user && c.post.content == maker.draft.content)
  {
    hide Exec, Fits, SlotFits, Validated;
    EveryRun(run);
    var s := Exec(START, run);
    forall c | c in s.posts
      ensures CreationOk(s, c) && c.slot in s.keys && SlotOk(s, c.slot)
      ensures var d := s.requests[c.maker].draft;
              Validated(d) == Some((Trim(d.title), if d.status == "" then "draft" else d.status))
    {
      assert CreationOk(s, c);
      ValidatedIs(s.requests[c.maker].draft);
    }
  }

  predicate Got201(s: State, id: nat, post: Post) {
    id in s.requests && s.requests[id].stage == Answered(Reply(201, Some(post)))
  }

  /** A client that gets the JSON of a post at all gets it with status 201, asked with the hash stored for
      its key, and receives the one post made for the key: so all such clients agree. */
  lemma RepliesAgree(run: seq<Action>, id: nat)
    ensures var s := Exec(START, run);
            id in s.requests && s.requests[id].stage.Answered? && s.requests[id].stage.answer.Reply? ==>
              exists c :: c in s.posts && c.slot == s.requests[id].slot && Got201(s, id, c.post)
                          && s.keys.Keys >= {c.slot} && s.keys[c.slot].hash == s.requests[id].hash
  {
    hide Exec, Fits, SlotFits, Validated, OnePostEach, CreationOk;
    EveryRun(run);
    var s := Exec(START, run);
    if id in s.requests && s.requests[id].stage.Answered? && s.requests[id].stage.answer.Reply? {
      var slot := s.requests[id].slot;
      assert RequestOk(s, id) && SlotOk(s, slot);
      var c := Creation(slot, s.owners[slot], s.keys[slot].responseBody.value);
      assert c in s.posts && Got201(s, id, c.post);
    }
  }

  lemma TwoRepliesAgree(run: seq<Action>, id1: nat, id2: nat, post1: Post, post2: Post)
    requires var s := Exec(START, run); Got201(s, id1, post1) && Got201(s, id2, post2)
    requires Exec(START, run).requests[id1].slot == Exec(START, run).requests[id2].slot
    ensures post1 == post2
  {
    hide Exec, Fits, SlotFits, Validated;
    RepliesAgree(run, id1);
    RepliesAgree(run, id2);
    AtMostOnePost(run);
  }

  /** A request that found its key taken finds a row when it reads, that of another request: the answers for
      a missing row are never given. */
  lemma LoserFindsRow(run: seq<Action>, id: nat)
    requires var s := Exec(START, run); id in s.requests && s.requests[id].stage.Reading?
    ensures var s := Exec(START, run);
            var slot := s.requests[id].slot;
            && slot in s.keys && slot in s.owners && s.owners[slot] != id && s.owners[slot] in s.requests
            && s.requests[s.owners[slot]].slot == slot && s.requests[s.owners[slot]].hash == s.keys[slot].hash
  {
    hide Exec, Fits, SlotFits, Validated, OnePostEach, CreationOk;
    EveryRun(run);
    var s := Exec(START, run);
    assert RequestOk(s, id) && SlotOk(s, s.requests[id].slot);
  }

  /** The answer to a request that found its key taken: 422 exactly when the hash differs, whatever became
      of the first request; otherwise 409 until the response is stored and the stored post afterwards.
      The table and the posts stay as they are. */
  lemma LoserIsAnswered(run: seq<Action>, id: nat, newId: string, now: int)
    requires var s := Exec(START, run); id in s.requests && s.requests[id].stage.Reading? && Unused(s.posts, newId)
    ensures var s := Exec(START, run);
            var s' := Do(s, Step(id, Works, newId, now));
            && s' == Moved(s, id, s'.requests[id].stage)
            && s.requests[id].slot in s.keys
            && var r := s.keys[s.requests[id].slot];
            && (s'.requests[id].stage == Answered(Failure(422, "idempotency_key_reused")) <==> r.hash != s.requests[id].hash)
            && ((r.hash == s.requests[id].hash && r.status == PROCESSING)
                <==> s'.requests[id].stage == Answered(Failure(409, "request_in_progress")))
            && ((exists post :: Got201(s', id, post)) <==> r.hash == s.requests[id].hash && r.status == COMPLETED)
            && s'.requests[id].stage != Answered(INTERNAL)
  {
    hide Exec, Fits, SlotFits, Validated, OnePostEach, CreationOk;
    EveryRun(run);
    var s := Exec(START, run);
    var s' := Do(s, Step(id, Works, newId, now));
    assert RequestOk(s, id) && SlotOk(s, s.requests[id].slot);
    if s'.requests[id].stage.Answered? && s'.requests[id].stage.answer.Reply? {
      assert Got201(s', id, s'.requests[id].stage.answer.body.value);
    }
  }

  /** Every request of the run was hashed by `hash`. */
  predicate HashedBy(run: seq<Action>, hash: Draft -> string) {
    forall i :: 0 <= i < |run| && run[i].Arrive? && run[i].incoming.body.Good? ==>
      run[i].incoming.hash == hash(run[i].incoming.body.draft)
  }

  lemma {:induction false} HashesAreOfDrafts(run: seq<Action>, hash: Draft -> string)
    requires HashedBy(run, hash)
    ensures forall id :: id in Exec(START, run).requests ==>
              Exec(START, run).requests[id].hash == hash(Exec(START, run).requests[id].draft)
  {
    if run != [] {
      hide Fits, SlotFits, Validated, Existing;
      HashesAreOfDrafts(run[..|run| - 1], hash);
    }
  }

  /** In terms of bodies: a request that found its key taken gets 422 exactly when its body hashes
      differently from the body of the request that owns the key. */
  lemma RefusedForItsBody(run: seq<Action>, hash: Draft -> string, id: nat, newId: string, now: int)
    requires HashedBy(run, hash)
    requires var s := Exec(START, run); id in s.requests && s.requests[id].stage.Reading? && Unused(s.posts, newId)
    ensures var s := Exec(START, run);
            var s' := Do(s, Step(id, Works, newId, now));
            && id in s'.requests
            && s.requests[id].slot in s.owners && s.owners[s.requests[id].slot] in s.requests
            && ((s'.requests[id].stage == Answered(Failure(422, "idempotency_key_reused")))
                <==> hash(s.requests[id].draft) != hash(s.requests[s.owners[s.requests[id].slot]].draft))
  {
    hide Exec, Do, HashedBy, Validated, RequestOk, OnePostEach, CreationOk;
    var s := Exec(START, run);
    EveryRun(run);
    LoserIsAnswered(run, id, newId, now);
    HashesAreOfDrafts(run, hash);
    assert SlotOk(s, s.requests[id].slot);
  }

  /** No step removes a key or changes its hash; a row changes only from processing to completed, once. */
  lemma RecordsOnlyComplete(run: seq<Action>, a: Action, slot: Slot)
    requires slot in Exec(START, run).keys
    ensures var s := Exec(START, run);
            var s' := Do(s, a);
            && slot in s'.keys && s'.keys[slot].hash == s.keys[slot].hash
            && (s'.keys[slot] != s.keys[slot] ==>
                  && s.keys[slot] == Record(s.keys[slot].hash, PROCESSING, None, None)
                  && s'.keys[slot].status == COMPLETED && s'.keys[slot].responseStatus == Some(201)
                  && exists c :: c in s.posts && c.slot == slot && s'.keys[slot].responseBody == Some(c.post))
  {
    hide Exec, Fits, SlotFits, Validated, OnePostEach, CreationOk, Existing, Refusal;
    EveryRun(run);
    var s := Exec(START, run);
    assert SlotOk(s, slot);
    if a.Step? && a.id in s.requests && s.requests[a.id].stage.Completing? {
      assert RequestOk(s, a.id);
      var c := Creation(slot, s.owners[slot], s.requests[a.id].stage.post);
      assert s.requests[a.id].slot == slot ==> c in s.posts;
    }
  }

  // ---------------------------------------------------------------- when a key is lost

  /** The request that owns the key can still bring it to completion. */
  predicate Alive(s: State, slot: Slot) {
    && slot in s.owners && s.owners[slot] in s.requests
    && var owner := s.requests[s.owners[slot]];
    owner.stage.Completing? || (owner.stage.Creating? && Validated(owner.draft).Some? && Fits(owner.draft))
  }

  predicate Completed(s: State, slot: Slot) {
    slot in s.keys && s.keys[slot].status == COMPLETED
  }

  /** The row of the key and the request that owns it are the same in both states. */
  predicate SameKey(s: State, s': State, slot: Slot) {
    && slot in s.keys && slot in s'.keys && s'.keys[slot] == s.keys[slot]
    && slot in s.owners && slot in s'.owners && s'.owners[slot] == s.owners[slot]
    && s.owners[slot] in s.requests && s.owners[slot] in s'.requests
    && s'.requests[s.owners[slot]] == s.requests[s.owners[slot]]
  }

  lemma OthersLeaveRow(s: State, id: nat, outcome: Outcome, newId: string, now: int, slot: Slot)
    requires Invariant(s) && id in s.requests && slot in s.keys && s.owners[slot] != id
    ensures var s' := DoStep(s, id, outcome, newId, now);
            slot in s'.keys && s'.keys[slot] == s.keys[slot] && slot in s'.owners && s'.owners[slot] == s.owners[slot]
  {
    hide Fits, SlotFits, Validated, OnePostEach, CreationOk, Existing, Made, SlotOk;
    assert RequestOk(s, id);
  }

  /** Only the owner of a key writes its row. */
  lemma OthersLeaveKey(s: State, id: nat, outcome: Outcome, newId: string, now: int, slot: Slot)
    requires Invariant(s) && id in s.requests && slot in s.keys && s.owners[slot] != id
    ensures SameKey(s, DoStep(s, id, outcome, newId, now), slot)
  {
    hide Fits, SlotFits, Validated, OnePostEach, CreationOk, Existing, Made, RequestOk;
    assert SlotOk(s, slot);
    OthersLeaveRow(s, id, outcome, newId, now, slot);
  }

  predicate Lost(s: State, slot: Slot) {
    slot in s.keys && !Completed(s, slot) && !Alive(s, slot)
  }

  lemma OwnerStaysLost(s: State, outcome: Outcome, newId: string, now: int, slot: Slot)
    requires Invariant(s) && Lost(s, slot)
    ensures Lost(DoStep(s, s.owners[slot], outcome, newId, now), slot)
  {
    hide Fits, SlotFits, Validated, OnePostEach, CreationOk, Existing;
    assert SlotOk(s, slot);
  }

  lemma StaysLost(s: State, a: Action, slot: Slot)
    requires Invariant(s) && Lost(s, slot)
    ensures Lost(Do(s, a), slot)
  {
    hide DoStep, Validated, OnePostEach, CreationOk, Refusal;
    assert SlotOk(s, slot);
    if a.Step? && Possible(s, a) {
      if a.id == s.owners[slot] {
        OwnerStaysLost(s, a.outcome, a.newId, a.now, slot);
      } else {
        OthersLeaveKey(s, a.id, a.outcome, a.newId, a.now, slot);
      }
    }
  }

  lemma {:induction false} LostForever(run: seq<Action>, more: seq<Action>, slot: Slot)
    requires Lost(Exec(START, run), slot)
    ensures Lost(Exec(START, run + more), slot)
  {
    if more == [] {
      assert run + more == run;
    } else {
      hide Invariant, Do, Lost;
      var front, last := more[..|more| - 1], more[|more| - 1];
      LostForever(run, front, slot);
      assert (run + more)[..|run + more| - 1] == run + front;
      EveryRun(run + front);
      StaysLost(Exec(START, run + front), last, slot);
    }
  }

  /** An id no post has. */
  function FreshId(posts: seq<Creation>): (id: string)
    ensures forall c :: c in posts ==> |c.post.id| < |id|
  {
    if posts == [] then "0" else
    var rest, mine := FreshId(posts[1..]), posts[0].post.id;
    assert forall c :: c in posts ==> c == posts[0] || c in posts[1..];
    if |rest| > |mine| then rest else mine + "0"
  }

  /** The owner that is still alive finishes in at most two more steps. */
  lemma AliveCanFinish(run: seq<Action>, slot: Slot)
    requires slot in Exec(START, run).keys && Alive(Exec(START, run), slot)
    ensures exists more :: |more| <= 2 && Completed(Exec(START, run + more), slot)
  {
    hide Exec, OnePostEach, CreationOk, Fits, SlotFits, Validated;
    EveryRun(run);
    var s := Exec(START, run);
    var a := Step(s.owners[slot], Works, FreshId(s.posts), 0);
    ExecSnoc(START, run, a);
    var s1 := Exec(START, run + [a]);
    assert SlotOk(s, slot);
    if s.requests[s.owners[slot]].stage.Completing? {
      assert Completed(s1, slot) && |[a]| <= 2;
    } else {
      var b := Step(s.owners[slot], Works, FreshId(s1.posts), 0);
      ExecSnoc(START, run + [a], b);
      assert run + [a] + [b] == run + [a, b];
      assert Completed(Exec(START, run + [a, b]), slot) && |[a, b]| <= 2;
    }
  }

  /** A key once taken can still be answered with a post exactly if it has been already or its owner is
      alive with a draft that is valid and has no U+0000: a crash, a database failure or a draft refused
      after the claim, by the service or by the database, loses the key for good, since nothing releases
      it. */
  lemma KeyIsUsableIffOwnerAlive(run: seq<Action>, slot: Slot)
    requires slot in Exec(START, run).keys
    ensures (exists more :: Completed(Exec(START, run + more), slot))
       <==> Completed(Exec(START, run), slot) || Alive(Exec(START, run), slot)
  {
    hide Exec, Completed, Alive;
    var s := Exec(START, run);
    if !Completed(s, slot) && !Alive(s, slot) {
      forall more
        ensures !Completed(Exec(START, run + more), slot)
      {
        LostForever(run, more, slot);
      }
    } else if Completed(s, slot) {
      assert run + [] == run;
      assert Completed(Exec(START, run + []), slot);
    } else {
      AliveCanFinish(run, slot);
    }
  }

  // ---------------------------------------------------------------- keys that are lost

  /** A first request under a key, with a draft. */
  function First(draft: Draft): Incoming {
    Incoming(Some("u"), "k", "POST /api/v1/posts", Good(draft), "h")
  }

  lemma FirstClaims(draft: Draft)
    ensures var s := Exec(START, [Arrive(1, First(draft)), Step(1, Works, "x", 0)]);
            && s.requests == map[1 := Admitted(First(draft)).(stage := Creating)]
            && s.keys == map[Slot("k", "u", "POST /api/v1/posts") := Record("h", PROCESSING, None, None)]
            && s.owners == map[Slot("k", "u", "POST /api/v1/posts") := 1] && s.posts == []
  {
    hide Exec;
    var arrive, step := Arrive(1, First(draft)), Step(1, Works, "x", 0);
    assert Trim("k") == "k";
    assert ByteLength("k") == 1;
    ExecNothing(START);
    ExecSnoc(START, [], arrive);
    ExecSnoc(START, [arrive], step);
    assert [] + [arrive] == [arrive] && [arrive] + [step] == [arrive, step];
  }

  lemma ExecNothing(s: State)
    ensures Exec(s, []) == s
  {
  }

  /** Two ways to lose a key: the first request crashes after its claim, or asks for a post that the
      service accepts and the database refuses. */
  lemma KeysGetLost()
    ensures var slot := Slot("k", "u", "POST /api/v1/posts");
            && Lost(Exec(START, [Arrive(1, First(Draft("t", "", "")))] + [Step(1, Works, "x", 0)] + [Crash(1)]), slot)
            && Validated(Draft("a\0", "", "")).Some?
            && Lost(Exec(START, [Arrive(1, First(Draft("a\0", "", ""))), Step(1, Works, "x", 0)]), slot)
  {
    hide Exec;
    FirstClaims(Draft("t", "", ""));
    FirstClaims(Draft("a\0", "", ""));
    var run := [Arrive(1, First(Draft("t", "", ""))), Step(1, Works, "x", 0)];
    assert run == [Arrive(1, First(Draft("t", "", "")))] + [Step(1, Works, "x", 0)];
    ExecSnoc(START, run, Crash(1));
    assert Trim("a\0") == "a\0" && "a\0"[1] == '\0';
    assert ByteLength("a\0") == 2;
  }
}
