/**
 * The receptionist's request handlers and the escalation workflow between the
 * client, the generator and the human supervisor.
 *
 * The server keeps three globals: the help requests by id, a one-slot mailbox
 * per user holding the supervisor's latest refined answer, and the next id to
 * issue. The pure half of this module describes each handler as a step on a
 * `Registry` of those three; the class `AppState` holds them as fields and
 * its methods are proved to take exactly those steps.
 */
module SalonApi {
  import opened Wrappers
  import opened Text
  import opened KnowledgeBase
  import opened OllamaClient

  // ---------------------------------------------------------------- classification

  /** Phrases whose presence in the generated answer means the assistant is unsure. */
  const UnsureKeywords: seq<string> := ["supervisor", "manager", "confirm with", "ask my boss", "check with"]

  /** `any(keyword in text for keyword in keywords)`. */
  function AnyIn(text: string, keywords: seq<string>): (r: bool)
    ensures r <==> exists k :: 0 <= k < |keywords| && Contains(text, keywords[k])
    decreases |keywords|
  {
    if keywords == [] then false
    else
      var rest := AnyIn(text, keywords[1..]);
      assert rest <==> exists k :: 1 <= k < |keywords| && Contains(text, keywords[k]) by {
        forall k | 1 <= k < |keywords| ensures keywords[k] == keywords[1..][k - 1] { }
        if rest {
          var j :| 0 <= j < |keywords| - 1 && Contains(text, keywords[1..][j]);
          assert Contains(text, keywords[j + 1]);
        }
      }
      Contains(text, keywords[0]) || rest
  }

  /** The test that sends a query to the supervisor: some trigger phrase occurs in the lower-cased answer. */
  function NeedsSupervisor(answer: string): bool {
    AnyIn(Lower(answer), UnsureKeywords)
  }

  /** The five trigger phrases, written out. */
  lemma NeedsSupervisorIff(answer: string)
    ensures NeedsSupervisor(answer) <==>
      Contains(Lower(answer), "supervisor") || Contains(Lower(answer), "manager") ||
      Contains(Lower(answer), "confirm with") || Contains(Lower(answer), "ask my boss") ||
      Contains(Lower(answer), "check with")
  {
    var t := Lower(answer);
    var ks := UnsureKeywords;
    assert ks[0] == "supervisor" && ks[1] == "manager" && ks[2] == "confirm with";
    assert ks[3] == "ask my boss" && ks[4] == "check with";
    if Contains(t, "supervisor") || Contains(t, "manager") || Contains(t, "confirm with") ||
       Contains(t, "ask my boss") || Contains(t, "check with") {
      var k := if Contains(t, "supervisor") then 0 else if Contains(t, "manager") then 1
        else if Contains(t, "confirm with") then 2 else if Contains(t, "ask my boss") then 3 else 4;
      assert Contains(t, ks[k]);
    }
  }

  /** The test ignores case: any spelling of a trigger phrase, in any letter case, sends the query on. */
  lemma TriggerInAnyCase(answer: string, phrase: string, i: int)
    requires OccursAt(answer, phrase, i)
    requires Lower(phrase) in UnsureKeywords
    ensures NeedsSupervisor(answer)
  {
    OccursAtLower(answer, phrase, i);
    ContainsIff(Lower(answer), Lower(phrase));
    var k :| 0 <= k < |UnsureKeywords| && UnsureKeywords[k] == Lower(phrase);
    assert Contains(Lower(answer), UnsureKeywords[k]);
  }

  /** The reply the prompt asks for when the context lacks the answer is sent to the supervisor. */
  lemma PromisedConfirmationEscalates()
    ensures NeedsSupervisor("Sorry, I\U{2019}ll confirm with my supervisor later.")
  {
    var answer := "Sorry, I\U{2019}ll confirm with my supervisor later.";
    var phrase := "supervisor";
    assert answer == "Sorry, I\U{2019}ll confirm with my " + phrase + " later.";
    assert answer[28..38] == phrase;
    LowerOfLowercase(phrase);
    TriggerInAnyCase(answer, phrase, 28);
  }

  // ---------------------------------------------------------------- state

  datatype Status = Pending | Resolved

  /** An entry of `pending_requests`; the two answers are set when the supervisor responds. */
  datatype HelpRequest = HelpRequest(userId: string, question: string, status: Status,
                                     rawAnswer: Option<string>, answer: Option<string>)
  {
    /** A pending request has no answers yet; a resolved one has both the supervisor's and the refined one. */
    predicate Consistent() {
      if status == Pending then rawAnswer.None? && answer.None? else rawAnswer.Some? && answer.Some?
    }
  }

  /** An entry of `user_updates`: the supervisor's refined reply to the user's question. */
  datatype Update = Update(question: string, answer: string)

  /** The three globals: `pending_requests`, `user_updates` and `request_counter`. */
  datatype Registry = Registry(pending: map<int, HelpRequest>, updates: map<string, Update>, counter: int)
  {
    /** Every stored id was issued earlier, so it lies below the counter. */
    predicate Valid() {
      counter >= 1 && forall id :: id in pending ==> 1 <= id < counter && pending[id].Consistent()
    }
  }

  /** The globals at start-up. */
  const Initial: Registry := Registry(map[], map[], 1)

  // ---------------------------------------------------------------- replies

  datatype QueryReply =
    | ResolvedFromSupervisor(message: string, answer: string)
    | Escalated(message: string)
    | Answered(answer: string)

  datatype RespondReply = InvalidRequestId(error: string) | Updated(message: string, refinedAnswer: string)

  /** What `check_updates` returns: the mailbox entry, or `{"status": "no_update"}`. */
  datatype UpdateReply = Delivered(update: Update) | NoUpdate

  datatype DeleteReply = NotFound(error: string) | Deleted(message: string)

  const SupervisorAnswered: string := "Supervisor provided a final answer."
  const EscalationNotice: string := "\U{1F916} I'm not sure \U{2014} I\U{2019}ll confirm with my supervisor."
  const InvalidIdError: string := "Invalid request ID."
  const UpdatedNotice: string := "Refined answer added to knowledge base and queued for client."
  const NotFoundError: string := "Request not found."

  function DeletedNotice(id: int): string {
    "Request " + IntString(id) + " deleted successfully."
  }

  // ---------------------------------------------------------------- prompts and documents

  const RefineHead: string := "\n    Refine the following supervisor's response into a professional, friendly, and natural salon chatbot message.\n\n    Question: "
  const RefineMiddle: string := "\n    Supervisor's Answer: "
  const RefineTail: string := "\n\n    Return only the polished response.\n    "

  /** The prompt that asks the generator to polish the supervisor's answer to a question. */
  function RefinementPrompt(question: string, answer: string): string {
    RefineHead + question + RefineMiddle + answer + RefineTail
  }

  /** The prompt carries the question and the supervisor's answer, each where the template puts it. */
  lemma RefinementPromptMentions(question: string, answer: string)
    ensures OccursAt(RefinementPrompt(question, answer), question, |RefineHead|)
    ensures OccursAt(RefinementPrompt(question, answer), answer, |RefineHead| + |question| + |RefineMiddle|)
  {
    FilledIn(RefineHead, question, RefineMiddle, answer, RefineTail);
  }

  const PolishHead: string := "Polish this text for a friendly salon receptionist chatbot:\n\n"

  /** The knowledge-base document recording a resolved question. */
  function KnowledgeDoc(question: string, refined: string): string {
    "Q: " + question + " A: " + refined
  }

  /** The document starts with the question and ends with the refined answer. */
  lemma KnowledgeDocMentions(question: string, refined: string)
    ensures OccursAt(KnowledgeDoc(question, refined), question, 3)
    ensures OccursAt(KnowledgeDoc(question, refined), refined, |question| + 7)
    ensures |KnowledgeDoc(question, refined)| == |question| + |refined| + 7
  {
    FilledIn("Q: ", question, " A: ", refined, "");
    assert KnowledgeDoc(question, refined) == "Q: " + question + " A: " + refined + "";
  }

  // ---------------------------------------------------------------- the handlers as steps

  /**
   * `handle_query`, given what the generator answers to the message: deliver
   * a waiting mailbox entry; otherwise escalate an unsure answer under a new id;
   * otherwise pass the answer on.
   */
  function QueryStep(r: Registry, userId: string, message: string, generated: string): (QueryReply, Registry) {
    if userId in r.updates then
      (ResolvedFromSupervisor(SupervisorAnswered, r.updates[userId].answer), r.(updates := r.updates - {userId}))
    else if NeedsSupervisor(generated) then
      (Escalated(EscalationNotice),
       r.(pending := r.pending[r.counter := HelpRequest(userId, message, Pending, None, None)],
          counter := r.counter + 1))
    else
      (Answered(generated), r)
  }

  /**
   * `supervisor_respond`, given the generator's refinement (already stripped):
   * reject an unknown id; otherwise resolve the request with both answers and
   * put the refined one in the user's mailbox.
   */
  function RespondStep(r: Registry, id: int, raw: string, refined: string): (RespondReply, Registry) {
    if id !in r.pending then (InvalidRequestId(InvalidIdError), r)
    else
      var q := r.pending[id];
      (Updated(UpdatedNotice, refined),
       r.(pending := r.pending[id := q.(status := Resolved, rawAnswer := Some(raw), answer := Some(refined))],
          updates := r.updates[q.userId := Update(q.question, refined)]))
  }

  /** `check_updates`: take the user's mailbox entry out, if there is one. */
  function PollStep(r: Registry, userId: string): (UpdateReply, Registry) {
    if userId in r.updates then (Delivered(r.updates[userId]), r.(updates := r.updates - {userId}))
    else (NoUpdate, r)
  }

  /** `view_pending`: the requests whose status is pending, under their ids. */
  function PendingOf(requests: map<int, HelpRequest>): (view: map<int, HelpRequest>)
    ensures forall id :: id in view <==> id in requests && requests[id].status == Pending
    ensures forall id :: id in view ==> view[id] == requests[id]
  {
    map id | id in requests && requests[id].status == Pending :: requests[id]
  }

  /** `delete_pending`: drop a known id; the counter stays, so the id is not issued again. */
  function DeleteStep(r: Registry, id: int): (DeleteReply, Registry) {
    if id !in r.pending then (NotFound(NotFoundError), r)
    else (Deleted(DeletedNotice(id)), r.(pending := r.pending - {id}))
  }

  // ---------------------------------------------------------------- properties of single steps

  /** A waiting mailbox entry is delivered and removed; the generator's answer plays no part and nothing else changes. */
  lemma MailboxFirst(r: Registry, userId: string, message: string, generated: string, other: string)
    requires userId in r.updates
    ensures QueryStep(r, userId, message, generated) == QueryStep(r, userId, message, other)
    ensures var (reply, r') := QueryStep(r, userId, message, generated);
      reply == ResolvedFromSupervisor(SupervisorAnswered, r.updates[userId].answer) &&
      r'.updates == r.updates - {userId} && r'.pending == r.pending && r'.counter == r.counter
  {
  }

  /** Without a mailbox entry a query escalates exactly when the generated answer trips the test. */
  lemma EscalationIff(r: Registry, userId: string, message: string, generated: string)
    requires userId !in r.updates
    ensures QueryStep(r, userId, message, generated).0.Escalated? <==> NeedsSupervisor(generated)
    ensures QueryStep(r, userId, message, generated).0.Answered? <==> !NeedsSupervisor(generated)
  {
  }

  /** An escalation files a pending request under the current counter, bumps the counter by one and keeps every earlier request. */
  lemma EscalationRecord(r: Registry, userId: string, message: string, generated: string)
    requires r.Valid() && userId !in r.updates && NeedsSupervisor(generated)
    ensures var (reply, r') := QueryStep(r, userId, message, generated);
      reply == Escalated(EscalationNotice) &&
      r.counter !in r.pending &&
      r'.pending.Keys == r.pending.Keys + {r.counter} &&
      r'.pending[r.counter] == HelpRequest(userId, message, Pending, None, None) &&
      (forall id :: id in r.pending ==> r'.pending[id] == r.pending[id]) &&
      r'.counter == r.counter + 1 && r'.updates == r.updates
  {
  }

  /** A confident answer is passed on and leaves the state alone. */
  lemma ConfidentAnswer(r: Registry, userId: string, message: string, generated: string)
    requires userId !in r.updates && !NeedsSupervisor(generated)
    ensures QueryStep(r, userId, message, generated) == (Answered(generated), r)
  {
  }

  /** Responding to an id that is not stored is an error and changes nothing. */
  lemma UnknownIdRejected(r: Registry, id: int, raw: string, refined: string)
    requires id !in r.pending
    ensures RespondStep(r, id, raw, refined) == (InvalidRequestId(InvalidIdError), r)
  {
  }

  /**
   * Responding to a stored id resolves that request with both answers, fills the
   * asker's mailbox (replacing what was there) and leaves every other request and the counter alone.
   */
  lemma RespondEffects(r: Registry, id: int, raw: string, refined: string)
    requires id in r.pending
    ensures var q := r.pending[id];
      var (reply, r') := RespondStep(r, id, raw, refined);
      reply == Updated(UpdatedNotice, refined) &&
      r'.pending.Keys == r.pending.Keys &&
      r'.pending[id] == HelpRequest(q.userId, q.question, Resolved, Some(raw), Some(refined)) &&
      (forall k :: k in r.pending && k != id ==> r'.pending[k] == r.pending[k]) &&
      r'.updates == r.updates[q.userId := Update(q.question, refined)] &&
      r'.counter == r.counter
  {
  }

  /** Only key presence is checked, so an already resolved request can be answered again, replacing its answers. */
  lemma ResolvedCanBeAnsweredAgain(r: Registry, id: int, raw: string, refined: string)
    requires id in r.pending && r.pending[id].status == Resolved
    ensures RespondStep(r, id, raw, refined).0 == Updated(UpdatedNotice, refined)
    ensures RespondStep(r, id, raw, refined).1.pending[id].answer == Some(refined)
  {
  }

  /** Two answers to requests of the same user leave only the later one in the mailbox. */
  lemma LastWriteWins(r: Registry, id1: int, raw1: string, refined1: string, id2: int, raw2: string, refined2: string)
    requires id1 in r.pending && id2 in r.pending && r.pending[id1].userId == r.pending[id2].userId
    ensures var r1 := RespondStep(r, id1, raw1, refined1).1;
      var r2 := RespondStep(r1, id2, raw2, refined2).1;
      r2.updates[r.pending[id1].userId] == Update(r.pending[id2].question, refined2)
  {
    var r1 := RespondStep(r, id1, raw1, refined1).1;
    assert r1.pending[id2].userId == r.pending[id2].userId && r1.pending[id2].question == r.pending[id2].question;
  }

  /** After a response the user's next poll gets the refined answer, and a second poll gets nothing. */
  lemma RespondThenPollOnce(r: Registry, id: int, raw: string, refined: string)
    requires id in r.pending
    ensures var u := r.pending[id].userId;
      var r1 := RespondStep(r, id, raw, refined).1;
      var (first, r2) := PollStep(r1, u);
      first == Delivered(Update(r.pending[id].question, refined)) && PollStep(r2, u).0 == NoUpdate
  {
  }

  /** After a response the user's next query gets the refined answer instead of a new generation. */
  lemma RespondThenQueryDelivers(r: Registry, id: int, raw: string, refined: string, message: string, generated: string)
    requires id in r.pending
    ensures var r1 := RespondStep(r, id, raw, refined).1;
      QueryStep(r1, r.pending[id].userId, message, generated).0 == ResolvedFromSupervisor(SupervisorAnswered, refined)
  {
  }

  /** Polling twice in a row: the second poll never finds anything. */
  lemma PollTakesOnce(r: Registry, userId: string)
    ensures PollStep(PollStep(r, userId).1, userId).0 == NoUpdate
    ensures PollStep(r, userId).1.pending == r.pending && PollStep(r, userId).1.counter == r.counter
    ensures PollStep(r, userId).0 == (if userId in r.updates then Delivered(r.updates[userId]) else NoUpdate)
  {
  }

  /** A resolved request drops out of the pending view; the view is otherwise unchanged. */
  lemma RespondLeavesPendingView(r: Registry, id: int, raw: string, refined: string)
    requires id in r.pending
    ensures var view := PendingOf(RespondStep(r, id, raw, refined).1.pending);
      id !in view && view == PendingOf(r.pending) - {id}
  {
    var view := PendingOf(RespondStep(r, id, raw, refined).1.pending);
    var old' := PendingOf(r.pending) - {id};
    assert view.Keys == old'.Keys;
  }

  /** An escalated query shows up in the pending view under its new id. */
  lemma EscalationShowsPending(r: Registry, userId: string, message: string, generated: string)
    requires r.Valid() && userId !in r.updates && NeedsSupervisor(generated)
    ensures PendingOf(QueryStep(r, userId, message, generated).1.pending)
         == PendingOf(r.pending)[r.counter := HelpRequest(userId, message, Pending, None, None)]
  {
    var view := PendingOf(QueryStep(r, userId, message, generated).1.pending);
    var expected := PendingOf(r.pending)[r.counter := HelpRequest(userId, message, Pending, None, None)];
    assert view.Keys == expected.Keys;
  }

  /** Deleting an unknown id is an error and changes nothing. */
  lemma DeleteUnknown(r: Registry, id: int)
    requires id !in r.pending
    ensures DeleteStep(r, id) == (NotFound(NotFoundError), r)
  {
  }

  /** Deleting a known id removes only that key and keeps the counter, so the id is never issued again. */
  lemma DeleteKnown(r: Registry, id: int)
    requires r.Valid() && id in r.pending
    ensures var (reply, r') := DeleteStep(r, id);
      reply == Deleted(DeletedNotice(id)) &&
      r'.pending == r.pending - {id} && r'.updates == r.updates && r'.counter == r.counter &&
      id < r'.counter
  {
  }

  /** Each deletion message names its own id. */
  lemma DeletedNoticeNamesId(m: int, n: int)
    requires DeletedNotice(m) == DeletedNotice(n)
    ensures m == n
  {
    var s, t := DeletedNotice(m), DeletedNotice(n);
    assert IntString(m) == s[8..|s| - 22];
    assert IntString(n) == t[8..|t| - 22];
    IntStringInjective(m, n);
  }

  // ---------------------------------------------------------------- runs of requests

  /** One request to the server, with what the generator answered where the handler asks it. */
  datatype Event =
    | Ask(userId: string, message: string, generated: string)
    | Respond(id: int, raw: string, refined: string)
    | Poll(userId: string)
    | Remove(id: int)

  function Step(r: Registry, e: Event): Registry {
    match e
    case Ask(u, m, g) => QueryStep(r, u, m, g).1
    case Respond(id, raw, refined) => RespondStep(r, id, raw, refined).1
    case Poll(u) => PollStep(r, u).1
    case Remove(id) => DeleteStep(r, id).1
  }

  /** The globals after serving the requests in order. */
  function Run(r: Registry, events: seq<Event>): Registry
    decreases |events|
  {
    if events == [] then r else Run(Step(r, events[0]), events[1..])
  }

  /** The ids under which the requests filed new help requests, in order. */
  function Issued(r: Registry, events: seq<Event>): seq<int>
    decreases |events|
  {
    if events == [] then []
    else
      var e := events[0];
      var filed := if e.Ask? && e.userId !in r.updates && NeedsSupervisor(e.generated) then [r.counter] else [];
      filed + Issued(Step(r, e), events[1..])
  }

  lemma QueryKeepsValid(r: Registry, userId: string, message: string, generated: string)
    requires r.Valid()
    ensures QueryStep(r, userId, message, generated).1.Valid()
  {
  }

  lemma RespondKeepsValid(r: Registry, id: int, raw: string, refined: string)
    requires r.Valid()
    ensures RespondStep(r, id, raw, refined).1.Valid()
  {
    var r' := RespondStep(r, id, raw, refined).1;
    forall k | k in r'.pending ensures 1 <= k < r'.counter && r'.pending[k].Consistent() {
      assert k in r.pending;
    }
  }

  /** Every handler keeps the globals valid. */
  lemma StepKeepsValid(r: Registry, e: Event)
    requires r.Valid()
    ensures Step(r, e).Valid()
  {
    match e
    case Ask(u, m, g) => QueryKeepsValid(r, u, m, g);
    case Respond(id, raw, refined) => RespondKeepsValid(r, id, raw, refined);
    case Poll(u) =>
    case Remove(id) =>
  }

  lemma {:induction false} RunKeepsValid(r: Registry, events: seq<Event>)
    requires r.Valid()
    ensures Run(r, events).Valid()
    decreases |events|
  {
    if events != [] {
      StepKeepsValid(r, events[0]);
      RunKeepsValid(Step(r, events[0]), events[1..]);
    }
  }

  /** The counter only moves on escalation, so issued ids are consecutive from the starting counter and never repeat. */
  lemma {:induction false} IssuedConsecutive(r: Registry, events: seq<Event>)
    ensures Run(r, events).counter == r.counter + |Issued(r, events)|
    ensures forall i :: 0 <= i < |Issued(r, events)| ==> Issued(r, events)[i] == r.counter + i
    decreases |events|
  {
    if events != [] {
      var e := events[0];
      var r1 := Step(r, e);
      IssuedConsecutive(r1, events[1..]);
      var escalates := e.Ask? && e.userId !in r.updates && NeedsSupervisor(e.generated);
      assert r1.counter == r.counter + (if escalates then 1 else 0);
    }
  }

  /** From start-up the ids handed out are 1, 2, 3, ... and every stored id is one of them. */
  lemma FromStartUp(events: seq<Event>)
    ensures forall i :: 0 <= i < |Issued(Initial, events)| ==> Issued(Initial, events)[i] == i + 1
    ensures forall id :: id in Run(Initial, events).pending ==> 1 <= id <= |Issued(Initial, events)|
  {
    IssuedConsecutive(Initial, events);
    RunKeepsValid(Initial, events);
  }

  /** An id that was ever stored (and perhaps deleted since) is below every id issued later. */
  lemma NoReissue(r: Registry, id: int, events: seq<Event>)
    requires r.Valid() && id in r.pending
    ensures forall i :: 0 <= i < |Issued(r, events)| ==> Issued(r, events)[i] > id
  {
    IssuedConsecutive(r, events);
  }

  // ---------------------------------------------------------------- the server

  /** The running server: its globals and the knowledge base it answers from. */
  class AppState {
    var pendingRequests: map<int, HelpRequest>
    var userUpdates: map<string, Update>
    var requestCounter: int
    const kb: Store

    function Snapshot(): Registry
      reads this
    {
      Registry(pendingRequests, userUpdates, requestCounter)
    }

    ghost predicate Valid()
      reads this
    {
      Snapshot().Valid()
    }

    /** Start-up: no requests, no mailbox entries, counter 1. */
    constructor (store: Store)
      requires store.Valid()
      ensures Snapshot() == Initial && kb == store && Valid() && kb.Valid()
    {
      pendingRequests, userUpdates, requestCounter := map[], map[], 1;
      kb := store;
    }

    /** `handle_query`: the generator is asked only when the mailbox is empty. */
    method HandleQuery(userId: string, message: string, svc: Services) returns (reply: QueryReply)
      modifies this
      ensures (reply, Snapshot()) == QueryStep(old(Snapshot()), userId, message, old(GeneratedAnswer(kb, message, svc)))
      ensures old(Valid()) ==> Valid()
    {
      if userId in userUpdates {
        reply := TakeUpdate(userId, message, GeneratedAnswer(kb, message, svc));
        return;
      }
      var aiAnswer := GenerateAnswer(kb, message, svc);
      reply := AnswerOrEscalate(userId, message, aiAnswer);
    }

    /** The mailbox branch of `handle_query`: pop the user's entry; whatever the generator would say is not asked for. */
    method TakeUpdate(userId: string, message: string, ghost generated: string) returns (reply: QueryReply)
      requires userId in userUpdates
      modifies this
      ensures (reply, Snapshot()) == QueryStep(old(Snapshot()), userId, message, generated)
      ensures old(Valid()) ==> Valid()
    {
      var update := userUpdates[userId];
      userUpdates := userUpdates - {userId};
      reply := ResolvedFromSupervisor(SupervisorAnswered, update.answer);
    }

    /** The rest of `handle_query`: file a request under the counter when the answer sounds unsure, else pass it on. */
    method AnswerOrEscalate(userId: string, message: string, aiAnswer: string) returns (reply: QueryReply)
      requires userId !in userUpdates
      modifies this
      ensures (reply, Snapshot()) == QueryStep(old(Snapshot()), userId, message, aiAnswer)
      ensures old(Valid()) ==> Valid()
    {
      if NeedsSupervisor(aiAnswer) {
        if Valid() {
          QueryKeepsValid(Snapshot(), userId, message, aiAnswer);
        }
        pendingRequests := pendingRequests[requestCounter := HelpRequest(userId, message, Pending, None, None)];
        requestCounter := requestCounter + 1;
        reply := Escalated(EscalationNotice);
      } else {
        reply := Answered(aiAnswer);
      }
    }

    /**
     * `supervisor_respond`: resolve the request, have the generator refine the
     * supervisor's answer, record the exchange in the knowledge base and queue
     * the refined answer for the user.
     */
    method SupervisorRespond(requestId: int, answer: string, svc: Services) returns (reply: RespondReply)
      requires kb.Valid()
      requires forall t :: |svc.embed(t)| == kb.index.dim
      modifies this, kb
      ensures kb.Valid() && (old(kb.Aligned()) ==> kb.Aligned())
      ensures old(Valid()) ==> Valid()
      ensures requestId !in old(pendingRequests) ==>
        reply == InvalidRequestId(InvalidIdError) && Snapshot() == old(Snapshot()) &&
        kb.metadata == old(kb.metadata) && kb.index == old(kb.index) &&
        kb.indexFile == old(kb.indexFile) && kb.metadataFile == old(kb.metadataFile)
      ensures requestId in old(pendingRequests) ==>
        var question := old(pendingRequests)[requestId].question;
        var refined := Strip(old(GeneratedAnswer(kb, RefinementPrompt(question, answer), svc)));
        (reply, Snapshot()) == RespondStep(old(Snapshot()), requestId, answer, refined) &&
        kb.metadata == old(kb.metadata) + [Entry(KnowledgeDoc(question, refined))] &&
        kb.index == FlatIndex(old(kb.index.dim), old(kb.index.vectors) + [svc.embed(KnowledgeDoc(question, refined))]) &&
        kb.Persisted()
    {
      if requestId !in pendingRequests {
        return InvalidRequestId(InvalidIdError);
      }
      var question := pendingRequests[requestId].question;
      var generated := GenerateAnswer(kb, RefinementPrompt(question, answer), svc);
      var refined := Strip(generated);
      kb.AddDocument(KnowledgeDoc(question, refined), svc.embed);
      reply := Resolve(requestId, answer, refined);
    }

    /** The registry half of `supervisor_respond`: resolve the request with both answers and queue the refined one for the user. */
    method Resolve(requestId: int, answer: string, refined: string) returns (reply: RespondReply)
      requires requestId in pendingRequests
      modifies this
      ensures (reply, Snapshot()) == RespondStep(old(Snapshot()), requestId, answer, refined)
      ensures old(Valid()) ==> Valid()
    {
      if Valid() {
        RespondKeepsValid(Snapshot(), requestId, answer, refined);
      }
      var pending := pendingRequests[requestId];
      pending := pending.(status := Resolved, rawAnswer := Some(answer), answer := Some(refined));
      pendingRequests := pendingRequests[requestId := pending];
      userUpdates := userUpdates[pending.userId := Update(pending.question, refined)];
      reply := Updated(UpdatedNotice, refined);
    }

    /** `check_updates`: hand over the user's mailbox entry once. */
    method CheckUpdates(userId: string) returns (reply: UpdateReply)
      modifies this
      ensures (reply, Snapshot()) == PollStep(old(Snapshot()), userId)
      ensures old(Valid()) ==> Valid()
    {
      if userId in userUpdates {
        var update := userUpdates[userId];
        userUpdates := userUpdates - {userId};
        return Delivered(update);
      }
      return NoUpdate;
    }

    /** `view_pending`: the requests still waiting for the supervisor. */
    method ViewPending() returns (view: map<int, HelpRequest>)
      ensures forall id :: id in view <==> id in pendingRequests && pendingRequests[id].status == Pending
      ensures view == PendingOf(pendingRequests)
    {
      view := PendingOf(pendingRequests);
    }

    /** `delete_pending`: remove a stored request; the counter is not touched. */
    method DeletePending(requestId: int) returns (reply: DeleteReply)
      modifies this
      ensures (reply, Snapshot()) == DeleteStep(old(Snapshot()), requestId)
      ensures old(Valid()) ==> Valid()
    {
      if requestId !in pendingRequests {
        return NotFound(NotFoundError);
      }
      pendingRequests := pendingRequests - {requestId};
      return Deleted(DeletedNotice(requestId));
    }

    /** `view_knowledge`: what retrieval returns for the query "salon". */
    method ViewKnowledge(svc: Services) returns (texts: seq<string>)
      ensures texts == kb.Retrieve("salon", DefaultTopK, svc.embed, svc.search)
      ensures |kb.metadata| == 0 ==> texts == []
    {
      texts := kb.QueryContext("salon", DefaultTopK, svc.embed, svc.search);
    }

    /** `refine_text`: polish the request's `prompt` field (empty when absent) and strip the result. */
    method RefineText(prompt: Option<string>, svc: Services) returns (refined: string)
      ensures refined == Strip(GeneratedAnswer(kb, PolishHead + prompt.GetOr(""), svc))
      ensures refined == [] || (!IsSpace(refined[0]) && !IsSpace(refined[|refined| - 1]))
    {
      var generated := GenerateAnswer(kb, PolishHead + prompt.GetOr(""), svc);
      refined := Strip(generated);
    }
  }
}
