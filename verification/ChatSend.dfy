/** Sending a message from the chat page: a client that may lose any answer, any write to storage and
    the whole page, against a server that answers a repeated idempotency key with the first Run. */
module ChatSend {
  import opened Drafts
  import opened Options

  /** A message the person meant once: from its first attempt until it succeeds, the box is emptied,
      or another text is sent in its conversation. Kept for the statements below; no step looks at
      the number. */
  datatype Intent = Intent(number: nat, text: string)

  datatype Request = Request(session: Sid, text: string, key: Key, intent: nat)

  /** What the server stores beside an idempotency key: the request it was first used for. */
  datatype Record = Record(session: Sid, text: string)

  datatype Phase =
    | Idle
    | Creating(attempt: PendingSend)                                   // POST .../sessions is out
    | Posting(session: Sid, attempt: PendingSend, source: Slot)        // POST .../runs is out

  /** `pendingSend.current`. */
  datatype Ref = Null | Ref(session: Sid, attempt: PendingSend)

  datatype State = State(
    store: Store,                    // session storage: survives a reload
    known: set<Sid>,                 // conversations remembered on this device
    hidden: set<Sid>,
    made: Option<Sid>,             // set when a conversation is created; lost on reload
    active: Slot,
    ref: Ref,                        // lost on reload
    phase: Phase,                    // lost on reload
    nextKey: Key, nextSession: Sid,
    sent: set<Request>,              // every request ever put on the wire, delivered or not, once or often
    records: map<Key, Record>,
    runs: seq<Request>,              // the Runs the server created, each with the request it came from
    current: map<Slot, Intent>, nextIntent: nat)

  const START := State(map[], {}, {}, None, NewChat, Null, Idle, 0, 0, {}, map[], [], map[], 0)

  datatype Step =
    | Type(text: string, saved: bool)                  // the box keeps its text in storage
    | Empty                                            // the box is emptied by hand
    | Send(text: string, saved: bool)                  // the mutation, up to its first request
    | Created(quota: Quota, remembered: bool)          // the new conversation's answer arrives
    | NotCreated                                       // ... or does not
    | Deliver(request: Request)                        // a request reaches the server
    | Answered                                         // the Run's answer arrives
    | Unanswered                                       // ... or does not, or is an error
    | Reload
    | Open(slot: Slot)                                 // another conversation is chosen
    | Hide(session: Sid)

  predicate Allowed(s: State, step: Step) {
    match step
    case Type(text, _) => s.phase == Idle && text != ""
    case Empty => s.phase == Idle
    case Send(_, _) => s.phase == Idle
    case Created(_, _) => s.phase.Creating?
    case NotCreated => s.phase.Creating?
    case Deliver(r) => r in s.sent
    case Answered => s.phase.Posting? && Accepted(s, s.phase.session, s.phase.attempt)
    case Unanswered => s.phase.Posting?
    case Reload => true
    case Open(slot) =>
      slot == NewChat || ((slot.id in s.known || s.made == Some(slot.id)) && slot.id !in s.hidden)
    case Hide(id) => id in s.known
  }

  predicate Accepted(s: State, session: Sid, attempt: PendingSend) {
    attempt.key in s.records && s.records[attempt.key] == Record(session, attempt.text)
  }

  /** `previous` in the mutation: what an earlier attempt in this conversation left. */
  function Previous(s: State): Option<PendingSend> {
    if s.ref.Ref? && s.active == Session(s.ref.session) then Some(s.ref.attempt) else Pending(s.store, s.active)
  }

  /** The attempt the mutation makes of a text. */
  function AttemptOf(s: State, text: string): PendingSend {
    PendingSend(text, if Previous(s).Some? && Previous(s).value.text == text then Previous(s).value.key else s.nextKey)
  }

  /** The intent a text sent now belongs to. */
  function IntentOf(s: State, text: string): Intent {
    if s.active in s.current && s.current[s.active].text == text then s.current[s.active]
    else Intent(s.nextIntent, text)
  }

  function Post(s: State, session: Sid, attempt: PendingSend, source: Slot): State
    requires Session(session) in s.current
  {
    s.(ref := Ref(session, attempt), phase := Posting(session, attempt, source),
       sent := s.sent + {Request(session, attempt.text, attempt.key, s.current[Session(session)].number)})
  }

  function AfterSend(s: State, text: string, saved: bool): State {
    var attempt, intent := AttemptOf(s, text), IntentOf(s, text);
    var drawn := s.(nextKey := s.nextKey + 1);
    if !saved then drawn else
    var kept := drawn.(store := PendingSaved(s.store, s.active, attempt, true),
                       current := s.current[s.active := intent], nextIntent := s.nextIntent + 1);
    match s.active
    case NewChat => kept.(phase := Creating(attempt))
    case Session(id) => Post(kept, id, attempt, s.active)
  }

  function AfterCreated(s: State, quota: Quota, remembered: bool): State
    requires s.phase.Creating?
  {
    var id, attempt := s.nextSession, s.phase.attempt;
    var (store, moved) := Moved(s.store, NewChat, Session(id), quota);
    var answered := s.(store := store, nextSession := id + 1);
    if !moved || NewChat !in s.current then answered.(phase := Idle) else
    var there := answered.(
      known := if remembered then s.known + {id} else s.known, made := Some(id), active := Session(id),
      current := (s.current - {NewChat})[Session(id) := s.current[NewChat]]);
    Post(there, id, attempt, NewChat)
  }

  /** Claim the key or be answered with what it was claimed for; a key used for another request is
      refused, and a refusal creates nothing either. */
  function AfterDeliver(s: State, r: Request): State {
    if r.key in s.records then s
    else s.(records := s.records[r.key := Record(r.session, r.text)], runs := s.runs + [r])
  }

  function Next(s: State, step: Step): State
    requires Allowed(s, step)
  {
    match step
    case Type(text, saved) => s.(store := TextSaved(s.store, s.active, text, saved))
    case Empty => s.(store := Cleared(s.store, s.active), ref := Null, current := s.current - {s.active})
    case Send(text, saved) => AfterSend(s, text, saved)
    case Created(quota, remembered) => AfterCreated(s, quota, remembered)
    case NotCreated => s.(phase := Idle, nextSession := s.nextSession + 1)
    case Deliver(r) => AfterDeliver(s, r)
    case Answered =>
      var target := Session(s.phase.session);
      s.(store := Cleared(Cleared(s.store, s.phase.source), target), ref := Null, phase := Idle,
         current := s.current - {s.phase.source, target})
    case Unanswered => s.(phase := Idle)
    case Reload =>
      s.(ref := Null, phase := Idle, made := None,
         active := if s.active == NewChat || s.active.id !in s.known || s.active.id in s.hidden
                   then NewChat else s.active)
    case Open(slot) => s.(active := slot, made := if slot == NewChat then None else s.made)
    case Hide(id) =>
      s.(store := Cleared(s.store, Session(id)), known := s.known - {id}, hidden := s.hidden + {id},
         current := s.current - {Session(id)},
         made := if s.active == Session(id) then None else s.made,
         active := if s.active == Session(id) then NewChat else s.active)
  }

  /** The steps, each allowed in its turn, lead from one state to the other. */
  ghost predicate Path(s: State, steps: seq<Step>, end: State)
    decreases |steps|
  {
    if steps == [] then s == end
    else Allowed(s, steps[0]) && Path(Next(s, steps[0]), steps[1..], end)
  }

  // ---- the invariant -------------------------------------------------------

  /** Storage holds a key for exactly the conversations with a current intent, and for its text. */
  ghost predicate Stored(s: State) {
    ClientBooks(s.store, s.current, s.nextKey, s.nextIntent)
  }

  ghost predicate ClientBooks(store: Store, current: map<Slot, Intent>, nextKey: Key, nextIntent: nat) {
    && (forall slot :: Pending(store, slot).Some? <==> slot in current)
    && (forall slot :: slot in current ==>
          Pending(store, slot).value.text == current[slot].text
          && Pending(store, slot).value.key < nextKey && current[slot].number < nextIntent)
    // one key and one intent each
    && (forall a, b :: a in current && b in current
          && (current[a].number == current[b].number || KeyIs(store, b, Pending(store, a).value.key))
          ==> a == b)
  }

  predicate KeyIs(store: Store, slot: Slot, key: Key) {
    Pending(store, slot).Some? && Pending(store, slot).value.key == key
  }

  /** The memory of the page never disagrees with storage. */
  ghost predicate Remembered(s: State) {
    && (s.ref.Ref? ==> s.ref.session in s.hidden || Pending(s.store, Session(s.ref.session)) == Some(s.ref.attempt))
    && (s.active.Session? ==> s.active.id !in s.hidden)
    && (s.phase.Creating? ==> Pending(s.store, NewChat) == Some(s.phase.attempt))
  }

  ghost predicate Fresh(s: State) {
    && (forall id :: id in s.known ==> id < s.nextSession)
    && (forall id :: id in s.hidden ==> id < s.nextSession)
    && (forall slot :: slot in s.current && slot.Session? ==> slot.id < s.nextSession)
    && (s.made.Some? ==> s.made.value < s.nextSession)
    && (s.active.Session? ==> s.active.id < s.nextSession)
    && (s.ref.Ref? ==> s.ref.session < s.nextSession)
    && (s.phase.Posting? ==> s.phase.session < s.nextSession)
    && (forall r :: r in s.sent ==> r.session < s.nextSession && r.key < s.nextKey && r.intent < s.nextIntent)
  }

  /** A request agrees with any other of its intent or its key, and with what storage holds. */
  ghost predicate OneKeyEach(s: State) {
    WireBooks(s.sent, s.store, s.current)
  }

  ghost predicate WireBooks(sent: set<Request>, store: Store, current: map<Slot, Intent>) {
    && (forall r, q :: r in sent && q in sent && (r.intent == q.intent || r.key == q.key) ==> r == q)
    && (forall r, slot :: r in sent && slot in current
          && (r.intent == current[slot].number || KeyIs(store, slot, r.key))
          ==> slot == Session(r.session) && r.intent == current[slot].number
              && Pending(store, slot) == Some(PendingSend(r.text, r.key)))
  }

  ghost predicate Served(s: State) {
    ServerBooks(s.sent, s.records, s.runs)
  }

  ghost predicate ServerBooks(sent: set<Request>, records: map<Key, Record>, runs: seq<Request>) {
    && (forall i :: 0 <= i < |runs| ==> runs[i] in sent && runs[i].key in records)
    && (forall i, j :: 0 <= i < j < |runs| ==> runs[i].key != runs[j].key)
    && (forall k :: k in records ==> HasRun(runs, k, records[k]))
  }

  ghost predicate HasRun(runs: seq<Request>, k: Key, record: Record) {
    exists i :: 0 <= i < |runs| && Claims(runs[i], k, record)
  }

  /** The Run is what key `k` was claimed for. */
  predicate Claims(run: Request, k: Key, record: Record) {
    run.key == k && record == Record(run.session, run.text)
  }

  ghost predicate Inv(s: State) {
    Stored(s) && Remembered(s) && Fresh(s) && OneKeyEach(s) && Served(s)
  }

  /** What the mutation reads as the earlier attempt is what storage holds for the conversation. */
  lemma PreviousIsStored(s: State)
    requires Inv(s)
    ensures Previous(s) == Pending(s.store, s.active)
  {}

  /** The step of a send that gets past the storage check, before anything is posted. */
  function Kept(s: State, text: string): State {
    s.(nextKey := s.nextKey + 1, store := PendingSaved(s.store, s.active, AttemptOf(s, text), true),
       current := s.current[s.active := IntentOf(s, text)], nextIntent := s.nextIntent + 1)
  }

  /** What a send stores: the attempt and intent already there, or ones never used. */
  ghost predicate SameOrNew(s: State, attempt: PendingSend, intent: Intent) {
    && attempt.text == intent.text
    && (if s.active in s.current && s.current[s.active] == intent then Pending(s.store, s.active) == Some(attempt)
        else attempt.key == s.nextKey && intent.number == s.nextIntent)
  }

  lemma SendIsSameOrNew(s: State, text: string)
    requires Inv(s)
    ensures SameOrNew(s, AttemptOf(s, text), IntentOf(s, text))
  {
    PreviousIsStored(s);
    hide OneKeyEach, Served, Remembered, Previous;
  }

  lemma KeptStored(s: State, attempt: PendingSend, intent: Intent)
    requires Stored(s) && SameOrNew(s, attempt, intent)
    ensures ClientBooks(PendingSaved(s.store, s.active, attempt, true), s.current[s.active := intent],
                        s.nextKey + 1, s.nextIntent + 1)
  {
    var store, current := PendingSaved(s.store, s.active, attempt, true), s.current[s.active := intent];
    assert forall slot :: Pending(store, slot) == if slot == s.active then Some(attempt) else Pending(s.store, slot);
    hide PendingSaved, Pending;
  }

  lemma KeptOneKey(s: State, attempt: PendingSend, intent: Intent)
    requires Stored(s) && OneKeyEach(s) && Fresh(s) && SameOrNew(s, attempt, intent)
    ensures WireBooks(s.sent, PendingSaved(s.store, s.active, attempt, true), s.current[s.active := intent])
  {
    var store, current := PendingSaved(s.store, s.active, attempt, true), s.current[s.active := intent];
    assert forall slot :: Pending(store, slot) == if slot == s.active then Some(attempt) else Pending(s.store, slot);
    hide PendingSaved, Pending;
  }

  lemma KeptServedFresh(s: State, text: string)
    requires Inv(s) && s.phase == Idle
    ensures Served(Kept(s, text)) && Fresh(Kept(s, text))
  {
    hide Stored, OneKeyEach, Remembered;
  }

  /** Putting the stored attempt of a conversation on the wire. */
  lemma PostKeeps(s: State, session: Sid, attempt: PendingSend, source: Slot)
    requires Stored(s) && OneKeyEach(s) && Fresh(s) && Served(s) && session < s.nextSession
    requires s.active == Session(session) && session !in s.hidden
    requires Session(session) in s.current && Pending(s.store, Session(session)) == Some(attempt)
    ensures Inv(Post(s, session, attempt, source))
  {
    var after := Post(s, session, attempt, source);
    assert Stored(after) && Fresh(after) && Remembered(after);
    assert Served(after) by { hide Stored, OneKeyEach, Fresh; ServedMore(s, after); }
  }

  lemma ServedMore(s: State, after: State)
    requires Served(s) && s.sent <= after.sent && after.records == s.records && after.runs == s.runs
    ensures Served(after)
  {}

  lemma SendKeeps(s: State, text: string, saved: bool)
    requires Inv(s) && s.phase == Idle
    ensures Inv(AfterSend(s, text, saved))
  {
    if !saved {
      UnsavedKeeps(s, text);
    } else if s.active.Session? {
      LaterSendKeeps(s, text);
    } else {
      FirstSendKeeps(s, text);
    }
  }

  lemma LaterSendKeeps(s: State, text: string)
    requires Inv(s) && s.phase == Idle && s.active.Session?
    ensures Inv(AfterSend(s, text, true))
  {
    KeptInv(s, text);
    hide Stored, OneKeyEach, Served, Fresh, Remembered, AttemptOf, IntentOf;
    PostKeeps(Kept(s, text), s.active.id, AttemptOf(s, text), s.active);
  }

  lemma UnsavedKeeps(s: State, text: string)
    requires Inv(s) && s.phase == Idle
    ensures Inv(AfterSend(s, text, false))
  {
    var after := AfterSend(s, text, false);
    assert Fresh(after) && Remembered(after) by { hide Stored, OneKeyEach, Served; }
    hide Stored, OneKeyEach, Served, Fresh, Remembered;
    SameBooks(s, after);
  }

  lemma FirstSendKeeps(s: State, text: string)
    requires Inv(s) && s.phase == Idle && s.active == NewChat
    ensures Inv(AfterSend(s, text, true))
  {
    KeptInv(s, text);
    CreatingPage(s, text);
    hide Stored, OneKeyEach, Served, Fresh, Remembered, AttemptOf, IntentOf;
    SameBooks(Kept(s, text), AfterSend(s, text, true));
  }

  lemma KeptInv(s: State, text: string)
    requires Inv(s) && s.phase == Idle
    ensures var kept := Kept(s, text); Stored(kept) && OneKeyEach(kept) && Served(kept) && Fresh(kept)
    ensures s.active.Session? ==> s.active.id !in s.hidden && s.active.id < s.nextSession
  {
    SendIsSameOrNew(s, text);
    KeptStored(s, AttemptOf(s, text), IntentOf(s, text));
    KeptOneKey(s, AttemptOf(s, text), IntentOf(s, text));
    KeptServedFresh(s, text);
    hide Stored, OneKeyEach, Served;
  }

  lemma CreatingPage(s: State, text: string)
    requires Inv(s) && s.phase == Idle && s.active == NewChat
    ensures Fresh(AfterSend(s, text, true)) && Remembered(AfterSend(s, text, true))
  {
    hide Stored, OneKeyEach, Served, AttemptOf, IntentOf;
  }

  /** The parts of the invariant that look at the books alone. */
  lemma SameBooks(s: State, after: State)
    requires Stored(s) && OneKeyEach(s) && Served(s)
    requires after.store == s.store && after.current == s.current && after.sent == s.sent
    requires after.records == s.records && after.runs == s.runs
    requires after.nextKey >= s.nextKey && after.nextIntent >= s.nextIntent
    ensures Stored(after) && OneKeyEach(after) && Served(after)
  {}

  /** Forgetting the draft of some conversations, in storage and in the history alike. */
  lemma ForgetKeeps(s: State, after: State, slots: set<Slot>)
    requires Stored(s) && OneKeyEach(s) && Served(s)
    requires after.current == s.current - slots && after.sent == s.sent
    requires forall slot :: Pending(after.store, slot) == if slot in slots then None else Pending(s.store, slot)
    requires after.records == s.records && after.runs == s.runs
    requires after.nextKey == s.nextKey && after.nextIntent == s.nextIntent
    ensures Stored(after) && OneKeyEach(after) && Served(after)
  {
    assert Stored(after) by { hide OneKeyEach, Served; }
    assert OneKeyEach(after) by { hide Served; }
    assert Served(after) by { hide OneKeyEach, Stored; }
  }

  lemma CreatedKeeps(s: State, quota: Quota, remembered: bool)
    requires Inv(s) && s.phase.Creating?
    ensures Inv(AfterCreated(s, quota, remembered))
  {
    var id := s.nextSession;
    MoveLosesNothing(s.store, NewChat, Session(id), quota);
    var (store, moved) := Moved(s.store, NewChat, Session(id), quota);
    hide Moved;
    if moved {
      var there := Carried(s, store, remembered);
      CarriedStored(s, there, Session(id));
      CarriedOneKey(s, there, Session(id));
      CarriedPage(s, store, remembered);
      hide Stored, OneKeyEach, Served, Fresh, Remembered;
      PostKeeps(there, id, s.phase.attempt, NewChat);
    } else {
      NotCarried(s, store);
    }
  }

  /** The new conversation, its draft carried over, before anything is posted to it. */
  function Carried(s: State, store: Store, remembered: bool): State {
    var id := s.nextSession;
    s.(store := store, nextSession := id + 1,
       known := if remembered then s.known + {id} else s.known, made := Some(id), active := Session(id),
       current := if NewChat in s.current then (s.current - {NewChat})[Session(id) := s.current[NewChat]]
         else s.current)
  }

  lemma NotCarried(s: State, store: Store)
    requires Inv(s) && s.phase.Creating?
    requires forall x :: Pending(store, x) == if x == Session(s.nextSession) then None else Pending(s.store, x)
    ensures Inv(s.(store := store, nextSession := s.nextSession + 1, phase := Idle))
  {
    var after := s.(store := store, nextSession := s.nextSession + 1, phase := Idle);
    assert after.current == s.current - {Session(s.nextSession)} by { hide OneKeyEach, Served, Stored, Remembered; }
    assert Fresh(after) by { hide OneKeyEach, Served, Stored, Remembered; }
    assert Remembered(after) by { hide OneKeyEach, Served, Stored; }
    hide Stored, OneKeyEach, Served, Fresh, Remembered;
    ForgetKeeps(s, after, {Session(s.nextSession)});
  }

  lemma CarriedPage(s: State, store: Store, remembered: bool)
    requires Inv(s) && s.phase.Creating?
    requires Pending(store, Session(s.nextSession)) == Pending(s.store, NewChat)
    ensures var there := Carried(s, store, remembered);
      && Fresh(there) && Served(there) && s.nextSession !in s.hidden
      && Session(s.nextSession) in there.current && Pending(store, Session(s.nextSession)) == Some(s.phase.attempt)
  {
    hide OneKeyEach;
  }

  /** What carrying a draft over to a conversation that had none does to the books. */
  ghost predicate CarriesOver(s: State, there: State, slot: Slot) {
    && NewChat in s.current && slot == Session(s.nextSession)
    && there.current == (s.current - {NewChat})[slot := s.current[NewChat]]
    && Pending(there.store, slot) == Pending(s.store, NewChat) && Pending(there.store, NewChat) == None
    && (forall x :: x !in {NewChat, slot} ==> Pending(there.store, x) == Pending(s.store, x))
    && there.nextKey == s.nextKey && there.nextIntent == s.nextIntent && there.sent == s.sent
  }

  lemma CarriedStored(s: State, there: State, slot: Slot)
    requires Stored(s) && Fresh(s) && CarriesOver(s, there, slot)
    ensures Stored(there)
  {
    assert slot !in s.current;
  }

  lemma CarriedOneKey(s: State, there: State, slot: Slot)
    requires Stored(s) && OneKeyEach(s) && Fresh(s) && CarriesOver(s, there, slot)
    ensures OneKeyEach(there)
  {
    assert slot !in s.current;
    forall r, x | r in s.sent && x in there.current
        && (r.intent == there.current[x].number || KeyIs(there.store, x, r.key))
      ensures x == Session(r.session) && r.intent == there.current[x].number
              && Pending(there.store, x) == Some(PendingSend(r.text, r.key))
    {
      var was := if x == slot then NewChat else x;
      assert was in s.current && (r.intent == s.current[was].number || KeyIs(s.store, was, r.key));
    }
  }

  lemma DeliverKeeps(s: State, r: Request)
    requires Inv(s) && r in s.sent
    ensures Inv(AfterDeliver(s, r))
  {
    DeliverServes(s, r);
    hide Stored, OneKeyEach, Served, Fresh, Remembered;
    if r.key !in s.records {
      SameBooksOfClient(s, AfterDeliver(s, r));
    }
  }

  lemma DeliverServes(s: State, r: Request)
    requires Served(s) && r in s.sent
    ensures Served(AfterDeliver(s, r))
  {
    if r.key !in s.records {
      FirstDelivery(s.sent, s.records, s.runs, r);
    }
  }

  lemma FirstDelivery(sent: set<Request>, records: map<Key, Record>, runs: seq<Request>, r: Request)
    requires ServerBooks(sent, records, runs) && r in sent && r.key !in records
    ensures ServerBooks(sent, records[r.key := Record(r.session, r.text)], runs + [r])
  {
    forall k: Key, record | HasRun(runs, k, record) ensures HasRun(runs + [r], k, record) {
      var i :| 0 <= i < |runs| && Claims(runs[i], k, record);
      assert Claims((runs + [r])[i], k, record);
    }
    assert Claims((runs + [r])[|runs|], r.key, Record(r.session, r.text));
    assert HasRun(runs + [r], r.key, Record(r.session, r.text));
    hide HasRun;
  }

  lemma SameBooksOfClient(s: State, after: State)
    requires Stored(s) && OneKeyEach(s) && Fresh(s) && Remembered(s)
    requires after == s.(records := after.records, runs := after.runs)
    ensures Stored(after) && OneKeyEach(after) && Fresh(after) && Remembered(after)
  {
    assert Stored(after) by { hide OneKeyEach, Fresh, Remembered; }
    assert OneKeyEach(after) by { hide Stored, Fresh, Remembered; }
  }

  /** Steps that keep or forget whole drafts leave the page in agreement with what is stored. */
  lemma PageKeeps(s: State, step: Step)
    requires Fresh(s) && Remembered(s) && Allowed(s, step) && !step.Send? && !step.Created? && !step.Type?
    ensures Fresh(Next(s, step)) && Remembered(Next(s, step))
  {
    assert Fresh(Next(s, step)) by { hide Remembered; }
    assert Remembered(Next(s, step)) by { hide Fresh; }
  }

  lemma ClearingKeeps(s: State, step: Step)
    requires Inv(s) && Allowed(s, step) && (step.Empty? || step.Answered? || step.Hide?)
    ensures Inv(Next(s, step))
  {
    PageKeeps(s, step);
    hide Stored, OneKeyEach, Served, Fresh, Remembered;
    ForgetKeeps(s, Next(s, step),
      if step.Empty? then {s.active} else if step.Hide? then {Session(step.session)}
      else {s.phase.source, Session(s.phase.session)});
  }

  lemma QuietKeeps(s: State, step: Step)
    requires Inv(s) && Allowed(s, step)
    requires step.NotCreated? || step.Unanswered? || step.Reload? || step.Open?
    ensures Inv(Next(s, step))
  {
    PageKeeps(s, step);
    hide Stored, OneKeyEach, Served, Fresh, Remembered;
    SameBooks(s, Next(s, step));
  }

  lemma TypeKeeps(s: State, text: string, saved: bool)
    requires Inv(s)
    ensures Inv(s.(store := TextSaved(s.store, s.active, text, saved)))
  {
    var after := s.(store := TextSaved(s.store, s.active, text, saved));
    hide Stored, OneKeyEach, Served;
    ForgetKeeps(s, after, {});
  }

  lemma StepKeeps(s: State, step: Step)
    requires Inv(s) && Allowed(s, step)
    ensures Inv(Next(s, step))
  {
    hide Inv;
    match step
    case Type(text, saved) => TypeKeeps(s, text, saved);
    case Send(text, saved) => SendKeeps(s, text, saved);
    case Created(quota, remembered) => CreatedKeeps(s, quota, remembered);
    case Deliver(r) => DeliverKeeps(s, r);
    case Empty => ClearingKeeps(s, step);
    case Answered => ClearingKeeps(s, step);
    case Hide(_) => ClearingKeeps(s, step);
    case NotCreated => QuietKeeps(s, step);
    case Unanswered => QuietKeeps(s, step);
    case Reload => QuietKeeps(s, step);
    case Open(_) => QuietKeeps(s, step);
  }

  lemma {:induction false} PathKeeps(s: State, steps: seq<Step>, end: State)
    requires Inv(s) && Path(s, steps, end)
    ensures Inv(end)
    decreases |steps|
  {
    hide Inv, Next, Allowed;
    if steps != [] {
      StepKeeps(s, steps[0]);
      PathKeeps(Next(s, steps[0]), steps[1..], end);
    }
  }

  lemma StartInv()
    ensures Inv(START)
  {}

  // ---- what it is for ------------------------------------------------------

  /** Whatever is lost, delayed, delivered twice or retried, and however often the page is reloaded
      or another conversation opened meanwhile, what was meant once runs at most once. */
  lemma AtMostOneRun(steps: seq<Step>, s: State, i: nat, j: nat)
    requires Path(START, steps, s) && i < j < |s.runs|
    ensures s.runs[i].intent != s.runs[j].intent
  {
    StartInv();
    PathKeeps(START, steps, s);
    assert s.runs[i] in s.sent && s.runs[j] in s.sent;
  }

  /** As long as a message is meant, any request sent for it has its key stored where the next attempt
      reads it, and that attempt repeats the request, which the server does not refuse as another's. */
  lemma RetryRepeats(steps: seq<Step>, s: State, r: Request)
    requires Path(START, steps, s) && r in s.sent
    requires s.active in s.current && s.current[s.active].number == r.intent
    ensures s.active == Session(r.session) && Pending(s.store, s.active) == Some(PendingSend(r.text, r.key))
    ensures AttemptOf(s, r.text) == PendingSend(r.text, r.key)
    ensures r.key in s.records ==> s.records[r.key] == Record(r.session, r.text)
    ensures s.phase == Idle ==> AfterSend(s, r.text, true).sent == s.sent
    ensures s.phase == Idle ==>
      AfterSend(s, r.text, true).phase == Posting(r.session, PendingSend(r.text, r.key), Session(r.session))
  {
    StartInv();
    PathKeeps(START, steps, s);
    hide START;
    StillStored(s, r);
    hide Inv, Stored, OneKeyEach, Served;
    assert AttemptOf(s, r.text) == PendingSend(r.text, r.key);
    assert IntentOf(s, r.text) == s.current[s.active];
  }

  lemma StillStored(s: State, r: Request)
    requires Inv(s) && r in s.sent && s.active in s.current && s.current[s.active].number == r.intent
    ensures s.active == Session(r.session) && Previous(s) == Some(PendingSend(r.text, r.key))
    ensures Pending(s.store, s.active) == Previous(s)
    ensures s.current[s.active].text == r.text
    ensures r.key in s.records ==> s.records[r.key] == Record(r.session, r.text)
  {
    PreviousIsStored(s);
    if r.key in s.records {
      var i :| 0 <= i < |s.runs| && Claims(s.runs[i], r.key, s.records[r.key]);
      assert s.runs[i] in s.sent;
    }
  }

  /** A reload returns to the same message exactly when the page is on a new chat, or on a conversation
      this device remembers. */
  lemma ReloadKeepsKey(steps: seq<Step>, s: State, pending: PendingSend)
    requires Path(START, steps, s) && Pending(s.store, s.active) == Some(pending)
    ensures AttemptOf(Next(s, Reload), pending.text).key == pending.key <==>
      s.active == NewChat || s.active.id in s.known
  {
    StartInv();
    PathKeeps(START, steps, s);
    var after := Next(s, Reload);
    StepKeeps(s, Reload);
    PreviousIsStored(after);
  }

  /** A request that reaches the server has its Run, one and the same however often it arrives. */
  lemma DeliveredRuns(s: State, r: Request)
    requires Inv(s) && r in s.sent
    ensures var after := AfterDeliver(s, r); exists i :: 0 <= i < |after.runs| && after.runs[i] == r
  {
    var after := AfterDeliver(s, r);
    if r.key in s.records {
      var i :| 0 <= i < |s.runs| && Claims(s.runs[i], r.key, s.records[r.key]);
      assert s.runs[i] in s.sent && s.runs[i].key == r.key;
    } else {
      assert after.runs[|s.runs|] == r;
    }
  }

  /** A new chat's attempt carries a key the server has not seen. */
  lemma NewChatKeyUnclaimed(s: State, text: string)
    requires Inv(s) && s.active == NewChat
    ensures AttemptOf(s, text).key !in s.records
    ensures forall r :: r in s.sent ==> r.key != AttemptOf(s, text).key
  {
    PreviousIsStored(s);
    forall r | r in s.sent ensures r.key != AttemptOf(s, text).key {
      assert NewChat in s.current ==> !KeyIs(s.store, NewChat, r.key);
    }
  }

  const ALL := Quota(true, true, true)

  /** Sending from a new chat, when the text can be stored, the conversation is created and remembered,
      the draft moves to it and the request arrives, creates one more Run, of that text. */
  lemma {:induction false} NewChatRuns(s: State, text: string) returns (r: Request, end: State)
    requires Inv(s) && s.active == NewChat && s.phase == Idle
    ensures RetryPath(s, [Send(text, true), Created(ALL, true), Deliver(r)], end, text)
    ensures end.runs == s.runs + [r] && r.text == text && r !in s.sent
  {
    NewChatKeyUnclaimed(s, text);
    var attempt := AttemptOf(s, text);
    var s1 := Next(s, Send(text, true));
    MoveLosesNothing(s1.store, NewChat, Session(s1.nextSession), ALL);
    var s2 := Next(s1, Created(ALL, true));
    r := Request(s1.nextSession, text, attempt.key, IntentOf(s, text).number);
    hide Stored, OneKeyEach, Served, Fresh, Remembered, Moved, AttemptOf, IntentOf;
    assert r in s2.sent && s2.records == s.records && s2.runs == s.runs;
    end := Next(s2, Deliver(r));
    var more := [Send(text, true), Created(ALL, true), Deliver(r)];
    assert RetryPath(s2, [Deliver(r)], end, text);
    assert more[1..] == [Created(ALL, true), Deliver(r)] && more[1..][1..] == [Deliver(r)];
  }

  /** The key is the one pending in a conversation for this text, if it is; otherwise one no request ever
      carried and the server never saw. */
  ghost predicate PendingOrUnused(s: State, text: string, key: Key) {
    if s.active in s.store && s.store[s.active].pending.Some? && s.store[s.active].pending.value.text == text
    then key == s.store[s.active].pending.value.key
    else key !in s.records && forall q :: q in s.sent ==> q.key != key
  }

  lemma AttemptKey(s: State, text: string)
    requires Inv(s)
    ensures AttemptOf(s, text).text == text && PendingOrUnused(s, text, AttemptOf(s, text).key)
  {
    PreviousIsStored(s);
    if AttemptOf(s, text).key == s.nextKey {
      forall k | k in s.records ensures k != s.nextKey {
        var i :| 0 <= i < |s.runs| && Claims(s.runs[i], k, s.records[k]);
        assert s.runs[i] in s.sent;
      }
    }
  }

  /** Sending in an existing conversation puts the text on the wire, for that conversation, under a key that
      is stored first; when it arrives it runs, once: not again if its key was used before. */
  lemma SendPosts(steps: seq<Step>, s: State, id: Sid, text: string) returns (r: Request)
    requires Path(START, steps, s) && s.phase == Idle && s.active == Session(id)
    ensures r.session == id && r.text == text && PendingOrUnused(s, text, r.key)
    ensures var after := Next(s, Send(text, true));
      && after.phase == Posting(id, PendingSend(text, r.key), Session(id)) && after.sent == s.sent + {r}
      && Session(id) in after.store && after.store[Session(id)].pending == Some(PendingSend(text, r.key))
      && Next(after, Deliver(r)).runs == if r.key in s.records then s.runs else s.runs + [r]
  {
    StartInv();
    PathKeeps(START, steps, s);
    AttemptKey(s, text);
    hide START, Inv, AttemptOf, IntentOf;
    r := Request(id, text, AttemptOf(s, text).key, IntentOf(s, text).number);
  }

  /** Without the text and key stored nothing is sent, and nothing is lost. */
  lemma UnstoredIsNotSent(s: State, text: string)
    requires s.phase == Idle
    ensures var after := Next(s, Send(text, false));
            after.phase == Idle && after.sent == s.sent && after.store == s.store && after.current == s.current
  {}

  /** An attempt that fails, because the conversation is not created, the draft does not fit there, or no
      answer comes, leaves the open conversation's draft and key as they were, ready to be tried again. */
  lemma FailureKeepsDraft(s: State, step: Step)
    requires Inv(s) && Allowed(s, step)
    requires step.NotCreated? || step.Unanswered?
          || (step.Created? && !AllSaved(s.store, NewChat, step.quota))
    ensures var after := Next(s, step);
      && after.phase == Idle && after.active == s.active && after.sent == s.sent && after.runs == s.runs
      && At(after.store, s.active) == At(s.store, s.active) && after.current == s.current
  {
    if step.Created? { MoveLosesNothing(s.store, NewChat, Session(s.nextSession), step.quota); }
    hide Moved;
  }

  /** What was answered is done with, and so is what was emptied: the draft and its key are gone, and the same
      text sent again is a new message, with a request of its own that runs once more. */
  lemma DoneIsForgotten(steps: seq<Step>, s: State, step: Step, id: Sid, text: string) returns (r: Request)
    requires Path(START, steps, s) && Allowed(s, step) && (step.Answered? || step.Empty?)
    requires s.active == Session(id) && (step.Answered? ==> s.phase.session == id)
    ensures r.session == id && r.text == text && r !in s.sent && r.key !in s.records
    ensures var done := Next(s, step);
      && done.phase == Idle && done.active == Session(id) && done.sent == s.sent && done.runs == s.runs
      && Session(id) in done.store && done.store[Session(id)] == Draft(None, None, None)
      && (step.Answered? ==> s.phase.source in done.store && done.store[s.phase.source] == Draft(None, None, None))
      && var sent := Next(done, Send(text, true));
         sent.sent == s.sent + {r} && Next(sent, Deliver(r)).runs == s.runs + [r]
  {
    PathOneMore(START, steps, s, step);
    hide START;
    r := SendPosts(steps + [step], Next(s, step), id, text);
  }

  /** A conversation just created is open, and a reload comes back to it, with the message still to be sent
      there, exactly when this device could remember it. */
  lemma CreatedIsRemembered(s: State, quota: Quota, remembered: bool)
    requires Inv(s) && s.phase.Creating? && AllSaved(s.store, NewChat, quota)
    ensures var id, attempt := s.nextSession, s.phase.attempt;
            var after := Next(s, Created(quota, remembered));
            var back := Next(after, Reload);
      && after.active == Session(id) && after.phase == Posting(id, attempt, NewChat)
      && back.active == (if remembered then Session(id) else NewChat)
      && Session(id) in back.store && back.store[Session(id)].pending == Some(attempt)
      && (AttemptOf(back, attempt.text).key == attempt.key <==> remembered)
  {
    hide Inv, AfterCreated, AllSaved, Previous;
    CreatedKeeps(s, quota, remembered);
    CreatedMoves(s, quota, remembered);
    var after := Next(s, Created(quota, remembered));
    StepKeeps(after, Reload);
    PreviousIsStored(Next(after, Reload));
  }

  lemma CreatedMoves(s: State, quota: Quota, remembered: bool)
    requires Inv(s) && s.phase.Creating? && AllSaved(s.store, NewChat, quota)
    ensures var id, attempt, after := s.nextSession, s.phase.attempt, AfterCreated(s, quota, remembered);
      && after.active == Session(id) && after.phase == Posting(id, attempt, NewChat) && after.made == Some(id)
      && id !in after.hidden && (id in after.known <==> remembered) && attempt.key < after.nextKey
      && Pending(after.store, Session(id)) == Some(attempt) && Pending(after.store, NewChat) == None
  {
    MoveLosesNothing(s.store, NewChat, Session(s.nextSession), quota);
    hide Moved, OneKeyEach, Served;
  }

  /** What is typed is stored, when it can be, beside the key pending there; nothing else changes. */
  lemma TypedIsStored(s: State, text: string, saved: bool)
    requires Allowed(s, Type(text, saved))
    ensures var after := Next(s, Type(text, saved));
      && (saved ==> s.active in after.store && after.store[s.active].text == Some(text))
      && (!saved ==> after.store == s.store)
      && At(after.store, s.active).pending == At(s.store, s.active).pending
      && At(after.store, s.active).files == At(s.store, s.active).files
      && (forall slot :: slot != s.active ==> At(after.store, slot) == At(s.store, slot))
      && after == s.(store := after.store)
  {}

  /** A hidden conversation is forgotten: it is not open, not remembered and has no draft. */
  ghost predicate Gone(s: State, id: Sid) {
    && id in s.hidden && id !in s.known && id < s.nextSession && s.active != Session(id)
    && At(s.store, Session(id)) == Draft(None, None, None)
  }

  lemma StaysGone(s: State, step: Step, id: Sid)
    requires Gone(s, id) && Allowed(s, step)
    ensures Gone(Next(s, step), id)
  {
    if step.Created? {
      MoveLosesNothing(s.store, NewChat, Session(s.nextSession), step.quota);
      hide Moved;
    }
  }

  lemma {:induction false} StaysGoneAlong(s: State, steps: seq<Step>, end: State, id: Sid)
    requires Gone(s, id) && Path(s, steps, end)
    ensures Gone(end, id)
    decreases |steps|
  {
    hide Gone, Next, Allowed;
    if steps != [] {
      StaysGone(s, steps[0], id);
      StaysGoneAlong(Next(s, steps[0]), steps[1..], end, id);
    }
  }

  /** Hidden once, a conversation never comes back, whatever follows. */
  lemma HiddenForGood(steps: seq<Step>, s: State, id: Sid, more: seq<Step>, end: State)
    requires Path(START, steps, s) && Allowed(s, Hide(id)) && Path(Next(s, Hide(id)), more, end)
    ensures Gone(end, id) && !Allowed(end, Open(Session(id))) && !Allowed(end, Hide(id))
  {
    hide Inv, START, Path, Next;
    StartInv();
    PathKeeps(START, steps, s);
    HidingForgets(s, id);
    StaysGoneAlong(Next(s, Hide(id)), more, end, id);
  }

  lemma HidingForgets(s: State, id: Sid)
    requires Inv(s) && Allowed(s, Hide(id))
    ensures Gone(Next(s, Hide(id)), id)
  {
    hide Stored, OneKeyEach, Served;
  }

  // ---- going elsewhere and coming back -------------------------------------

  /** The steps that end what is pending in a conversation. */
  predicate Ends(s: State, step: Step, slot: Slot, pending: PendingSend) {
    match step
    case Empty => s.active == slot
    case Send(text, saved) => s.active == slot && saved && text != pending.text
    case Created(quota, _) => slot == NewChat && AllSaved(s.store, NewChat, quota)   // it goes with the draft
    case Answered => s.phase.Posting? && slot in {s.phase.source, Session(s.phase.session)}
    case Hide(id) => slot == Session(id)
    case _ => false
  }

  /** These steps end it, and no other step, in whatever conversation, touches it. */
  lemma KeptUnlessEnded(s: State, step: Step, slot: Slot, pending: PendingSend)
    requires Inv(s) && Allowed(s, step) && Pending(s.store, slot) == Some(pending)
    ensures Pending(Next(s, step).store, slot) == Some(pending) <==>
      !Ends(s, step, slot, pending)
  {
    if step.Created? {
      assert slot.Session? ==> slot.id < s.nextSession by { assert slot in s.current; }
      MoveLosesNothing(s.store, NewChat, Session(s.nextSession), step.quota);
      hide Inv, Moved, AllSaved;
    } else if step.Send? {
      KeptUnlessSent(s, step.text, step.saved, slot, pending);
      hide Inv, AfterSend;
    } else {
      hide Inv;
    }
  }

  lemma KeptUnlessSent(s: State, text: string, saved: bool, slot: Slot, pending: PendingSend)
    requires Inv(s) && Pending(s.store, slot) == Some(pending)
    ensures Pending(AfterSend(s, text, saved).store, slot) == Some(pending) <==>
      !(s.active == slot && saved && text != pending.text)
  {
    PreviousIsStored(s);
    hide Inv, Previous, IntentOf;
  }

  ghost predicate Elsewhere(s: State, steps: seq<Step>, end: State, slot: Slot, pending: PendingSend)
    decreases |steps|
  {
    if steps == [] then s == end
    else
      && Allowed(s, steps[0]) && !Ends(s, steps[0], slot, pending)
      && Elsewhere(Next(s, steps[0]), steps[1..], end, slot, pending)
  }

  lemma {:induction false} KeptElsewhere(s: State, steps: seq<Step>, end: State, slot: Slot, pending: PendingSend)
    requires Inv(s) && Pending(s.store, slot) == Some(pending) && Elsewhere(s, steps, end, slot, pending)
    ensures Inv(end) && Pending(end.store, slot) == Some(pending)
    decreases |steps|
  {
    hide Inv, Next, Allowed, Ends, Pending;
    if steps != [] {
      StepKeeps(s, steps[0]);
      KeptUnlessEnded(s, steps[0], slot, pending);
      KeptElsewhere(Next(s, steps[0]), steps[1..], end, slot, pending);
    }
  }

  /** However long one is elsewhere, writing and sending in other conversations and reloading the page,
      opening the conversation again and sending the text again posts it with the key it was first given. */
  lemma ComesBack(steps: seq<Step>, s: State, more: seq<Step>, end: State, slot: Slot, pending: PendingSend)
    requires Path(START, steps, s) && Pending(s.store, slot) == Some(pending)
    requires Elsewhere(s, more, end, slot, pending) && Allowed(end, Open(slot)) && end.phase == Idle
    ensures var again := Next(Next(end, Open(slot)), Send(pending.text, true));
            again.active == slot &&
            again.phase == if slot == NewChat then Creating(pending) else Posting(slot.id, pending, slot)
  {
    hide START, Inv, Elsewhere, Path, Previous, IntentOf;
    StartInv();
    PathKeeps(START, steps, s);
    KeptElsewhere(s, more, end, slot, pending);
    StepKeeps(end, Open(slot));
    var back := Next(end, Open(slot));
    PreviousIsStored(back);
    assert AttemptOf(back, pending.text) == pending;
  }

  // ---- one text, tried again and again -------------------------------------

  /** The steps of getting one text across: no success, no emptied or hidden conversation, no other one
      opened and no other text sent. */
  predicate Retries(step: Step, text: string) {
    match step
    case Send(t, _) => t == text
    case Empty | Answered | Open(_) | Hide(_) => false
    case _ => true
  }

  /** Whether a reload comes back to the conversation it was made in. */
  predicate ReturnsOnReload(s: State) {
    s.active == NewChat || s.active.id in s.known
  }

  ghost predicate RetryPath(s: State, steps: seq<Step>, end: State, text: string)
    decreases |steps|
  {
    if steps == [] then s == end
    else
      && Allowed(s, steps[0]) && Retries(steps[0], text) && (steps[0].Reload? ==> ReturnsOnReload(s))
      && RetryPath(Next(s, steps[0]), steps[1..], end, text)
  }

  /** A request for the text tried since `s`: one sent since, or one sent for what was pending then. */
  predicate Carries(s: State, r: Request, text: string) {
    r !in s.sent || Previous(s) == Some(PendingSend(text, r.key))
  }

  /** Along such a path either nothing was sent yet, or all that was sent belongs to one intent, which is
      that of the open conversation. */
  ghost predicate OneIntent(s: State, now: State, text: string) {
    && (forall r :: r in now.sent && r !in s.sent ==> r.intent == IntentOf(s, text).number)
    && (Untouched(s, now) || (now.active in now.current && now.current[now.active] == IntentOf(s, text)))
    && (now.phase.Creating? ==> now.active == NewChat && NewChat in now.current)
  }

  predicate Untouched(s: State, now: State) {
    && now.phase == Idle && now.active == s.active && now.current == s.current
    && now.nextIntent == s.nextIntent && now.sent == s.sent
  }

  lemma RetryKeeps(s: State, now: State, step: Step, text: string)
    requires Inv(now) && OneIntent(s, now, text)
    requires Allowed(now, step) && Retries(step, text) && (step.Reload? ==> ReturnsOnReload(now))
    ensures OneIntent(s, Next(now, step), text)
  {
    hide Inv;
    if step.Reload? {
      Shown(now);
    }
  }

  lemma Shown(s: State)
    requires Inv(s)
    ensures s.active.Session? ==> s.active.id !in s.hidden
  {}

  lemma {:induction false} RetriesKeep(s: State, now: State, steps: seq<Step>, end: State, text: string)
    requires Inv(now) && OneIntent(s, now, text) && RetryPath(now, steps, end, text)
    ensures Inv(end) && OneIntent(s, end, text)
    decreases |steps|
  {
    hide Inv, OneIntent, Next, Allowed, Retries;
    if steps != [] {
      StepKeeps(now, steps[0]);
      RetryKeeps(s, now, steps[0], text);
      RetriesKeep(s, Next(now, steps[0]), steps[1..], end, text);
    }
  }

  lemma CarriedByIntent(s: State, end: State, r: Request, text: string)
    requires Inv(s) && OneIntent(s, end, text) && r in end.sent && Carries(s, r, text)
    ensures r.intent == IntentOf(s, text).number
  {
    PreviousIsStored(s);
  }

  /** However often one text is tried, whatever answers and writes are lost and whatever arrives late or
      twice, with reloads only where the page comes back to the conversation: at most one Run carries it,
      those of requests made before for the same pending message included. */
  lemma RetriesRunOnce(steps: seq<Step>, s: State, more: seq<Step>, end: State, text: string, i: nat, j: nat)
    requires Path(START, steps, s) && s.phase == Idle && RetryPath(s, more, end, text)
    requires i < j < |end.runs| && Carries(s, end.runs[i], text)
    ensures !Carries(s, end.runs[j], text)
  {
    StartInv();
    PathKeeps(START, steps, s);
    hide START;
    RetriesKeep(s, s, more, end, text);
    assert end.runs[i] in end.sent && end.runs[j] in end.sent && end.runs[i].key != end.runs[j].key;
    assert end.runs[i].intent != end.runs[j].intent;
    hide Inv, OneIntent;
    CarriedByIntent(s, end, end.runs[i], text);
    if Carries(s, end.runs[j], text) { CarriedByIntent(s, end, end.runs[j], text); }
  }

  // ---- the reload that forgets ---------------------------------------------

  /** The message the request was sent for is still meant in the open conversation: since then no answer
      came, the box was not emptied and no other text was sent there. */
  predicate StillMeant(s: State, r: Request) {
    s.active in s.current && s.current[s.active].number == r.intent
  }

  /** A reload now and further tries of the same text may end with two Runs of it: the request's own, and
      one of a request sent after the reload. */
  ghost predicate RunsTwiceAfterReload(s: State, r: Request) {
    exists more, end, i, j :: TriedTwice(s, r, more, end, i, j)
  }

  ghost predicate TriedTwice(s: State, r: Request, more: seq<Step>, end: State, i: nat, j: nat) {
    && RetryPath(Next(s, Reload), more, end, r.text)
    && i < |end.runs| && j < |end.runs| && i != j
    && end.runs[i] == r && end.runs[j] !in s.sent && end.runs[j].text == r.text
  }

  /** Where the reload does not come back, these four steps after it run the text a second time. */
  lemma ForgottenReloadRunsTwice(steps: seq<Step>, s: State, r: Request)
    returns (again: Request, end: State, i: nat, j: nat)
    requires Path(START, steps, s) && r in s.sent && s.active == Session(r.session) && r.session !in s.known
    ensures TriedTwice(s, r, [Deliver(r), Send(r.text, true), Created(ALL, true), Deliver(again)], end, i, j)
    ensures end.runs[j] == again
  {
    StartInv();
    PathKeeps(START, steps, s);
    hide START;
    var reloaded, delivered;
    reloaded, delivered, i := AfterForgottenReload(s, r);
    hide Inv;
    again, end := NewChatRuns(delivered, r.text);
    j := |delivered.runs|;
    var rest := [Send(r.text, true), Created(ALL, true), Deliver(again)];
    var more := [Deliver(r), Send(r.text, true), Created(ALL, true), Deliver(again)];
    assert more[1..] == rest;
    assert RetryPath(reloaded, more, end, r.text);
  }

  lemma AfterForgottenReload(s: State, r: Request) returns (reloaded: State, delivered: State, i: nat)
    requires Inv(s) && r in s.sent && s.active == Session(r.session) && r.session !in s.known
    ensures reloaded == Next(s, Reload) && Allowed(reloaded, Deliver(r)) && delivered == Next(reloaded, Deliver(r))
    ensures Inv(delivered) && delivered.active == NewChat && delivered.phase == Idle && delivered.sent == s.sent
    ensures i < |delivered.runs| && delivered.runs[i] == r
  {
    reloaded := Next(s, Reload);
    hide Inv;
    StepKeeps(s, Reload);
    delivered, i := AfterLateDelivery(reloaded, r);
  }

  lemma AfterLateDelivery(s: State, r: Request) returns (delivered: State, i: nat)
    requires Inv(s) && Allowed(s, Deliver(r))
    ensures delivered == Next(s, Deliver(r)) && Inv(delivered)
    ensures delivered.active == s.active && delivered.phase == s.phase && delivered.sent == s.sent
    ensures i < |delivered.runs| && delivered.runs[i] == r
  {
    delivered := AfterDeliver(s, r);
    hide Inv;
    DeliverKeeps(s, r);
    DeliveredRuns(s, r);
    i :| 0 <= i < |delivered.runs| && delivered.runs[i] == r;
  }

  /** Exactly then: while a message is still meant, a reload can make its text run twice if and only if
      this device does not remember the conversation. */
  lemma RunsTwiceExactlyIfForgotten(steps: seq<Step>, s: State, r: Request)
    requires Path(START, steps, s) && r in s.sent && StillMeant(s, r)
    ensures RunsTwiceAfterReload(s, r) <==> r.session !in s.known
  {
    StartInv();
    PathKeeps(START, steps, s);
    StillStored(s, r);
    if r.session !in s.known {
      var again, end, i, j := ForgottenReloadRunsTwice(steps, s, r);
      assert RunsTwiceAfterReload(s, r);
    } else if RunsTwiceAfterReload(s, r) {
      var more, end, i, j :| TriedTwice(s, r, more, end, i, j);
      NotTwiceIfRemembered(steps, s, r, more, end, i, j);
    }
  }

  lemma NotTwiceIfRemembered(steps: seq<Step>, s: State, r: Request, more: seq<Step>, end: State, i: nat, j: nat)
    requires Path(START, steps, s) && r in s.sent && StillMeant(s, r) && r.session in s.known
    ensures !TriedTwice(s, r, more, end, i, j)
  {
    StartInv();
    PathKeeps(START, steps, s);
    StillStored(s, r);
    var reloaded := Next(s, Reload);
    StepKeeps(s, Reload);
    PreviousIsStored(reloaded);
    assert Carries(reloaded, r, r.text);
    if TriedTwice(s, r, more, end, i, j) {
      PathOneMore(START, steps, s, Reload);
      var first, second := if i < j then i else j, if i < j then j else i;
      RetriesRunOnce(steps + [Reload], reloaded, more, end, r.text, first, second);
    }
  }

  lemma {:induction false} PathOneMore(s: State, steps: seq<Step>, end: State, step: Step)
    requires Path(s, steps, end) && Allowed(end, step)
    ensures Path(s, steps + [step], Next(end, step))
    decreases |steps|
  {
    hide Next, Allowed;
    if steps == [] {
      assert [] + [step] == [step] && [step][1..] == [];
    } else {
      PathOneMore(Next(s, steps[0]), steps[1..], end, step);
      assert (steps + [step])[1..] == steps[1..] + [step];
    }
  }
}
