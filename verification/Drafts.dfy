/** What the chat page keeps of an unsent message in session storage. Reading and removing an item
    always succeed; writing one may fail, when the quota is spent. */
module Drafts {
  import opened Options

  type Key = nat   // an idempotency key
  type Sid = nat   // a conversation

  /** The conversation a draft belongs to; the draft key is an injective encoding of it. */
  datatype Slot = NewChat | Session(id: Sid)

  datatype PendingSend = PendingSend(text: string, key: Key)

  /** The items under the three prefixes of `drafts.ts` for one conversation. */
  datatype Draft = Draft(text: Option<string>, pending: Option<PendingSend>, files: Option<seq<string>>)

  type Store = map<Slot, Draft>

  const NO_DRAFT := Draft(None, None, None)
  const KEPT_FILES := 8

  function At(store: Store, slot: Slot): Draft {
    if slot in store then store[slot] else NO_DRAFT
  }

  function Text(store: Store, slot: Slot): string {
    if At(store, slot).text.Some? then At(store, slot).text.value else ""
  }

  function Files(store: Store, slot: Slot): seq<string> {
    var names := if At(store, slot).files.Some? then At(store, slot).files.value else [];
    if |names| <= KEPT_FILES then names else names[..KEPT_FILES]
  }

  function Pending(store: Store, slot: Slot): Option<PendingSend> {
    At(store, slot).pending
  }

  /** Saving an empty text or list removes it, which cannot fail. */
  function TextSaved(store: Store, slot: Slot, text: string, ok: bool): Store {
    if text == "" then store[slot := At(store, slot).(text := None)]
    else if ok then store[slot := At(store, slot).(text := Some(text))]
    else store
  }

  function FilesSaved(store: Store, slot: Slot, names: seq<string>, ok: bool): Store {
    if names == [] then store[slot := At(store, slot).(files := None)]
    else if ok then store[slot := At(store, slot).(files := Some(names))]
    else store
  }

  function PendingSaved(store: Store, slot: Slot, pending: PendingSend, ok: bool): Store {
    if ok then store[slot := At(store, slot).(pending := Some(pending))] else store
  }

  function Cleared(store: Store, slot: Slot): Store {
    store[slot := NO_DRAFT]
  }

  /** Which of the three writes of a move the browser accepted. */
  datatype Quota = Quota(text: bool, files: bool, pending: bool)

  /** The three saves of a move, on the new conversation. */
  function Written(store: Store, from: Slot, to: Slot, quota: Quota): Store {
    var filed := FilesSaved(TextSaved(store, to, Text(store, from), quota.text), to, Files(store, from), quota.files);
    if Pending(store, from).Some? then PendingSaved(filed, to, Pending(store, from).value, quota.pending) else filed
  }

  predicate AllSaved(store: Store, from: Slot, quota: Quota) {
    && (Text(store, from) == "" || quota.text)
    && (Files(store, from) == [] || quota.files)
    && (Pending(store, from).None? || quota.pending)
  }

  function Moved(store: Store, from: Slot, to: Slot, quota: Quota): (Store, bool) {
    if from == to then (store, true)
    else if AllSaved(store, from, quota) then (Cleared(Written(store, from, to, quota), from), true)
    else (Cleared(Written(store, from, to, quota), to), false)
  }

  /** Every other conversation's draft is what it was. */
  ghost predicate OthersKept(before: Store, after: Store, slots: set<Slot>) {
    forall slot :: slot !in slots ==> At(after, slot) == At(before, slot)
  }

  /** However the three writes go, the text, the files and the key end up whole in one place: at the
      new conversation if the move reports success, else where they were. */
  lemma MoveLosesNothing(store: Store, from: Slot, to: Slot, quota: Quota)
    requires from != to
    ensures var (after, moved) := Moved(store, from, to, quota);
      && (moved ==> Text(after, to) == Text(store, from) && Files(after, to) == Files(store, from))
      && (moved ==>
            Pending(after, to) == if Pending(store, from).Some? then Pending(store, from) else Pending(store, to))
      && (moved ==> At(after, from) == NO_DRAFT)
      && (!moved ==> At(after, from) == At(store, from) && At(after, to) == NO_DRAFT)
      && OthersKept(store, after, {from, to})
      && (moved <==> AllSaved(store, from, quota))
  {
    WritesOnlyThere(store, from, to, quota);
    if AllSaved(store, from, quota) { WritesItAll(store, from, to, quota); }
    hide Written, AllSaved;
  }

  /** The same on the stored items: a moved draft has the old one's text unless it was empty, the first
      eight of its files unless there were none, and its pending key; a draft not moved is untouched. */
  lemma MovesItems(store: Store, from: Slot, to: Slot, quota: Quota)
    requires from != to && from in store
    ensures var (after, moved) := Moved(store, from, to, quota);
      && from in after && to in after
      && (!moved ==> after[from] == store[from] && after[to] == Draft(None, None, None))
      && (moved ==> after[from] == Draft(None, None, None))
      && (moved ==> after[to].text == if store[from].text == Some("") then None else store[from].text)
      && (moved ==> after[to].files == FirstEight(store[from].files))
      && (moved && store[from].pending.Some? ==> after[to].pending == store[from].pending)
      && (moved <==>
            && (store[from].text in {None, Some("")} || quota.text)
            && (store[from].files in {None, Some([])} || quota.files)
            && (store[from].pending == None || quota.pending))
  {
    WritesOnlyThere(store, from, to, quota);
  }

  function FirstEight(files: Option<seq<string>>): Option<seq<string>> {
    match files
    case None => None
    case Some(names) => if names == [] then None else if |names| > 8 then Some(names[..8]) else Some(names)
  }

  lemma WritesOnlyThere(store: Store, from: Slot, to: Slot, quota: Quota)
    ensures forall slot :: slot != to ==> At(Written(store, from, to, quota), slot) == At(store, slot)
  {}

  lemma WritesItAll(store: Store, from: Slot, to: Slot, quota: Quota)
    requires AllSaved(store, from, quota)
    ensures var written := Written(store, from, to, quota);
      && Text(written, to) == Text(store, from) && Files(written, to) == Files(store, from)
      && Pending(written, to) == if Pending(store, from).Some? then Pending(store, from) else Pending(store, to)
  {
    assert |Files(store, from)| <= KEPT_FILES;
  }

  /** `window.sessionStorage` under the functions of `drafts.ts`. */
  class SessionStorage {
    var store: Store

    constructor ()
      ensures store == map[]
    {
      store := map[];
    }

    /** `setItem` of one item; false when the quota is spent. */
    method SetItem(slot: Slot, draft: Draft) returns (ok: bool)
      modifies this
      ensures store == if ok then old(store)[slot := draft] else old(store)
    {
      ok := *;
      if ok { store := store[slot := draft]; }
    }

    method SaveDraftText(slot: Slot, text: string) returns (ok: bool)
      modifies this
      ensures store == TextSaved(old(store), slot, text, ok)
      ensures text == "" ==> ok
    {
      if text == "" {
        store := store[slot := At(store, slot).(text := None)];
        ok := true;
      } else {
        ok := SetItem(slot, At(store, slot).(text := Some(text)));
      }
    }

    method SaveDraftFiles(slot: Slot, names: seq<string>) returns (ok: bool)
      modifies this
      ensures store == FilesSaved(old(store), slot, names, ok)
      ensures names == [] ==> ok
    {
      if names == [] {
        store := store[slot := At(store, slot).(files := None)];
        ok := true;
      } else {
        ok := SetItem(slot, At(store, slot).(files := Some(names)));
      }
    }

    method SavePendingSend(slot: Slot, pending: PendingSend) returns (ok: bool)
      modifies this
      ensures store == PendingSaved(old(store), slot, pending, ok)
    {
      ok := SetItem(slot, At(store, slot).(pending := Some(pending)));
    }

    method ClearDraft(slot: Slot)
      modifies this
      ensures store == Cleared(old(store), slot) && At(store, slot) == NO_DRAFT && OthersKept(old(store), store, {slot})
    {
      store := store[slot := At(store, slot).(text := None)];
      store := store[slot := At(store, slot).(pending := None)];
      store := store[slot := At(store, slot).(files := None)];
    }

    /** `moveDraft`: three saves, then one clear or the other. */
    method MoveDraft(from: Slot, to: Slot) returns (moved: bool, ghost quota: Quota)
      modifies this
      ensures (store, moved) == Moved(old(store), from, to, quota)
      ensures moved ==> Text(store, to) == Text(old(store), from) && Files(store, to) == Files(old(store), from)
      ensures moved && Pending(old(store), from).Some? ==> Pending(store, to) == Pending(old(store), from)
      ensures !moved ==> At(store, from) == At(old(store), from)
      ensures OthersKept(old(store), store, {from, to})
    {
      quota := Quota(true, true, true);
      if from == to {
        return true, quota;
      }
      ghost var before := store;
      var textSaved := SaveDraftText(to, Text(store, from));
      var filesSaved := SaveDraftFiles(to, Files(store, from));
      var pending, pendingSaved := Pending(store, from), true;
      if pending.Some? {
        pendingSaved := SavePendingSend(to, pending.value);
      }
      quota := Quota(textSaved, filesSaved, pendingSaved);
      MoveLosesNothing(before, from, to, quota);
      moved := textSaved && filesSaved && pendingSaved;
      ClearDraft(if moved then from else to);
    }
  }
}
