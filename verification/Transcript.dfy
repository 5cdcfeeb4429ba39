/** A transcript read for display: tool calls paired with their results, and messages grouped into
    replies. */
module Transcript {
  import opened Options

  type Arguments = map<string, string>

  datatype Part = Part(
    kind: string,
    text: Option<string>,
    callId: Option<string>,
    name: Option<string>,
    arguments: Option<Arguments>,
    output: Option<string>,
    exitCode: Option<int>,
    failed: Option<bool>
  )

  datatype Message = Message(role: string, parts: seq<Part>)

  datatype Status = Pending | Succeeded | Failed | Returned

  /** What a tool round shows. */
  datatype Round = Round(callId: string, name: string, arguments: Arguments, output: string, status: Status)

  /** What one part adds to a round that is there already. */
  function Merge(was: Round, said: Round): Round {
    var named := if said.name != "" then said else was;
    var settled := if said.status != Pending then said else was;
    Round(was.callId, named.name, named.arguments, settled.output, settled.status)
  }

  /** A round as it is built: the list of rounds and the index by call hold the same objects. */
  class ToolRound {
    const callId: string
    var name: string
    var arguments: Arguments
    var output: string
    var status: Status

    constructor (r: Round)
      ensures Shown() == r
    {
      callId, name, arguments, output, status := r.callId, r.name, r.arguments, r.output, r.status;
    }

    function Shown(): Round
      reads this
    {
      Round(callId, name, arguments, output, status)
    }

    /** Takes over what another round of the same call names and settles. */
    method Absorb(round: ToolRound)
      requires round != this
      modifies this
      ensures Shown() == Merge(old(Shown()), round.Shown())
    {
      if round.name != "" {
        name := round.name;
        arguments := round.arguments;
      }
      if round.status != Pending {
        output := round.output;
        status := round.status;
      }
    }
  }

  function ValueOr<T>(o: Option<T>, otherwise: T): T {
    match o case Some(v) => v case None => otherwise
  }

  function ResultStatus(part: Part): Status {
    if part.failed == Some(true) || (part.exitCode.Some? && part.exitCode.value != 0) then Failed
    else if part.failed == Some(false) || part.exitCode == Some(0) then Succeeded
    else Returned
  }

  /** `roundFrom`: what one part says of a call. */
  function RoundFrom(part: Part): Option<Round> {
    if part.kind == "tool_call" then
      Some(Round(ValueOr(part.callId, ""), ValueOr(part.name, ""), ValueOr(part.arguments, map[]), "", Pending))
    else if part.kind == "tool_result" then
      Some(Round(ValueOr(part.callId, ""), "", map[], ValueOr(part.output, ""), ResultStatus(part)))
    else None
  }

  // ---- the reference: what the rounds of some parts are --------------------

  function PartsOf(messages: seq<Message>): seq<Part> {
    if messages == [] then [] else PartsOf(messages[..|messages| - 1]) + messages[|messages| - 1].parts
  }

  predicate About(part: Part, id: string) {
    RoundFrom(part).Some? && RoundFrom(part).value.callId == id
  }

  predicate Named(part: Part, id: string) {
    About(part, id) && RoundFrom(part).value.name != ""
  }

  predicate Settled(part: Part, id: string) {
    About(part, id) && RoundFrom(part).value.status != Pending
  }

  /** The ids spoken of, each once, in the order in which they first appear. */
  function Ids(parts: seq<Part>): seq<string> {
    if parts == [] then []
    else
      var ids, said := Ids(parts[..|parts| - 1]), RoundFrom(parts[|parts| - 1]);
      if said.None? || said.value.callId in ids then ids else ids + [said.value.callId]
  }

  function FirstOf(parts: seq<Part>, id: string): Option<Part> {
    if parts == [] then None
    else
      var before, last := FirstOf(parts[..|parts| - 1], id), parts[|parts| - 1];
      if before.None? && About(last, id) then Some(last) else before
  }

  function LastOf(parts: seq<Part>, id: string, wanted: (Part, string) -> bool): Option<Part> {
    if parts == [] then None
    else if wanted(parts[|parts| - 1], id) then Some(parts[|parts| - 1])
    else LastOf(parts[..|parts| - 1], id, wanted)
  }

  function Said(part: Option<Part>): Round {
    match part
    case Some(p) => ValueOr(RoundFrom(p), Round("", "", map[], "", Pending))
    case None => Round("", "", map[], "", Pending)
  }

  function OrElse(a: Option<Part>, b: Option<Part>): Option<Part> {
    if a.Some? then a else b
  }

  /** The round of a call: name and arguments from the last part that names it, output and status from its
      last result; from the first part about it where there is none. */
  function RoundOf(parts: seq<Part>, id: string): Round {
    var first := FirstOf(parts, id);
    var named := Said(OrElse(LastOf(parts, id, Named), first));
    var settled := Said(OrElse(LastOf(parts, id, Settled), first));
    Round(id, named.name, named.arguments, settled.output, settled.status)
  }

  function RoundsOf(parts: seq<Part>): (rounds: seq<Round>)
    ensures |rounds| == |Ids(parts)|
    ensures forall k :: 0 <= k < |rounds| ==>
      rounds[k] == RoundOf(parts, Ids(parts)[k]) && rounds[k].callId == Ids(parts)[k]
  {
    seq(|Ids(parts)|, k requires 0 <= k < |Ids(parts)| => RoundOf(parts, Ids(parts)[k]))
  }

  // ---- what the reference means --------------------------------------------

  ghost predicate AppearsBefore(parts: seq<Part>, a: string, b: string) {
    exists i :: 0 <= i < |parts| && About(parts[i], a) && forall j :: 0 <= j <= i ==> !About(parts[j], b)
  }

  ghost predicate Spoken(parts: seq<Part>, id: string) {
    exists i :: 0 <= i < |parts| && About(parts[i], id)
  }

  lemma {:induction false} IdsAreSpoken(parts: seq<Part>, id: string)
    ensures id in Ids(parts) <==> Spoken(parts, id)
  {
    if parts != [] {
      var front := parts[..|parts| - 1];
      IdsAreSpoken(front, id);
      assert forall i :: 0 <= i < |front| ==> front[i] == parts[i];
      assert Spoken(parts, id) <==> Spoken(front, id) || About(parts[|parts| - 1], id);
    }
  }

  /** The ids are listed once each, in the order of first appearance. */
  lemma {:induction false} IdsAppearInOrder(parts: seq<Part>)
    ensures forall j, k :: 0 <= j < k < |Ids(parts)| ==> Ids(parts)[j] != Ids(parts)[k]
    ensures forall j, k :: 0 <= j < k < |Ids(parts)| ==> AppearsBefore(parts, Ids(parts)[j], Ids(parts)[k])
  {
    if parts != [] {
      var front, ids := parts[..|parts| - 1], Ids(parts);
      IdsAppearInOrder(front);
      assert forall i :: 0 <= i < |front| ==> front[i] == parts[i];
      forall j, k | 0 <= j < k < |ids| ensures ids[j] != ids[k] && AppearsBefore(parts, ids[j], ids[k]) {
        if k < |Ids(front)| {
          assert AppearsBefore(front, Ids(front)[j], Ids(front)[k]);
          var i :| 0 <= i < |front| && About(front[i], ids[j])
                   && forall j' :: 0 <= j' <= i ==> !About(front[j'], ids[k]);
          assert About(parts[i], ids[j]);
        } else {
          IdsAreSpoken(front, ids[j]);
          IdsAreSpoken(front, ids[k]);
          var i :| 0 <= i < |front| && About(front[i], ids[j]);
          assert About(parts[i], ids[j]) && forall j' :: 0 <= j' <= i ==> !About(front[j'], ids[k]);
        }
      }
    }
  }

  lemma {:induction false} LastOfIsLast(parts: seq<Part>, id: string, wanted: (Part, string) -> bool)
    ensures match LastOf(parts, id, wanted)
            case None => forall i :: 0 <= i < |parts| ==> !wanted(parts[i], id)
            case Some(p) => IsLast(parts, id, wanted, p)
  {
    if parts != [] && !wanted(parts[|parts| - 1], id) {
      var front := parts[..|parts| - 1];
      LastOfIsLast(front, id, wanted);
      assert forall i :: 0 <= i < |front| ==> front[i] == parts[i];
    }
  }

  ghost predicate IsLast(parts: seq<Part>, id: string, wanted: (Part, string) -> bool, p: Part) {
    exists i ::
      && 0 <= i < |parts| && parts[i] == p && wanted(p, id)
      && forall j :: i < j < |parts| ==> !wanted(parts[j], id)
  }

  ghost predicate IsFirst(parts: seq<Part>, id: string, p: Part) {
    exists i ::
      && 0 <= i < |parts| && parts[i] == p && About(p, id)
      && forall j :: 0 <= j < i ==> !About(parts[j], id)
  }

  lemma {:induction false} FirstOfIsFirst(parts: seq<Part>, id: string)
    ensures match FirstOf(parts, id)
            case None => forall i :: 0 <= i < |parts| ==> !About(parts[i], id)
            case Some(p) => IsFirst(parts, id, p)
  {
    if parts != [] {
      var front := parts[..|parts| - 1];
      FirstOfIsFirst(front, id);
      assert forall i :: 0 <= i < |front| ==> front[i] == parts[i];
    }
  }

  /** The parts about one call. */
  function PartsAbout(parts: seq<Part>, id: string): seq<Part> {
    if parts == [] then []
    else
      var before, last := PartsAbout(parts[..|parts| - 1], id), parts[|parts| - 1];
      if About(last, id) then before + [last] else before
  }

  /** However the parts of other calls come between, a round depends on the parts about its own call. */
  lemma {:induction false} InterleavingDoesNotMatter(parts: seq<Part>, id: string)
    ensures FirstOf(parts, id) == FirstOf(PartsAbout(parts, id), id)
    ensures LastOf(parts, id, Named) == LastOf(PartsAbout(parts, id), id, Named)
    ensures LastOf(parts, id, Settled) == LastOf(PartsAbout(parts, id), id, Settled)
    ensures RoundOf(parts, id) == RoundOf(PartsAbout(parts, id), id)
  {
    if parts != [] {
      var last, own := parts[|parts| - 1], PartsAbout(parts[..|parts| - 1], id);
      InterleavingDoesNotMatter(parts[..|parts| - 1], id);
      if About(last, id) { assert (own + [last])[..|own|] == own; }
    }
  }

  /** A named call and one result of it meet in one round, whichever comes first and whatever is between. */
  lemma CallMeetsResult(parts: seq<Part>, id: string, call: Part, result: Part)
    requires PartsAbout(parts, id) == [call, result] || PartsAbout(parts, id) == [result, call]
    requires call.kind == "tool_call" && Named(call, id) && result.kind == "tool_result" && About(result, id)
    ensures RoundOf(parts, id)
         == Round(id, call.name.value, ValueOr(call.arguments, map[]), ValueOr(result.output, ""), ResultStatus(result))
    // only an explicit flag or exit code makes it a success or a failure
    ensures RoundOf(parts, id).status == Failed <==>
      result.failed == Some(true) || (result.exitCode.Some? && result.exitCode != Some(0))
    ensures RoundOf(parts, id).status == Succeeded <==>
      && result.failed != Some(true) && (result.exitCode.None? || result.exitCode == Some(0))
      && (result.failed == Some(false) || result.exitCode == Some(0))
    ensures RoundOf(parts, id).status == Returned <==> result.failed.None? && result.exitCode.None?
  {
    assert result.failed.Some? ==> result.failed.value == true || result.failed.value == false;
    InterleavingDoesNotMatter(parts, id);
    var own := PartsAbout(parts, id);
    var two := [own[0], own[1]];
    assert own == two && two[..1] == [own[0]] && [own[0]][..0] == [];
    assert LastOf([own[0]], id, Named) == if Named(own[0], id) then Some(own[0]) else None;
    assert LastOf([own[0]], id, Settled) == if Settled(own[0], id) then Some(own[0]) else None;
  }

  // ---- `toolsOf` -----------------------------------------------------------

  /** The list shows the given rounds, and the index by id finds the same objects. */
  ghost predicate Linked(rounds: seq<ToolRound>, byCall: map<string, ToolRound>, ids: seq<string>, shown: seq<Round>)
    reads rounds
  {
    && |rounds| == |ids| == |shown|
    && (forall k :: 0 <= k < |rounds| ==> rounds[k].Shown() == shown[k] && shown[k].callId == ids[k])
    && (forall id :: id in byCall <==> id in ids)
    && (forall k :: 0 <= k < |rounds| ==> byCall[ids[k]] == rounds[k])
  }

  lemma OneMorePart(parts: seq<Part>, part: Part, id: string)
    ensures !About(part, id) ==> RoundOf(parts + [part], id) == RoundOf(parts, id)
    ensures About(part, id) && id !in Ids(parts) ==> RoundOf(parts + [part], id) == RoundFrom(part).value
    ensures About(part, id) && id in Ids(parts) ==>
      RoundOf(parts + [part], id) == Merge(RoundOf(parts, id), RoundFrom(part).value)
  {
    var all := parts + [part];
    assert all[..|all| - 1] == parts;
    IdsAreSpoken(parts, id);
    FirstOfIsFirst(parts, id);
    LastOfIsLast(parts, id, Named);
    LastOfIsLast(parts, id, Settled);
  }

  /** The rounds after one more part: the same, or one more, or one of them changed. */
  ghost predicate Grown(ids: seq<string>, rounds: seq<Round>, said: Option<Round>, ids': seq<string>,
                        rounds': seq<Round>)
    requires |ids| == |rounds|
  {
    match said
    case None => ids' == ids && rounds' == rounds
    case Some(said) =>
      if said.callId !in ids then ids' == ids + [said.callId] && rounds' == rounds + [said]
      else
        && ids' == ids
        && |rounds'| == |rounds|
        && forall k :: 0 <= k < |rounds| ==>
          rounds'[k] == if ids[k] == said.callId then Merge(rounds[k], said) else rounds[k]
  }

  lemma RoundsAfter(parts: seq<Part>, part: Part)
    ensures Grown(Ids(parts), RoundsOf(parts), RoundFrom(part), Ids(parts + [part]), RoundsOf(parts + [part]))
  {
    hide RoundOf;
    var all := parts + [part];
    assert all[..|all| - 1] == parts;
    forall k | 0 <= k < |Ids(parts)|
      ensures RoundOf(all, Ids(parts)[k])
           == var was := RoundsOf(parts)[k];
              if About(part, Ids(parts)[k]) then Merge(was, RoundFrom(part).value) else was
    {
      OneMorePart(parts, part, Ids(parts)[k]);
    }
    if RoundFrom(part).Some? { OneMorePart(parts, part, RoundFrom(part).value.callId); }
  }

  /** The body of the loop over parts. */
  method AddPart(part: Part, rounds: seq<ToolRound>, byCall: map<string, ToolRound>, ghost parts: seq<Part>)
    returns (rounds': seq<ToolRound>, byCall': map<string, ToolRound>)
    requires Linked(rounds, byCall, Ids(parts), RoundsOf(parts))
    modifies rounds
    ensures Linked(rounds', byCall', Ids(parts + [part]), RoundsOf(parts + [part]))
    ensures forall k :: 0 <= k < |rounds'| ==> rounds'[k] in rounds || fresh(rounds'[k])
  {
    hide RoundsOf, RoundFrom, Ids, Merge;
    RoundsAfter(parts, part);
    rounds', byCall' := AddRound(RoundFrom(part), rounds, byCall, Ids(parts), RoundsOf(parts),
                                 Ids(parts + [part]), RoundsOf(parts + [part]));
  }

  method AddRound(said: Option<Round>, rounds: seq<ToolRound>, byCall: map<string, ToolRound>,
                  ghost ids: seq<string>, ghost shown: seq<Round>, ghost ids': seq<string>, ghost shown': seq<Round>)
    returns (rounds': seq<ToolRound>, byCall': map<string, ToolRound>)
    requires Linked(rounds, byCall, ids, shown) && Grown(ids, shown, said, ids', shown')
    modifies rounds
    ensures Linked(rounds', byCall', ids', shown')
    ensures forall k :: 0 <= k < |rounds'| ==> rounds'[k] in rounds || fresh(rounds'[k])
  {
    hide Merge;
    rounds', byCall' := rounds, byCall;
    if said.None? { return; }
    var round := new ToolRound(said.value);
    if round.callId !in byCall {
      byCall' := byCall[round.callId := round];
      rounds' := rounds + [round];
      return;
    }
    var existing := byCall[round.callId];
    assert forall k :: 0 <= k < |rounds| ==> (rounds[k] == existing <==> ids[k] == round.callId);
    existing.Absorb(round);
  }

  /** `toolsOf`: one round for each call spoken of, in order of first appearance, each a fresh object that
      shows what its parts say. */
  method ToolsOf(messages: seq<Message>) returns (rounds: seq<ToolRound>)
    ensures forall r :: r in rounds ==> fresh(r)
    ensures |rounds| == |Ids(PartsOf(messages))|
    ensures forall k :: 0 <= k < |rounds| ==> rounds[k].Shown() == RoundsOf(PartsOf(messages))[k]
  {
    hide RoundsOf, Ids, PartsOf, RoundFrom;
    rounds := [];
    var byCall: map<string, ToolRound> := map[];
    NothingYet();
    for m := 0 to |messages|
      invariant Linked(rounds, byCall, Ids(PartsOf(messages[..m])), RoundsOf(PartsOf(messages[..m])))
      invariant forall k :: 0 <= k < |rounds| ==> fresh(rounds[k])
    {
      hide Linked;
      var parts := messages[m].parts;
      ghost var before := PartsOf(messages[..m]);
      assert before + parts[..0] == before;
      for p := 0 to |parts|
        invariant Linked(rounds, byCall, Ids(before + parts[..p]), RoundsOf(before + parts[..p]))
        invariant forall k :: 0 <= k < |rounds| ==> fresh(rounds[k])
      {
        assert before + parts[..p] + [parts[p]] == before + parts[..p + 1];
        rounds, byCall := AddPart(parts[p], rounds, byCall, before + parts[..p]);
      }
      assert parts[..|parts|] == parts;
      PartsOfNext(messages, m);
    }
    assert messages[..|messages|] == messages;
  }

  lemma NothingYet()
    ensures PartsOf([]) == [] && Ids([]) == [] && RoundsOf([]) == []
  {}

  lemma PartsOfNext(messages: seq<Message>, m: nat)
    requires m < |messages|
    ensures PartsOf(messages[..m + 1]) == PartsOf(messages[..m]) + messages[m].parts
  {
    assert messages[..m + 1][..m] == messages[..m];
  }

  // ---- `entriesOf` ---------------------------------------------------------

  datatype Entry = User(index: nat, message: Message) | Reply(index: nat, messages: seq<Message>)

  function MessagesOf(entry: Entry): seq<Message> {
    match entry case User(_, message) => [message] case Reply(_, messages) => messages
  }

  function Flatten(entries: seq<Entry>): seq<Message> {
    if entries == [] then [] else Flatten(entries[..|entries| - 1]) + MessagesOf(entries[|entries| - 1])
  }

  predicate FromUser(message: Message) {
    message.role == "user"
  }

  predicate Kept(entry: Entry) {
    match entry
    case User(_, message) => FromUser(message)
    case Reply(_, messages) => messages != [] && forall i :: 0 <= i < |messages| ==> !FromUser(messages[i])
  }

  /** The entries are the messages in order: each message of the user by itself, and between those all
      others as one reply, each entry with the place of its first message. */
  predicate Groups(entries: seq<Entry>, turns: seq<Message>) {
    if entries == [] then turns == []
    else
      var front, last := entries[..|entries| - 1], entries[|entries| - 1];
      && last.index <= |turns|
      && Ends(last, turns)
      && (front == [] || front[|front| - 1].User? || last.User?)
      && Groups(front, turns[..last.index])
  }

  /** The last entry: the messages from its place on, and none of the user's among those of a reply. */
  predicate Ends(last: Entry, turns: seq<Message>)
    requires last.index <= |turns|
  {
    turns[last.index..] == MessagesOf(last) && Kept(last)
  }

  /** Flattening gives the transcript back. */
  lemma {:induction false} FlattensBack(entries: seq<Entry>, turns: seq<Message>)
    requires Groups(entries, turns)
    ensures Flatten(entries) == turns
  {
    if entries != [] {
      var n := |entries| - 1;
      var start := entries[n].index;
      FlattensBack(entries[..n], turns[..start]);
      assert turns == turns[..start] + turns[start..];
    }
  }

  method EntriesOf(turns: seq<Message>) returns (entries: seq<Entry>)
    ensures Groups(entries, turns)
  {
    hide Groups;
    entries := [];
    assert turns[..0] == [];
    EmptyGroups();
    for index := 0 to |turns|
      invariant Groups(entries, turns[..index])
    {
      var message := turns[index];
      assert turns[..index + 1] == turns[..index] + [message];
      if message.role == "user" {
        Extended(entries, User(index, message), turns[..index]);
        entries := entries + [User(index, message)];
      } else if entries != [] && entries[|entries| - 1].Reply? {
        var last := entries[|entries| - 1];
        Pushed(entries, message, turns[..index]);
        entries := entries[|entries| - 1 := Reply(last.index, last.messages + [message])];
      } else {
        Extended(entries, Reply(index, [message]), turns[..index]);
        entries := entries + [Reply(index, [message])];
      }
    }
    assert turns[..|turns|] == turns;
  }

  lemma EmptyGroups()
    ensures Groups([], [])
  {}

  lemma Extended(entries: seq<Entry>, entry: Entry, turns: seq<Message>)
    requires Groups(entries, turns) && Kept(entry) && entry.index == |turns|
    requires entries == [] || entries[|entries| - 1].User? || entry.User?
    ensures Groups(entries + [entry], turns + MessagesOf(entry))
  {
    var all, now := entries + [entry], turns + MessagesOf(entry);
    assert all[..|all| - 1] == entries;
    assert now[..|turns|] == turns && now[|turns|..] == MessagesOf(entry);
  }

  lemma Pushed(entries: seq<Entry>, message: Message, turns: seq<Message>)
    requires Groups(entries, turns) && entries != [] && entries[|entries| - 1].Reply? && !FromUser(message)
    ensures var last := entries[|entries| - 1];
            Groups(entries[|entries| - 1 := Reply(last.index, last.messages + [message])], turns + [message])
  {
    var n := |entries| - 1;
    var last := entries[n];
    var all, now := entries[n := Reply(last.index, last.messages + [message])], turns + [message];
    assert all[..n] == entries[..n];
    assert now[..last.index] == turns[..last.index] && now[last.index..] == turns[last.index..] + [message];
  }

  lemma EndsWithUser(entries: seq<Entry>, turns: seq<Message>)
    requires Groups(entries, turns) && entries != [] && entries[|entries| - 1].User?
    ensures |turns| > 0 && FromUser(turns[|turns| - 1])
  {
    assert turns[|turns| - 1] == turns[|turns| - 1..][0];
  }

  /** A last entry that is a reply holds all messages since the last one of the user; one that is not is
      that message. */
  ghost predicate IsLastRun(last: Entry, turns: seq<Message>) {
    && last.index < |turns|
    && turns[last.index..] == MessagesOf(last)
    && (last.User? <==> FromUser(turns[|turns| - 1]))
    && (last.User? ==> last.index == |turns| - 1)
    && (last.Reply? ==> forall i :: last.index <= i < |turns| ==> !FromUser(turns[i]))
    && (last.Reply? && last.index > 0 ==> FromUser(turns[last.index - 1]))
  }

  lemma LastRun(entries: seq<Entry>, turns: seq<Message>)
    requires Groups(entries, turns) && turns != []
    ensures entries != [] && IsLastRun(entries[|entries| - 1], turns)
    ensures Groups(entries[..|entries| - 1], turns[..entries[|entries| - 1].index])
  {
    hide Ends;
    var last, front := entries[|entries| - 1], entries[..|entries| - 1];
    var before := turns[..last.index];
    assert Groups(front, before) && Ends(last, turns);
    NotEmpty(front, before);
    assert last.Reply? && before != [] ==> front[|front| - 1].User?;
    if before != [] && last.Reply? { EndsWithUser(front, before); }
    RunOf(last, turns);
  }

  lemma RunOf(last: Entry, turns: seq<Message>)
    requires last.index <= |turns| && Ends(last, turns)
    requires last.Reply? && last.index > 0 ==> FromUser(turns[last.index - 1])
    ensures IsLastRun(last, turns)
  {
    assert forall i :: last.index <= i < |turns| ==> turns[i] == MessagesOf(last)[i - last.index];
  }

  lemma SameRun(a: Entry, b: Entry, turns: seq<Message>)
    requires IsLastRun(a, turns) && IsLastRun(b, turns)
    ensures a == b
  {
    assert a.index == b.index;
  }

  /** There is only one way to group a transcript so. */
  lemma {:induction false} OneGrouping(a: seq<Entry>, b: seq<Entry>, turns: seq<Message>)
    requires Groups(a, turns) && Groups(b, turns)
    ensures a == b
    decreases |a|
  {
    hide Groups, IsLastRun;
    NotEmpty(a, turns);
    NotEmpty(b, turns);
    if turns != [] {
      LastRun(a, turns);
      LastRun(b, turns);
      var n, m := |a| - 1, |b| - 1;
      SameRun(a[n], b[m], turns);
      assert a[n].index <= |turns| by { StartsWithin(a[n], turns); }
      OneGrouping(a[..n], b[..m], turns[..a[n].index]);
      assert a == a[..n] + [a[n]] && b == b[..m] + [b[m]];
    }
  }

  lemma StartsWithin(last: Entry, turns: seq<Message>)
    requires IsLastRun(last, turns)
    ensures last.index <= |turns|
  {}

  lemma NotEmpty(entries: seq<Entry>, turns: seq<Message>)
    requires Groups(entries, turns)
    ensures turns == [] <==> entries == []
  {}

  /** Two messages with none of the user's between them, nor either of the user's, are in one reply: a
      call and its result always meet there. */
  lemma {:induction false} InOneReply(entries: seq<Entry>, turns: seq<Message>, i: nat, j: nat) returns (e: nat)
    requires Groups(entries, turns) && i <= j < |turns| && forall k :: i <= k <= j ==> !FromUser(turns[k])
    ensures e < |entries| && entries[e].Reply?
    ensures entries[e].index <= i && j < entries[e].index + |entries[e].messages|
    decreases |entries|
  {
    LastRun(entries, turns);
    e := |entries| - 1;
    var n := entries[e].index;
    if j < n { e := InOneReply(entries[..e], turns[..n], i, j); }
  }
}
