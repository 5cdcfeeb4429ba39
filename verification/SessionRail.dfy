/** The rail of conversations: what a reader pinned, archived or hid, and the date bands. */
module SessionRail {
  import opened Options
  import opened Sequences

  /** A conversation with the local day it was created on, counted in days; none when its date is
      unreadable. */
  datatype Session = Session(id: string, day: Option<int>)

  // ---- preferences ---------------------------------------------------------

  datatype Prefs = Prefs(pinned: seq<string>, archived: seq<string>, hidden: seq<string>)

  const NO_PREFS := Prefs([], [], [])

  datatype Action = Pin(id: string, on: bool) | Archive(id: string, on: bool) | Hide(id: string)

  function Without(list: seq<string>, id: string): seq<string> {
    if list == [] then [] else (if list[0] == id then [] else [list[0]]) + Without(list[1..], id)
  }

  function WithFirst(list: seq<string>, id: string): seq<string> {
    [id] + Without(list, id)
  }

  function SetPinned(prefs: Prefs, id: string, pinned: bool): Prefs {
    prefs.(pinned := if pinned then WithFirst(prefs.pinned, id) else Without(prefs.pinned, id))
  }

  function SetArchived(prefs: Prefs, id: string, archived: bool): Prefs {
    Prefs(if archived then Without(prefs.pinned, id) else prefs.pinned,
          if archived then WithFirst(prefs.archived, id) else Without(prefs.archived, id),
          prefs.hidden)
  }

  function HideSession(prefs: Prefs, id: string): Prefs {
    Prefs(Without(prefs.pinned, id), Without(prefs.archived, id), WithFirst(prefs.hidden, id))
  }

  function Act(prefs: Prefs, action: Action): Prefs {
    match action
    case Pin(id, on) => SetPinned(prefs, id, on)
    case Archive(id, on) => SetArchived(prefs, id, on)
    case Hide(id) => HideSession(prefs, id)
  }

  function ActAll(prefs: Prefs, actions: seq<Action>): Prefs {
    if actions == [] then prefs else Act(ActAll(prefs, actions[..|actions| - 1]), actions[|actions| - 1])
  }

  ghost predicate Distinct(list: seq<string>) {
    forall i, j :: 0 <= i < j < |list| ==> list[i] != list[j]
  }

  ghost predicate NoDuplicates(prefs: Prefs) {
    Distinct(prefs.pinned) && Distinct(prefs.archived) && Distinct(prefs.hidden)
  }

  lemma {:induction false} WithoutKeepsOthers(list: seq<string>, id: string)
    ensures forall x :: x in Without(list, id) <==> x in list && x != id
  {
    if list != [] { WithoutKeepsOthers(list[1..], id); }
  }

  lemma {:induction false} WithoutStaysDistinct(list: seq<string>, id: string)
    requires Distinct(list)
    ensures Distinct(Without(list, id))
  {
    if list != [] {
      WithoutStaysDistinct(list[1..], id);
      WithoutKeepsOthers(list[1..], id);
      var rest := Without(list[1..], id);
      assert forall i :: 0 <= i < |rest| ==> rest[i] in rest;
      assert list[0] !in list[1..];
    }
  }

  lemma FirstStaysDistinct(list: seq<string>, id: string)
    requires Distinct(list)
    ensures Distinct(WithFirst(list, id)) && Distinct(Without(list, id))
  {
    WithoutStaysDistinct(list, id);
    WithoutKeepsOthers(list, id);
    var rest := Without(list, id);
    assert forall i :: 0 <= i < |rest| ==> rest[i] in rest;
  }

  /** From none, through any actions, no preference list ever holds an id twice. */
  lemma {:induction false} ActionsKeepListsDistinct(actions: seq<Action>)
    ensures NoDuplicates(ActAll(NO_PREFS, actions))
  {
    hide Distinct, WithFirst, Without;
    if actions != [] {
      var before, action := ActAll(NO_PREFS, actions[..|actions| - 1]), actions[|actions| - 1];
      ActionsKeepListsDistinct(actions[..|actions| - 1]);
      FirstStaysDistinct(before.pinned, action.id);
      FirstStaysDistinct(before.archived, action.id);
      FirstStaysDistinct(before.hidden, action.id);
    } else {
      NoneDistinct();
    }
  }

  lemma NoneDistinct()
    ensures Distinct([])
  {}

  // ---- `arrangeSessions` ---------------------------------------------------

  /** The sessions whose id is in a list, or is not, in their order. */
  function Listed(sessions: seq<Session>, list: seq<string>, wanted: bool): seq<Session> {
    if sessions == [] then []
    else (if (sessions[0].id in list) == wanted then [sessions[0]] else []) + Listed(sessions[1..], list, wanted)
  }

  /** The pinned ones in the order of the pins. */
  function InPinOrder(pins: seq<string>, sessions: seq<Session>): seq<Session> {
    if pins == [] then [] else Listed(sessions, [pins[0]], true) + InPinOrder(pins[1..], sessions)
  }

  datatype Rail = Rail(current: seq<Session>, archived: seq<Session>)

  function Visible(sessions: seq<Session>, prefs: Prefs): seq<Session> {
    Listed(sessions, prefs.hidden, false)
  }

  function Arrange(sessions: seq<Session>, prefs: Prefs): Rail {
    var visible := Visible(sessions, prefs);
    var archived, rest := Listed(visible, prefs.archived, true), Listed(visible, prefs.archived, false);
    Rail(InPinOrder(prefs.pinned, rest) + Listed(rest, prefs.pinned, false), archived)
  }

  lemma {:induction false} TimesListed(sessions: seq<Session>, list: seq<string>, wanted: bool, s: Session)
    ensures Times(Listed(sessions, list, wanted), s) == if (s.id in list) == wanted then Times(sessions, s) else 0
  {
    if sessions != [] {
      TimesListed(sessions[1..], list, wanted, s);
      var first := if (sessions[0].id in list) == wanted then [sessions[0]] else [];
      TimesOfJoin(first, Listed(sessions[1..], list, wanted), s);
    }
  }

  /** A session is shown among the pinned ones as often as its id is pinned. */
  lemma {:induction false} TimesPinned(pins: seq<string>, sessions: seq<Session>, s: Session)
    ensures Times(InPinOrder(pins, sessions), s) == Times(pins, s.id) * Times(sessions, s)
  {
    if pins != [] {
      TimesPinned(pins[1..], sessions, s);
      TimesListed(sessions, [pins[0]], true, s);
      TimesOfJoin(Listed(sessions, [pins[0]], true), InPinOrder(pins[1..], sessions), s);
      Once(Times(pins[1..], s.id), Times(sessions, s));
    }
  }

  lemma Once(n: nat, m: nat)
    ensures (n + 1) * m == n * m + m
  {}

  /** How often the rail shows a session, in the two lists together. */
  lemma TimesArranged(sessions: seq<Session>, prefs: Prefs, s: Session)
    ensures Times(Arrange(sessions, prefs).current + Arrange(sessions, prefs).archived, s)
         == (if s.id !in prefs.archived && s.id in prefs.pinned then Times(prefs.pinned, s.id) else 1)
          * Times(Visible(sessions, prefs), s)
  {
    hide Listed, InPinOrder, Times, Visible;
    var visible := Visible(sessions, prefs);
    var rest := Listed(visible, prefs.archived, false);
    TimesListed(visible, prefs.archived, true, s);
    TimesListed(visible, prefs.archived, false, s);
    TimesListed(rest, prefs.pinned, false, s);
    TimesPinned(prefs.pinned, rest, s);
    TimesIfIn(prefs.pinned, s.id);
    TimesOfJoin(InPinOrder(prefs.pinned, rest), Listed(rest, prefs.pinned, false), s);
    TimesOfJoin(Arrange(sessions, prefs).current, Arrange(sessions, prefs).archived, s);
  }

  predicate PinnedAtMostOnce(s: Session, prefs: Prefs) {
    s.id !in prefs.archived ==> Times(prefs.pinned, s.id) <= 1
  }

  function Shown(sessions: seq<Session>, prefs: Prefs): seq<Session> {
    Arrange(sessions, prefs).current + Arrange(sessions, prefs).archived
  }

  lemma ShownOnce(sessions: seq<Session>, prefs: Prefs, s: Session)
    ensures Times(Shown(sessions, prefs), s) == Times(Visible(sessions, prefs), s)
       <==> (s in Visible(sessions, prefs) ==> PinnedAtMostOnce(s, prefs))
  {
    hide Times, Visible, Arrange;
    TimesArranged(sessions, prefs, s);
    TimesIfIn(Visible(sessions, prefs), s);
    TimesIfIn(prefs.pinned, s.id);
    Equal(Times(prefs.pinned, s.id), Times(Visible(sessions, prefs), s));
  }

  /** The open and archived lists together are the visible sessions rearranged, exactly when no session
      of the open list is pinned twice. */
  lemma ArrangedIsPermutation(sessions: seq<Session>, prefs: Prefs)
    ensures multiset(Shown(sessions, prefs)) == multiset(Visible(sessions, prefs))
       <==> forall s :: s in Visible(sessions, prefs) ==> PinnedAtMostOnce(s, prefs)
  {
    hide Times, Visible, Shown, PinnedAtMostOnce;
    var all, visible := Shown(sessions, prefs), Visible(sessions, prefs);
    if multiset(all) == multiset(visible) {
      forall s | s in visible ensures PinnedAtMostOnce(s, prefs) {
        ShownOnce(sessions, prefs, s);
        TimesOfSame(all, visible, s);
      }
    }
    if forall s :: s in visible ==> PinnedAtMostOnce(s, prefs) {
      forall s ensures Times(all, s) == Times(visible, s) { ShownOnce(sessions, prefs, s); }
      SameTimes(all, visible);
    }
  }

  lemma Equal(n: nat, m: nat)
    ensures n * m == m <==> n == 1 || m == 0
  {
    if n > 1 && m > 0 { assert n * m == (n - 1) * m + m; }
  }

  /** So after any actions from no preferences every visible session is on the rail exactly once. */
  lemma {:induction false} RailShowsEachOnce(sessions: seq<Session>, actions: seq<Action>)
    ensures var prefs := ActAll(NO_PREFS, actions);
            multiset(Shown(sessions, prefs)) == multiset(Visible(sessions, prefs))
    ensures var prefs := ActAll(NO_PREFS, actions);
            forall s :: Times(Shown(sessions, prefs), s) == if s.id in prefs.hidden then 0 else Times(sessions, s)
  {
    var prefs := ActAll(NO_PREFS, actions);
    ActionsKeepListsDistinct(actions);
    forall id ensures Times(prefs.pinned, id) <= 1 { DistinctOnce(prefs.pinned, id); }
    ArrangedIsPermutation(sessions, prefs);
    forall s ensures Times(Shown(sessions, prefs), s) == if s.id in prefs.hidden then 0 else Times(sessions, s) {
      TimesOfSame(Shown(sessions, prefs), Visible(sessions, prefs), s);
      TimesListed(sessions, prefs.hidden, false, s);
    }
  }

  lemma {:induction false} DistinctOnce(list: seq<string>, id: string)
    requires Distinct(list)
    ensures Times(list, id) <= 1
  {
    if list != [] {
      DistinctOnce(list[1..], id);
      TimesIfIn(list[1..], id);
      assert list[0] !in list[1..];
    }
  }

  lemma {:induction false} ListedMembers(sessions: seq<Session>, list: seq<string>, wanted: bool)
    ensures forall s :: s in Listed(sessions, list, wanted) <==> s in sessions && (s.id in list) == wanted
  {
    if sessions != [] { ListedMembers(sessions[1..], list, wanted); }
  }

  lemma {:induction false} PinOrderMembers(pins: seq<string>, sessions: seq<Session>)
    ensures forall s :: s in InPinOrder(pins, sessions) <==> s in sessions && s.id in pins
  {
    if pins != [] {
      PinOrderMembers(pins[1..], sessions);
      ListedMembers(sessions, [pins[0]], true);
      assert forall id :: id in pins <==> id == pins[0] || id in pins[1..];
    }
  }

  /** Archived sessions are in the one list, the others in the other, of which the first `k` are the
      pinned ones. */
  lemma Placed(sessions: seq<Session>, prefs: Prefs) returns (k: nat)
    ensures forall s :: s in Arrange(sessions, prefs).archived <==>
      s in Visible(sessions, prefs) && s.id in prefs.archived
    ensures forall s :: s in Arrange(sessions, prefs).current <==>
      s in Visible(sessions, prefs) && s.id !in prefs.archived
    ensures k <= |Arrange(sessions, prefs).current|
    ensures forall i :: 0 <= i < |Arrange(sessions, prefs).current| ==>
      (Arrange(sessions, prefs).current[i].id in prefs.pinned <==> i < k)
  {
    hide Listed, InPinOrder, Visible;
    var visible := Visible(sessions, prefs);
    var rest := Listed(visible, prefs.archived, false);
    ListedMembers(visible, prefs.archived, true);
    ListedMembers(visible, prefs.archived, false);
    ListedMembers(rest, prefs.pinned, false);
    PinOrderMembers(prefs.pinned, rest);
    var pinned, unpinned := InPinOrder(prefs.pinned, rest), Listed(rest, prefs.pinned, false);
    k := |pinned|;
    var current := Arrange(sessions, prefs).current;
    assert current == pinned + unpinned;
    forall i | 0 <= i < |current| ensures current[i].id in prefs.pinned <==> i < k {
      if i < k { assert current[i] in pinned; } else { assert current[i] in unpinned; }
    }
  }

  /** A session just pinned comes first, unless it is archived or hidden. */
  lemma PinnedComesFirst(sessions: seq<Session>, prefs: Prefs, s: Session)
    requires s in sessions && s.id !in prefs.hidden && s.id !in prefs.archived
    ensures var current := Arrange(sessions, SetPinned(prefs, s.id, true)).current;
            current != [] && current[0].id == s.id
  {
    var after := SetPinned(prefs, s.id, true);
    var rest := Listed(Visible(sessions, after), prefs.archived, false);
    var first := Listed(rest, [s.id], true);
    ListedMembers(sessions, prefs.hidden, false);
    ListedMembers(Visible(sessions, after), prefs.archived, false);
    ListedMembers(rest, [s.id], true);
    assert s in first && first[0] in first;
    assert after.pinned[0] == s.id;
    assert Arrange(sessions, after).current[0] == first[0];
  }

  /** Archiving moves a session to the other list and its return brings it back, without the pin. */
  lemma ArchivedAndBack(sessions: seq<Session>, prefs: Prefs, s: Session)
    requires s in sessions && s.id !in prefs.hidden
    ensures var there := SetArchived(prefs, s.id, true);
            s in Arrange(sessions, there).archived && s !in Arrange(sessions, there).current
    ensures var back := SetArchived(SetArchived(prefs, s.id, true), s.id, false);
            s in Arrange(sessions, back).current && s !in Arrange(sessions, back).archived && s.id !in back.pinned
  {
    hide Arrange;
    var there := SetArchived(prefs, s.id, true);
    var back := SetArchived(there, s.id, false);
    WithoutKeepsOthers(prefs.pinned, s.id);
    WithoutKeepsOthers(there.archived, s.id);
    ListedMembers(sessions, prefs.hidden, false);
    var _ := Placed(sessions, there);
    var _ := Placed(sessions, back);
  }

  /** A hidden session is in neither list. */
  lemma HiddenIsNowhere(sessions: seq<Session>, prefs: Prefs, id: string)
    ensures forall s :: s in Shown(sessions, HideSession(prefs, id)) ==> s.id != id
  {
    hide Arrange;
    var after := HideSession(prefs, id);
    ListedMembers(sessions, after.hidden, false);
    var _ := Placed(sessions, after);
  }

  /** With its pin taken away a session stays in the open list, unpinned and so after the pinned ones. */
  lemma UnpinnedStays(sessions: seq<Session>, prefs: Prefs, s: Session) returns (k: nat)
    requires s in sessions && s.id !in prefs.hidden && s.id !in prefs.archived
    ensures var after := SetPinned(prefs, s.id, false);
            var current := Arrange(sessions, after).current;
      && s.id !in after.pinned && (forall id :: id != s.id ==> (id in after.pinned <==> id in prefs.pinned))
      && k <= |current| && s in current[k..]
      && forall i :: 0 <= i < |current| ==> (current[i].id in after.pinned <==> i < k)
  {
    hide Arrange;
    var after := SetPinned(prefs, s.id, false);
    WithoutKeepsOthers(prefs.pinned, s.id);
    ListedMembers(sessions, prefs.hidden, false);
    k := Placed(sessions, after);
    var current := Arrange(sessions, after).current;
    var i :| 0 <= i < |current| && current[i] == s;
    assert current[k..][i - k] == s;
  }

  lemma ListedUnfolds(sessions: seq<Session>, list: seq<string>, wanted: bool)
    ensures Listed(sessions, list, wanted) ==
      if sessions == [] then []
      else if (sessions[0].id in list) == wanted then [sessions[0]] + Listed(sessions[1..], list, wanted)
      else Listed(sessions[1..], list, wanted)
  {
  }

  lemma PlaceOf(sessions: seq<Session>, list: seq<string>, wanted: bool, s: Session) returns (r: nat)
    requires s in Listed(sessions, list, wanted)
    ensures r < |sessions| && sessions[r] == s
  {
    ListedMembers(sessions, list, wanted);
    r :| 0 <= r < |sessions| && sessions[r] == s;
  }

  /** Sessions of a list keep their order. */
  lemma {:induction false} ListedKeepsOrder(sessions: seq<Session>, list: seq<string>, wanted: bool, i: nat, j: nat)
    returns (p: nat, q: nat)
    requires i < j < |Listed(sessions, list, wanted)|
    ensures p < q < |sessions|
    ensures sessions[p] == Listed(sessions, list, wanted)[i] && sessions[q] == Listed(sessions, list, wanted)[j]
  {
    hide Listed;
    ListedUnfolds(sessions, list, wanted);
    var rest := Listed(sessions[1..], list, wanted);
    var taken := (sessions[0].id in list) == wanted;
    if taken && i == 0 {
      var r := PlaceOf(sessions[1..], list, wanted, rest[j - 1]);
      p, q := 0, r + 1;
    } else if taken {
      p, q := ListedKeepsOrder(sessions[1..], list, wanted, i - 1, j - 1);
      p, q := p + 1, q + 1;
    } else {
      p, q := ListedKeepsOrder(sessions[1..], list, wanted, i, j);
      p, q := p + 1, q + 1;
    }
  }

  /** The pinned ones go by their pins: a session pinned before another in the list comes before it. */
  lemma {:induction false} PinnedGoByPins(pins: seq<string>, sessions: seq<Session>, i: nat, j: nat)
    returns (p: nat, q: nat)
    requires i < j < |InPinOrder(pins, sessions)|
    ensures p <= q < |pins|
    ensures pins[p] == InPinOrder(pins, sessions)[i].id && pins[q] == InPinOrder(pins, sessions)[j].id
  {
    var first, rest := Listed(sessions, [pins[0]], true), InPinOrder(pins[1..], sessions);
    ListedMembers(sessions, [pins[0]], true);
    PinOrderMembers(pins[1..], sessions);
    assert forall k :: 0 <= k < |first| ==> first[k] in first;
    assert forall k :: 0 <= k < |rest| ==> rest[k] in rest;
    if j < |first| {
      p, q := 0, 0;
    } else if i < |first| {
      var r :| 0 <= r < |pins[1..]| && pins[1..][r] == rest[j - |first|].id;
      p, q := 0, r + 1;
    } else {
      p, q := PinnedGoByPins(pins[1..], sessions, i - |first|, j - |first|);
      p, q := p + 1, q + 1;
    }
  }

  // ---- one session at a time ----------------------------------------------

  lemma ListedFront(x: Session, rest: seq<Session>, list: seq<string>, wanted: bool)
    ensures Listed([x] + rest, list, wanted) ==
      if (x.id in list) == wanted then [x] + Listed(rest, list, wanted) else Listed(rest, list, wanted)
  {
    assert ([x] + rest)[1..] == rest;
  }

  lemma {:induction false} ListedOfJoin(a: seq<Session>, b: seq<Session>, list: seq<string>, wanted: bool)
    ensures Listed(a + b, list, wanted) == Listed(a, list, wanted) + Listed(b, list, wanted)
  {
    hide Listed;
    ListedUnfolds(a, list, wanted);
    if a == [] {
      assert a + b == b;
    } else {
      ListedOfJoin(a[1..], b, list, wanted);
      ListedFront(a[0], a[1..] + b, list, wanted);
      assert a + b == [a[0]] + (a[1..] + b);
    }
  }

  lemma {:induction false} ListedCommutes(s: seq<Session>, list: seq<string>, wanted: bool, other: seq<string>, w: bool)
    ensures Listed(Listed(s, list, wanted), other, w) == Listed(Listed(s, other, w), list, wanted)
  {
    hide Listed;
    ListedUnfolds(s, list, wanted);
    ListedUnfolds(s, other, w);
    if s != [] {
      ListedCommutes(s[1..], list, wanted, other, w);
      ListedFront(s[0], Listed(s[1..], list, wanted), other, w);
      ListedFront(s[0], Listed(s[1..], other, w), list, wanted);
    } else {
      ListedUnfolds([], list, wanted);
      ListedUnfolds([], other, w);
    }
  }

  lemma {:induction false} PinOrderWithout(pins: seq<string>, s: seq<Session>, id: string)
    ensures Listed(InPinOrder(pins, s), [id], false) == InPinOrder(pins, Listed(s, [id], false))
  {
    hide Listed;
    if pins != [] {
      PinOrderWithout(pins[1..], s, id);
      ListedOfJoin(Listed(s, [pins[0]], true), InPinOrder(pins[1..], s), [id], false);
      ListedCommutes(s, [pins[0]], true, [id], false);
    } else {
      ListedOfNone([id], false);
    }
  }

  lemma ListedOfNone(list: seq<string>, wanted: bool)
    ensures Listed([], list, wanted) == []
  {}

  /** Leaving a session out of the rail is leaving it out of the list. */
  lemma ArrangeWithout(sessions: seq<Session>, prefs: Prefs, id: string)
    ensures var all, rest := Arrange(sessions, prefs), Arrange(Listed(sessions, [id], false), prefs);
            Listed(all.current, [id], false) == rest.current && Listed(all.archived, [id], false) == rest.archived
  {
    hide Listed, InPinOrder;
    var visible := Visible(sessions, prefs);
    var rest := Listed(visible, prefs.archived, false);
    ListedCommutes(sessions, prefs.hidden, false, [id], false);
    ListedCommutes(visible, prefs.archived, true, [id], false);
    ListedCommutes(visible, prefs.archived, false, [id], false);
    ListedCommutes(rest, prefs.pinned, false, [id], false);
    PinOrderWithout(prefs.pinned, rest, id);
    ListedOfJoin(InPinOrder(prefs.pinned, rest), Listed(rest, prefs.pinned, false), [id], false);
  }

  ghost predicate NoneIs(s: seq<Session>, id: string) {
    forall x :: x in s ==> x.id != id
  }

  /** Lists that differ in one id only are alike to the sessions that have another. */
  lemma {:induction false} ListedAlike(s: seq<Session>, list: seq<string>, other: seq<string>, wanted: bool, id: string)
    requires NoneIs(s, id) && forall x :: x != id ==> (x in list <==> x in other)
    ensures Listed(s, list, wanted) == Listed(s, other, wanted) && NoneIs(Listed(s, list, wanted), id)
  {
    if s != [] {
      assert s[0] in s;
      ListedAlike(s[1..], list, other, wanted, id);
    }
  }

  lemma {:induction false} PinOrderAlike(pins: seq<string>, s: seq<Session>, id: string)
    requires NoneIs(s, id)
    ensures InPinOrder(pins, s) == InPinOrder(Without(pins, id), s)
  {
    hide Listed;
    if pins != [] {
      PinOrderAlike(pins[1..], s, id);
      if pins[0] == id {
        NoneListed(s, id);
        assert [pins[0]] == [id] && Without(pins, id) == Without(pins[1..], id);
        assert InPinOrder(pins, s) == InPinOrder(pins[1..], s);
      } else {
        assert ([pins[0]] + Without(pins[1..], id))[1..] == Without(pins[1..], id);
      }
    }
  }

  lemma {:induction false} NoneListed(s: seq<Session>, id: string)
    requires NoneIs(s, id)
    ensures Listed(s, [id], true) == []
  {
    if s != [] {
      assert s[0] in s;
      NoneListed(s[1..], id);
    }
  }

  lemma {:induction false} WithoutTwice(list: seq<string>, id: string)
    ensures Without(Without(list, id), id) == Without(list, id)
    ensures Without(WithFirst(list, id), id) == Without(list, id)
  {
    assert WithFirst(list, id)[1..] == Without(list, id);
    if list != [] { WithoutTwice(list[1..], id); }
  }

  /** What an action does to each list, apart from the id it is about: nothing. */
  ghost predicate SameBut(was: seq<string>, now: seq<string>, id: string) {
    Without(now, id) == Without(was, id) && forall x :: x != id ==> (x in was <==> x in now)
  }

  lemma ActSameBut(prefs: Prefs, action: Action)
    ensures var after := Act(prefs, action);
      && SameBut(prefs.pinned, after.pinned, action.id) && SameBut(prefs.archived, after.archived, action.id)
      && SameBut(prefs.hidden, after.hidden, action.id)
  {
    hide Without;
    WithoutSameBut(prefs.pinned, action.id);
    WithoutSameBut(prefs.archived, action.id);
    WithoutSameBut(prefs.hidden, action.id);
  }

  lemma WithoutSameBut(list: seq<string>, id: string)
    ensures SameBut(list, list, id) && SameBut(list, Without(list, id), id) && SameBut(list, WithFirst(list, id), id)
  {
    WithoutTwice(list, id);
    WithoutKeepsOthers(list, id);
  }

  lemma ArrangeAlike(s: seq<Session>, prefs: Prefs, after: Prefs, id: string)
    requires NoneIs(s, id) && SameBut(prefs.pinned, after.pinned, id)
    requires SameBut(prefs.archived, after.archived, id) && SameBut(prefs.hidden, after.hidden, id)
    ensures Arrange(s, prefs) == Arrange(s, after)
  {
    hide Listed, InPinOrder, NoneIs, Without;
    ListedAlike(s, prefs.hidden, after.hidden, false, id);
    var visible := Visible(s, prefs);
    ListedAlike(visible, prefs.archived, after.archived, true, id);
    ListedAlike(visible, prefs.archived, after.archived, false, id);
    var rest := Listed(visible, prefs.archived, false);
    ListedAlike(rest, prefs.pinned, after.pinned, false, id);
    PinOrderAlike(prefs.pinned, rest, id);
    PinOrderAlike(after.pinned, rest, id);
  }

  /** Pinning, archiving or hiding a session, and taking that back, moves only that session: without it both
      lists are, order included, what they were. */
  lemma OnlyThatOneMoves(sessions: seq<Session>, prefs: Prefs, action: Action)
    ensures var was, now := Arrange(sessions, prefs), Arrange(sessions, Act(prefs, action));
      && Listed(now.current, [action.id], false) == Listed(was.current, [action.id], false)
      && Listed(now.archived, [action.id], false) == Listed(was.archived, [action.id], false)
  {
    hide Arrange, Act, SameBut;
    var others := Listed(sessions, [action.id], false);
    ArrangeWithout(sessions, prefs, action.id);
    ArrangeWithout(sessions, Act(prefs, action), action.id);
    ListedMembers(sessions, [action.id], false);
    ActSameBut(prefs, action);
    ArrangeAlike(others, prefs, Act(prefs, action), action.id);
  }

  // ---- date bands ----------------------------------------------------------

  datatype Band = Today | Yesterday | Week | Earlier

  datatype Group = Group(band: Band, sessions: seq<Session>)

  const ORDER := [Today, Yesterday, Week, Earlier]

  /** `groupOf`, by calendar days. */
  function BandOf(s: Session, today: int): Band {
    if s.day.None? then Earlier
    else if s.day.value >= today then Today
    else if s.day.value >= today - 1 then Yesterday
    else if s.day.value >= today - 6 then Week
    else Earlier
  }

  function InBand(sessions: seq<Session>, band: Band, today: int): seq<Session> {
    if sessions == [] then []
    else
      var before, last := InBand(sessions[..|sessions| - 1], band, today), sessions[|sessions| - 1];
      if BandOf(last, today) == band then before + [last] else before
  }

  /** The groups of the bands from the `i`-th on, empty ones left out. */
  function Groups(sessions: seq<Session>, today: int, i: nat): seq<Group>
    requires i <= |ORDER|
    decreases |ORDER| - i
  {
    if i == |ORDER| then []
    else
      var band := InBand(sessions, ORDER[i], today);
      (if band == [] then [] else [Group(ORDER[i], band)]) + Groups(sessions, today, i + 1)
  }

  lemma InBandNext(sessions: seq<Session>, k: nat, band: Band, today: int)
    requires k < |sessions|
    ensures InBand(sessions[..k + 1], band, today)
         == InBand(sessions[..k], band, today) + if BandOf(sessions[k], today) == band then [sessions[k]] else []
  {
    assert sessions[..k + 1][..k] == sessions[..k];
  }

  /** The map of bands after the given sessions. */
  ghost predicate Filled(bands: map<Band, seq<Session>>, sessions: seq<Session>, today: int) {
    forall b ::
      && (b in bands <==> InBand(sessions, b, today) != [])
      && (b in bands ==> bands[b] == InBand(sessions, b, today))
  }

  /** `groupSessions`. */
  method GroupSessions(sessions: seq<Session>, today: int) returns (groups: seq<Group>)
    ensures groups == Groups(sessions, today, 0)
  {
    hide InBand, Groups, BandOf;
    var bands: map<Band, seq<Session>> := map[];
    assert Filled(bands, sessions[..0], today) by { NothingFilled(today); assert sessions[..0] == []; }
    for k := 0 to |sessions|
      invariant Filled(bands, sessions[..k], today)
    {
      var key := BandOf(sessions[k], today);
      forall b
        ensures InBand(sessions[..k + 1], b, today)
             == InBand(sessions[..k], b, today) + if key == b then [sessions[k]] else []
      {
        InBandNext(sessions, k, b, today);
      }
      bands := bands[key := if key in bands then bands[key] + [sessions[k]] else [sessions[k]]];
    }
    assert sessions[..|sessions|] == sessions;
    groups := [];
    for i := 0 to 4
      invariant groups + Groups(sessions, today, i) == Groups(sessions, today, 0)
    {
      var key := ORDER[i];
      GroupsNext(sessions, today, i);
      if key in bands && |bands[key]| > 0 { groups := groups + [Group(key, bands[key])]; }
    }
    NoGroups(sessions, today);
  }

  lemma NothingFilled(today: int)
    ensures Filled(map[], [], today)
  {}

  lemma GroupsNext(sessions: seq<Session>, today: int, i: nat)
    requires i < |ORDER|
    ensures Groups(sessions, today, i)
         == var band := InBand(sessions, ORDER[i], today);
            (if band == [] then [] else [Group(ORDER[i], band)]) + Groups(sessions, today, i + 1)
  {}

  lemma NoGroups(sessions: seq<Session>, today: int)
    ensures Groups(sessions, today, |ORDER|) == []
  {}

  function Join(groups: seq<Group>): seq<Session> {
    if groups == [] then [] else groups[0].sessions + Join(groups[1..])
  }

  function Place(band: Band): nat {
    match band case Today => 0 case Yesterday => 1 case Week => 2 case Earlier => 3
  }

  lemma JoinFirst(sessions: seq<Session>, today: int, i: nat)
    requires i < |ORDER|
    ensures Join(Groups(sessions, today, i)) == InBand(sessions, ORDER[i], today) + Join(Groups(sessions, today, i + 1))
  {
    var band, rest := InBand(sessions, ORDER[i], today), Groups(sessions, today, i + 1);
    assert ([Group(ORDER[i], band)] + rest)[1..] == rest;
    assert [] + rest == rest;
  }

  lemma {:induction false} TimesInBand(sessions: seq<Session>, band: Band, today: int, s: Session)
    ensures Times(InBand(sessions, band, today), s) == if BandOf(s, today) == band then Times(sessions, s) else 0
  {
    if sessions != [] {
      var n := |sessions| - 1;
      var before := InBand(sessions[..n], band, today);
      TimesInBand(sessions[..n], band, today, s);
      TimesOfJoin(sessions[..n], [sessions[n]], s);
      TimesOfJoin(before, [sessions[n]], s);
      assert sessions == sessions[..n] + [sessions[n]];
    }
  }

  lemma {:induction false} TimesJoined(sessions: seq<Session>, today: int, i: nat, s: Session)
    requires i <= |ORDER|
    ensures Times(Join(Groups(sessions, today, i)), s) == if Place(BandOf(s, today)) >= i then Times(sessions, s) else 0
    decreases |ORDER| - i
  {
    hide Times, BandOf, InBand, Join;
    if i < |ORDER| {
      TimesJoined(sessions, today, i + 1, s);
      TimesInBand(sessions, ORDER[i], today, s);
      JoinFirst(sessions, today, i);
      TimesOfJoin(InBand(sessions, ORDER[i], today), Join(Groups(sessions, today, i + 1)), s);
      PlaceInOrder(BandOf(s, today), i);
    } else {
      NoGroups(sessions, today);
      NoneJoined(s);
    }
  }

  lemma NoneJoined(s: Session)
    ensures Join([]) == [] && Times([], s) == 0
  {}

  lemma PlaceInOrder(band: Band, i: nat)
    requires i < |ORDER|
    ensures Place(band) == i <==> ORDER[i] == band
  {}

  /** Which band a session is for, by how many days old it is. */
  predicate IsOfAge(s: Session, today: int, band: Band) {
    match band
    case Today => s.day.Some? && today - s.day.value < 1
    case Yesterday => s.day.Some? && today - s.day.value == 1
    case Week => s.day.Some? && 2 <= today - s.day.value <= 6
    case Earlier => s.day.None? || today - s.day.value > 6
  }

  lemma {:induction false} GroupsAreBands(sessions: seq<Session>, today: int, i: nat)
    requires i <= |ORDER|
    ensures forall k :: 0 <= k < |Groups(sessions, today, i)| ==>
      IsGroup(Groups(sessions, today, i)[k], sessions, today, i)
    ensures Ascending(Groups(sessions, today, i))
    decreases |ORDER| - i
  {
    hide InBand, Groups, Ascending;
    if i < |ORDER| {
      GroupsAreBands(sessions, today, i + 1);
      GroupsNext(sessions, today, i);
      PlaceInOrder(ORDER[i], i);
      var band, rest := InBand(sessions, ORDER[i], today), Groups(sessions, today, i + 1);
      if band == [] {
        assert [] + rest == rest;
      } else {
        AscendingMore(Group(ORDER[i], band), rest);
      }
    } else {
      NoGroups(sessions, today);
      NothingAscends();
    }
  }

  ghost predicate IsGroup(g: Group, sessions: seq<Session>, today: int, i: nat) {
    g.sessions == InBand(sessions, g.band, today) && g.sessions != [] && Place(g.band) >= i
  }

  ghost predicate Ascending(groups: seq<Group>) {
    forall j, k :: 0 <= j < k < |groups| ==> Place(groups[j].band) < Place(groups[k].band)
  }

  lemma NothingAscends()
    ensures Ascending([])
  {}

  lemma AscendingMore(first: Group, rest: seq<Group>)
    requires Ascending(rest) && forall k :: 0 <= k < |rest| ==> Place(rest[k].band) > Place(first.band)
    ensures Ascending([first] + rest)
  {
    hide Place;
  }

  lemma {:induction false} BandHasGroup(sessions: seq<Session>, today: int, i: nat, band: Band)
    requires i <= |ORDER| && Place(band) >= i && InBand(sessions, band, today) != []
    ensures Group(band, InBand(sessions, band, today)) in Groups(sessions, today, i)
    decreases |ORDER| - i
  {
    hide InBand, Groups;
    GroupsNext(sessions, today, i);
    PlaceInOrder(band, i);
    if Place(band) > i { BandHasGroup(sessions, today, i + 1, band); }
  }

  /** Each group holds the sessions of the age of its band; every session is in one; no band comes twice, and
      they come from the newest to the earliest. */
  lemma GroupsByAge(sessions: seq<Session>, today: int)
    ensures forall g, s :: g in Groups(sessions, today, 0) ==>
      (s in g.sessions <==> s in sessions && IsOfAge(s, today, g.band))
    ensures forall s :: s in sessions ==> exists g :: g in Groups(sessions, today, 0) && s in g.sessions
    ensures Ascending(Groups(sessions, today, 0))
  {
    hide InBand, Groups, Ascending, BandOf, IsOfAge;
    var groups := Groups(sessions, today, 0);
    GroupsAreBands(sessions, today, 0);
    forall g, s | g in groups ensures s in g.sessions <==> s in sessions && IsOfAge(s, today, g.band) {
      var k :| 0 <= k < |groups| && groups[k] == g;
      assert IsGroup(groups[k], sessions, today, 0);
      BandIsAge(sessions, today, g.band, s);
    }
    forall s | s in sessions ensures exists g :: g in groups && s in g.sessions {
      var band := BandOf(s, today);
      BandIsAge(sessions, today, band, s);
      BandHasGroup(sessions, today, 0, band);
      assert s in Group(band, InBand(sessions, band, today)).sessions;
    }
  }

  lemma BandIsAge(sessions: seq<Session>, today: int, band: Band, s: Session)
    ensures s in InBand(sessions, band, today) <==> s in sessions && BandOf(s, today) == band
    ensures BandOf(s, today) == band <==> IsOfAge(s, today, band)
  {
    TimesInBand(sessions, band, today, s);
    TimesIfIn(InBand(sessions, band, today), s);
    TimesIfIn(sessions, s);
  }

  /** Every session is in the bands once. */
  lemma BandsKeepAll(sessions: seq<Session>, today: int)
    ensures multiset(Join(Groups(sessions, today, 0))) == multiset(sessions)
  {
    forall s ensures Times(Join(Groups(sessions, today, 0)), s) == Times(sessions, s) {
      TimesJoined(sessions, today, 0, s);
    }
    SameTimes(Join(Groups(sessions, today, 0)), sessions);
  }

  ghost predicate InBandOrder(sessions: seq<Session>, today: int) {
    forall i, j :: 0 <= i < j < |sessions| ==> Place(BandOf(sessions[i], today)) <= Place(BandOf(sessions[j], today))
  }

  predicate NewestFirst(sessions: seq<Session>) {
    forall i, j :: 0 <= i < j < |sessions| ==>
      sessions[j].day.None? || (sessions[i].day.Some? && sessions[i].day.value >= sessions[j].day.value)
  }

  /** The sessions of the bands from the `i`-th on, in their order. */
  function FromBand(sessions: seq<Session>, today: int, i: nat): seq<Session> {
    if sessions == [] then []
    else
      var before, last := FromBand(sessions[..|sessions| - 1], today, i), sessions[|sessions| - 1];
      if Place(BandOf(last, today)) >= i then before + [last] else before
  }

  lemma {:induction false} AllFromFirst(sessions: seq<Session>, today: int)
    ensures FromBand(sessions, today, 0) == sessions
  {
    if sessions != [] { AllFromFirst(sessions[..|sessions| - 1], today); }
  }

  lemma {:induction false} NoneFrom(sessions: seq<Session>, today: int, i: nat)
    requires forall s :: s in sessions ==> Place(BandOf(s, today)) < i
    ensures FromBand(sessions, today, i) == []
  {
    if sessions != [] { NoneFrom(sessions[..|sessions| - 1], today, i); }
  }

  lemma {:induction false} BandThenRest(sessions: seq<Session>, today: int, i: nat)
    requires i < |ORDER| && InBandOrder(sessions, today)
    ensures FromBand(sessions, today, i) == InBand(sessions, ORDER[i], today) + FromBand(sessions, today, i + 1)
  {
    if sessions != [] {
      var n := |sessions| - 1;
      var front, last := sessions[..n], sessions[n];
      assert InBandOrder(front, today);
      BandThenRest(front, today, i);
      assert Place(ORDER[i]) == i;
      if Place(BandOf(last, today)) <= i {
        forall s | s in front ensures Place(BandOf(s, today)) < i + 1 {
          var k :| 0 <= k < n && front[k] == s;
          assert sessions[k] == s;
        }
        NoneFrom(front, today, i + 1);
      }
    }
  }

  lemma {:induction false} GroupsAreRest(sessions: seq<Session>, today: int, i: nat)
    requires i <= |ORDER| && InBandOrder(sessions, today)
    ensures Join(Groups(sessions, today, i)) == FromBand(sessions, today, i)
    decreases |ORDER| - i
  {
    if i < |ORDER| {
      GroupsAreRest(sessions, today, i + 1);
      BandThenRest(sessions, today, i);
      JoinFirst(sessions, today, i);
    } else {
      NoneFrom(sessions, today, i);
    }
  }

  lemma {:induction false} OnlyInBand(sessions: seq<Session>, band: Band, today: int)
    ensures forall s :: s in InBand(sessions, band, today) ==> BandOf(s, today) == band
  {
    if sessions != [] { OnlyInBand(sessions[..|sessions| - 1], band, today); }
  }

  lemma InOrderThen(a: seq<Session>, b: seq<Session>, today: int, i: nat)
    requires InBandOrder(b, today)
    requires forall s :: s in a ==> Place(BandOf(s, today)) == i
    requires forall s :: s in b ==> Place(BandOf(s, today)) > i
    ensures InBandOrder(a + b, today) && forall s :: s in a + b ==> Place(BandOf(s, today)) >= i
  {
    hide BandOf, Place;
    forall j, k | 0 <= j < k < |a + b| ensures Place(BandOf((a + b)[j], today)) <= Place(BandOf((a + b)[k], today)) {
      assert j < |a| ==> (a + b)[j] in a;
      assert k < |a| ==> (a + b)[k] in a;
      assert k >= |a| ==> (a + b)[k] == b[k - |a|] && b[k - |a|] in b;
    }
  }

  /** The joined bands go from the newest to the earliest. */
  lemma {:induction false} BandsInOrder(sessions: seq<Session>, today: int, i: nat)
    requires i <= |ORDER|
    ensures InBandOrder(Join(Groups(sessions, today, i)), today)
    ensures forall s :: s in Join(Groups(sessions, today, i)) ==> Place(BandOf(s, today)) >= i
    decreases |ORDER| - i
  {
    hide InBand, Groups, Join, BandOf, InBandOrder;
    if i < |ORDER| {
      BandsInOrder(sessions, today, i + 1);
      OnlyInBand(sessions, ORDER[i], today);
      JoinFirst(sessions, today, i);
      PlaceInOrder(ORDER[i], i);
      InOrderThen(InBand(sessions, ORDER[i], today), Join(Groups(sessions, today, i + 1)), today, i);
    } else {
      NoGroups(sessions, today);
      NothingInOrder(today);
    }
  }

  lemma NothingInOrder(today: int)
    ensures Join([]) == [] && InBandOrder([], today)
  {}

  /** Splitting into bands changes nothing but the headings exactly when no session is listed after one
      of an earlier band. */
  lemma BandsJoinToList(sessions: seq<Session>, today: int)
    ensures Join(Groups(sessions, today, 0)) == sessions <==> InBandOrder(sessions, today)
  {
    BandsInOrder(sessions, today, 0);
    if InBandOrder(sessions, today) {
      GroupsAreRest(sessions, today, 0);
      AllFromFirst(sessions, today);
    }
  }

  /** A list with the newest day first is such a list. */
  lemma {:induction false} NewestFirstStays(sessions: seq<Session>, today: int)
    requires NewestFirst(sessions)
    ensures Join(Groups(sessions, today, 0)) == sessions
  {
    BandsJoinToList(sessions, today);
  }

  /** Within a band the order of the list is kept. */
  lemma {:induction false} BandKeepsOrder(sessions: seq<Session>, band: Band, today: int, i: nat, j: nat)
    returns (p: nat, q: nat)
    requires i < j < |InBand(sessions, band, today)|
    ensures p < q < |sessions|
    ensures sessions[p] == InBand(sessions, band, today)[i] && sessions[q] == InBand(sessions, band, today)[j]
  {
    var n := |sessions| - 1;
    if j < |InBand(sessions[..n], band, today)| {
      p, q := BandKeepsOrder(sessions[..n], band, today, i, j);
    } else {
      p := FoundIn(sessions[..n], band, today, i);
      q := n;
    }
  }

  lemma {:induction false} FoundIn(sessions: seq<Session>, band: Band, today: int, i: nat) returns (p: nat)
    requires i < |InBand(sessions, band, today)|
    ensures p < |sessions| && sessions[p] == InBand(sessions, band, today)[i]
  {
    var n := |sessions| - 1;
    p := n;
    if i < |InBand(sessions[..n], band, today)| { p := FoundIn(sessions[..n], band, today, i); }
  }
}
