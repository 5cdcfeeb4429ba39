/** The run-event sequence allocator under concurrent transactions, its readers, and the checks the
    benchmark makes of the sequences it sees. */
module EventSequences {
  type RunId = int
  type TxId = int
  type ReaderId = int

  /** A committed or pending row of `run_events`. */
  datatype Row = Row(run: RunId, sequence: nat)

  /** A run row a transaction has updated, and so holds the lock of: the counter it found, the counter
      it wrote, and the next of its reserved sequences to insert. */
  datatype Held = Held(found: nat, inserting: nat, next: nat)

  /** A client that follows a run: the cursor it would resume from, and what it keeps of all it was given;
      going back to an earlier cursor drops what came after it. */
  datatype Reader = Reader(run: RunId, cursor: nat, received: seq<nat>)

  datatype State = State(
    next: map<RunId, nat>,                       // runs.next_event_sequence, committed
    rows: set<Row>,                              // run_events, committed
    held: map<TxId, map<RunId, Held>>,           // open transactions
    readers: map<ReaderId, Reader>)

  const START := State(map[], {}, map[], map[])

  datatype Step =
    | CreateRun(run: RunId)
    | Begin(tx: TxId)
    | Reserve(tx: TxId, run: RunId, count: nat)
    | Insert(tx: TxId, run: RunId)
    | Commit(tx: TxId)
    | Abort(tx: TxId)
    | Follow(reader: ReaderId, run: RunId)
    | Poll(reader: ReaderId, answer: seq<nat>, taken: nat)
    | Resume(reader: ReaderId, cursor: nat)

  predicate Locked(s: State, run: RunId) {
    exists tx :: tx in s.held && run in s.held[tx]
  }

  /** The row the next insert of a transaction writes. */
  predicate Inserting(s: State, tx: TxId, run: RunId) {
    tx in s.held && run in s.held[tx] && s.held[tx][run].inserting < s.held[tx][run].next
  }

  function NextRow(s: State, tx: TxId, run: RunId): Row
    requires Inserting(s, tx, run)
  {
    Row(run, s.held[tx][run].inserting)
  }

  /** Whether the unique constraint on run and sequence, or the check that it is positive, refuses a row. */
  ghost predicate Refused(s: State, row: Row) {
    row.sequence == 0 || row in s.rows || exists tx, run :: Pending(s, tx, run, row)
  }

  predicate Pending(s: State, tx: TxId, run: RunId, row: Row) {
    && tx in s.held && run in s.held[tx] && row.run == run
    && s.held[tx][run].found <= row.sequence < s.held[tx][run].inserting
  }

  /** `SELECT ... WHERE run_id = run AND sequence > after ORDER BY sequence`. */
  ghost predicate Selected(s: State, run: RunId, after: nat, answer: seq<nat>) {
    && (forall i, j :: 0 <= i < j < |answer| ==> answer[i] < answer[j])
    && (forall q: nat :: q in answer <==> q > after && Row(run, q) in s.rows)
  }

  ghost predicate Allowed(s: State, step: Step) {
    match step
    case CreateRun(run) => run !in s.next
    case Begin(tx) => tx !in s.held
    // an update waits for the row's lock; a missing run is an error, and the transaction aborts
    case Reserve(tx, run, _) => tx in s.held && run in s.next && (run in s.held[tx] || !Locked(s, run))
    case Insert(tx, run) => Inserting(s, tx, run) && !Refused(s, NextRow(s, tx, run))
    // the writer leaves its transaction only after inserting all it reserved
    case Commit(tx) => tx in s.held && forall run :: run in s.held[tx] ==> !Inserting(s, tx, run)
    case Abort(tx) => tx in s.held
    case Follow(reader, run) => run in s.next
    case Poll(reader, answer, taken) =>
      reader in s.readers && taken <= |answer|
      && Selected(s, s.readers[reader].run, s.readers[reader].cursor, answer)
    case Resume(reader, cursor) => reader in s.readers && (cursor == 0 || cursor in s.readers[reader].received)
  }

  function Counter(s: State, tx: TxId, run: RunId): Held
    requires tx in s.held && run in s.next
  {
    if run in s.held[tx] then s.held[tx][run] else Held(s.next[run], s.next[run], s.next[run])
  }

  ghost function Next(s: State, step: Step): State
    requires Allowed(s, step)
  {
    match step
    case CreateRun(run) => s.(next := s.next[run := 1])
    case Begin(tx) => s.(held := s.held[tx := map[]])
    case Reserve(tx, run, count) =>
      var held := Counter(s, tx, run);
      s.(held := s.held[tx := s.held[tx][run := held.(next := held.next + count)]])
    case Insert(tx, run) =>
      var held := s.held[tx][run];
      s.(held := s.held[tx := s.held[tx][run := held.(inserting := held.inserting + 1)]])
    case Commit(tx) =>
      var mine := s.held[tx];
      s.(next := map run | run in s.next :: if run in mine then mine[run].next else s.next[run],
         rows := s.rows + set run, q | run in mine && mine[run].found <= q < mine[run].next :: Row(run, q),
         held := s.held - {tx})
    case Abort(tx) => s.(held := s.held - {tx})
    case Follow(reader, run) => s.(readers := s.readers[reader := Reader(run, 0, [])])
    case Poll(reader, answer, taken) =>
      var r := s.readers[reader];
      s.(readers := s.readers[reader := r.(received := r.received + answer[..taken],
                                           cursor := if taken == 0 then r.cursor else answer[taken - 1])])
    case Resume(reader, cursor) =>
      var r := s.readers[reader];
      s.(readers := s.readers[reader := r.(cursor := cursor, received := r.received[..KeptBy(r.received, cursor)])])
  }

  /** How much of what it was given a reader keeps when it goes back to a cursor: all up to it. */
  function KeptBy(received: seq<nat>, cursor: nat): (n: nat)
    ensures n <= |received|
  {
    if received == [] || received[|received| - 1] <= cursor then |received|
    else KeptBy(received[..|received| - 1], cursor)
  }

  ghost predicate Path(s: State, steps: seq<Step>, end: State)
    decreases |steps|
  {
    if steps == [] then s == end
    else Allowed(s, steps[0]) && Path(Next(s, steps[0]), steps[1..], end)
  }

  // ---- the invariant -------------------------------------------------------

  /** What the constraint and the allocator promise together of a run: its committed rows are all the
      numbers below the counter. */
  ghost predicate Gapless(s: State) {
    NoGaps(s.next, s.rows)
  }

  ghost predicate NoGaps(next: map<RunId, nat>, rows: set<Row>) {
    && (forall run :: run in next ==> next[run] >= 1)
    && (forall row :: row in rows <==> row.run in next && 1 <= row.sequence < next[row.run])
  }

  /** Whoever holds a run's row found the committed counter there, and no one else holds it. */
  ghost predicate Exclusive(s: State) {
    && (forall tx, run :: tx in s.held && run in s.held[tx] ==>
          run in s.next && s.held[tx][run].found == s.next[run] <= s.held[tx][run].inserting <= s.held[tx][run].next)
    && (forall tx, other, run :: tx in s.held && other in s.held && run in s.held[tx] && run in s.held[other] ==>
      tx == other)
  }

  /** `1, 2, ..., n`. */
  function UpTo(n: nat): seq<nat> {
    seq(n, i requires 0 <= i < n => i + 1)
  }

  ghost predicate Served(s: State) {
    forall id :: id in s.readers ==> ReaderServed(s, s.readers[id])
  }

  ghost predicate ReaderServed(s: State, r: Reader) {
    r.run in s.next && r.cursor < s.next[r.run] && r.received == UpTo(r.cursor)
  }

  ghost predicate Inv(s: State) {
    Gapless(s) && Exclusive(s) && Served(s)
  }

  /** The allocator's own arithmetic never collides: no insert is ever refused. */
  lemma NeverRefused(s: State, tx: TxId, run: RunId)
    requires Inv(s) && Inserting(s, tx, run)
    ensures !Refused(s, NextRow(s, tx, run))
  {
    var row := NextRow(s, tx, run);
    forall other, r ensures !Pending(s, other, r, row) {
      assert other in s.held && run in s.held[other] ==> other == tx;
    }
  }

  lemma OthersKeepTheirs(s: State, tx: TxId)
    requires Exclusive(s) && Allowed(s, Commit(tx))
    ensures var after := Next(s, Commit(tx));
      forall other, run :: other in after.held && run in after.held[other] ==>
        other in s.held && after.held[other] == s.held[other] && run in after.next && after.next[run] == s.next[run]
  {
    forall other, run | other in s.held && other != tx && run in s.held[other]
      ensures run !in s.held[tx]
    {
      assert tx in s.held && other in s.held;
    }
  }

  lemma CommitExcludes(s: State, tx: TxId)
    requires Exclusive(s) && Allowed(s, Commit(tx))
    ensures Exclusive(Next(s, Commit(tx)))
  {
    var after := Next(s, Commit(tx));
    OthersKeepTheirs(s, tx);
    hide Next, Allowed;
    forall a, b, run | a in after.held && b in after.held && run in after.held[a] && run in after.held[b]
      ensures a == b
    {
      assert run in s.held[a] && run in s.held[b];
    }
  }

  lemma CommitKeeps(s: State, tx: TxId)
    requires Inv(s) && Allowed(s, Commit(tx))
    ensures Inv(Next(s, Commit(tx)))
  {
    var after, mine := Next(s, Commit(tx)), s.held[tx];
    assert after.next.Keys == s.next.Keys;
    forall run | run in mine ensures mine[run].found == s.next[run] && mine[run].inserting == mine[run].next {
      assert !Inserting(s, tx, run);
    }
    assert Gapless(after) by { hide Served; }
    assert Exclusive(after) by { hide Gapless, Served; CommitExcludes(s, tx); }
    hide Gapless, Exclusive;
    forall id | id in after.readers ensures ReaderServed(after, after.readers[id]) {
      assert ReaderServed(s, s.readers[id]);
    }
  }

  lemma {:induction false} KeptUpTo(n: nat, cursor: nat)
    requires cursor <= n
    ensures UpTo(n)[..KeptBy(UpTo(n), cursor)] == UpTo(cursor)
    decreases n
  {
    if n > cursor {
      assert UpTo(n)[..n - 1] == UpTo(n - 1);
      KeptUpTo(n - 1, cursor);
    }
  }

  lemma TailMembers(a: seq<nat>, q: nat)
    requires a != [] && forall i, j :: 0 <= i < j < |a| ==> a[i] < a[j]
    ensures q in a[1..] <==> q in a && q != a[0]
  {
    if q in a && q != a[0] {
      var i :| 0 <= i < |a| && a[i] == q;
      assert a[1..][i - 1] == q;
    }
  }

  /** Two ascending sequences with the same members are the same. */
  lemma {:induction false} AscendingUnique(a: seq<nat>, b: seq<nat>)
    requires forall i, j :: 0 <= i < j < |a| ==> a[i] < a[j]
    requires forall i, j :: 0 <= i < j < |b| ==> b[i] < b[j]
    requires forall q: nat :: q in a <==> q in b
    ensures a == b
    decreases |a|
  {
    if a == [] {
      assert forall i :: 0 <= i < |b| ==> b[i] in b;
    } else {
      assert a[0] in a && a[0] in b;
      assert b[0] in b && a[0] == b[0];
      forall q: nat ensures q in a[1..] <==> q in b[1..] {
        TailMembers(a, q);
        TailMembers(b, q);
      }
      AscendingUnique(a[1..], b[1..]);
      assert a == [a[0]] + a[1..] && b == [b[0]] + b[1..];
    }
  }

  /** Whatever a reader's cursor, the answer to its poll starts with the very next number and goes on
      without a gap to the last committed one. */
  lemma PollSkipsNothing(s: State, run: RunId, cursor: nat, answer: seq<nat>)
    requires Gapless(s) && run in s.next && cursor < s.next[run] && Selected(s, run, cursor, answer)
    ensures answer == seq(s.next[run] - 1 - cursor, i requires 0 <= i < s.next[run] - 1 - cursor => cursor + 1 + i)
  {
    var expected := seq(s.next[run] - 1 - cursor, i requires 0 <= i < s.next[run] - 1 - cursor => cursor + 1 + i);
    forall q: nat ensures q in expected <==> q in answer {
      if cursor < q < s.next[run] { assert expected[q - cursor - 1] == q; }
      assert q in answer <==> q > cursor && Row(run, q) in s.rows;
    }
    AscendingUnique(expected, answer);
  }

  lemma UpToMore(n: nat, answer: seq<nat>, taken: nat)
    requires taken <= |answer| && forall k :: 0 <= k < |answer| ==> answer[k] == n + 1 + k
    ensures UpTo(n) + answer[..taken] == UpTo(n + taken)
    ensures taken > 0 ==> answer[taken - 1] == n + taken
  {}

  lemma ReaderKeeps(s: State, step: Step)
    requires Inv(s) && Allowed(s, step) && (step.Follow? || step.Poll? || step.Resume?)
    ensures Inv(Next(s, step))
  {
    var after := Next(s, step);
    if !step.Follow? {
      var r := s.readers[step.reader];
      assert ReaderServed(s, r);
      if step.Poll? {
        PollSkipsNothing(s, r.run, r.cursor, step.answer);
        UpToMore(r.cursor, step.answer, step.taken);
      } else {
        assert step.cursor <= r.cursor by { if step.cursor != 0 { assert step.cursor in UpTo(r.cursor); } }
        KeptUpTo(r.cursor, step.cursor);
      }
    }
    forall id | id in after.readers ensures ReaderServed(after, after.readers[id]) {
      if id != step.reader { assert ReaderServed(s, s.readers[id]); }
    }
  }

  predicate Holds(s: State, tx: TxId, run: RunId) {
    tx in s.held && run in s.held[tx]
  }

  /** Who holds a run after a step held it before, unless it is the one that reserved. */
  lemma HoldersAfter(s: State, step: Step, tx: TxId, run: RunId)
    requires Exclusive(s) && Allowed(s, step) && !step.Commit? && Holds(Next(s, step), tx, run)
    ensures var after := Next(s, step);
      && run in after.next
      && after.held[tx][run].found == after.next[run] <= after.held[tx][run].inserting <= after.held[tx][run].next
    ensures Holds(s, tx, run) || (step.Reserve? && step.tx == tx && step.run == run && !Locked(s, run))
  {}

  lemma StepExcludes(s: State, step: Step)
    requires Exclusive(s) && Allowed(s, step) && !step.Commit?
    ensures Exclusive(Next(s, step))
  {
    var after := Next(s, step);
    hide Next, Allowed;
    forall tx, run | tx in after.held && run in after.held[tx]
      ensures run in after.next
      ensures after.held[tx][run].found == after.next[run] <= after.held[tx][run].inserting <= after.held[tx][run].next
    {
      HoldersAfter(s, step, tx, run);
    }
    forall a, b, run | a in after.held && b in after.held && run in after.held[a] && run in after.held[b]
      ensures a == b
    {
      HoldersAfter(s, step, a, run);
      HoldersAfter(s, step, b, run);
    }
  }

  lemma StepKeeps(s: State, step: Step)
    requires Inv(s) && Allowed(s, step)
    ensures Inv(Next(s, step))
  {
    var after := Next(s, step);
    if step.Commit? {
      CommitKeeps(s, step.tx);
    } else if step.Follow? || step.Poll? || step.Resume? {
      ReaderKeeps(s, step);
    } else {
      assert Gapless(after) by { hide Exclusive, Served; }
      assert Exclusive(after) by { hide Gapless, Served; StepExcludes(s, step); }
      hide Gapless, Exclusive;
      forall id | id in after.readers ensures ReaderServed(after, after.readers[id]) {
        assert ReaderServed(s, s.readers[id]);
      }
    }
  }

  lemma {:induction false} PathKeeps(s: State, steps: seq<Step>, end: State)
    requires Inv(s) && Path(s, steps, end)
    ensures Inv(end)
    decreases |steps|
  {
    hide Inv, Next, Allowed;
    if steps != [] {
      StepKeeps(s, steps[0]);
      PathKeeps(Next(s, steps[0]), steps[1..], end);
    }
  }

  lemma Reachable(steps: seq<Step>, s: State)
    requires Path(START, steps, s)
    ensures Inv(s)
  {
    PathKeeps(START, steps, s);
  }

  // ---- what it is for ------------------------------------------------------

  /** However transactions interleave, commit and abort, each run's committed sequences are exactly
      1 up to the counter, and what the store lists of them shows no loss. */
  lemma CommittedWithoutGap(steps: seq<Step>, s: State, run: RunId, listed: seq<nat>)
    requires Path(START, steps, s) && run in s.next && Selected(s, run, 0, listed)
    ensures s.next[run] >= 1 && forall q: nat :: Row(run, q) in s.rows <==> 1 <= q < s.next[run]
    ensures listed == UpTo(s.next[run] - 1) && SequenceLoss(listed) == 0
  {
    PathKeeps(START, steps, s);
    hide START, Path;
    GaplessListing(s, run, listed);
  }

  lemma GaplessListing(s: State, run: RunId, listed: seq<nat>)
    requires Inv(s) && run in s.next && Selected(s, run, 0, listed)
    ensures s.next[run] >= 1 && forall q: nat :: Row(run, q) in s.rows <==> 1 <= q < s.next[run]
    ensures listed == UpTo(s.next[run] - 1) && SequenceLoss(listed) == 0
  {
    PollSkipsNothing(s, run, 0, listed);
    var n := s.next[run] - 1;
    assert listed == UpTo(n);
    hide Inv;
    NothingLost(n);
  }

  lemma NothingLost(n: nat)
    ensures SequenceLoss(UpTo(n)) == 0
  {
    var listed := UpTo(n);
    if n > 0 {
      assert listed[0] == 1 && listed[n - 1] == n;
      assert forall q :: q in listed ==> 1 <= q <= n;
      LossIsMissing(listed);
      forall q | 1 <= q <= n ensures q in listed { assert listed[q - 1] == q; }
      assert Missing(listed) == {};
    }
  }

  /** A reader that polls, breaks off and resumes from any number it was given, in any interleaving,
      has received 1 up to its cursor, each once and in order; the next thing it can receive is the
      next number. */
  lemma ReaderSkipsNothing(steps: seq<Step>, s: State, id: ReaderId, answer: seq<nat>)
    requires Path(START, steps, s) && id in s.readers
    requires Selected(s, s.readers[id].run, s.readers[id].cursor, answer)
    ensures s.readers[id].received == UpTo(s.readers[id].cursor)
    ensures forall k :: 0 <= k < |answer| ==> answer[k] == s.readers[id].cursor + 1 + k
    ensures answer != [] ==> ReconnectGap(s.readers[id].cursor, answer[0]) == 0
  {
    PathKeeps(START, steps, s);
    assert ReaderServed(s, s.readers[id]);
    PollSkipsNothing(s, s.readers[id].run, s.readers[id].cursor, answer);
  }

  function Inserts(tx: TxId, run: RunId, n: nat): seq<Step> {
    if n == 0 then [] else [Insert(tx, run)] + Inserts(tx, run, n - 1)
  }

  /** The state with what a transaction holds of one run replaced. */
  function Holding(s: State, tx: TxId, run: RunId, held: Held): State
    requires tx in s.held
  {
    s.(held := s.held[tx := s.held[tx][run := held]])
  }

  lemma HoldingTwice(s: State, tx: TxId, run: RunId, held: Held, next: Held)
    requires tx in s.held
    ensures Holding(Holding(s, tx, run, held), tx, run, next) == Holding(s, tx, run, next)
  {
    assert s.held[tx][run := held][run := next] == s.held[tx][run := next];
    assert Holding(Holding(s, tx, run, held), tx, run, next).held == Holding(s, tx, run, next).held;
  }

  /** Inserts of a transaction go on as far as it has reserved. */
  lemma {:induction false} InsertsPath(s: State, tx: TxId, run: RunId, held: Held, k: nat)
    requires tx in s.held && Inv(Holding(s, tx, run, held)) && held.inserting + k <= held.next
    ensures var end := Holding(s, tx, run, held.(inserting := held.inserting + k));
            Inv(end) && Path(Holding(s, tx, run, held), Inserts(tx, run, k), end)
    decreases k
  {
    hide Inv, Refused;
    if k > 0 {
      var now := Holding(s, tx, run, held);
      NeverRefused(now, tx, run);
      StepKeeps(now, Insert(tx, run));
      var next := held.(inserting := held.inserting + 1);
      HoldingTwice(s, tx, run, held, next);
      InsertsPath(s, tx, run, next, k - 1);
      assert Inserts(tx, run, k)[1..] == Inserts(tx, run, k - 1);
    } else {
      assert held.(inserting := held.inserting + 0) == held;
    }
  }

  lemma {:induction false} PathThen(s: State, steps: seq<Step>, mid: State, more: seq<Step>, end: State)
    requires Path(s, steps, mid) && Path(mid, more, end)
    ensures Path(s, steps + more, end)
    decreases |steps|
  {
    hide Next, Allowed;
    if steps == [] {
      assert steps + more == more;
    } else {
      PathThen(Next(s, steps[0]), steps[1..], mid, more, end);
      assert (steps + more)[1..] == steps[1..] + more;
    }
  }

  /** A transaction, between two writes, to which the row of a run is free. */
  ghost predicate CanReserve(s: State, tx: TxId, run: RunId) {
    && tx in s.held && (forall r :: r in s.held[tx] ==> s.held[tx][r].inserting == s.held[tx][r].next)
    && run in s.next && (run in s.held[tx] || forall other :: other in s.held ==> run !in s.held[other])
  }

  /** The first number it reserves: after its own, or the committed counter. */
  function FirstOf(s: State, tx: TxId, run: RunId): nat
    requires tx in s.held && run in s.next
  {
    if run in s.held[tx] then s.held[tx][run].next else s.next[run]
  }

  /** Reserving `n` numbers and inserting `k` of them. */
  lemma ReservedPath(s: State, tx: TxId, run: RunId, n: nat, k: nat) returns (now: State)
    requires Inv(s) && CanReserve(s, tx, run) && k <= n
    ensures var first := FirstOf(s, tx, run);
            now == Holding(s, tx, run, Counter(s, tx, run).(inserting := first + k, next := first + n))
    ensures Inv(now) && Path(s, [Reserve(tx, run, n)] + Inserts(tx, run, k), now)
  {
    hide Inv, Next, Allowed, Path, Holding, Counter, FirstOf, Inserts;
    assert tx in s.held && run in s.next;
    hide CanReserve;
    ReserveHolds(s, tx, run, n);
    var step, first := Reserve(tx, run, n), FirstOf(s, tx, run);
    var held := Counter(s, tx, run).(inserting := first, next := first + n);
    StepKeeps(s, step);
    InsertsPath(s, tx, run, held, k);
    now := Holding(s, tx, run, held.(inserting := first + k));
    PathAfter(s, step, Inserts(tx, run, k), now);
  }

  lemma PathAfter(s: State, step: Step, steps: seq<Step>, end: State)
    requires Allowed(s, step) && Path(Next(s, step), steps, end)
    ensures Path(s, [step] + steps, end)
  {
    hide Next, Allowed;
    assert ([step] + steps)[1..] == steps;
  }

  lemma ReserveHolds(s: State, tx: TxId, run: RunId, n: nat)
    requires CanReserve(s, tx, run)
    ensures var first := FirstOf(s, tx, run);
      && Allowed(s, Reserve(tx, run, n))
      && Counter(s, tx, run).inserting == Counter(s, tx, run).next == first
      && Next(s, Reserve(tx, run, n)) ==
         Holding(s, tx, run, Counter(s, tx, run).(inserting := first, next := first + n))
  {}

  /** From every reachable state: a transaction that reserves `n` numbers of a run no other holds can insert
      that many, each time allowed, and commit. The counter has then moved by `n` and the next `n` numbers are
      there; what it had written before is there too, and nothing else has changed. */
  lemma AllocatorWrites(steps: seq<Step>, s: State, tx: TxId, run: RunId, n: nat) returns (end: State)
    requires Path(START, steps, s) && CanReserve(s, tx, run)
    ensures Path(s, [Reserve(tx, run, n)] + Inserts(tx, run, n) + [Commit(tx)], end)
    ensures var first, mine := FirstOf(s, tx, run), s.held[tx];
      && end.next == (map r | r in s.next ::
           if r == run then first + n else if r in mine then mine[r].next else s.next[r])
      && end.rows == s.rows + (set q | first <= q < first + n :: Row(run, q))
                     + (set r, q | r in mine && mine[r].found <= q < mine[r].next :: Row(r, q))
    ensures end.held == s.held - {tx} && end.readers == s.readers
  {
    PathKeeps(START, steps, s);
    hide START, Inv, Path, Next, Allowed, CanReserve;
    var now := ReservedPath(s, tx, run, n, n);
    CommitOfMore(s, tx, run, n);
    end := Next(now, Commit(tx));
    OneStep(now, Commit(tx));
    PathThen(s, [Reserve(tx, run, n)] + Inserts(tx, run, n), now, [Commit(tx)], end);
  }

  /** What is committed once `now` holds more of a run than `s`. */
  lemma CommitOfMore(s: State, tx: TxId, run: RunId, n: nat)
    requires Exclusive(s) && CanReserve(s, tx, run)
    ensures var first, mine := FirstOf(s, tx, run), s.held[tx];
            var now := Holding(s, tx, run, Counter(s, tx, run).(inserting := first + n, next := first + n));
      && Allowed(now, Commit(tx))
      && var end := Next(now, Commit(tx));
         && end.next == (map r | r in s.next ::
              if r == run then first + n else if r in mine then mine[r].next else s.next[r])
         && end.rows == s.rows + (set q | first <= q < first + n :: Row(run, q))
                        + (set r, q | r in mine && mine[r].found <= q < mine[r].next :: Row(r, q))
         && end.held == s.held - {tx} && end.readers == s.readers
  {
    var first, mine := FirstOf(s, tx, run), s.held[tx];
    var held := Counter(s, tx, run).(inserting := first + n, next := first + n);
    var now := Holding(s, tx, run, held);
    RowsOfMore(mine, run, held, first);
    hide Exclusive;
    assert now.held[tx] == mine[run := held];
    assert Allowed(now, Commit(tx));
    assert Next(now, Commit(tx)).held == s.held - {tx};
  }

  lemma RowsOfMore(mine: map<RunId, Held>, run: RunId, held: Held, first: nat)
    requires if run in mine then held.found == mine[run].found <= first == mine[run].next else first == held.found
    requires first <= held.next
    ensures var more := mine[run := held];
            (set r, q | r in more && more[r].found <= q < more[r].next :: Row(r, q)) ==
              (set q | first <= q < held.next :: Row(run, q))
              + set r, q | r in mine && mine[r].found <= q < mine[r].next :: Row(r, q)
  {}

  lemma OneStep(s: State, step: Step)
    requires Allowed(s, step)
    ensures Path(s, [step], Next(s, step))
  {
    assert [step][1..] == [];
  }

  /** Aborted anywhere on the way, it leaves counter and rows as they were. */
  lemma AbortLeavesNothing(steps: seq<Step>, s: State, tx: TxId, run: RunId, n: nat, k: nat) returns (end: State)
    requires Path(START, steps, s) && CanReserve(s, tx, run) && k <= n
    ensures Path(s, [Reserve(tx, run, n)] + Inserts(tx, run, k) + [Abort(tx)], end)
    ensures end.next == s.next && end.rows == s.rows && end.held == s.held - {tx} && end.readers == s.readers
  {
    PathKeeps(START, steps, s);
    hide START, Inv, Path, CanReserve;
    var now := ReservedPath(s, tx, run, n, k);
    end := Next(now, Abort(tx));
    assert end.held == s.held - {tx};
    OneStep(now, Abort(tx));
    PathThen(s, [Reserve(tx, run, n)] + Inserts(tx, run, k), now, [Abort(tx)], end);
  }

  /** A reader can always catch up: from every reachable state, whatever number it goes back to first, one
      poll taken whole leaves it with all there is. */
  lemma ReaderCatchesUp(steps: seq<Step>, s: State, id: ReaderId, cursor: nat, answer: seq<nat>) returns (end: State)
    requires Path(START, steps, s) && Allowed(s, Resume(id, cursor))
    requires Selected(s, s.readers[id].run, cursor, answer)
    ensures Path(s, [Resume(id, cursor), Poll(id, answer, |answer|)], end)
    ensures id in end.readers && end.readers[id].run == s.readers[id].run && s.readers[id].run in s.next
    ensures |end.readers[id].received| + 1 == s.next[s.readers[id].run]
    ensures forall k :: 0 <= k < |end.readers[id].received| ==> end.readers[id].received[k] == k + 1
  {
    PathKeeps(START, steps, s);
    hide START, Path;
    end := CaughtUp(s, id, cursor, answer);
  }

  lemma CaughtUp(s: State, id: ReaderId, cursor: nat, answer: seq<nat>) returns (end: State)
    requires Inv(s) && Allowed(s, Resume(id, cursor))
    requires Selected(s, s.readers[id].run, cursor, answer)
    ensures Path(s, [Resume(id, cursor), Poll(id, answer, |answer|)], end)
    ensures id in end.readers && end.readers[id].run == s.readers[id].run && s.readers[id].run in s.next
    ensures end.readers[id].received == UpTo(s.next[s.readers[id].run] - 1)
  {
    assert ReaderServed(s, s.readers[id]);
    var back, poll := Next(s, Resume(id, cursor)), Poll(id, answer, |answer|);
    StepKeeps(s, Resume(id, cursor));
    assert ReaderServed(back, back.readers[id]) && Selected(back, back.readers[id].run, cursor, answer);
    PollSkipsNothing(back, s.readers[id].run, cursor, answer);
    end := Next(back, poll);
    StepKeeps(back, poll);
    assert ReaderServed(end, end.readers[id]);
    OneStep(back, poll);
    PathAfter(s, Resume(id, cursor), [poll], end);
    assert [Resume(id, cursor)] + [poll] == [Resume(id, cursor), poll];
  }

  /** A run just created starts at 1: its first `n` events are 1 to `n`, and one who follows it is given
      just these. */
  lemma FirstEvents(steps: seq<Step>, s: State, tx: TxId, run: RunId, n: nat, id: ReaderId)
    returns (written: State, end: State)
    requires Path(START, steps, s) && run !in s.next && tx !in s.held
    ensures Path(s, [CreateRun(run), Begin(tx)] + ([Reserve(tx, run, n)] + Inserts(tx, run, n) + [Commit(tx)]), written)
    ensures written.next == s.next[run := 1 + n] && written.held == s.held
    ensures written.rows == s.rows + set q | 1 <= q < 1 + n :: Row(run, q)
    ensures Path(written, [Follow(id, run), Poll(id, UpTo(n), n)], end)
    ensures end == written.(readers := written.readers[id := Reader(run, n, UpTo(n))])
  {
    hide START, Inv, Path, Next, Allowed, Inserts, CanReserve;
    Reachable(steps, s);
    var begun := Begins(s, run, tx);
    var first, write := [CreateRun(run), Begin(tx)], [Reserve(tx, run, n)] + Inserts(tx, run, n) + [Commit(tx)];
    PathThen(START, steps, s, first, begun);
    written := AllocatorWrites(steps + first, begun, tx, run, n);
    PathThen(s, first, begun, write, written);
    PathThen(START, steps, s, first + write, written);
    Reachable(steps + (first + write), written);
    assert written.held == s.held;
    assert written.next == s.next[run := 1 + n];
    end := Followed(written, id, run, n);
  }

  lemma Begins(s: State, run: RunId, tx: TxId) returns (begun: State)
    requires Inv(s) && run !in s.next && tx !in s.held
    ensures Path(s, [CreateRun(run), Begin(tx)], begun) && CanReserve(begun, tx, run)
    ensures begun == s.(next := s.next[run := 1], held := s.held[tx := map[]])
  {
    var created := Next(s, CreateRun(run));
    begun := Next(created, Begin(tx));
    OneStep(created, Begin(tx));
    PathAfter(s, CreateRun(run), [Begin(tx)], begun);
    assert [CreateRun(run)] + [Begin(tx)] == [CreateRun(run), Begin(tx)];
  }

  lemma Followed(s: State, id: ReaderId, run: RunId, n: nat) returns (end: State)
    requires Inv(s) && run in s.next && s.next[run] == 1 + n
    ensures Path(s, [Follow(id, run), Poll(id, UpTo(n), n)], end)
    ensures end == s.(readers := s.readers[id := Reader(run, n, UpTo(n))])
  {
    var following, poll := Next(s, Follow(id, run)), Poll(id, UpTo(n), n);
    ListedUpTo(s, run, n);
    assert Selected(following, run, 0, UpTo(n));
    UpToMore(0, UpTo(n), n);
    end := Next(following, poll);
    OneStep(following, poll);
    PathAfter(s, Follow(id, run), [poll], end);
    assert [Follow(id, run)] + [poll] == [Follow(id, run), poll];
  }

  lemma ListedUpTo(s: State, run: RunId, n: nat)
    requires Inv(s) && run in s.next && s.next[run] == 1 + n
    ensures Selected(s, run, 0, UpTo(n))
  {
    forall q: nat ensures q in UpTo(n) <==> q > 0 && Row(run, q) in s.rows {
      if 0 < q <= n { assert UpTo(n)[q - 1] == q; }
    }
  }

  // ---- the benchmark's writer ----------------------------------------------

  const CHUNK := 2000

  /** `PostgresEventStore`; any statement may fail, and a transaction, which locks the run's row, is one
      step. */
  class PostgresEventStore {
    var next: map<RunId, nat>
    var rows: set<Row>

    /** One transaction: reserve, insert every row reserved, commit; or nothing at all. */
    method Write(run: RunId, count: nat) returns (written: bool, first: nat)
      requires NoGaps(next, rows)
      modifies this
      ensures NoGaps(next, rows)
      ensures !written ==> next == old(next) && rows == old(rows)
      ensures written ==>
        && run in old(next) && first == old(next)[run] && next == old(next)[run := first + count]
        && rows == old(rows) + Block(run, first, count) && Block(run, first, count) !! old(rows)
      ensures run !in old(next) ==> !written
    {
      if run !in next {
        return false, 0;
      }
      first := next[run];
      var inserted: set<Row> := {};
      for offset := 0 to count
        invariant inserted == Block(run, first, offset)
      {
        var fails := *;
        var row := Row(run, first + offset);
        if fails || row in rows || row in inserted || row.sequence == 0 {
          return false, 0;
        }
        inserted := inserted + {row};
      }
      var committed := *;
      if committed {
        next, rows := next[run := first + count], rows + inserted;
      }
      written := committed;
    }

    /** Other transactions commit. Callers know only the contract: the body, in which none does, stands for
        every run of them the contract allows. */
    method OtherWriters()
      requires NoGaps(next, rows)
      modifies this
      ensures NoGaps(next, rows) && old(rows) <= rows
    {}

    /** In chunks, each a transaction of its own, with others in between. The rows written are `mine`, all
        new and no one else's: as many as asked, or the whole chunks before the one that failed. With no one
        in between, the counter has moved by just that much and no other run's has. */
    method WriteMany(run: RunId, count: nat)
      returns (done: bool, ghost chunks: nat, ghost mine: set<Row>, ghost alone: bool)
      requires NoGaps(next, rows)
      modifies this
      ensures NoGaps(next, rows)
      ensures Wrote(old(rows), rows, mine, run, if done then count else chunks * CHUNK)
      ensures !done ==> chunks * CHUNK < count
      ensures alone ==> WroteAlone(old(next), old(rows), next, rows, mine, run)
    {
      hide NoGaps, Wrote, WroteAlone, Block;
      chunks, mine, alone := 0, {}, true;
      NothingWritten(next, rows, run);
      var remaining := count;
      while remaining > 0
        invariant NoGaps(next, rows) && 0 <= remaining <= count
        invariant remaining > 0 ==> count - remaining == chunks * CHUNK
        invariant Wrote(old(rows), rows, mine, run, count - remaining)
        invariant alone ==> WroteAlone(old(next), old(rows), next, rows, mine, run)
      {
        ghost var before, counters := rows, next;
        OtherWriters();
        StillWrote(old(rows), before, rows, mine, run, count - remaining);
        alone := alone && before == rows && counters == next;
        before, counters := rows, next;
        var chunk := if remaining < CHUNK then remaining else CHUNK;
        var written, first := Write(run, chunk);
        if !written {
          return false, chunks, mine, alone;
        }
        WroteMore(old(rows), before, mine, run, count - remaining, first, chunk);
        if alone { AloneMore(old(next), old(rows), counters, before, mine, run, first, chunk); }
        mine := mine + Block(run, first, chunk);
        remaining := remaining - chunk;
        chunks := chunks + 1;
      }
      done := true;
    }
  }

  /** `mine` are `n` rows of the run, among those there now and not among those before. */
  ghost predicate Wrote(before: set<Row>, rows: set<Row>, mine: set<Row>, run: RunId, n: int) {
    before + mine <= rows && mine !! before && |mine| == n && forall row :: row in mine ==> row.run == run
  }

  /** Nothing but `mine` was written, and the counter has moved by as much. */
  ghost predicate WroteAlone(counters: map<RunId, nat>, before: set<Row>, next: map<RunId, nat>, rows: set<Row>,
                             mine: set<Row>, run: RunId) {
    && rows == before + mine
    && if mine == {} then next == counters else run in counters && next == counters[run := counters[run] + |mine|]
  }

  lemma NothingWritten(next: map<RunId, nat>, rows: set<Row>, run: RunId)
    ensures Wrote(rows, rows, {}, run, 0) && WroteAlone(next, rows, next, rows, {}, run)
  {}

  lemma StillWrote(before: set<Row>, rows: set<Row>, more: set<Row>, mine: set<Row>, run: RunId, n: nat)
    requires Wrote(before, rows, mine, run, n) && rows <= more
    ensures Wrote(before, more, mine, run, n)
  {}

  lemma WroteMore(before: set<Row>, rows: set<Row>, mine: set<Row>, run: RunId, n: nat, first: nat, count: nat)
    requires Wrote(before, rows, mine, run, n) && Block(run, first, count) !! rows
    ensures mine !! Block(run, first, count)
    ensures Wrote(before, rows + Block(run, first, count), mine + Block(run, first, count), run, n + count)
  {
    BlockSize(run, first, count);
    assert mine !! Block(run, first, count);
  }

  lemma AloneMore(counters: map<RunId, nat>, before: set<Row>, next: map<RunId, nat>, rows: set<Row>, mine: set<Row>,
                  run: RunId, first: nat, count: nat)
    requires WroteAlone(counters, before, next, rows, mine, run) && mine !! Block(run, first, count)
    requires run in next && first == next[run] && count > 0
    ensures var block := Block(run, first, count);
            WroteAlone(counters, before, next[run := first + count], rows + block, mine + block, run)
  {
    BlockSize(run, first, count);
    var block := Block(run, first, count);
    assert |mine + block| == |mine| + count;
    assert mine == {} ==> |mine| == 0;
  }

  /** Consecutive rows of a run. */
  function Block(run: RunId, first: nat, count: nat): set<Row> {
    set q | first <= q < first + count :: Row(run, q)
  }

  lemma {:induction false} BlockSize(run: RunId, first: nat, count: nat)
    ensures |Block(run, first, count)| == count
  {
    if count > 0 {
      BlockSize(run, first, count - 1);
      assert Block(run, first, count) == Block(run, first, count - 1) + {Row(run, first + count - 1)};
    } else {
      assert Block(run, first, count) == {};
    }
  }

  // ---- the benchmark's checks ----------------------------------------------

  /** `sorted(set(...))[-1]` and `[0]`. */
  function Largest(sequences: seq<int>): (m: int)
    requires sequences != []
    ensures m in sequences && forall q :: q in sequences ==> q <= m
  {
    if |sequences| == 1 then sequences[0] else
    assert sequences == [sequences[0]] + sequences[1..];
    var rest := Largest(sequences[1..]);
    if sequences[0] > rest then sequences[0] else rest
  }

  function Smallest(sequences: seq<int>): (m: int)
    requires sequences != []
    ensures m in sequences && forall q :: q in sequences ==> m <= q
  {
    if |sequences| == 1 then sequences[0] else
    assert sequences == [sequences[0]] + sequences[1..];
    var rest := Smallest(sequences[1..]);
    if sequences[0] < rest then sequences[0] else rest
  }

  function SequenceLoss(sequences: seq<int>): int {
    if sequences == [] then 0
    else Largest(sequences) - Smallest(sequences) + 1 - |set q | q in sequences|
  }

  function ReconnectGap(lastSeen: int, firstReplayed: int): int {
    if firstReplayed - lastSeen - 1 > 0 then firstReplayed - lastSeen - 1 else 0
  }

  function Interval(lo: int, hi: int): (all: set<int>)
    requires lo <= hi + 1
    ensures forall q :: q in all <==> lo <= q <= hi
    ensures |all| == hi - lo + 1
    decreases hi - lo + 1
  {
    if lo > hi then {} else Interval(lo, hi - 1) + {hi}
  }

  /** The numbers between the smallest and the largest that were never seen. */
  function Missing(sequences: seq<int>): set<int>
    requires sequences != []
  {
    set q | q in Interval(Smallest(sequences), Largest(sequences)) && q !in sequences
  }

  lemma LossIsMissing(sequences: seq<int>)
    requires sequences != []
    ensures SequenceLoss(sequences) == |Missing(sequences)|
  {
    var seen := set q | q in sequences;
    var all := Interval(Smallest(sequences), Largest(sequences));
    assert seen <= all && Missing(sequences) == all - seen;
  }

  /** Two streams, the second wholly after the first: nothing is counted twice or overlooked where
      they meet. */
  lemma LossOfJoin(first: seq<int>, second: seq<int>)
    requires first != [] && second != []
    requires forall q, r :: q in first && r in second ==> q < r
    ensures SequenceLoss(first + second) ==
      SequenceLoss(first) + SequenceLoss(second) + ReconnectGap(Largest(first), Smallest(second))
  {
    var both := first + second;
    assert Largest(both) == Largest(second) by { assert Largest(second) in both; }
    assert Smallest(both) == Smallest(first) by { assert Smallest(first) in both; }
    var a := set q | q in first;
    var b := set q | q in second;
    assert (set q | q in both) == a + b && a !! b;
  }
}
