/** Row-level security: the policy condition as a small SQL expression, and statements run under it. */
module RowSecurity {
  import opened Options
  import opened Sequences

  // ---- the condition -------------------------------------------------------

  /** The bytes of a UUID. */
  type Uuid = seq<int>

  datatype Value = Null | Text(text: string) | Id(id: Uuid) | Bool(b: bool)

  /** An expression has a value, null included, or raises an error. */
  datatype Outcome = Val(value: Value) | Failed

  datatype Expr =
    | Setting                     // current_setting('app.workspace_id', true)
    | Workspace                   // the row's workspace_id
    | Literal(text: string)
    | Coalesce(first: Expr, second: Expr)
    | NullIf(first: Expr, second: Expr)
    | Equal(first: Expr, second: Expr)
    | ToUuid(of: Expr)
    | IsNull(of: Expr)
    | Or(first: Expr, second: Expr)

  /** What an OR evaluates: one side, and the other only if that is not true, or always both (as when
      one side is a constant and is folded beforehand). */
  datatype Order = LeftFirst | RightFirst | Both

  /** A plan gives the order for every OR. */
  type Plan = Expr -> Order

  datatype Env = Env(setting: Option<string>, workspace: Option<Uuid>)

  function HexValue(c: char): Option<int> {
    if '0' <= c <= '9' then Some(c as int - '0' as int)
    else if 'a' <= c <= 'f' then Some(c as int - 'a' as int + 10)
    else if 'A' <= c <= 'F' then Some(c as int - 'A' as int + 10)
    else None
  }

  /** How much of the text one byte takes, with a hyphen after it. */
  function Taken(s: string, i: nat): nat {
    if |s| > 2 && s[2] == '-' && i % 2 == 1 && i < 15 then 3 else 2
  }

  /** The bytes of a UUID from the `i`-th on: two digits each, either case, and a hyphen allowed after
      every group of four digits. */
  function ParseFrom(s: string, i: nat): Option<(Uuid, string)>
    requires i <= 16
    decreases |s|
  {
    if i == 16 then Some(([], s))
    else if |s| < 2 || HexValue(s[0]).None? || HexValue(s[1]).None? then None
    else
      match ParseFrom(s[Taken(s, i)..], i + 1)
      case None => None
      case Some((bytes, rest)) => Some(([HexValue(s[0]).value * 16 + HexValue(s[1]).value] + bytes, rest))
  }

  /** The forms in which PostgreSQL takes a UUID: as above, all of it in braces or not. */
  function ParseUuid(s: string): (r: Option<Uuid>)
    ensures s == "" ==> r == None
  {
    var braces := s != "" && s[0] == '{';
    match ParseFrom(if braces then s[1..] else s, 0)
    case None => None
    case Some((bytes, rest)) => if rest == (if braces then "}" else "") then Some(bytes) else None
  }

  ghost predicate IsId(id: Uuid) {
    |id| == 16 && forall i :: 0 <= i < 16 ==> 0 <= id[i] < 256
  }

  function HexDigit(d: int): char
    requires 0 <= d < 16
  {
    "0123456789abcdef"[d]
  }

  /** `str` of a UUID: lower case, hyphens after the fourth, sixth, eighth and tenth byte. */
  function TextFrom(id: Uuid, i: nat): string
    requires forall k :: 0 <= k < |id| ==> 0 <= id[k] < 256
  {
    if id == [] then ""
    else
      [HexDigit(id[0] / 16), HexDigit(id[0] % 16)]
      + Hyphen(i) + TextFrom(id[1..], i + 1)
  }

  lemma DigitReadsBack(d: int)
    requires 0 <= d < 16
    ensures HexValue(HexDigit(d)) == Some(d) && HexDigit(d) != '-' && HexDigit(d) != '{'
  {}

  function Hyphen(i: nat): string {
    if i in {3, 5, 7, 9} then "-" else ""
  }

  lemma ParseOne(s: string, i: nat, b: int, rest: string)
    requires i < 16 && |s| >= 2 && HexValue(s[0]).Some? && HexValue(s[1]).Some?
    requires b == HexValue(s[0]).value * 16 + HexValue(s[1]).value && rest == s[Taken(s, i)..]
    ensures ParseFrom(s, i) == match ParseFrom(rest, i + 1)
                               case None => None
                               case Some((bytes, left)) => Some(([b] + bytes, left))
  {
    hide HexValue, Taken;
  }

  /** One byte written so is read as that byte, and reading goes on after it. */
  lemma ByteReadsBack(b: int, i: nat, rest: string)
    requires 0 <= b < 256 && i < 16 && (rest == "" || rest[0] != '-')
    ensures var s := [HexDigit(b / 16), HexDigit(b % 16)] + Hyphen(i) + rest;
            ParseFrom(s, i) == match ParseFrom(rest, i + 1)
                               case None => None
                               case Some((bytes, left)) => Some(([b] + bytes, left))
  {
    hide HexDigit, HexValue, ParseFrom;
    DigitReadsBack(b / 16);
    DigitReadsBack(b % 16);
    var s := [HexDigit(b / 16), HexDigit(b % 16)] + Hyphen(i) + rest;
    assert s[0] == HexDigit(b / 16) && s[1] == HexDigit(b % 16);
    if i in {3, 5, 7, 9} {
      assert s[2] == '-' && s[3..] == rest;
    } else {
      assert s[2..] == rest && (|s| > 2 ==> s[2] == rest[0]);
    }
    ParseOne(s, i, b, rest);
  }

  lemma {:induction false} TextParses(id: Uuid, i: nat)
    requires i <= 16 && |id| == 16 - i && forall k :: 0 <= k < |id| ==> 0 <= id[k] < 256
    ensures ParseFrom(TextFrom(id, i), i) == Some((id, ""))
    ensures id != [] ==> TextFrom(id, i) != "" && TextFrom(id, i)[0] != '{' && TextFrom(id, i)[0] != '-'
    decreases |id|
  {
    hide HexDigit, HexValue, Hyphen;
    if i < 16 {
      hide ParseFrom;
      TextParses(id[1..], i + 1);
      ByteReadsBack(id[0], i, TextFrom(id[1..], i + 1));
      DigitReadsBack(id[0] / 16);
      assert [id[0]] + id[1..] == id;
    }
  }

  /** The setting a transaction is given, the text of its workspace, is read as that workspace. */
  lemma SettingReadsBack(id: Uuid)
    requires IsId(id)
    ensures ParseUuid(TextFrom(id, 0)) == Some(id)
  {
    TextParses(id, 0);
  }

  function Cast(v: Value): Outcome {
    match v
    case Null => Val(Null)
    case Text(t) => var id := ParseUuid(t); if id.Some? then Val(Id(id.value)) else Failed
    case Id(_) => Val(v)
    case Bool(_) => Failed
  }

  function Same(a: Value, b: Value): Value {
    if a.Null? || b.Null? then Null else Bool(a == b)
  }

  function Either(a: Value, b: Value): Value {
    if a == Bool(true) || b == Bool(true) then Bool(true) else if a.Null? || b.Null? then Null else Bool(false)
  }

  function ShortOr(tried: Outcome, other: Outcome): Outcome {
    if tried == Val(Bool(true)) then tried else FullOr(tried, other)
  }

  function FullOr(a: Outcome, b: Outcome): Outcome {
    if a.Failed? || b.Failed? then Failed else Val(Either(a.value, b.value))
  }

  function Eval(e: Expr, env: Env, plan: Plan): Outcome {
    match e
    case Setting => Val(if env.setting.Some? then Text(env.setting.value) else Null)
    case Workspace => Val(if env.workspace.Some? then Id(env.workspace.value) else Null)
    case Literal(t) => Val(Text(t))
    case Coalesce(a, b) =>
      var x := Eval(a, env, plan);
      if x == Val(Null) then Eval(b, env, plan) else x
    case NullIf(a, b) =>
      var x, y := Eval(a, env, plan), Eval(b, env, plan);
      if x.Failed? || y.Failed? then Failed
      else if Same(x.value, y.value) == Bool(true) then Val(Null) else x
    case Equal(a, b) =>
      var x, y := Eval(a, env, plan), Eval(b, env, plan);
      if x.Failed? || y.Failed? then Failed else Val(Same(x.value, y.value))
    case ToUuid(a) =>
      var x := Eval(a, env, plan);
      if x.Failed? then Failed else Cast(x.value)
    case IsNull(a) =>
      var x := Eval(a, env, plan);
      if x.Failed? then Failed else Val(Bool(x.value.Null?))
    case Or(a, b) =>
      var x, y := Eval(a, env, plan), Eval(b, env, plan);
      match plan(e) case LeftFirst => ShortOr(x, y) case RightFirst => ShortOr(y, x) case Both => FullOr(x, y)
  }

  const UNSET := Equal(Coalesce(Setting, Literal("")), Literal(""))

  /** The condition of every tenant table. */
  const SCOPED := Or(UNSET, Equal(Workspace, ToUuid(NullIf(Setting, Literal("")))))

  /** The condition of the tables that also hold the platform's own rows. */
  const PLATFORM_TOO := Or(IsNull(Workspace), SCOPED)

  /** The same condition had the cast been left to the OR to guard. */
  const UNGUARDED := Or(UNSET, Equal(Workspace, ToUuid(Setting)))

  predicate Unscoped(setting: Option<string>) {
    setting.None? || setting.value == ""
  }

  lemma CompareWorkspace(id: Expr, env: Env, plan: Plan)
    ensures Eval(Equal(Workspace, id), env, plan)
         == var x := Eval(id, env, plan);
            if x.Failed? then Failed
            else Val(Same(if env.workspace.Some? then Id(env.workspace.value) else Null, x.value))
  {
    assert Eval(Workspace, env, plan) == Val(if env.workspace.Some? then Id(env.workspace.value) else Null);
  }

  lemma OrderOf(a: Expr, b: Expr, env: Env, plan: Plan)
    ensures Eval(Or(a, b), env, plan)
         == var x, y := Eval(a, env, plan), Eval(b, env, plan);
            match plan(Or(a, b))
            case LeftFirst => ShortOr(x, y) case RightFirst => ShortOr(y, x) case Both => FullOr(x, y)
  {}

  /** Whatever the order of evaluation, the condition is true without a workspace, fails exactly when
      the setting is neither empty nor a UUID in any form PostgreSQL takes, and otherwise compares the
      row's workspace with it. */
  lemma PolicyDecides(env: Env, plan: Plan)
    ensures Eval(SCOPED, env, plan) ==
      if Unscoped(env.setting) then Val(Bool(true))
      else if ParseUuid(env.setting.value).None? then Failed
      else if env.workspace.None? then Val(Null)
      else Val(Bool(env.workspace == ParseUuid(env.setting.value)))
  {
    hide ParseUuid;
    var current := Eval(Setting, env, plan);
    assert Eval(Literal(""), env, plan) == Val(Text(""));
    assert Eval(Coalesce(Setting, Literal("")), env, plan) == if current == Val(Null) then Val(Text("")) else current;
    assert Eval(UNSET, env, plan) == Val(Bool(Unscoped(env.setting)));
    var guarded := NullIf(Setting, Literal(""));
    assert Eval(guarded, env, plan) == if Unscoped(env.setting) then Val(Null) else current;
    assert Eval(ToUuid(guarded), env, plan) == if Unscoped(env.setting) then Val(Null) else Cast(current.value);
    CompareWorkspace(ToUuid(guarded), env, plan);
    OrderOf(UNSET, Equal(Workspace, ToUuid(guarded)), env, plan);
  }

  /** Rows without a workspace stay in sight where the platform keeps rows of its own; others are decided
      as on the tenant tables. */
  lemma PlatformRowsStayInSight(env: Env, plan: Plan)
    requires Unscoped(env.setting) || ParseUuid(env.setting.value).Some?
    ensures Eval(PLATFORM_TOO, env, plan) == Val(Bool(true))
      <==> env.workspace.None? || Unscoped(env.setting) || env.workspace == ParseUuid(env.setting.value)
    ensures !Eval(PLATFORM_TOO, env, plan).Failed?
  {
    hide ParseUuid;
    PolicyDecides(env, plan);
    assert Eval(IsNull(Workspace), env, plan) == Val(Bool(env.workspace.None?));
  }

  lemma UnguardedUnder(env: Env, plan: Plan)
    ensures Eval(UNGUARDED, env, plan).Failed? ==> env.setting.Some? && ParseUuid(env.setting.value).None?
    ensures env.setting.Some? && ParseUuid(env.setting.value).None? && plan(UNGUARDED).Both? ==>
      Eval(UNGUARDED, env, plan).Failed?
  {
    hide ParseUuid;
    var current := Eval(Setting, env, plan);
    assert Eval(Literal(""), env, plan) == Val(Text(""));
    assert Eval(Coalesce(Setting, Literal("")), env, plan) == if current == Val(Null) then Val(Text("")) else current;
    assert Eval(UNSET, env, plan) == Val(Bool(Unscoped(env.setting)));
    assert Eval(ToUuid(Setting), env, plan) == Cast(current.value);
    CompareWorkspace(ToUuid(Setting), env, plan);
    OrderOf(UNSET, Equal(Workspace, ToUuid(Setting)), env, plan);
  }

  /** Without the guard some order of evaluation fails on an empty setting, where the condition is true. */
  lemma UnguardedFails(env: Env)
    ensures (exists plan :: Eval(UNGUARDED, env, plan).Failed?) <==>
      env.setting.Some? && ParseUuid(env.setting.value).None?
  {
    hide ParseUuid;
    forall plan: Plan
      ensures Eval(UNGUARDED, env, plan).Failed? ==> env.setting.Some? && ParseUuid(env.setting.value).None?
    {
      UnguardedUnder(env, plan);
    }
    if env.setting.Some? && ParseUuid(env.setting.value).None? {
      var both: Plan := (e: Expr) => Both;
      UnguardedUnder(env, both);
      assert Eval(UNGUARDED, env, both).Failed?;
    }
  }

  // ---- statements under the policy -----------------------------------------

  datatype Row = Row(workspace: Option<Uuid>, data: string)

  type Rows = seq<Row>

  type Database = map<string, Rows>

  /** Conditions and new values may depend on everything the statement can see, as sub-selects do. */
  datatype Statement =
    | Select(table: string, where: (Database, Row) -> bool)
    | Insert(table: string, values: Database -> Rows)
    | Update(table: string, where: (Database, Row) -> bool, change: (Database, Row) -> Row)
    | Delete(table: string, where: (Database, Row) -> bool)

  /** `Refused` is a new row the policy does not accept, or a condition that fails; `Aborted` answers
      every statement after that. */
  datatype Result = Selected(rows: Rows) | Wrote(count: nat) | NoTable | Refused | Aborted

  datatype Session = Session(setting: Option<string>, plan: Plan)

  predicate Sees(s: Session, row: Row) {
    Eval(SCOPED, Env(s.setting, row.workspace), s.plan) == Val(Bool(true))
  }

  predicate Fails(s: Session, row: Row) {
    Eval(SCOPED, Env(s.setting, row.workspace), s.plan).Failed?
  }

  /** The rows in sight and the rows out of sight, each in their order. */
  function Visible(rows: Rows, s: Session): Rows {
    if rows == [] then [] else (if Sees(s, rows[0]) then [rows[0]] else []) + Visible(rows[1..], s)
  }

  function Hidden(rows: Rows, s: Session): Rows {
    if rows == [] then [] else (if Sees(s, rows[0]) then [] else [rows[0]]) + Hidden(rows[1..], s)
  }

  function View(db: Database, s: Session): Database {
    map t | t in db :: Visible(db[t], s)
  }

  function Filter(rows: Rows, view: Database, where: (Database, Row) -> bool): Rows {
    if rows == [] then []
    else (if where(view, rows[0]) then [rows[0]] else []) + Filter(rows[1..], view, where)
  }

  /** The rows an update makes of those it applies to. */
  function Changed(rows: Rows, view: Database, change: (Database, Row) -> Row): Rows {
    if rows == [] then [] else [change(view, rows[0])] + Changed(rows[1..], view, change)
  }

  /** The table after: rows in sight that match are changed in place. */
  function UpdateRows(rows: Rows, s: Session, view: Database, where: (Database, Row) -> bool,
                      change: (Database, Row) -> Row): Rows {
    if rows == [] then []
    else
      var row := rows[0];
      [if Sees(s, row) && where(view, row) then change(view, row) else row]
      + UpdateRows(rows[1..], s, view, where, change)
  }

  function DeleteRows(rows: Rows, s: Session, view: Database, where: (Database, Row) -> bool): Rows {
    if rows == [] then []
    else
      (if Sees(s, rows[0]) && where(view, rows[0]) then [] else [rows[0]])
      + DeleteRows(rows[1..], s, view, where)
  }

  predicate AllAccepted(rows: Rows, s: Session) {
    forall i :: 0 <= i < |rows| ==> Sees(s, rows[i])
  }

  predicate AnyFails(rows: Rows, s: Session) {
    exists i :: 0 <= i < |rows| && Fails(s, rows[i])
  }

  /** What a statement makes of its table, and its answer. */
  function Apply(rows: Rows, view: Database, stmt: Statement, s: Session): (Rows, Result) {
    match stmt
    case Select(_, where) => (rows, Selected(Filter(Visible(rows, s), view, where)))
    case Insert(_, values) =>
      if AllAccepted(values(view), s) then (rows + values(view), Wrote(|values(view)|)) else (rows, Refused)
    case Update(_, where, change) =>
      var made := Changed(Filter(Visible(rows, s), view, where), view, change);
      if AllAccepted(made, s) then (UpdateRows(rows, s, view, where, change), Wrote(|made|)) else (rows, Refused)
    case Delete(_, where) =>
      (DeleteRows(rows, s, view, where), Wrote(|Filter(Visible(rows, s), view, where)|))
  }

  /** One statement on a table whose policy is the tenant condition, for reading and for new rows. */
  function Exec(db: Database, stmt: Statement, s: Session): (Database, Result) {
    if stmt.table !in db then (db, NoTable)
    else if AnyFails(db[stmt.table], s) then (db, Refused)
    else
      var (after, result) := Apply(db[stmt.table], View(db, s), stmt, s);
      (db[stmt.table := after], result)
  }

  /** `n` statements of a client that chooses each by the results so far; after a refusal the
      transaction only answers `Aborted`. */
  function Run(client: seq<Result> -> Statement, n: nat, db: Database, s: Session): (Database, seq<Result>) {
    if n == 0 then (db, [])
    else
      var (now, results) := Run(client, n - 1, db, s);
      if Refused in results then (now, results + [Aborted])
      else
        var (next, result) := Exec(now, client(results), s);
        (next, results + [result])
  }

  /** What a commit leaves: nothing, when the transaction was refused anywhere. */
  function Committed(client: seq<Result> -> Statement, n: nat, db: Database, s: Session): Database {
    var (after, results) := Run(client, n, db, s);
    if Refused in results then db else after
  }

  // ---- isolation -----------------------------------------------------------

  /** A session that carries a workspace. */
  predicate ActsIn(s: Session, workspace: Uuid) {
    s.setting.Some? && ParseUuid(s.setting.value) == Some(workspace)
  }

  lemma SeesOwn(s: Session, workspace: Uuid, row: Row)
    requires ActsIn(s, workspace)
    ensures Sees(s, row) <==> row.workspace == Some(workspace)
    ensures !Fails(s, row)
  {
    PolicyDecides(Env(s.setting, row.workspace), s.plan);
  }

  lemma NoneFails(rows: Rows, s: Session, workspace: Uuid)
    requires ActsIn(s, workspace)
    ensures !AnyFails(rows, s)
  {
    forall i | 0 <= i < |rows| ensures !Fails(s, rows[i]) { SeesOwn(s, workspace, rows[i]); }
  }

  lemma {:induction false} JoinInSight(a: Rows, b: Rows, s: Session)
    ensures Visible(a + b, s) == Visible(a, s) + Visible(b, s)
    ensures Hidden(a + b, s) == Hidden(a, s) + Hidden(b, s)
  {
    if a == [] {
      assert a + b == b;
    } else {
      assert (a + b)[1..] == a[1..] + b;
      JoinInSight(a[1..], b, s);
    }
  }

  lemma {:induction false} AcceptedInSight(rows: Rows, s: Session)
    requires AllAccepted(rows, s)
    ensures Visible(rows, s) == rows && Hidden(rows, s) == []
  {
    if rows != [] {
      assert forall i :: 0 <= i < |rows| - 1 ==> rows[1..][i] == rows[i + 1];
      AcceptedInSight(rows[1..], s);
    }
  }

  lemma {:induction false} VisibleAccepted(rows: Rows, s: Session)
    ensures AllAccepted(Visible(rows, s), s)
  {
    if rows != [] { VisibleAccepted(rows[1..], s); }
  }

  lemma {:induction false} FirstInSight(row: Row, rest: Rows, s: Session)
    ensures Visible([row] + rest, s) == (if Sees(s, row) then [row] else []) + Visible(rest, s)
    ensures Hidden([row] + rest, s) == (if Sees(s, row) then [] else [row]) + Hidden(rest, s)
  {
    assert ([row] + rest)[1..] == rest;
  }

  lemma SightOfFirst(rows: Rows, s: Session)
    requires rows != []
    ensures Sees(s, rows[0]) ==> Visible(rows, s) == [rows[0]] + Visible(rows[1..], s)
    ensures Sees(s, rows[0]) ==> Visible(rows, s)[0] == rows[0] && Visible(rows, s)[1..] == Visible(rows[1..], s)
    ensures !Sees(s, rows[0]) ==> Visible(rows, s) == Visible(rows[1..], s)
  {}

  /** The first row adds its new value, when the update applies to it. */
  lemma MadeOfFirst(rows: Rows, s: Session, view: Database, where: (Database, Row) -> bool,
                    change: (Database, Row) -> Row)
    requires rows != []
    ensures Changed(Filter(Visible(rows, s), view, where), view, change)
         == (if Sees(s, rows[0]) && where(view, rows[0]) then [change(view, rows[0])] else [])
          + Changed(Filter(Visible(rows[1..], s), view, where), view, change)
  {
    SightOfFirst(rows, s);
    var rest := Filter(Visible(rows[1..], s), view, where);
    var applies := Sees(s, rows[0]) && where(view, rows[0]);
    assert Filter(Visible(rows, s), view, where) == if applies then [rows[0]] + rest else rest;
    assert ([rows[0]] + rest)[1..] == rest;
  }

  /** An update whose new rows are all accepted leaves the rows out of sight as they were. */
  lemma {:induction false} UpdateInSight(rows: Rows, s: Session, view: Database, where: (Database, Row) -> bool,
                                         change: (Database, Row) -> Row)
    requires AllAccepted(Changed(Filter(Visible(rows, s), view, where), view, change), s)
    ensures Visible(UpdateRows(rows, s, view, where, change), s) == UpdateRows(Visible(rows, s), s, view, where, change)
    ensures Hidden(UpdateRows(rows, s, view, where, change), s) == Hidden(rows, s)
  {
    if rows != [] {
      hide Sees, Filter, Changed;
      var row, rest := rows[0], rows[1..];
      var made := Changed(Filter(Visible(rest, s), view, where), view, change);
      var all := Changed(Filter(Visible(rows, s), view, where), view, change);
      MadeOfFirst(rows, s, view, where, change);
      var applies := Sees(s, row) && where(view, row);
      assert applies ==> all[0] == change(view, row);
      assert AllAccepted(made, s) by {
        forall i | 0 <= i < |made| ensures Sees(s, made[i]) { assert made[i] == all[if applies then i + 1 else i]; }
      }
      UpdateInSight(rest, s, view, where, change);
      SightOfFirst(rows, s);
      var now := if applies then change(view, row) else row;
      FirstInSight(now, UpdateRows(rest, s, view, where, change), s);
    }
  }

  lemma {:induction false} DeleteInSight(rows: Rows, s: Session, view: Database, where: (Database, Row) -> bool)
    ensures Visible(DeleteRows(rows, s, view, where), s) == DeleteRows(Visible(rows, s), s, view, where)
    ensures Hidden(DeleteRows(rows, s, view, where), s) == Hidden(rows, s)
  {
    if rows != [] {
      hide Sees;
      var row, rest := rows[0], rows[1..];
      DeleteInSight(rest, s, view, where);
      FirstInSight(row, DeleteRows(rest, s, view, where), s);
      SightOfFirst(rows, s);
      var left := DeleteRows(rest, s, view, where);
      assert DeleteRows(rows, s, view, where) == if Sees(s, row) && where(view, row) then left else [row] + left;
    }
  }

  lemma {:induction false} ViewOfView(db: Database, s: Session)
    ensures View(View(db, s), s) == View(db, s)
  {
    forall t | t in db ensures View(View(db, s), s)[t] == View(db, s)[t] {
      VisibleTwice(db[t], s);
    }
  }

  /** A statement run on the rows in sight alone gives the same answer and leaves the same rows in sight;
      the rows out of sight stay as they are. */
  lemma ApplyInSight(rows: Rows, view: Database, stmt: Statement, s: Session)
    ensures Apply(Visible(rows, s), view, stmt, s)
         == (Visible(Apply(rows, view, stmt, s).0, s), Apply(rows, view, stmt, s).1)
    ensures Hidden(Apply(rows, view, stmt, s).0, s) == Hidden(rows, s)
  {
    hide Visible, Hidden, Sees, Filter, Changed, UpdateRows, DeleteRows;
    VisibleTwice(rows, s);
    match stmt {
      case Select(_, _) =>
      case Insert(_, values) =>
        JoinInSight(rows, values(view), s);
        if AllAccepted(values(view), s) { AcceptedInSight(values(view), s); }
      case Update(_, where, change) =>
        if AllAccepted(Changed(Filter(Visible(rows, s), view, where), view, change), s) {
          UpdateInSight(rows, s, view, where, change);
        }
      case Delete(_, where) =>
        DeleteInSight(rows, s, view, where);
    }
  }

  lemma VisibleTwice(rows: Rows, s: Session)
    ensures Visible(Visible(rows, s), s) == Visible(rows, s)
  {
    VisibleAccepted(rows, s);
    AcceptedInSight(Visible(rows, s), s);
  }

  /** Everything a statement answers, and shows in the rows in sight, depends on the rows in sight alone:
      run on those by themselves it gives the same answer and the same rows in sight afterwards. */
  lemma ExecOnView(db: Database, stmt: Statement, s: Session, workspace: Uuid)
    requires ActsIn(s, workspace)
    ensures Exec(db, stmt, s).1 == Exec(View(db, s), stmt, s).1
    ensures View(Exec(db, stmt, s).0, s) == Exec(View(db, s), stmt, s).0
  {
    hide Apply, Visible, AnyFails, ActsIn;
    ViewOfView(db, s);
    if stmt.table in db {
      var rows := db[stmt.table];
      NoneFails(rows, s, workspace);
      NoneFails(Visible(rows, s), s, workspace);
      ApplyInSight(rows, View(db, s), stmt, s);
    }
  }

  lemma {:induction false} FilterSelects(rows: Rows, view: Database, where: (Database, Row) -> bool)
    ensures forall row :: row in Filter(rows, view, where) <==> row in rows && where(view, row)
  {
    if rows != [] { FilterSelects(rows[1..], view, where); }
  }

  lemma {:induction false} VisibleMembers(rows: Rows, s: Session)
    ensures forall row :: row in Visible(rows, s) <==> row in rows && Sees(s, row)
  {
    if rows != [] { VisibleMembers(rows[1..], s); }
  }

  /** A select answers with the matching rows of the workspace, all of them and no other. */
  lemma SelectsOwn(db: Database, stmt: Statement, s: Session, workspace: Uuid)
    requires ActsIn(s, workspace) && stmt.Select? && stmt.table in db
    ensures Exec(db, stmt, s).1.Selected?
    ensures forall row :: row in Exec(db, stmt, s).1.rows <==>
      row in db[stmt.table] && row.workspace == Some(workspace) && stmt.where(View(db, s), row)
  {
    hide Visible, Filter, Sees, Fails, AnyFails;
    var rows := db[stmt.table];
    NoneFails(rows, s, workspace);
    VisibleMembers(rows, s);
    FilterSelects(Visible(rows, s), View(db, s), stmt.where);
    forall row ensures Sees(s, row) <==> row.workspace == Some(workspace) { SeesOwn(s, workspace, row); }
  }

  /** No statement changes a row out of sight. */
  lemma ExecKeepsOthers(db: Database, stmt: Statement, s: Session, t: string)
    requires t in db
    ensures Exec(db, stmt, s).0.Keys == db.Keys
    ensures Hidden(Exec(db, stmt, s).0[t], s) == Hidden(db[t], s)
  {
    hide Apply, Hidden;
    if stmt.table in db { ApplyInSight(db[stmt.table], View(db, s), stmt, s); }
  }

  /** The workspace's own row, and one the statement is after. */
  predicate Meant(workspace: Uuid, row: Row, view: Database, where: (Database, Row) -> bool) {
    row.workspace == Some(workspace) && where(view, row)
  }

  /** A delete takes away exactly the workspace's own matching rows, and says how many. */
  lemma DeletesOwn(db: Database, stmt: Statement, s: Session, workspace: Uuid, row: Row)
    requires ActsIn(s, workspace) && stmt.Delete? && stmt.table in db
    ensures var (after, answer) := Exec(db, stmt, s);
      && stmt.table in after
      && Times(after[stmt.table], row)
           == (if Meant(workspace, row, View(db, s), stmt.where) then 0 else Times(db[stmt.table], row))
      && answer.Wrote? && answer.count == |db[stmt.table]| - |after[stmt.table]|
      && forall t :: t in db && t != stmt.table ==> t in after && after[t] == db[t]
  {
    NoneFails(db[stmt.table], s, workspace);
    hide Meant, AnyFails, Fails, View, Visible, Filter, DeleteRows, Times;
    RowsDeleted(db[stmt.table], s, workspace, View(db, s), stmt.where, row);
  }

  lemma {:induction false} RowsDeleted(rows: Rows, s: Session, workspace: Uuid, view: Database,
                                       where: (Database, Row) -> bool, row: Row)
    requires ActsIn(s, workspace)
    ensures Times(DeleteRows(rows, s, view, where), row)
         == if Meant(workspace, row, view, where) then 0 else Times(rows, row)
    ensures |Filter(Visible(rows, s), view, where)| == |rows| - |DeleteRows(rows, s, view, where)|
  {
    if rows != [] {
      hide ActsIn, Sees;
      var first, rest := rows[0], rows[1..];
      SeesOwn(s, workspace, first);
      RowsDeleted(rest, s, workspace, view, where, row);
      var left := DeleteRows(rest, s, view, where);
      TimesOfJoin(if Sees(s, first) && where(view, first) then [] else [first], left, row);
      SightOfFirst(rows, s);
    }
  }

  /** An update changes exactly the workspace's own matching rows, each in its place, unless one of the new
      rows would not be the workspace's own: then it is refused and changes nothing. */
  lemma UpdatesOwn(db: Database, stmt: Statement, s: Session, workspace: Uuid)
    requires ActsIn(s, workspace) && stmt.Update? && stmt.table in db
    ensures var (after, answer) := Exec(db, stmt, s);
      var rows, view := db[stmt.table], View(db, s);
      && (answer == Refused <==>
            exists row :: row in rows && Meant(workspace, row, view, stmt.where)
                          && stmt.change(view, row).workspace != Some(workspace))
      && (answer == Refused ==> after == db)
      && (answer != Refused ==>
            && stmt.table in after && |after[stmt.table]| == |rows|
            && (forall t :: t in db && t != stmt.table ==> t in after && after[t] == db[t])
            && answer.Wrote?
            && forall i :: 0 <= i < |rows| ==>
                 after[stmt.table][i]
                   == if Meant(workspace, rows[i], view, stmt.where) then stmt.change(view, rows[i]) else rows[i])
  {
    var rows, view := db[stmt.table], View(db, s);
    NoneFails(rows, s, workspace);
    hide Meant, AnyFails, Fails, View, Visible, Filter, Changed, UpdateRows, AllAccepted;
    RowsUpdated(rows, s, workspace, view, stmt.where, stmt.change);
    ChangesAccepted(rows, s, workspace, view, stmt.where, stmt.change);
  }

  lemma {:induction false} RowsUpdated(rows: Rows, s: Session, workspace: Uuid, view: Database,
                                       where: (Database, Row) -> bool, change: (Database, Row) -> Row)
    requires ActsIn(s, workspace)
    ensures |UpdateRows(rows, s, view, where, change)| == |rows|
    ensures forall i :: 0 <= i < |rows| ==>
      UpdateRows(rows, s, view, where, change)[i]
        == if Meant(workspace, rows[i], view, where) then change(view, rows[i]) else rows[i]
  {
    if rows != [] {
      hide ActsIn, Sees;
      SeesOwn(s, workspace, rows[0]);
      RowsUpdated(rows[1..], s, workspace, view, where, change);
    }
  }

  lemma ChangesAccepted(rows: Rows, s: Session, workspace: Uuid, view: Database,
                        where: (Database, Row) -> bool, change: (Database, Row) -> Row)
    requires ActsIn(s, workspace)
    ensures AllAccepted(Changed(Filter(Visible(rows, s), view, where), view, change), s) <==>
      forall row :: row in rows && Meant(workspace, row, view, where) ==> change(view, row).workspace == Some(workspace)
  {
    hide ActsIn, Sees, Visible, Filter, Changed;
    var meant := Filter(Visible(rows, s), view, where);
    VisibleMembers(rows, s);
    FilterSelects(Visible(rows, s), view, where);
    ChangedInPlace(meant, view, change);
    var made := Changed(meant, view, change);
    forall row ensures Sees(s, row) <==> row.workspace == Some(workspace) { SeesOwn(s, workspace, row); }
    assert forall i :: 0 <= i < |meant| ==> meant[i] in meant;
    forall row | row in meant && AllAccepted(made, s) ensures Sees(s, change(view, row)) {
      var i :| 0 <= i < |meant| && meant[i] == row;
      assert Sees(s, made[i]);
    }
  }

  lemma {:induction false} ChangedInPlace(rows: Rows, view: Database, change: (Database, Row) -> Row)
    ensures |Changed(rows, view, change)| == |rows|
    ensures forall i :: 0 <= i < |rows| ==> Changed(rows, view, change)[i] == change(view, rows[i])
  {
    if rows != [] { ChangedInPlace(rows[1..], view, change); }
  }

  /** An insert puts its rows there, all of them, if they are all the workspace's own; otherwise it is
      refused and puts none. */
  lemma InsertsOwn(db: Database, stmt: Statement, s: Session, workspace: Uuid)
    requires ActsIn(s, workspace) && stmt.Insert? && stmt.table in db
    ensures var (after, answer) := Exec(db, stmt, s);
      var values := stmt.values(View(db, s));
      if forall i :: 0 <= i < |values| ==> values[i].workspace == Some(workspace)
      then answer == Wrote(|values|) && after == db[stmt.table := db[stmt.table] + values]
      else answer == Refused && after == db
  {
    var values := stmt.values(View(db, s));
    NoneFails(db[stmt.table], s, workspace);
    hide AnyFails, Fails, View;
    forall i | 0 <= i < |values| ensures Sees(s, values[i]) <==> values[i].workspace == Some(workspace) {
      SeesOwn(s, workspace, values[i]);
    }
  }

  // ---- whole transactions --------------------------------------------------

  /** A whole transaction likewise: on the rows in sight by themselves it gives the same answers. */
  lemma {:induction false} RunOnView(client: seq<Result> -> Statement, n: nat, db: Database, s: Session,
                                     workspace: Uuid)
    requires ActsIn(s, workspace)
    ensures Run(client, n, db, s).1 == Run(client, n, View(db, s), s).1
    ensures View(Run(client, n, db, s).0, s) == Run(client, n, View(db, s), s).0
  {
    hide ActsIn, View, Exec;
    if n > 0 {
      RunOnView(client, n - 1, db, s, workspace);
      var (now, results) := Run(client, n - 1, db, s);
      ExecOnView(now, client(results), s, workspace);
    }
  }

  /** A transaction answers its statements in turn: each as the statement alone would be on what those
      before it left, until one is refused, and with `Aborted` after that. */
  lemma {:induction false} AnswersInTurn(client: seq<Result> -> Statement, n: nat, k: nat, db: Database, s: Session)
    requires k < n
    ensures |Run(client, n, db, s).1| == n && Run(client, n, db, s).1[..k] == Run(client, k, db, s).1
    ensures var (before, answers) := Run(client, k, db, s);
      && (Refused !in answers ==>
            && Run(client, n, db, s).1[k] == Exec(before, client(answers), s).1
            && Run(client, k + 1, db, s).0 == Exec(before, client(answers), s).0)
      && (Refused in answers ==> Run(client, n, db, s).1[k] == Aborted)
    decreases n
  {
    hide Exec;
    if k < n - 1 {
      AnswersInTurn(client, n - 1, k, db, s);
      var all := Run(client, n - 1, db, s).1;
      assert Run(client, n, db, s).1[..n - 1] == all;
    } else {
      RunLength(client, k, db, s);
    }
  }

  lemma {:induction false} RunLength(client: seq<Result> -> Statement, n: nat, db: Database, s: Session)
    ensures |Run(client, n, db, s).1| == n
  {
    hide Exec;
    if n > 0 { RunLength(client, n - 1, db, s); }
  }

  /** Refused anywhere, nothing of it is committed; otherwise all its statements are. */
  lemma CommitsAllOrNothing(client: seq<Result> -> Statement, n: nat, db: Database, s: Session)
    ensures Committed(client, n, db, s)
         == if exists k :: 0 <= k < n && k < |Run(client, n, db, s).1| && Run(client, n, db, s).1[k] == Refused
            then db else Run(client, n, db, s).0
  {
    hide Run;
    RunLength(client, n, db, s);
  }

  lemma {:induction false} RunKeepsOthers(client: seq<Result> -> Statement, n: nat, db: Database, s: Session, t: string)
    requires t in db
    ensures t in Run(client, n, db, s).0
    ensures Hidden(Run(client, n, db, s).0[t], s) == Hidden(db[t], s)
  {
    hide Exec;
    if n > 0 {
      RunKeepsOthers(client, n - 1, db, s, t);
      var (now, results) := Run(client, n - 1, db, s);
      ExecKeepsOthers(now, client(results), s, t);
    }
  }

  /** The rows of every other workspace, in their order. */
  function OfOthers(rows: Rows, workspace: Uuid): Rows {
    if rows == [] then []
    else (if rows[0].workspace == Some(workspace) then [] else [rows[0]]) + OfOthers(rows[1..], workspace)
  }

  function OfOwn(rows: Rows, workspace: Uuid): Rows {
    if rows == [] then []
    else (if rows[0].workspace == Some(workspace) then [rows[0]] else []) + OfOwn(rows[1..], workspace)
  }

  lemma {:induction false} SightIsOwn(rows: Rows, s: Session, workspace: Uuid)
    requires ActsIn(s, workspace)
    ensures Visible(rows, s) == OfOwn(rows, workspace) && Hidden(rows, s) == OfOthers(rows, workspace)
  {
    if rows != [] {
      SeesOwn(s, workspace, rows[0]);
      SightIsOwn(rows[1..], s, workspace);
    }
  }

  /** Whatever a transaction that carries a workspace asks, committed or not, the rows of every other
      workspace stay as they are. */
  lemma {:induction false} OthersUnchanged(client: seq<Result> -> Statement, n: nat, db: Database, s: Session,
                                           workspace: Uuid, t: string)
    requires ActsIn(s, workspace) && t in db
    ensures t in Committed(client, n, db, s)
    ensures OfOthers(Committed(client, n, db, s)[t], workspace) == OfOthers(db[t], workspace)
  {
    RunKeepsOthers(client, n, db, s, t);
    SightIsOwn(db[t], s, workspace);
    SightIsOwn(Committed(client, n, db, s)[t], s, workspace);
  }

  /** What the two sessions see of a database is the same when they carry the same workspace. */
  lemma ViewIsOwn(db: Database, s: Session, workspace: Uuid)
    requires ActsIn(s, workspace)
    ensures View(db, s) == map t | t in db :: OfOwn(db[t], workspace)
  {
    forall t | t in db ensures Visible(db[t], s) == OfOwn(db[t], workspace) { SightIsOwn(db[t], s, workspace); }
  }

  predicate AgreeOn(a: Database, b: Database, workspace: Uuid) {
    a.Keys == b.Keys && forall t :: t in a ==> OfOwn(a[t], workspace) == OfOwn(b[t], workspace)
  }

  /** On two databases that agree on the workspace's rows a transaction gets the same answers and leaves
      them agreeing, even when the two are evaluated in different orders. */
  lemma {:induction false} NonInterference(client: seq<Result> -> Statement, n: nat, a: Database, b: Database,
                                         sa: Session, sb: Session, workspace: Uuid)
    requires ActsIn(sa, workspace) && ActsIn(sb, workspace) && AgreeOn(a, b, workspace)
    ensures Run(client, n, a, sa).1 == Run(client, n, b, sb).1
    ensures AgreeOn(Committed(client, n, a, sa), Committed(client, n, b, sb), workspace)
  {
    ViewIsOwn(a, sa, workspace);
    ViewIsOwn(b, sb, workspace);
    assert View(a, sa) == View(b, sb);
    RunOnView(client, n, a, sa, workspace);
    RunOnView(client, n, b, sb, workspace);
    OrderDoesNotMatter(client, n, View(a, sa), sa, sb, workspace);
    ViewIsOwn(Committed(client, n, a, sa), sa, workspace);
    ViewIsOwn(Committed(client, n, b, sb), sb, workspace);
    SameOwn(Committed(client, n, a, sa), Committed(client, n, b, sb), sa, sb, workspace);
  }

  lemma SameOwn(a: Database, b: Database, sa: Session, sb: Session, workspace: Uuid)
    requires ActsIn(sa, workspace) && ActsIn(sb, workspace) && View(a, sa) == View(b, sb)
    ensures AgreeOn(a, b, workspace)
  {
    assert a.Keys == View(a, sa).Keys && b.Keys == View(b, sb).Keys;
    forall t | t in a ensures OfOwn(a[t], workspace) == OfOwn(b[t], workspace) {
      SightIsOwn(a[t], sa, workspace);
      SightIsOwn(b[t], sb, workspace);
      assert View(a, sa)[t] == View(b, sb)[t];
    }
  }

  /** The order of evaluation changes nothing. */
  lemma {:induction false} OrderDoesNotMatter(client: seq<Result> -> Statement, n: nat, db: Database,
                                              sa: Session, sb: Session, workspace: Uuid)
    requires ActsIn(sa, workspace) && ActsIn(sb, workspace)
    ensures Run(client, n, db, sa) == Run(client, n, db, sb)
  {
    hide ActsIn, Exec;
    if n > 0 {
      OrderDoesNotMatter(client, n - 1, db, sa, sb, workspace);
      var (now, results) := Run(client, n - 1, db, sa);
      SameExec(now, client(results), sa, sb, workspace);
    }
  }

  lemma SameExec(db: Database, stmt: Statement, sa: Session, sb: Session, workspace: Uuid)
    requires ActsIn(sa, workspace) && ActsIn(sb, workspace)
    ensures Exec(db, stmt, sa) == Exec(db, stmt, sb)
  {
    ViewIsOwn(db, sa, workspace);
    ViewIsOwn(db, sb, workspace);
    if stmt.table in db {
      hide Visible, Sees, Fails, Filter, Changed, UpdateRows, DeleteRows, AllAccepted;
      var rows, view := db[stmt.table], View(db, sa);
      NoneFails(rows, sa, workspace);
      NoneFails(rows, sb, workspace);
      SightIsOwn(rows, sa, workspace);
      SightIsOwn(rows, sb, workspace);
      match stmt {
        case Select(_, _) =>
        case Insert(_, values) => SameAccepted(values(view), sa, sb, workspace);
        case Update(_, where, change) =>
          SameAccepted(Changed(Filter(Visible(rows, sa), view, where), view, change), sa, sb, workspace);
          SameUpdate(rows, sa, sb, workspace, view, where, change);
        case Delete(_, where) => SameDelete(rows, sa, sb, workspace, view, where);
      }
    }
  }

  lemma SameAccepted(rows: Rows, sa: Session, sb: Session, workspace: Uuid)
    requires ActsIn(sa, workspace) && ActsIn(sb, workspace)
    ensures AllAccepted(rows, sa) <==> AllAccepted(rows, sb)
  {
    forall i | 0 <= i < |rows| ensures Sees(sa, rows[i]) <==> Sees(sb, rows[i]) {
      SeesOwn(sa, workspace, rows[i]);
      SeesOwn(sb, workspace, rows[i]);
    }
  }

  lemma {:induction false} SameUpdate(rows: Rows, sa: Session, sb: Session, workspace: Uuid, view: Database,
                                      where: (Database, Row) -> bool, change: (Database, Row) -> Row)
    requires ActsIn(sa, workspace) && ActsIn(sb, workspace)
    ensures UpdateRows(rows, sa, view, where, change) == UpdateRows(rows, sb, view, where, change)
  {
    if rows != [] {
      SeesOwn(sa, workspace, rows[0]);
      SeesOwn(sb, workspace, rows[0]);
      SameUpdate(rows[1..], sa, sb, workspace, view, where, change);
    }
  }

  lemma {:induction false} SameDelete(rows: Rows, sa: Session, sb: Session, workspace: Uuid, view: Database,
                                      where: (Database, Row) -> bool)
    requires ActsIn(sa, workspace) && ActsIn(sb, workspace)
    ensures DeleteRows(rows, sa, view, where) == DeleteRows(rows, sb, view, where)
  {
    if rows != [] {
      SeesOwn(sa, workspace, rows[0]);
      SeesOwn(sb, workspace, rows[0]);
      SameDelete(rows[1..], sa, sb, workspace, view, where);
    }
  }

  /** A session without a workspace sees every row and is never refused. */
  lemma {:induction false} UnscopedSeesAll(rows: Rows, s: Session)
    requires Unscoped(s.setting)
    ensures Visible(rows, s) == rows && AllAccepted(rows, s) && !AnyFails(rows, s)
  {
    forall i | 0 <= i < |rows| ensures Sees(s, rows[i]) && !Fails(s, rows[i]) {
      PolicyDecides(Env(s.setting, rows[i].workspace), s.plan);
    }
    AcceptedInSight(rows, s);
  }
}
