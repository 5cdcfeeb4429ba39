/** The helper's directory listing: sorted bytewise, handed out in pages, names escaped as JSON strings. */
module Listing {
  import opened Options
  import opened Paths
  import opened Sequences
  import opened Sorting

  // ---- JSON strings --------------------------------------------------------

  const QUOTE: byte := 34
  const BACKSLASH: byte := 92
  const LETTER_U: byte := 117
  const ZERO: byte := 48

  /** A lower-case hexadecimal digit. */
  function HexDigit(d: int): byte
    requires 0 <= d < 16
  {
    if d < 10 then (48 + d) as byte else (87 + d) as byte
  }

  function EscapeByte(c: byte): Bytes {
    if c == QUOTE || c == BACKSLASH then [BACKSLASH, c]
    else if c < 32 then [BACKSLASH, LETTER_U, ZERO, ZERO, HexDigit(c as int / 16), HexDigit(c as int % 16)]
    else [c]
  }

  function Escape(raw: Bytes): Bytes {
    if raw == [] then [] else Escape(raw[..|raw| - 1]) + EscapeByte(raw[|raw| - 1])
  }

  /** `json_escape`, with what it prints as the result. */
  method JsonEscape(raw: Bytes) returns (out: Bytes)
    ensures out == Escape(raw)
  {
    out := [];
    for i := 0 to |raw|
      invariant out == Escape(raw[..i])
    {
      var c := raw[i];
      assert raw[..i + 1][..i] == raw[..i];
      if c == QUOTE || c == BACKSLASH {
        out := out + [BACKSLASH, c];
      } else if c < 32 {
        out := out + [BACKSLASH, LETTER_U, ZERO, ZERO, HexDigit(c as int / 16), HexDigit(c as int % 16)];
      } else {
        out := out + [c];
      }
    }
    assert raw[..|raw|] == raw;
  }

  function DigitValue(c: byte): Option<int> {
    if 48 <= c <= 57 then Some(c as int - 48)
    else if 97 <= c <= 102 then Some(c as int - 87)
    else if 65 <= c <= 70 then Some(c as int - 55)
    else None
  }

  function Hex4(s: Bytes): Option<int>
    requires |s| >= 4
  {
    var a, b, c, d := DigitValue(s[0]), DigitValue(s[1]), DigitValue(s[2]), DigitValue(s[3]);
    if a.None? || b.None? || c.None? || d.None? then None
    else Some(((a.value * 16 + b.value) * 16 + c.value) * 16 + d.value)
  }

  /** UTF-8 of a code point; the halves of surrogate pairs are none. */
  function Utf8(code: int): Option<Bytes> {
    if 0 <= code < 0x80 then Some([code as byte])
    else if 0x80 <= code < 0x800 then Some([(0xC0 + code / 64) as byte, (0x80 + code % 64) as byte])
    else if 0x800 <= code < 0x1_0000 && !(0xD800 <= code < 0xE000) then
      Some([(0xE0 + code / 4096) as byte, (0x80 + code / 64 % 64) as byte, (0x80 + code % 64) as byte])
    else if 0x1_0000 <= code < 0x11_0000 then
      Some([(0xF0 + code / 262144) as byte, (0x80 + code / 4096 % 64) as byte,
            (0x80 + code / 64 % 64) as byte, (0x80 + code % 64) as byte])
    else None
  }

  predicate Tail(s: Bytes, i: nat, from: int, to: int) {
    i < |s| && from <= s[i] as int <= to
  }

  /** How many bytes the first character of a text takes in UTF-8, by section 4 of RFC 3629; none when
      the text does not begin with one. */
  function CharLength(s: Bytes): (n: nat)
    ensures n <= |s| && n <= 4
    ensures forall i :: 1 <= i < n ==> s[i] >= 128
  {
    if s == [] then 0
    else
      var c := s[0] as int;
      if c < 128 then 1
      else if 0xC2 <= c < 0xE0 then if Tail(s, 1, 0x80, 0xBF) then 2 else 0
      else if 0xE0 <= c < 0xF0 then
        var from, to := if c == 0xE0 then 0xA0 else 0x80, if c == 0xED then 0x9F else 0xBF;
        if Tail(s, 1, from, to) && Tail(s, 2, 0x80, 0xBF) then 3 else 0
      else if 0xF0 <= c < 0xF5 then
        var from, to := if c == 0xF0 then 0x90 else 0x80, if c == 0xF4 then 0x8F else 0xBF;
        if Tail(s, 1, from, to) && Tail(s, 2, 0x80, 0xBF) && Tail(s, 3, 0x80, 0xBF) then 4 else 0
      else 0
  }

  predicate ValidUtf8(s: Bytes) {
    s == [] || (CharLength(s) > 0 && ValidUtf8(s[CharLength(s)..]))
  }

  /** The code of `\uXXXX`, or of two of them that make a surrogate pair, and how many bytes were read. */
  function ReadCode(s: Bytes): Option<(int, nat)>
    requires |s| >= 6
  {
    match Hex4(s[2..])
    case None => None
    case Some(code) =>
      if 0xD800 <= code < 0xDC00 && |s| >= 12 && s[6] == BACKSLASH && s[7] == LETTER_U then
        var low := Hex4(s[8..]);
        if low.Some? && 0xDC00 <= low.value < 0xE000
        then Some((0x1_0000 + (code - 0xD800) * 1024 + low.value - 0xDC00, 12))
        else None
      else Some((code, 6))
  }

  /** One character of a JSON string by section 7 of RFC 8259, in UTF-8 as section 8.1 has it: its bytes,
      and how many were read. */
  function ReadChar(s: Bytes): Option<(Bytes, nat)>
    requires s != [] && s[0] != QUOTE
  {
    if s[0] < 32 then None
    else if s[0] != BACKSLASH then
      if CharLength(s) == 0 then None else Some((s[..CharLength(s)], CharLength(s)))
    else if |s| < 2 then None
    else if s[1] == QUOTE || s[1] == BACKSLASH || s[1] == SLASH then Some(([s[1]], 2))
    else if s[1] == 98 then Some(([8], 2))
    else if s[1] == 102 then Some(([12], 2))
    else if s[1] == 110 then Some(([10], 2))
    else if s[1] == 114 then Some(([13], 2))
    else if s[1] == 116 then Some(([9], 2))
    else if s[1] == LETTER_U && |s| >= 6 then
      match ReadCode(s) {
        case None => None
        case Some((code, n)) =>
          var bytes := Utf8(code);
          if bytes.None? then None else Some((bytes.value, n))
      }
    else None
  }

  /** A JSON string read from just after its opening quote: its value and what follows the closing one. */
  function ReadString(s: Bytes): Option<(Bytes, Bytes)> {
    if s == [] then None
    else if s[0] == QUOTE then Some(([], s[1..]))
    else
      match ReadChar(s)
      case None => None
      case Some((bytes, n)) =>
        if n == 0 || n > |s| then None
        else
          match ReadString(s[n..])
          case None => None
          case Some((value, rest)) => Some((bytes + value, rest))
  }

  lemma ReadEscaped(c: byte, rest: Bytes)
    requires c < 128
    ensures EscapeByte(c) != [] && EscapeByte(c)[0] != QUOTE
    ensures ReadChar(EscapeByte(c) + rest) == Some(([c], |EscapeByte(c)|))
  {
    var s := EscapeByte(c) + rest;
    if c < 32 {
      assert s[2..][0] == ZERO && s[2..][1] == ZERO;
      assert s[2..][2] == HexDigit(c as int / 16) && s[2..][3] == HexDigit(c as int % 16);
      assert DigitValue(HexDigit(c as int / 16)) == Some(c as int / 16);
      assert DigitValue(HexDigit(c as int % 16)) == Some(c as int % 16);
      assert Hex4(s[2..]) == Some(c as int);
    }
  }

  lemma {:induction false} EscapeFromFront(raw: Bytes)
    requires raw != []
    ensures Escape(raw) == EscapeByte(raw[0]) + Escape(raw[1..])
  {
    hide EscapeByte;
    var n := |raw| - 1;
    if n > 0 {
      EscapeFromFront(raw[..n]);
      assert raw[..n][1..] == raw[1..][..n - 1];
      assert Escape(raw[1..]) == Escape(raw[1..][..n - 1]) + EscapeByte(raw[n]);
    } else {
      assert raw[..0] == raw[1..] == [];
    }
  }

  lemma HighPrinted(c: byte)
    requires c >= 128
    ensures EscapeByte(c) == [c]
  {}

  /** Bytes from 128 on are printed as they are. */
  lemma {:induction false} EscapeHigh(raw: Bytes, k: nat)
    requires k <= |raw| && forall i :: 0 <= i < k ==> raw[i] >= 128
    ensures Escape(raw) == raw[..k] + Escape(raw[k..])
  {
    hide Escape, EscapeByte;
    if k > 0 {
      var rest := raw[1..];
      EscapeFromFront(raw);
      HighPrinted(raw[0]);
      EscapeHigh(rest, k - 1);
      assert rest[k - 1..] == raw[k..] && raw[..k] == [raw[0]] + rest[..k - 1];
    } else {
      assert raw[0..] == raw;
    }
  }

  /** The bytes from 128 on that a text begins with. */
  function HighRun(s: Bytes): (k: nat)
    ensures k <= |s|
    ensures forall i :: 0 <= i < k ==> s[i] >= 128
    ensures k < |s| ==> s[k] < 128
  {
    if s == [] || s[0] < 128 then 0 else 1 + HighRun(s[1..])
  }

  /** The length of a first character beyond ASCII is decided by the bytes from 128 on. */
  lemma SameChar(a: Bytes, b: Bytes, k: nat)
    requires 0 < k <= |a| && k <= |b| && a[..k] == b[..k] && a[0] >= 128
    requires (k < |a| ==> a[k] < 128) && (k < |b| ==> b[k] < 128)
    ensures CharLength(a) == CharLength(b) <= k
  {
    assert forall i :: 0 <= i < k ==> a[i] == a[..k][i] == b[i];
  }

  /** An escaped name begins with the same run of such bytes. */
  lemma SameRun(name: Bytes, rest: Bytes)
    ensures var s, k := Escape(name) + [QUOTE] + rest, HighRun(name);
            k < |s| && s[..k] == name[..k] && s[k] < 128
  {
    hide Escape, EscapeByte;
    var s, k := Escape(name) + [QUOTE] + rest, HighRun(name);
    EscapeHigh(name, k);
    if k < |name| {
      EscapeFromFront(name[k..]);
      EscapedIsAscii(name[k]);
      assert s[k] == EscapeByte(name[k])[0];
    } else {
      NothingEscaped();
      assert name[k..] == [] && s[k] == QUOTE;
    }
  }

  lemma NothingEscaped()
    ensures Escape([]) == []
  {}

  /** The first character of an escaped name is that of the name. */
  lemma HighChar(name: Bytes, rest: Bytes)
    requires name != [] && name[0] >= 128
    ensures var s, n := Escape(name) + [QUOTE] + rest, CharLength(name);
      && s != [] && s[0] == name[0] && CharLength(s) == n && n <= |s|
      && s[..n] == name[..n] && s[n..] == Escape(name[n..]) + [QUOTE] + rest
  {
    hide Escape, CharLength, HighRun;
    var s, k, n := Escape(name) + [QUOTE] + rest, HighRun(name), CharLength(name);
    SameRun(name, rest);
    assert s[0] == s[..k][0];
    SameChar(name, s, k);
    Pieces(name, n, rest);
  }

  lemma Pieces(name: Bytes, n: nat, rest: Bytes)
    requires n <= |name| && forall i :: 0 <= i < n ==> name[i] >= 128
    ensures var s := Escape(name) + [QUOTE] + rest;
            n <= |s| && s[..n] == name[..n] && s[n..] == Escape(name[n..]) + [QUOTE] + rest
  {
    hide Escape;
    EscapeHigh(name, n);
    assert Escape(name) + [QUOTE] + rest == name[..n] + (Escape(name[n..]) + [QUOTE] + rest);
  }

  lemma EscapedIsAscii(c: byte)
    requires c < 128
    ensures EscapeByte(c) != [] && EscapeByte(c)[0] < 128
  {}

  /** Reading takes the first character of the name, if it is one, and goes on with the rest. */
  lemma ReadsFirst(name: Bytes, rest: Bytes)
    requires name != []
    ensures var s, n := Escape(name) + [QUOTE] + rest, CharLength(name);
            ReadString(s) == if n == 0 then None else After(name[..n], ReadString(Escape(name[n..]) + [QUOTE] + rest))
  {
    hide EscapeByte, ReadChar, CharLength;
    var s, n := Escape(name) + [QUOTE] + rest, CharLength(name);
    if name[0] < 128 {
      var c, next := EscapeByte(name[0]), Escape(name[1..]) + [QUOTE] + rest;
      EscapeFromFront(name);
      ReadEscaped(name[0], next);
      AsciiChar(name);
      assert s == c + next;
      assert s[0] == c[0] && s[|c|..] == next && name[..1] == [name[0]];
    } else {
      HighChar(name, rest);
      ReadHigh(s);
    }
  }

  function After(bytes: Bytes, read: Option<(Bytes, Bytes)>): Option<(Bytes, Bytes)> {
    match read case None => None case Some((value, rest)) => Some((bytes + value, rest))
  }

  lemma AsciiChar(name: Bytes)
    requires name != [] && name[0] < 128
    ensures CharLength(name) == 1
  {}

  lemma ReadHigh(s: Bytes)
    requires s != [] && s[0] >= 128
    ensures ReadChar(s) == if CharLength(s) == 0 then None else Some((s[..CharLength(s)], CharLength(s)))
  {}

  /** Whatever follows it, an escaped name is read back as that name, up to the closing quote, if and only
      if the name is UTF-8. */
  lemma {:induction false} EscapedNameReadsBack(name: Bytes, rest: Bytes)
    ensures ReadString(Escape(name) + [QUOTE] + rest) == Some((name, rest)) <==> ValidUtf8(name)
    decreases |name|
  {
    hide Escape, ReadString, CharLength;
    if name == [] {
      NothingReadsBack(rest);
    } else {
      ReadsFirst(name, rest);
      var n := CharLength(name);
      if n > 0 {
        EscapedNameReadsBack(name[n..], rest);
        assert name == name[..n] + name[n..];
        var read := ReadString(Escape(name[n..]) + [QUOTE] + rest);
        if read.Some? && name[..n] + read.value.0 == name {
          assert read.value.0 == (name[..n] + read.value.0)[n..] == name[n..];
        }
      }
    }
  }

  lemma NothingReadsBack(rest: Bytes)
    ensures ReadString(Escape([]) + [QUOTE] + rest) == Some(([], rest))
  {
    assert [] + [QUOTE] + rest == [QUOTE] + rest && ([QUOTE] + rest)[1..] == rest;
  }

  /** A name that is not: the byte 255, which a directory may well list, is refused by every such reader. */
  lemma ByteThatDoesNotReadBack(rest: Bytes)
    ensures !ValidUtf8([255]) && ReadString(Escape([255]) + [QUOTE] + rest) == None
  {
    ReadsFirst([255], rest);
  }

  // ---- order by strcmp -----------------------------------------------------

  /** `strcmp(a, b) <= 0`: bytes compare as unsigned numbers, and an end comes first. */
  predicate Before(a: Bytes, b: Bytes) {
    a == [] || (b != [] && (a[0] < b[0] || (a[0] == b[0] && Before(a[1..], b[1..]))))
  }

  lemma {:induction false} BeforeIsTotal(a: Bytes, b: Bytes)
    ensures Before(a, b) || Before(b, a)
  {
    if a != [] && b != [] { BeforeIsTotal(a[1..], b[1..]); }
  }

  lemma {:induction false} BeforeBothWays(a: Bytes, b: Bytes)
    requires Before(a, b) && Before(b, a)
    ensures a == b
  {
    if a != [] {
      BeforeBothWays(a[1..], b[1..]);
      assert a == [a[0]] + a[1..] && b == [b[0]] + b[1..];
    }
  }

  lemma {:induction false} BeforeIsTransitive(a: Bytes, b: Bytes, c: Bytes)
    requires Before(a, b) && Before(b, c)
    ensures Before(a, c)
  {
    if a != [] && a[0] == b[0] == c[0] { BeforeIsTransitive(a[1..], b[1..], c[1..]); }
  }

  // ---- entries -------------------------------------------------------------

  datatype Stat = Stat(mode: nat, size: nat)

  /** One name `readdir` gives, and what `fstatat` says of it: nothing, when it is gone by then. */
  datatype Item = Item(name: Bytes, status: Option<Stat>)

  datatype Entry = Entry(name: Bytes, kind: string, size: nat, mode: nat)

  function FileFormat(mode: nat): nat {
    mode / 4096 % 16
  }

  function TypeName(mode: nat): string {
    match FileFormat(mode) case 8 => "file" case 4 => "directory" case 10 => "symlink" case _ => "other"
  }

  /** The entry array holds names of up to 255 bytes. */
  function Cut(name: Bytes): Bytes {
    if |name| <= MAX_NAME_BYTES then name else name[..MAX_NAME_BYTES]
  }

  function EntryOf(name: Bytes, status: Stat): Entry {
    Entry(Cut(name), TypeName(status.mode), if FileFormat(status.mode) == 8 then status.size else 0, status.mode % 4096)
  }

  predicate IsDot(name: Bytes) {
    name == [DOT] || name == [DOT, DOT]
  }

  predicate Counts(item: Item) {
    !IsDot(item.name) && item.status.Some?
  }

  /** The entries of the names read, in the order of reading. */
  function Entries(items: seq<Item>): seq<Entry> {
    if items == [] then []
    else
      var before, last := Entries(items[..|items| - 1]), items[|items| - 1];
      if Counts(last) then before + [EntryOf(last.name, last.status.value)] else before
  }

  predicate EarlierName(a: Entry, b: Entry) {
    Before(a.name, b.name)
  }

  function Sort(s: seq<Entry>): seq<Entry> {
    SortBy(s, EarlierName)
  }

  lemma NamesAreOrdered()
    ensures IsOrder(EarlierName)
  {
    hide Before;
    forall a: Entry, b: Entry ensures EarlierName(a, b) || EarlierName(b, a) { BeforeIsTotal(a.name, b.name); }
    forall a: Entry, b: Entry, c: Entry | EarlierName(a, b) && EarlierName(b, c) ensures EarlierName(a, c) {
      BeforeIsTransitive(a.name, b.name, c.name);
    }
  }

  /** Names as a directory has them: each once, and none longer than the kernel allows. */
  predicate IsDirectory(items: seq<Item>) {
    && (forall i, j :: 0 <= i < j < |items| ==> items[i].name != items[j].name)
    && (forall i :: 0 <= i < |items| ==> |items[i].name| <= MAX_NAME_BYTES)
  }

  lemma {:induction false} EntryIsOfItem(items: seq<Item>, e: Entry) returns (i: nat)
    requires e in Entries(items)
    ensures i < |items| && Counts(items[i]) && e == EntryOf(items[i].name, items[i].status.value)
  {
    var front := items[..|items| - 1];
    i := |front|;
    if e in Entries(front) { i := EntryIsOfItem(front, e); }
  }

  lemma DirectoryTells(items: seq<Item>)
    requires IsDirectory(items)
    ensures ToldApart(Entries(items), EarlierName)
  {
    hide Entries;
    forall e, f | e in Entries(items) && f in Entries(items) && EarlierName(e, f) && EarlierName(f, e) ensures e == f {
      BeforeBothWays(e.name, f.name);
      var i := EntryIsOfItem(items, e);
      var j := EntryIsOfItem(items, f);
      assert items[i].name == items[j].name;
    }
  }

  /** The multiset of entries follows from the multiset of what is read. */
  function EntriesOfItem(item: Item): multiset<Entry> {
    if Counts(item) then multiset{EntryOf(item.name, item.status.value)} else multiset{}
  }

  lemma EntriesOfLast(items: seq<Item>)
    requires items != []
    ensures multiset(Entries(items)) == multiset(Entries(items[..|items| - 1])) + EntriesOfItem(items[|items| - 1])
  {}

  lemma {:induction false} EntriesWithout(items: seq<Item>, i: nat)
    requires i < |items|
    ensures multiset(Entries(items)) == multiset(Entries(items[..i] + items[i + 1..])) + EntriesOfItem(items[i])
  {
    hide Entries, EntriesOfItem;
    var n := |items| - 1;
    EntriesOfLast(items);
    if i < n {
      EntriesWithout(items[..n], i);
      var less := items[..i] + items[i + 1..];
      EntriesOfLast(less);
      assert less[..|less| - 1] == items[..n][..i] + items[..n][i + 1..];
    } else {
      assert items[..i] + items[i + 1..] == items[..n];
    }
  }

  lemma {:induction false} EntriesOfPermutation(a: seq<Item>, b: seq<Item>)
    requires multiset(a) == multiset(b)
    ensures multiset(Entries(a)) == multiset(Entries(b))
    decreases |a|
  {
    hide Entries, EntriesOfItem;
    if a == [] {
      assert |multiset(b)| == |b| == 0;
    } else {
      var i := TakeOut(a, b);
      EntriesOfPermutation(a[1..], b[..i] + b[i + 1..]);
      EntriesWithout(a, 0);
      assert a[..0] + a[1..] == a[1..];
      EntriesWithout(b, i);
    }
  }

  /** The whole listing of a directory. */
  function Whole(items: seq<Item>): seq<Entry> {
    Sort(Entries(items))
  }

  /** The listing does not depend on the order in which the directory is read. */
  lemma ReadingOrderDoesNotMatter(a: seq<Item>, b: seq<Item>)
    requires IsDirectory(a) && multiset(a) == multiset(b)
    ensures Whole(a) == Whole(b)
  {
    hide Entries, IsDirectory;
    EntriesOfPermutation(a, b);
    DirectoryTells(a);
    NamesAreOrdered();
    SortOfPermutation(Entries(a), Entries(b), EarlierName);
  }

  // ---- what the listing is, name by name ----------------------------------

  /** A proper prefix comes first, and otherwise the one with the smaller byte where they first differ. */
  ghost predicate ComesFirst(a: Bytes, b: Bytes) {
    a < b || exists k :: 0 <= k < |a| && k < |b| && a[..k] == b[..k] && a[k] < b[k]
  }

  lemma {:induction false} BeforeMeans(a: Bytes, b: Bytes)
    requires Before(a, b) && a != b
    ensures ComesFirst(a, b)
    decreases |a|
  {
    if a != [] {
      if a[0] < b[0] {
        assert a[..0] == b[..0];
      } else {
        var x, y := a[1..], b[1..];
        assert a == [a[0]] + x && b == [b[0]] + y;
        BeforeMeans(x, y);
        if !(x < y) {
          var k :| 0 <= k < |x| && k < |y| && x[..k] == y[..k] && x[k] < y[k];
          assert a[..k + 1] == [a[0]] + x[..k] && b[..k + 1] == [b[0]] + y[..k];
          assert a[k + 1] == x[k] && b[k + 1] == y[k];
        }
      }
    }
  }

  lemma {:induction false} ListedOnce(items: seq<Item>, e: Entry)
    requires IsDirectory(items)
    ensures Times(Entries(items), e) <= 1
  {
    if items != [] {
      var front, last := items[..|items| - 1], items[|items| - 1];
      ListedOnce(front, e);
      if Counts(last) && e == EntryOf(last.name, last.status.value) {
        if e in Entries(front) {
          var i := EntryIsOfItem(front, e);
          assert items[i].name == items[|front|].name;
        }
        TimesIfIn(Entries(front), e);
        TimesOfJoin(Entries(front), [e], e);
      } else if Counts(last) {
        TimesOfJoin(Entries(front), [EntryOf(last.name, last.status.value)], e);
      }
    }
  }

  lemma {:induction false} TwiceIfAtTwo<T>(s: seq<T>, i: nat, j: nat)
    requires i < j < |s| && s[i] == s[j]
    ensures Times(s, s[i]) >= 2
  {
    if i == 0 {
      assert s[1..][j - 1] == s[0];
      TimesIfIn(s[1..], s[0]);
    } else {
      TwiceIfAtTwo(s[1..], i - 1, j - 1);
    }
  }

  /** The listing goes upwards bytewise and names nothing twice. */
  lemma ListedUpwards(items: seq<Item>, i: nat, j: nat)
    requires IsDirectory(items) && i < j < |Whole(items)|
    ensures ComesFirst(Whole(items)[i].name, Whole(items)[j].name)
    ensures Whole(items)[i].name != Whole(items)[j].name
  {
    hide Entries, Before, IsDirectory, ComesFirst;
    var entries, all := Entries(items), Whole(items);
    NamesAreOrdered();
    SortSorts(entries, EarlierName);
    SortKeeps(entries, EarlierName);
    DirectoryTells(items);
    if all[i].name == all[j].name {
      assert all[i] in multiset(entries) && all[j] in multiset(entries);
      BeforeIsTotal(all[i].name, all[i].name);
      assert all[i] == all[j];
      TwiceIfAtTwo(all, i, j);
      TimesOfSame(all, entries, all[i]);
      ListedOnce(items, all[i]);
    }
    BeforeMeans(all[i].name, all[j].name);
  }

  /** What an entry shows of a directory's name and its status: the kind by the format bits of the mode, a
      size for a regular file only, and the low twelve bits of the mode. */
  ghost predicate Shows(e: Entry, name: Bytes, status: Stat) {
    && e.name == name
    && (status.mode / 4096 % 16 == 8 ==> e.kind == "file" && e.size == status.size)
    && (status.mode / 4096 % 16 == 4 ==> e.kind == "directory")
    && (status.mode / 4096 % 16 == 10 ==> e.kind == "symlink")
    && (status.mode / 4096 % 16 !in {4, 8, 10} ==> e.kind == "other")
    && (status.mode / 4096 % 16 != 8 ==> e.size == 0)
    && e.mode == status.mode % 4096
  }

  /** Every entry shows a name read, other than `.` and `..`, that was still there to be looked at; and
      every such name is shown. */
  lemma ListsEach(items: seq<Item>)
    requires IsDirectory(items)
    ensures forall e :: e in Whole(items) ==> exists i :: 0 <= i < |items| && Tells(e, items[i])
    ensures forall i :: 0 <= i < |items| && items[i].name !in {[DOT], [DOT, DOT]} && items[i].status.Some? ==>
      exists e :: e in Whole(items) && Tells(e, items[i])
  {
    var entries, all := Entries(items), Whole(items);
    SortKeeps(entries, EarlierName);
    forall e | e in all ensures exists i :: 0 <= i < |items| && Tells(e, items[i]) {
      assert e in multiset(entries);
      var i := EntryIsOfItem(items, e);
      assert Tells(e, items[i]);
    }
    forall i | 0 <= i < |items| && items[i].name !in {[DOT], [DOT, DOT]} && items[i].status.Some?
      ensures exists e :: e in all && Tells(e, items[i])
    {
      var e := EntryOf(items[i].name, items[i].status.value);
      ItemHasEntry(items, i);
      assert e in multiset(all);
      assert Tells(e, items[i]);
    }
  }

  ghost predicate Tells(e: Entry, item: Item) {
    item.name != [DOT] && item.name != [DOT, DOT] && item.status.Some? && Shows(e, item.name, item.status.value)
  }

  lemma {:induction false} ItemHasEntry(items: seq<Item>, i: nat)
    requires i < |items| && Counts(items[i])
    ensures EntryOf(items[i].name, items[i].status.value) in Entries(items)
  {
    var n := |items| - 1;
    if i < n { ItemHasEntry(items[..n], i); }
  }

  // ---- pages ---------------------------------------------------------------

  function PageOf(all: seq<Entry>, offset: nat, limit: nat): seq<Entry> {
    if offset >= |all| then [] else if offset + limit <= |all| then all[offset..offset + limit] else all[offset..]
  }

  function Start(all: seq<Entry>, length: nat): seq<Entry> {
    if length <= |all| then all[..length] else all
  }

  /** The first `k` pages of `n` entries put together, each of its own reading of the directory. */
  function Joined(readings: seq<seq<Item>>, n: nat, k: nat): seq<Entry>
    requires k <= |readings|
  {
    if k == 0 then [] else Joined(readings, n, k - 1) + PageOf(Whole(readings[k - 1]), (k - 1) * n, n)
  }

  /** However each page's reading of an unchanging directory is ordered, consecutive pages are the start
      of its one listing, and all of it once there are enough of them. */
  lemma {:induction false} PagesJoin(items: seq<Item>, readings: seq<seq<Item>>, n: nat, k: nat)
    requires IsDirectory(items) && n > 0 && k <= |readings|
    requires forall r :: 0 <= r < k ==> multiset(readings[r]) == multiset(items)
    ensures Joined(readings, n, k) == Start(Whole(items), k * n)
  {
    hide Whole, IsDirectory, Start, PageOf;
    if k > 0 {
      var before := (k - 1) * n;
      PagesJoin(items, readings, n, k - 1);
      ReadingOrderDoesNotMatter(items, readings[k - 1]);
      NextPage(Whole(items), before, n);
      assert k * n == before + n;
    } else {
      NoPages(Whole(items));
    }
  }

  lemma NoPages(all: seq<Entry>)
    ensures Start(all, 0) == []
  {}

  lemma NextPage(all: seq<Entry>, offset: nat, limit: nat)
    ensures Start(all, offset) + PageOf(all, offset, limit) == Start(all, offset + limit)
  {}

  // ---- `run_list` ----------------------------------------------------------

  datatype Exit = Done | FilesystemError

  /** What one line of the output shows of an entry. */
  datatype Line = Line(path: Bytes, kind: string, size: nat, mode: nat)

  datatype Output = Output(lines: seq<Line>, total: nat)

  function LineOf(e: Entry): Line {
    Line(Escape(e.name), e.kind, e.size, e.mode)
  }

  /** `realloc` to a larger capacity; it fails when that is more than memory holds. */
  method Grow(entries: array<Entry>, count: nat, capacity: nat, memory: nat) returns (grown: array?<Entry>)
    requires count <= entries.Length <= capacity
    ensures grown == null <==> capacity > memory
    ensures grown != null ==> fresh(grown) && grown.Length == capacity && grown[..count] == entries[..count]
  {
    if capacity > memory { return null; }
    var copy := new Entry[capacity];
    for i := 0 to count
      invariant copy[..i] == entries[..i]
    {
      copy[i] := entries[i];
    }
    grown := copy;
  }

  /** The loop over `readdir`: `None` when memory ran out. */
  method ReadAll(items: seq<Item>, memory: nat) returns (entries: array?<Entry>, count: nat)
    ensures entries != null ==> fresh(entries) && count <= entries.Length && entries[..count] == Entries(items)
    ensures 2 * |items| + 64 <= memory ==> entries != null
  {
    var current := new Entry[0];
    count := 0;
    for i := 0 to |items|
      invariant fresh(current) && count <= i && count <= current.Length <= 2 * i + 64
      invariant current[..count] == Entries(items[..i])
    {
      var item := items[i];
      assert items[..i + 1][..i] == items[..i];
      if IsDot(item.name) { continue; }
      if count == current.Length {
        var capacity := if current.Length > 0 then current.Length * 2 else 64;
        var grown := Grow(current, count, capacity, memory);
        if grown == null { return null, 0; }
        current := grown;
      }
      if item.status.None? { continue; }
      current[count] := EntryOf(item.name, item.status.value);
      count := count + 1;
    }
    assert items[..|items|] == items;
    entries := current;
  }

  /** `qsort` by name. */
  method SortInPlace(entries: array<Entry>, count: nat)
    requires count <= entries.Length
    modifies entries
    ensures entries[..count] == Sort(old(entries[..count]))
  {
    var sorted := Sort(entries[..count]);
    SortKeeps(entries[..count], EarlierName);
    for i := 0 to count
      invariant entries[..i] == sorted[..i]
    {
      entries[i] := sorted[i];
    }
  }

  /** Each entry is in the page unless it comes before the offset or the page is full. */
  lemma PageGrows(all: seq<Entry>, i: nat, offset: nat, limit: nat)
    requires i < |all|
    ensures PageOf(all[..i + 1], offset, limit)
         == PageOf(all[..i], offset, limit)
          + if i < offset || |PageOf(all[..i], offset, limit)| >= limit then [] else [all[i]]
  {
    assert all[..i + 1] == all[..i] + [all[i]];
  }

  /** The loop that prints. */
  method PrintPage(entries: array<Entry>, count: nat, offset: nat, limit: nat) returns (lines: seq<Line>)
    requires count <= entries.Length
    ensures |lines| == |PageOf(entries[..count], offset, limit)|
    ensures forall k :: 0 <= k < |lines| ==> lines[k] == LineOf(PageOf(entries[..count], offset, limit)[k])
  {
    hide PageOf, Escape;
    ghost var all := entries[..count];
    NothingInPage(offset, limit);
    assert all[..0] == [];
    lines := [];
    for i := 0 to count
      invariant |lines| == |PageOf(all[..i], offset, limit)|
      invariant forall k :: 0 <= k < |lines| ==> lines[k] == LineOf(PageOf(all[..i], offset, limit)[k])
    {
      PageGrows(all, i, offset, limit);
      if i < offset || |lines| >= limit { continue; }
      assert entries[i] == all[i];
      var path := JsonEscape(entries[i].name);
      lines := lines + [Line(path, entries[i].kind, entries[i].size, entries[i].mode)];
    }
    assert all[..count] == all;
  }

  lemma NothingInPage(offset: nat, limit: nat)
    ensures PageOf([], offset, limit) == []
  {}

  lemma WholeIsSorted(items: seq<Item>)
    ensures Whole(items) == Sort(Entries(items)) && |Whole(items)| == |Entries(items)|
  {
    SortKeeps(Entries(items), EarlierName);
  }

  /** `run_list`, given whether the directory could be opened and the names read from it: one page of the
      sorted listing, and how many entries there are in all; nothing is printed when it fails, which only a
      lack of memory makes it do once the directory is open. */
  method RunList(isOpen: bool, items: seq<Item>, offset: nat, limit: nat, memory: nat) returns (exit: Exit, out: Output)
    ensures isOpen && 2 * |items| + 64 <= memory ==> exit == Done
    ensures !isOpen ==> exit == FilesystemError
    ensures exit == FilesystemError ==> out == Output([], 0)
    ensures exit == Done ==> out.total == |Whole(items)|
    ensures exit == Done ==> |out.lines| == |PageOf(Whole(items), offset, limit)|
    // as many lines as the page holds, each telling of its entry
    ensures exit == Done ==>
      |out.lines| == if offset >= |Whole(items)| then 0
                     else if |Whole(items)| - offset < limit then |Whole(items)| - offset else limit
    ensures exit == Done ==>
      forall k :: 0 <= k < |out.lines| ==>
        var e := Whole(items)[offset + k];
        out.lines[k] == Line(Escape(e.name), e.kind, e.size, e.mode)
  {
    hide Whole, Escape;
    out := Output([], 0);
    if !isOpen { return FilesystemError, out; }
    var entries, count := ReadAll(items, memory);
    if entries == null { return FilesystemError, out; }
    SortInPlace(entries, count);
    var lines := PrintPage(entries, count, offset, limit);
    WholeIsSorted(items);
    out := Output(lines, count);
    return Done, out;
  }
}
