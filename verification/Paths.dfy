/** C strings of the sandbox file helper, and the one path rule it applies before any syscall. */
module Paths {
  newtype byte = i: int | 0 <= i < 256

  /** A C string without its terminator. `argv` and directory entries carry no NUL. */
  type Bytes = seq<byte>

  const SLASH: byte := 47
  const DOT: byte := 46
  const MAX_PATH_BYTES := 4096
  const MAX_NAME_BYTES := 255

  /** `strchr(s + at, '/')`, with the end of the string standing for a null result. */
  function NextSlash(s: Bytes, at: nat): (i: nat)
    requires at <= |s|
    ensures at <= i <= |s|
    ensures SLASH !in s[at..i]
    ensures i < |s| ==> s[i] == SLASH
    decreases |s| - at
  {
    if at == |s| || s[at] == SLASH then at
    else
      var i := NextSlash(s, at + 1);
      assert s[at..i] == [s[at]] + s[at + 1..i];
      i
  }

  /** The names between slashes: always at least one, possibly empty. */
  function Segments(s: Bytes): (names: seq<Bytes>)
    ensures |names| >= 1
    decreases |s|
  {
    var i := NextSlash(s, 0);
    if i == |s| then [s] else [s[..i]] + Segments(s[i + 1..])
  }

  function Join(names: seq<Bytes>): Bytes
    requires |names| >= 1
  {
    if |names| == 1 then names[0] else names[0] + [SLASH] + Join(names[1..])
  }

  ghost predicate SlashFree(names: seq<Bytes>) {
    forall i :: 0 <= i < |names| ==> SLASH !in names[i]
  }

  /** The first slash is the position with no slash before it. */
  lemma {:induction false} FirstSlash(s: Bytes, at: nat, i: nat)
    requires at <= i <= |s| && SLASH !in s[at..i] && (i < |s| ==> s[i] == SLASH)
    ensures NextSlash(s, at) == i
    decreases i - at
  {
    if at < i {
      assert s[at..i] == [s[at]] + s[at + 1..i];
      FirstSlash(s, at + 1, i);
    }
  }

  /** `Segments` loses nothing: joining gives the path back, and no name holds a slash. */
  lemma {:induction false} JoinSegments(s: Bytes)
    ensures SlashFree(Segments(s))
    ensures Join(Segments(s)) == s
    decreases |s|
  {
    hide SlashFree;
    var i := NextSlash(s, 0);
    assert s[0..i] == s[..i];
    if i == |s| {
      assert s[..i] == s && [s] + [] == [s];
      SlashFreeMore(s, []);
    } else {
      var rest := Segments(s[i + 1..]);
      JoinSegments(s[i + 1..]);
      SlashFreeMore(s[..i], rest);
      assert ([s[..i]] + rest)[1..] == rest;
      assert s == s[..i] + [SLASH] + s[i + 1..];
    }
  }

  lemma SlashFreeMore(name: Bytes, names: seq<Bytes>)
    requires SLASH !in name && (names == [] || SlashFree(names))
    ensures SlashFree([name] + names)
  {}

  /** ... and it is the only such reading: any slash-free names joined split back into themselves. */
  lemma {:induction false} SegmentsJoin(names: seq<Bytes>)
    requires |names| >= 1 && SlashFree(names)
    ensures Segments(Join(names)) == names
    decreases |names|
  {
    var s, n := Join(names), |names[0]|;
    assert s[0..n] == names[0];
    FirstSlash(s, 0, n);
    if |names| > 1 {
      assert s[..n] == names[0] && s[n + 1..] == Join(names[1..]);
      SegmentsJoin(names[1..]);
    }
  }

  predicate RealName(name: Bytes) {
    0 < |name| <= MAX_NAME_BYTES && name != [DOT] && name != [DOT, DOT]
  }

  predicate AllReal(names: seq<Bytes>) {
    forall i :: 0 <= i < |names| ==> RealName(names[i])
  }

  /** What the helper promises of a path: relative, within length, every segment a real name. */
  predicate SafePath(rel: Bytes) {
    0 < |rel| < MAX_PATH_BYTES && AllReal(Segments(rel))
  }

  /** One turn of a pointer walk over segments: the name up to the next slash, then the rest. */
  lemma {:induction false} NextSegment(s: Bytes, at: nat)
    requires at <= |s|
    ensures var slash := NextSlash(s, at);
            Segments(s[at..]) == [s[at..slash]] + if slash == |s| then [] else Segments(s[slash + 1..])
  {
    var slash, rest := NextSlash(s, at), s[at..];
    assert rest[0..slash - at] == s[at..slash];
    FirstSlash(rest, 0, slash - at);
    if slash == |s| {
      assert s[at..slash] == rest;
    } else {
      assert rest[slash - at + 1..] == s[slash + 1..];
    }
  }

  /** Safety of a suffix is safety of its first name and of what follows the slash. */
  lemma {:induction false} AllRealFrom(s: Bytes, at: nat)
    requires at <= |s|
    ensures var slash := NextSlash(s, at);
            AllReal(Segments(s[at..])) <==>
              RealName(s[at..slash]) && (slash == |s| || AllReal(Segments(s[slash + 1..])))
  {
    NextSegment(s, at);
    var names, slash := Segments(s[at..]), NextSlash(s, at);
    assert names[0] == s[at..slash];
    if slash < |s| {
      var rest := Segments(s[slash + 1..]);
      assert names[1..] == rest;
      assert AllReal(rest) ==> forall i :: 1 <= i < |names| ==> names[i] == rest[i - 1];
      assert AllReal(names) ==> forall i :: 0 <= i < |rest| ==> rest[i] == names[i + 1];
    }
  }

  /** The span tests of the walk, read on the pointer, are the name rule. */
  lemma SpanTest(s: Bytes, at: nat, to: nat)
    requires at <= to <= |s|
    ensures RealName(s[at..to]) <==>
              var span := to - at;
              && span != 0 && span <= MAX_NAME_BYTES
              && !(span == 1 && s[at] == DOT)
              && !(span == 2 && s[at] == DOT && s[at + 1] == DOT)
  {
    var name := s[at..to];
    if to == at + 1 {
      assert name == [s[at]];
    } else if to == at + 2 {
      assert name == [s[at], s[at + 1]];
    }
  }

  /** `path_is_safe`: the pointer walk decides exactly `SafePath`; the leading slash needs no
      case of its own there, being an empty first segment. */
  method PathIsSafe(rel: Bytes) returns (safe: bool)
    ensures safe <==> SafePath(rel)
  {
    hide AllReal, RealName, Segments, NextSlash;
    var length := |rel|;
    if length == 0 || length >= MAX_PATH_BYTES {
      return false;
    }
    assert rel[0..] == rel;
    if rel[0] == SLASH {
      FirstSlash(rel, 0, 0);
      AllRealFrom(rel, 0);
      SpanTest(rel, 0, 0);
      return false;
    }
    var segment := 0;
    while true
      invariant 0 <= segment <= length
      invariant AllReal(Segments(rel)) == AllReal(Segments(rel[segment..]))
      decreases length - segment
    {
      var slash := NextSlash(rel, segment);
      AllRealFrom(rel, segment);
      var span := slash - segment;
      SpanTest(rel, segment, slash);
      if span == 0 || span > MAX_NAME_BYTES {
        return false;
      }
      if (span == 1 && rel[segment] == DOT) || (span == 2 && rel[segment] == DOT && rel[segment + 1] == DOT) {
        return false;
      }
      if slash == length {
        return true;
      }
      assert AllReal(Segments(rel[slash + 1..])) == AllReal(Segments(rel[segment..]));
      segment := slash + 1;
    }
  }
}
