/** The sandbox file helper: its system calls, each preceded by anything other processes may do, and
    the walk, write and read built on them. A call fails whenever the kernel pleases. */
module FileHelper {
  import opened Options
  import opened Paths
  import opened FileSystem

  const EXIT_OK := 0
  const EXIT_REFUSED := 1
  const EXIT_FS := 2
  const EXIT_TRUNCATED := 3
  const EXIT_OVER_LIMIT := 4
  const IO_CHUNK := 65536

  datatype Errno = SUCCESS | ENOENT | EEXIST | ELOOP | ENOTDIR | EFAULTY

  datatype Event =
    | Helper(before: FS, after: FS)
    | Others(before: FS, after: FS)

  /** One opened directory of the walk: which recorded call opened it, where, by what name. */
  datatype Hop = Hop(at: nat, from: Ino, name: Bytes, to: Ino)

  /** The record is one unbroken run, and nothing the helper did in it changed anything outside. */
  ghost predicate Recorded(log: seq<Event>, fs: FS) {
    && (forall k :: 0 <= k < |log| - 1 ==> log[k].after == log[k + 1].before)
    && (|log| > 0 ==> log[|log| - 1].after == fs)
    && (forall k :: 0 <= k < |log| && log[k].Helper? ==> OutsideUntouched(log[k].before, log[k].after))
  }

  /** Over a whole recorded run, what stays outside and is left alone by the other processes is at the
      end what it was at the start. */
  lemma {:induction false} OutsideSurvives(log: seq<Event>, fs: FS, i: Ino, n: nat)
    requires Recorded(log, fs) && 0 < n <= |log| && i in log[0].before.nodes
    requires forall k :: 0 <= k < n && log[k].Helper? ==> !Beneath(log[k].before, i)
    requires forall k :: 0 <= k < n && log[k].Others? && i in log[k].before.nodes ==>
      i in log[k].after.nodes && log[k].after.nodes[i] == log[k].before.nodes[i]
    ensures i in log[n - 1].after.nodes && log[n - 1].after.nodes[i] == log[0].before.nodes[i]
    decreases n
  {
    if n > 1 {
      OutsideSurvives(log, fs, i, n - 1);
      assert log[n - 2].after == log[n - 2 + 1].before;
    }
  }

  /** Whether another process changed anything since event `mark`. */
  ghost predicate Disturbed(log: seq<Event>, mark: nat) {
    exists k :: mark <= k < |log| && log[k].Others? && log[k].before != log[k].after
  }

  class Kernel {
    var fs: FS
    var fds: map<int, Ino>
    var nextFd: int
    var stdin: Bytes
    var stdout: Bytes         // what has left the process
    var buffered: Bytes       // what stdio still holds of it
    var position: nat         // of the file being read
    ghost var log: seq<Event>
    ghost var pins: Pins      // names other processes leave alone
    ghost var faults: nat     // calls that failed other than by a missing or an existing name

    ghost predicate Valid()
      reads `fs, `fds, `nextFd, `log
    {
      && WF(fs) && 0 <= nextFd
      && (forall f :: f in fds ==> 0 <= f < nextFd && Held(fs, fds[f]))
      && Recorded(log, fs)
    }

    /** Other processes run for a while. Callers know only the contract: the body, in which nothing
        happens, stands for every run the contract allows. */
    method OtherProcesses()
      modifies `fs
      ensures World(old(fs), fs, pins)
    {
      ghost var run := [fs];
      assert WorldRun(run, pins) && run[0] == fs && run[|run| - 1] == fs;
    }

    method Interfere()
      requires Valid()
      modifies `fs, `log
      ensures Valid() && Spares(old(fs), fs, pins) && Follows(old(fs), fs)
      ensures forall i :: Held(old(fs), i) ==> Held(fs, i)
      ensures log == old(log) + [Others(old(fs), fs)]
    {
      ghost var before := fs;
      OtherProcesses();
      ghost var run :| WorldRun(run, pins) && run[0] == before && run[|run| - 1] == fs;
      WorldKeeps(run, pins);
      log := log + [Others(before, fs)];
    }

    /** A system call takes effect. */
    method Commit(act: Act)
      requires Valid() && Enabled(fs, act) && LandsInside(fs, act) && !CarriesOut(fs, act)
      modifies `fs, `log
      ensures Valid() && fs == Do(old(fs), act) && Follows(old(fs), fs)
      ensures forall i :: Held(old(fs), i) ==> Held(fs, i)
      ensures log == old(log) + [Helper(old(fs), fs)]
    {
      StepKeepsWF(fs, act);
      LandingTouchesInside(fs, act);
      forall i | Held(fs, i) ensures Held(Do(fs, act), i) { StepKeepsHeld(fs, act, i); }
      ghost var before := fs;
      fs := Do(fs, act);
      log := log + [Helper(before, fs)];
    }

    /** A system call takes effect, or fails, without changing any file. */
    ghost method Note()
      requires Valid()
      modifies `log
      ensures Valid() && log == old(log) + [Helper(fs, fs)]
    {
      log := log + [Helper(fs, fs)];
    }

    /** A new descriptor. */
    method Install(i: Ino) returns (fd: int)
      requires Valid() && Held(fs, i)
      modifies `fds, `nextFd
      ensures Valid() && fd >= 0 && fd !in old(fds) && fds == old(fds)[fd := i]
    {
      fd := nextFd;
      fds, nextFd := fds[fd := i], nextFd + 1;
    }

    lemma RecordedLast()
      requires Valid() && log != []
      ensures log[|log| - 1].after == fs
    {}

    lemma HeldByDescriptor(fd: int)
      requires Valid() && fd in fds
      ensures Held(fs, fds[fd]) && WF(fs)
    {}

    // ---- system calls -------------------------------------------------------

    /** `dup`. */
    method Dup(fd: int) returns (copy: int)
      requires Valid() && fd in fds
      modifies `fs, `fds, `nextFd, `log, `faults
      ensures Valid() && Spares(old(fs), fs, pins) && Follows(old(fs), fs)
      ensures log == old(log) + [Others(old(fs), fs)]
      ensures if copy < 0 then fds == old(fds) && faults == old(faults) + 1
              else copy !in old(fds) && fds == old(fds)[copy := old(fds)[fd]] && faults == old(faults)
    {
      Interfere();
      var fails := *;
      if fails {
        faults := faults + 1;
        return -1;
      }
      copy := Install(fds[fd]);
    }

    method Close(fd: int)
      requires Valid() && fd in fds
      modifies `fds
      ensures Valid() && fds == old(fds) - {fd}
    {
      fds := fds - {fd};
    }

    /** `openat2` of one name as a directory, beneath and without symbolic links. */
    method OpenDirectory(at: int, name: Bytes) returns (fd: int, errno: Errno)
      requires Valid() && at in fds
      modifies `fs, `fds, `nextFd, `log, `faults
      ensures Valid() && Spares(old(fs), fs, pins) && Follows(old(fs), fs)
      ensures log == old(log) + [Others(old(fs), fs), Helper(fs, fs)]
      ensures fd < 0 ==> fds == old(fds) && errno != SUCCESS
      ensures fd < 0 && errno == ENOENT ==> !Bound(fs, fds[at], name) && faults == old(faults)
      ensures fd < 0 && errno != ENOENT ==> faults == old(faults) + 1
      ensures fd >= 0 ==>
        && errno == SUCCESS && faults == old(faults) && fd !in old(fds)
        && Bound(fs, old(fds)[at], name) && IsDir(fs, Entry(fs, old(fds)[at], name))
        && Inside(fs, Entry(fs, old(fds)[at], name))
        && fds == old(fds)[fd := Entry(fs, old(fds)[at], name)]
    {
      Interfere();
      Note();
      var d := fds[at];
      var fails := *;
      if fails {
        fd, errno := -1, EFAULTY;
      } else if !Bound(fs, d, name) {
        return -1, ENOENT;
      } else if !IsDir(fs, Entry(fs, d, name)) {
        fd, errno := -1, if See(fs, d, name).SomethingElse? then ELOOP else ENOTDIR;
      } else {
        assert Edge(fs, d, Entry(fs, d, name));
        ReachOn(fs, fs.root, d, Entry(fs, d, name));
        fd := Install(Entry(fs, d, name));
        return fd, SUCCESS;
      }
      faults := faults + 1;
    }

    /** `mkdirat`. */
    method MakeDirectory(at: int, name: Bytes) returns (errno: Errno, ghost mid: FS)
      requires Valid() && at in fds
      modifies `fs, `log, `faults
      ensures Valid() && Follows(old(fs), fs) && Follows(old(fs), mid)
      ensures log == old(log) + [Others(old(fs), mid), Helper(mid, fs)]
      ensures
        && (errno == SUCCESS ==>
          IsDir(mid, fds[at]) && !Bound(mid, fds[at], name) && fs == Do(mid, MkDir(fds[at], name)))
        && (errno == SUCCESS ==> Bound(fs, fds[at], name))
        && (errno != SUCCESS ==> fs == mid)
        && (errno == EEXIST ==> Bound(mid, fds[at], name))
      ensures OnlyAdds(mid, fs)
      ensures faults == if errno == SUCCESS || errno == EEXIST then old(faults) else old(faults) + 1
    {
      Interfere();
      mid := fs;
      var d := fds[at];
      var fails := *;
      if !fails && Bound(fs, d, name) {
        Note();
        errno := EEXIST;
      } else if !fails && IsDir(fs, d) {
        MakingOnlyAdds(fs, d, name);
        Commit(MkDir(d, name));
        errno := SUCCESS;
      } else {
        Note();
        faults := faults + 1;
        errno := if IsDir(fs, d) then EFAULTY else ENOENT;
      }
    }

    // ---- open_parent --------------------------------------------------------

    /** The next name of the path, copied into a buffer of fixed size; the bound on every access to
        it is the safety of the path. */
    method CopyName(rel: Bytes, segment: nat, slash: nat) returns (name: Bytes)
      requires segment <= slash <= |rel| && slash - segment <= MAX_NAME_BYTES
      ensures name == rel[segment..slash]
    {
      var buffer := new byte[MAX_NAME_BYTES + 1];
      var span := slash - segment;
      forall i | 0 <= i < span { buffer[i] := rel[segment + i]; }
      buffer[span] := 0;
      name := buffer[..span];
    }

    /** Opens one directory below `current`, making it when it is missing. */
    method Enter(current: int, name: Bytes) returns (next: int)
      requires Valid() && current in fds
      modifies `fs, `fds, `nextFd, `log, `faults
      ensures Valid() && old(log) < log
      ensures next < 0 ==> fds == old(fds) && (faults > old(faults) || Disturbed(log, |old(log)|))
      ensures next >= 0 ==>
        && next !in old(fds) && faults == old(faults) && next in fds && fds == old(fds)[next := fds[next]]
        && var hop := Hop(|log| - 1, old(fds)[current], name, fds[next]);
           Hopped(log, |old(log)|, old(fds)[current], hop) && Leads(fs, hop)
      ensures Disturbed(log, |old(log)|) || OnlyAdds(old(fs), fs)
      ensures log[|old(log)|].before == old(fs) && Makes(log, |old(log)|, {(old(fds)[current], name)})
      // a directory made by another meanwhile serves as well: only one taken away again does not
      ensures next < 0 && faults == old(faults) ==> Lost(log, |old(log)|, fs, old(fds)[current], name)
    {
      hide Valid, WF, Disturbed, Lost, Held, Follows, Spares, Inside, Do, Makes;
      ghost var stops := {(fds[current], name)};
      NothingMade(log, stops);
      var errno;
      next, errno := OpenDirectory(current, name);
      MakesMore(old(log), old(fs), fs, fs, |old(log)|, stops);
      SeenChange(log, |old(log)|, |old(log)|);
      if next < 0 && errno == ENOENT {
        ghost var first, earlier := fs, log;
        var made, mid := MakeDirectory(current, name);
        if made == SUCCESS { DirectoryMade(mid, fs, fds[current], name); }
        MakesMore(earlier, first, mid, fs, |old(log)|, stops);
        SeenChange(log, |old(log)|, |old(log)| + 2);
        DisturbedLonger(earlier, log, |old(log)|);
        ghost var second := fs;
        if made != SUCCESS && made != EEXIST {
          return;
        }
        earlier := log;
        next, errno := OpenDirectory(current, name);
        MakesMore(earlier, second, fs, fs, |old(log)|, stops);
        if next < 0 && errno == ENOENT { LostSince(earlier, log, |old(log)|, fs, fds[current], name); }
        SeenChange(log, |old(log)|, |old(log)| + 4);
        DisturbedLonger(earlier, log, |old(log)|);
      }
    }

    /** Opens, creating as needed, every directory above the final name; gives the descriptor of the
        last one. `trail` records the walk. */
    method OpenParent(root: int, rel: Bytes) returns (fd: int, leaf: Bytes, ghost trail: seq<Hop>)
      requires Valid() && root in fds && SafePath(rel)
      modifies `fs, `fds, `nextFd, `log, `faults
      ensures Valid() && old(log) < log && log[|old(log)|].before == old(fs)
      // one new descriptor on success, none on failure
      ensures if fd < 0 then fds == old(fds)
              else fd !in old(fds) && fds == old(fds)[fd := Destination(old(fds)[root], trail)]
      // every directory on the way was an entry of the one before, a directory, and inside
      ensures Walked(log, |old(log)|, old(fds)[root], trail)
      ensures |trail| < |Segments(rel)| && forall k :: 0 <= k < |trail| ==> trail[k].name == Segments(rel)[k]
      ensures fd >= 0 ==> |trail| == |Segments(rel)| - 1 && leaf == Segments(rel)[|trail|]
      // left alone, the walk succeeds, and ends where the path leads
      ensures fd < 0 ==> faults > old(faults) || Disturbed(log, |old(log)|)
      ensures fd >= 0 ==> faults == old(faults)
      ensures fd < 0 && faults == old(faults) ==>
        && |trail| < |Segments(rel)| - 1
        && Lost(log, |old(log)|, fs, Destination(old(fds)[root], trail), Segments(rel)[|trail|])
      ensures fd >= 0 && !Disturbed(log, |old(log)|) ==> Stands(fs, trail)
      // it changes nothing, except that it makes directories of the path where the walk has come to
      ensures Makes(log, |old(log)|, Stops(old(fds)[root], trail, Segments(rel)))
    {
      hide Valid, Walked, Hopped, Leads, Disturbed, Stands, OnlyAdds, SafePath, Segments, NextSlash, Follows, Makes;
      hide Stops, Lost;
      ghost var mark, start := |log|, fds[root];
      trail, leaf := [], [];
      NothingWalked(log, mark, start, fs);
      ghost var names := Segments(rel);
      var current := Dup(root);
      NothingWalked(log, mark, start, fs);
      NothingMadeYet(old(log), old(fs), fs, Stops(start, trail, names));
      if current < 0 {
        return -1, [], [];
      }
      var segment := 0;
      assert rel[0..] == rel;
      while true
        invariant Valid() && old(log) < log && mark == |old(log)| && faults == old(faults)
        invariant log[mark].before == old(fs) && Makes(log, mark, Stops(start, trail, names))
        invariant current >= 0 && current !in old(fds) && fds == old(fds)[current := Destination(start, trail)]
        invariant segment <= |rel|
        invariant |Segments(rel)| > |trail| && Segments(rel)[|trail|..] == Segments(rel[segment..])
        invariant forall k :: 0 <= k < |trail| ==> trail[k].name == Segments(rel)[k]
        invariant Walked(log, mark, start, trail)
        invariant Disturbed(log, mark) || Stands(fs, trail)
        decreases |rel| - segment
      {
        var slash := NextSlash(rel, segment);
        NextSegment(rel, segment);
        assert rel[segment..slash] == Segments(rel)[|trail|..][0] == Segments(rel)[|trail|];
        SegmentFits(rel, |trail|);
        if slash == |rel| {
          leaf := rel[segment..];
          return current, leaf, trail;
        }
        var name := CopyName(rel, segment, slash);
        ghost var before, stood, here := log, fs, Destination(start, trail);
        var next := Enter(current, name);
        DisturbedLonger(before, log, mark);
        StopIsThere(start, trail, names);
        MakesOn(before, log, mark, Stops(start, trail, names), {(here, name)});
        Close(current);
        if next < 0 {
          WalkedLonger(before, log, mark, start, trail);
          LostEarlier(log, mark, |before|, fs, here, name);
          return -1, [], trail;
        }
        ghost var hop := Hop(|log| - 1, here, name, fds[next]);
        WalkedFurther(before, log, mark, start, trail, hop);
        StandsFurther(stood, fs, log, mark, trail, hop);
        assert Segments(rel)[|trail|..][1..] == Segments(rel)[|trail| + 1..];
        StopsGrow(start, trail, hop, names);
        MakesFor(log, mark, Stops(start, trail, names), Stops(start, trail + [hop], names));
        trail := trail + [hop];
        current := next;
        segment := slash + 1;
      }
    }

    // ---- file calls ---------------------------------------------------------

    /** `openat2` with `O_CREAT | O_EXCL`. */
    method CreateFile(at: int, name: Bytes) returns (fd: int, ghost mid: FS)
      requires Valid() && at in fds
      modifies `fs, `fds, `nextFd, `log, `faults
      ensures Valid() && Spares(old(fs), mid, pins) && Follows(old(fs), mid) && Follows(mid, fs)
      ensures log == old(log) + [Others(old(fs), mid), Helper(mid, fs)]
      ensures fd < 0 ==> fs == mid && fds == old(fds) && faults == old(faults) + 1
      ensures fd >= 0 ==>
        && fd !in old(fds) && fds == old(fds)[fd := mid.next] && faults == old(faults)
        && See(mid, old(fds)[at], name) == Nothing
        && See(fs, old(fds)[at], name) == Contents(mid.next, [], false)
        && OtherNames(mid, fs, {(old(fds)[at], name)})
        && IsDir(fs, old(fds)[at])
      ensures WF(mid)
    {
      hide Spares, Recorded, OtherNames, See;
      Interfere();
      mid := fs;
      var d := fds[at];
      var fails := *;
      if fails || !IsDir(fs, d) || Bound(fs, d, name) {
        Note();
        faults := faults + 1;
        return -1, mid;
      }
      UnboundShowsNothing(fs, d, name);
      CreateShows(fs, d, name);
      var i := fs.next;
      Commit(Create(d, name));
      fd := Install(i);
    }

    /** `read(STDIN_FILENO, ...)`: any short count, zero only at the end of the input. */
    method ReadStdin(size: nat) returns (got: int, data: Bytes)
      requires size > 0
      modifies `stdin, `faults
      ensures got < 0 ==> stdin == old(stdin) && faults == old(faults) + 1
      ensures got >= 0 ==> |data| == got <= size && old(stdin) == data + stdin && faults == old(faults)
      ensures got == 0 ==> old(stdin) == []
    {
      var fails, count: nat := *, *;
      if fails {
        faults := faults + 1;
        return -1, [];
      }
      got := if stdin == [] then 0 else if 0 < count <= size && count <= |stdin| then count else 1;
      data, stdin := stdin[..got], stdin[got..];
    }

    /** `write` at the end of an open file, which `name` in `d` shows: any short count, or an error. */
    method WriteFile(fd: int, data: Bytes, ghost d: Ino, ghost name: Bytes) returns (count: int, ghost mid: FS)
      requires Valid() && fd in fds && (d, name) in pins && IsDir(fs, d) && Held(fs, d)
      requires See(fs, d, name).Contents? && See(fs, d, name).file == fds[fd]
      modifies `fs, `log, `faults
      ensures Valid() && Spares(old(fs), mid, pins) && Follows(old(fs), mid) && Follows(mid, fs)
      ensures log == old(log) + [Others(old(fs), mid), Helper(mid, fs)]
      ensures OtherFiles(mid, fs, fds[fd])
      ensures count == |data| ==> faults == old(faults)
      ensures count != |data| ==> faults == old(faults) + 1
      ensures count < 0 ==> fs == mid
      ensures count >= 0 ==>
        && count <= |data|
        && See(fs, d, name) == Contents(fds[fd], See(old(fs), d, name).bytes + data[..count], false)
      ensures IsDir(fs, d) && Held(fs, d)
    {
      Interfere();
      mid := fs;
      assert Bound(fs, d, name);
      var i := fds[fd];
      var fails, some: nat := *, *;
      if fails {
        Note();
        faults := faults + 1;
        return -1, mid;
      }
      count := if some < |data| then some else |data|;
      var act := Write(i, fs.nodes[i].bytes + data[..count]);
      assert Beneath(fs, i);
      FileStepShows(fs, act, i);
      Commit(act);
      if count != |data| { faults := faults + 1; }
    }

    /** `fsync` of an open file. */
    method SyncFile(fd: int, ghost d: Ino, ghost name: Bytes) returns (ok: bool, ghost mid: FS)
      requires Valid() && fd in fds && (d, name) in pins && IsDir(fs, d) && Held(fs, d)
      requires See(fs, d, name).Contents? && See(fs, d, name).file == fds[fd]
      modifies `fs, `log, `faults
      ensures Valid() && Spares(old(fs), mid, pins) && Follows(old(fs), mid) && Follows(mid, fs)
      ensures log == old(log) + [Others(old(fs), mid), Helper(mid, fs)]
      ensures OtherFiles(mid, fs, fds[fd])
      ensures faults == if ok then old(faults) else old(faults) + 1
      ensures See(fs, d, name) == if ok then See(old(fs), d, name).(synced := true) else See(old(fs), d, name)
      ensures IsDir(fs, d) && Held(fs, d)
    {
      Interfere();
      mid := fs;
      assert Bound(fs, d, name);
      ok := *;
      if !ok {
        Note();
        faults := faults + 1;
        return;
      }
      assert Beneath(fs, fds[fd]);
      FileStepShows(fs, Sync(fds[fd]), fds[fd]);
      Commit(Sync(fds[fd]));
    }

    /** `renameat` of a file within one directory. */
    method RenameFile(at: int, name: Bytes, toName: Bytes) returns (ok: bool, ghost mid: FS)
      requires Valid() && at in fds && (fds[at], name) in pins && (fds[at], toName) in pins
      requires IsDir(fs, fds[at]) && See(fs, fds[at], name).Contents?
      requires name != toName ==> See(fs, fds[at], toName) != See(fs, fds[at], name)
      modifies `fs, `log, `faults
      ensures Valid() && Spares(old(fs), mid, pins) && Follows(old(fs), mid) && Follows(mid, fs)
      ensures log == old(log) + [Others(old(fs), mid), Helper(mid, fs)]
      ensures faults == if ok then old(faults) else old(faults) + 1
      ensures !ok ==> fs == mid
      ensures ok ==>
        && See(fs, fds[at], toName) == See(old(fs), fds[at], name)
        && (name != toName ==> See(fs, fds[at], name) == Nothing)
        && OtherNames(mid, fs, {(fds[at], name), (fds[at], toName)})
      ensures IsDir(fs, fds[at])
    {
      Interfere();
      mid := fs;
      var d := fds[at];
      assert Bound(fs, d, name);
      var fails := *;
      ok := !fails && Replaceable(fs, d, toName);
      if !ok {
        Note();
        faults := faults + 1;
        return;
      }
      RenameShows(fs, d, name, toName);
      Commit(Rename(d, name, d, toName));
    }

    /** `fsync` of a directory. */
    method SyncDirectory(fd: int) returns (ok: bool)
      requires Valid() && fd in fds
      modifies `fs, `log, `faults
      ensures Valid() && Spares(old(fs), fs, pins) && Follows(old(fs), fs)
      ensures log == old(log) + [Others(old(fs), fs), Helper(fs, fs)]
      ensures faults == if ok then old(faults) else old(faults) + 1
    {
      Interfere();
      Note();
      ok := *;
      if !ok { faults := faults + 1; }
    }

    /** `unlinkat` of a file or link. */
    method Remove(at: int, name: Bytes) returns (ok: bool, ghost mid: FS)
      requires Valid() && at in fds && (fds[at], name) in pins
      modifies `fs, `log, `faults
      ensures Valid() && Spares(old(fs), mid, pins) && Follows(old(fs), mid) && Follows(mid, fs)
      ensures log == old(log) + [Others(old(fs), mid), Helper(mid, fs)]
      ensures ok ==> See(mid, fds[at], name) != Nothing && See(fs, fds[at], name) == Nothing
      ensures !ok ==> fs == mid
      ensures faults == if ok then old(faults) else old(faults) + 1
      ensures OtherNames(mid, fs, {(fds[at], name)})
    {
      Interfere();
      mid := fs;
      var d := fds[at];
      var fails := *;
      ok := !fails && Bound(fs, d, name) && !IsDir(fs, Entry(fs, d, name));
      if !ok {
        Note();
        faults := faults + 1;
        return;
      }
      UnlinkShows(fs, d, name);
      Commit(Unlink(d, name));
    }

    // ---- run_write ----------------------------------------------------------

    /** Copies the input into the temporary file, stopping at the first failing or short call and
        before the first byte over the limit. */
    method Pour(tmp: int, maxBytes: int, ghost d: Ino, ghost tmpName: Bytes, ghost leaf: Bytes) returns (failure: int)
      requires Valid() && tmp in fds && maxBytes > 0
      requires (d, tmpName) in pins && (d, leaf) in pins && IsDir(fs, d) && Held(fs, d)
      requires See(fs, d, tmpName) == Contents(fds[tmp], [], false)
      requires leaf != tmpName ==> !Shows(fs, d, leaf, fds[tmp])
      modifies `fs, `log, `faults, `stdin
      ensures Valid() && old(log) <= log && IsDir(fs, d) && Held(fs, d) && Shows(fs, d, tmpName, fds[tmp])
      ensures leaf != tmpName ==>
        Steady(log, |old(log)|, d, leaf, See(old(fs), d, leaf)) && See(fs, d, leaf) == See(old(fs), d, leaf)
      ensures Capped(log, |old(log)|, d, tmpName, maxBytes) && Within(See(fs, d, tmpName), maxBytes)
      ensures failure == EXIT_OK || failure == EXIT_FS || failure == EXIT_OVER_LIMIT
      ensures failure == EXIT_OK ==> See(fs, d, tmpName).bytes == old(stdin) && |old(stdin)| <= maxBytes
      ensures failure == EXIT_OVER_LIMIT ==> |old(stdin)| > maxBytes
      ensures failure == EXIT_FS <==> faults > old(faults)
      ensures faults >= old(faults)
      ensures Touches(log, |old(log)|, {(d, tmpName), (d, leaf)}, fds[tmp])
    {
      hide Valid, WF, Held, Follows, Spares, OtherFiles, Steady, Capped, See, Touches;
      failure := EXIT_OK;
      var received := 0;
      NothingYet(log, fs, d, tmpName, leaf, maxBytes);
      ghost var input, sight, i, names := stdin, See(fs, d, leaf), fds[tmp], {(d, tmpName), (d, leaf)};
      NothingTouched(log, names, i);
      assert input[..0] == [];
      while true
        invariant Valid() && old(log) <= log && IsDir(fs, d) && Held(fs, d) && faults == old(faults)
        invariant 0 <= received <= |input| && received <= maxBytes && stdin == input[received..]
        invariant Shows(fs, d, tmpName, i) && See(fs, d, tmpName).bytes == input[..received]
        invariant leaf != tmpName ==> !Shows(fs, d, leaf, i) && See(fs, d, leaf) == sight
        invariant leaf != tmpName ==> Steady(log, |old(log)|, d, leaf, sight)
        invariant Capped(log, |old(log)|, d, tmpName, maxBytes) && Touches(log, |old(log)|, names, i)
        decreases |stdin|
      {
        var got, data := ReadStdin(IO_CHUNK);
        if got < 0 {
          failure := EXIT_FS;
          break;
        }
        if got == 0 {
          assert input[..received] == input;
          break;
        }
        received := received + got;
        if received > maxBytes {
          failure := EXIT_OVER_LIMIT;
          break;
        }
        ghost var earlier, was := log, fs;
        var count, mid := WriteFile(tmp, data, d, tmpName);
        assert input[..received - got] + data == input[..received];
        Poured(earlier, was, mid, fs, pins, |old(log)|, d, tmpName, leaf, i, maxBytes);
        TouchesMore(earlier, was, mid, fs, |old(log)|, names, i);
        if count != got {
          failure := EXIT_FS;
          break;
        }
      }
    }

    /** Flush, rename over the target, flush, as far as nothing fails. `moved` tells whether the temporary
        file has become the target. */
    method Publish(parent: int, tmp: int, tmpName: Bytes, leaf: Bytes, maxBytes: int, poured: int, ghost input: Bytes)
      returns (failure: int, ghost moved: bool)
      requires Valid() && parent in fds && tmp in fds && tmp != parent
      requires (fds[parent], tmpName) in pins && (fds[parent], leaf) in pins
      requires IsDir(fs, fds[parent]) && Held(fs, fds[parent])
      requires Shows(fs, fds[parent], tmpName, fds[tmp]) && Within(See(fs, fds[parent], tmpName), maxBytes)
      requires leaf != tmpName ==> !Shows(fs, fds[parent], leaf, fds[tmp])
      requires poured == EXIT_OK ==> See(fs, fds[parent], tmpName).bytes == input
      modifies `fs, `fds, `log, `faults
      ensures Valid() && old(log) <= log && fds == old(fds) - {tmp}
      ensures Capped(log, |old(log)|, old(fds)[parent], tmpName, maxBytes)
      ensures Touches(log, |old(log)|, {(old(fds)[parent], tmpName), (old(fds)[parent], leaf)}, old(fds)[tmp])
      ensures leaf != tmpName ==>
        Atomic(log, |old(log)|, old(fds)[parent], leaf, See(old(fs), old(fds)[parent], leaf), input)
      ensures if poured == EXIT_OK then failure == EXIT_OK || failure == EXIT_FS else failure == poured
      ensures faults >= old(faults) && (faults > old(faults) <==> failure != poured)
      ensures failure == EXIT_OK ==> moved
      ensures var p, i := old(fds)[parent], old(fds)[tmp];
        && Within(See(fs, p, tmpName), maxBytes)
        && (moved ==> poured == EXIT_OK && Shows(fs, p, leaf, i) && Complete(See(fs, p, leaf), input))
        && (moved && leaf != tmpName ==> See(fs, p, tmpName) == Nothing)
        && (!moved ==> Shows(fs, p, tmpName, i))
        && (!moved && leaf != tmpName ==> See(fs, p, leaf) == See(old(fs), p, leaf))
    {
      hide Valid, WF, Recorded, Held, Follows, Spares, OtherFiles, OtherNames, Atomic, Capped, See, Touches;
      ghost var p, mark, before, was := fds[parent], |log|, See(fs, fds[parent], leaf), fs;
      ghost var names, i := {(p, tmpName), (p, leaf)}, fds[tmp];
      NothingTouched(log, names, i);
      moved := false;
      AtomicSoFar(log, p, leaf, before, input, tmpName, maxBytes);
      failure := poured;
      if failure == EXIT_OK {
        ghost var earlier := log;
        var flushed, mid := SyncFile(tmp, p, tmpName);
        FileCallKeeps(earlier, was, mid, fs, pins, mark, p, leaf, tmpName, before, input, maxBytes, fds[tmp]);
        TouchesMore(earlier, was, mid, fs, mark, names, i);
        if !flushed { failure := EXIT_FS; }
        was := fs;
      }
      Close(tmp);
      if failure == EXIT_OK {
        ghost var earlier := log;
        var renamed, mid := RenameFile(parent, tmpName, leaf);
        NameCallKeeps(earlier, was, mid, fs, pins, mark, p, leaf, tmpName, before, input, maxBytes);
        TouchesMore(earlier, was, mid, fs, mark, names, i);
        moved := renamed;
        if !renamed { failure := EXIT_FS; }
        was := fs;
      }
      if failure == EXIT_OK {
        ghost var earlier := log;
        var flushed := SyncDirectory(parent);
        NameCallKeeps(earlier, was, fs, fs, pins, mark, p, leaf, tmpName, before, input, maxBytes);
        TouchesMore(earlier, was, fs, fs, mark, names, i);
        if !flushed { failure := EXIT_FS; }
      }
    }

    /** The second half of `run_write`: what `Publish` does, and on any failure the temporary file is
        removed. */
    method Settle(parent: int, tmp: int, tmpName: Bytes, leaf: Bytes, maxBytes: int, poured: int, ghost input: Bytes)
      returns (code: int, ghost swept: bool)
      requires Valid() && parent in fds && tmp in fds && tmp != parent
      requires (fds[parent], tmpName) in pins && (fds[parent], leaf) in pins
      requires IsDir(fs, fds[parent]) && Held(fs, fds[parent])
      requires Shows(fs, fds[parent], tmpName, fds[tmp]) && Within(See(fs, fds[parent], tmpName), maxBytes)
      requires leaf != tmpName ==> !Shows(fs, fds[parent], leaf, fds[tmp])
      requires poured == EXIT_OK ==> See(fs, fds[parent], tmpName).bytes == input
      modifies `fs, `fds, `log, `faults
      ensures Valid() && old(log) <= log && fds == old(fds) - {parent, tmp}
      ensures leaf != tmpName ==>
        Atomic(log, |old(log)|, old(fds)[parent], leaf, See(old(fs), old(fds)[parent], leaf), input)
      ensures Capped(log, |old(log)|, old(fds)[parent], tmpName, maxBytes)
      ensures Touches(log, |old(log)|, {(old(fds)[parent], tmpName), (old(fds)[parent], leaf)}, old(fds)[tmp])
      ensures var p, before := old(fds)[parent], See(old(fs), old(fds)[parent], leaf);
        && (poured != EXIT_OK ==> code == poured)
        && (poured == EXIT_OK ==> code == EXIT_OK || (code == EXIT_FS && faults != old(faults)))
        && (code == EXIT_OK ==> Complete(See(fs, p, leaf), input))
        && (code == EXIT_OK && leaf != tmpName ==> See(fs, p, tmpName) == Nothing)
        // after a failure the temporary file is gone if removed, or if it is the target by now
        && (code != EXIT_OK ==>
              (See(fs, p, tmpName) == Nothing <==> swept || Replaced(old(fs), fs, p, leaf, tmpName)))
        && (poured != EXIT_OK && leaf != tmpName ==> See(fs, p, leaf) == before)
        && (faults == old(faults) ==> code == poured && (code != EXIT_OK ==> swept))
        && faults >= old(faults)
    {
      hide Valid, WF, Recorded, Held, Follows, Spares, OtherFiles, OtherNames, Atomic, Capped, See, Touches;
      ghost var p, mark, before := fds[parent], |log|, See(fs, fds[parent], leaf);
      ghost var names, i := {(p, tmpName), (p, leaf)}, fds[tmp];
      ghost var moved;
      swept := false;
      code, moved := Publish(parent, tmp, tmpName, leaf, maxBytes, poured, input);
      if code != EXIT_OK {
        ghost var earlier, was := log, fs;
        var removed, mid := Remove(parent, tmpName);
        NameCallKeeps(earlier, was, mid, fs, pins, mark, p, leaf, tmpName, before, input, maxBytes);
        FewerNames(mid, fs, {(p, tmpName)}, names);
        TouchesMore(earlier, was, mid, fs, mark, names, i);
        swept := removed;
      }
      Close(parent);
    }

    /** `run_write` below the opened parent. Other processes may do anything meanwhile except touch
        the target and the temporary file. */
    method WriteLeaf(parent: int, leaf: Bytes, tmpName: Bytes, maxBytes: int)
      returns (code: int, ghost created: bool, ghost swept: bool)
      requires Valid() && parent in fds && maxBytes > 0
      requires pins == {(fds[parent], tmpName), (fds[parent], leaf)}
      modifies `fs, `fds, `nextFd, `log, `faults, `stdin
      ensures Valid() && old(log) <= log && fds == old(fds) - {parent}
      // atomic at every recorded moment, exactly unless the target is the temporary file itself; with an
      // empty input the torn moment is that of the new file, empty but not yet on stable storage
      ensures Atomic(log, |old(log)|, old(fds)[parent], leaf, See(old(fs), old(fds)[parent], leaf), old(stdin))
        <==> !(created && leaf == tmpName)
      ensures created ==> Capped(log, |old(log)| + 1, old(fds)[parent], tmpName, maxBytes)
      // its own calls change nothing but these two names and one file that is new
      ensures exists i ::
        i >= old(fs).next && Touches(log, |old(log)|, {(old(fds)[parent], tmpName), (old(fds)[parent], leaf)}, i)
      ensures var p := old(fds)[parent];
        && (code == EXIT_OK || code == EXIT_FS || code == EXIT_OVER_LIMIT)
        && (code == EXIT_OK ==> created && Complete(See(fs, p, leaf), old(stdin)) && |old(stdin)| <= maxBytes)
        && (code == EXIT_OK && leaf != tmpName ==> See(fs, p, tmpName) == Nothing)
        && (code == EXIT_OVER_LIMIT ==> created && |old(stdin)| > maxBytes)
        && (code == EXIT_OVER_LIMIT && leaf != tmpName ==> See(fs, p, leaf) == See(old(fs), p, leaf))
        && (created && code != EXIT_OK ==>
          (See(fs, p, tmpName) == Nothing <==> swept || Replaced(old(fs), fs, p, leaf, tmpName)))
        && (!created ==> code == EXIT_FS && See(fs, p, leaf) == See(old(fs), p, leaf))
        && (!created ==> See(fs, p, tmpName) == See(old(fs), p, tmpName))
      // it fails only when a call failed; left to itself it does what it was asked
      ensures code == EXIT_FS ==> faults > old(faults)
      ensures faults == old(faults) ==>
        && code == (if |old(stdin)| <= maxBytes then EXIT_OK else EXIT_OVER_LIMIT)
        && (code == EXIT_OVER_LIMIT ==> swept && See(fs, old(fds)[parent], tmpName) == Nothing)
    {
      hide Valid, WF, Recorded, Held, Spares, OtherNames, Atomic, Capped, Steady, See, Touches;
      ghost var p, input, mark, before, was := fds[parent], stdin, |log|, See(fs, fds[parent], leaf), fs;
      swept := false;
      var tmp, mid := CreateFile(parent, tmpName);
      created := tmp >= 0;
      SparedNames(was, mid, pins, p, leaf, tmpName);
      CreationKeeps(log, mark, was, mid, fs, p, leaf, tmpName, before, input);
      ghost var names, i := {(p, tmpName), (p, leaf)}, mid.next;
      NothingTouched(old(log), names, i);
      if tmp >= 0 { FewerNames(mid, fs, {(p, tmpName)}, names); }
      TouchesMore(old(log), was, mid, fs, mark, names, i);
      if tmp < 0 {
        Close(parent);
        return EXIT_FS, created, swept;
      }
      HeldByDescriptor(parent);
      OlderFile(mid, p, leaf);
      ghost var first := log;
      var failure := Pour(tmp, maxBytes, p, tmpName, leaf);
      ghost var second := log;
      code, swept := Settle(parent, tmp, tmpName, leaf, maxBytes, failure, input);
      if leaf == tmpName {
        TornThere(log, mark + 1, mark, p, leaf, before, input);
      } else {
        SteadyIsAtomic(second, |first|, p, leaf, before, input);
        AtomicOn(first, second, mark, p, leaf, before, input);
        AtomicOn(second, log, mark, p, leaf, before, input);
      }
      CappedOn(first, second, log, mark + 1, p, tmpName, maxBytes);
      TouchesOn(first, second, mark, names, i);
      TouchesOn(second, log, mark, names, i);
    }

    /** The `write` verb, root to exit code: a walk against which other processes may do anything, then
        a write beside which they leave the two names alone. */
    method RunWrite(root: int, rel: Bytes, tmpName: Bytes, maxBytes: int)
      returns (code: int, ghost trail: seq<Hop>, ghost arrived: nat, ghost seen: FS, ghost created: bool,
        ghost swept: bool)
      requires Valid() && root in fds && pins == {}
      modifies `fs, `fds, `nextFd, `log, `faults, `stdin, `pins
      ensures Valid() && old(log) <= log && fds == old(fds)
      ensures code == EXIT_REFUSED <==> !SafePath(rel) || maxBytes <= 0
      ensures code == EXIT_REFUSED ==> log == old(log) && fs == old(fs) && stdin == old(stdin)
      ensures code != EXIT_REFUSED ==>
        && |old(log)| < arrived <= |log| && |trail| < |Segments(rel)|
        && log[|old(log)|].before == old(fs) && seen == log[arrived - 1].after
        && Walked(log[..arrived], |old(log)|, old(fds)[root], trail)
        && (forall k :: 0 <= k < |trail| ==> trail[k].name == Segments(rel)[k])
        && Makes(log[..arrived], |old(log)|, Stops(old(fds)[root], trail, Segments(rel)))
      ensures code in {EXIT_OK, EXIT_REFUSED, EXIT_FS, EXIT_OVER_LIMIT}
      ensures created || code == EXIT_OK || code == EXIT_OVER_LIMIT ==> |trail| == |Segments(rel)| - 1
      ensures code != EXIT_REFUSED && |trail| == |Segments(rel)| - 1 ==>
        var p, leaf := Destination(old(fds)[root], trail), Segments(rel)[|trail|];
        && (Atomic(log, arrived, p, leaf, See(seen, p, leaf), old(stdin)) <==> !(created && leaf == tmpName))
        && (created ==> Capped(log, arrived + 1, p, tmpName, maxBytes))
        && (exists i :: i >= seen.next && Touches(log, arrived, {(p, tmpName), (p, leaf)}, i))
        && (code == EXIT_OK ==> created && Complete(See(fs, p, leaf), old(stdin)) && |old(stdin)| <= maxBytes)
        && (code == EXIT_OK && leaf != tmpName ==> See(fs, p, tmpName) == Nothing)
        && (code == EXIT_OVER_LIMIT ==> created && |old(stdin)| > maxBytes)
        && (code == EXIT_OVER_LIMIT && leaf != tmpName ==> See(fs, p, leaf) == See(seen, p, leaf))
        && (created && code != EXIT_OK ==>
          (See(fs, p, tmpName) == Nothing <==> swept || Replaced(seen, fs, p, leaf, tmpName)))
        && (!created ==> See(fs, p, leaf) == See(seen, p, leaf) && See(fs, p, tmpName) == See(seen, p, tmpName))
      ensures code == EXIT_FS ==> faults > old(faults) || Disturbed(log[..arrived], |old(log)|)
      // without a failing call, only a directory that was there and has been taken away stops it
      ensures code == EXIT_FS && faults == old(faults) ==>
        && |trail| < |Segments(rel)| - 1
        && Lost(log[..arrived], |old(log)|, seen, Destination(old(fds)[root], trail), Segments(rel)[|trail|])
      // left alone on the way, and with no call failing, the length alone decides
      ensures code != EXIT_REFUSED && faults == old(faults) && !Disturbed(log[..arrived], |old(log)|) ==>
        && |trail| == |Segments(rel)| - 1
        && code == (if |old(stdin)| <= maxBytes then EXIT_OK else EXIT_OVER_LIMIT)
        && (code == EXIT_OVER_LIMIT ==> See(fs, Destination(old(fds)[root], trail), tmpName) == Nothing)
    {
      hide Valid, Walked, Atomic, Capped, Disturbed, Spares, Held, See, Replaced, Makes, Stops, Touches;
      hide Lost;
      trail, arrived, seen, created, swept := [], |log|, fs, false, false;
      NothingWalked(log, |log|, fds[root], fs);
      var safe := PathIsSafe(rel);
      if !safe || maxBytes <= 0 {
        return EXIT_REFUSED, trail, arrived, seen, created, swept;
      }
      hide SafePath;
      var parent, leaf;
      parent, leaf, trail := OpenParent(root, rel);
      arrived, seen := |log|, fs;
      assert log[..arrived] == log && seen == log[arrived - 1].after by { RecordedLast(); }
      if parent < 0 {
        NotYetWritten(log, Destination(old(fds)[root], trail), Segments(rel)[|trail|], seen, stdin);
        NothingTouched(log, {(Destination(old(fds)[root], trail), tmpName),
                             (Destination(old(fds)[root], trail), Segments(rel)[|trail|])}, seen.next);
        return EXIT_FS, trail, arrived, seen, created, swept;
      }
      ghost var before := log;
      pins := {(fds[parent], tmpName), (fds[parent], leaf)};
      code, created, swept := WriteLeaf(parent, leaf, tmpName, maxBytes);
      pins := {};
      assert log[..arrived] == before;
      assert fds == old(fds);
    }

    // ---- run_read -----------------------------------------------------------

    /** `openat2` of a whole path for reading, beneath and without symbolic links. `way` are the directories
        it leads through, the last of which lists what is opened. */
    method OpenPath(at: int, names: seq<Bytes>) returns (fd: int, ghost way: seq<Ino>)
      requires Valid() && at in fds && |names| >= 1
      modifies `fs, `fds, `nextFd, `log, `faults, `position
      ensures Valid() && Spares(old(fs), fs, pins)
      ensures log == old(log) + [Others(old(fs), fs), Helper(fs, fs)]
      ensures fd < 0 ==> fds == old(fds)
      // it fails when a call does, or when the path leads to nothing or to a link
      ensures fd < 0 ==> faults > old(faults) || LeadsToNoFile(fs, old(fds)[at], names)
      ensures faults == old(faults) || (faults == old(faults) + 1 && fd < 0)
      ensures fd >= 0 ==>
        && fd !in old(fds) && fd in fds && fds == old(fds)[fd := fds[fd]]
        && IsWay(fs, old(fds)[at], names, way) && Listed(fs, names, way, fds[fd])
        && Reach(fs, old(fds)[at], way[|way| - 1]) && Beneath(fs, fds[fd]) && position == 0
    {
      hide Valid, WF, Held, Spares, Follows, IsWay, Listed, LeadsToNoFile, Resolve;
      Interfere();
      Note();
      HeldByDescriptor(at);
      var fails := *;
      way := [];
      if fails {
        faults := faults + 1;
        return -1, way;
      }
      var found := Resolve(fs, fds[at], names);
      if found.None? || found.value.1 !in fs.nodes || fs.nodes[found.value.1].Link? {
        NoFileThere(fs, fds[at], names);
        return -1, way;
      }
      way := WayOf(fs, fds[at], names);
      ResolvesBeneath(fs, fds[at], names);
      fd := Install(found.value.1);
      position := 0;
    }

    /** `read` of an open file, which `name` in `d` shows: any short count, zero only at the end. */
    method ReadFile(fd: int, ask: nat, ghost d: Ino, ghost name: Bytes) returns (got: int, data: Bytes)
      requires Valid() && fd in fds && (d, name) in pins && Shows(fs, d, name, fds[fd]) && ask > 0
      modifies `fs, `log, `faults, `position
      ensures Valid() && See(fs, d, name) == See(old(fs), d, name)
      ensures log == old(log) + [Others(old(fs), fs), Helper(fs, fs)]
      ensures got < 0 ==> faults == old(faults) + 1
      ensures got >= 0 ==>
        && faults == old(faults) && |data| == got <= ask && position == old(position) + got
        && (got > 0 ==> position <= |See(fs, d, name).bytes| && data == See(fs, d, name).bytes[old(position)..position])
      ensures got == 0 ==> old(position) >= |See(fs, d, name).bytes|
    {
      Interfere();
      assert See(fs, d, name) == See(old(fs), d, name);
      Note();
      var bytes := fs.nodes[fds[fd]].bytes;
      var fails, some: nat := *, *;
      if fails {
        faults := faults + 1;
        return -1, [];
      }
      var left := if position < |bytes| then |bytes| - position else 0;
      got := if left == 0 then 0 else if 0 < some <= ask && some <= left then some else 1;
      data := if got == 0 then [] else bytes[position..position + got];
      position := position + got;
    }

    /** `fwrite`: taken into the buffer, of which any part leaves at once; or an error, after which the end
        of it may be lost. */
    method Print(data: Bytes) returns (ok: bool)
      modifies `stdout, `buffered, `faults
      ensures old(stdout) <= stdout && stdout + buffered <= old(stdout + buffered) + data
      ensures ok ==> stdout + buffered == old(stdout + buffered) + data
      ensures faults == if ok then old(faults) else old(faults) + 1
    {
      var fails, kept: nat, leaving: nat := *, *, *;
      var all := buffered + data;
      if fails {
        faults := faults + 1;
        if kept < |all| { all := all[..kept]; }
      }
      Emit(all, leaving);
      ok := !fails;
    }

    method Emit(all: Bytes, leaving: nat)
      modifies `stdout, `buffered
      ensures old(stdout) <= stdout && stdout + buffered == old(stdout) + all
      ensures buffered == [] <==> leaving >= |all|
    {
      var n := if leaving < |all| then leaving else |all|;
      assert all[..n] + all[n..] == all;
      stdout, buffered := stdout + all[..n], all[n..];
    }

    /** `fflush`: everything leaves, or the call fails with something left. */
    method Flush()
      modifies `stdout, `buffered, `faults
      ensures old(stdout) <= stdout && stdout + buffered == old(stdout + buffered)
      ensures faults == if buffered == [] then old(faults) else old(faults) + 1
    {
      var leaving: nat := *;
      Emit(buffered, leaving);
      if buffered != [] { faults := faults + 1; }
    }

    /** The bounded loop of `run_read`: prints the start of the file, as far as the limit. */
    method Drain(fd: int, maxBytes: nat, ghost d: Ino, ghost name: Bytes) returns (failed: bool)
      requires Valid() && fd in fds && (d, name) in pins && Shows(fs, d, name, fds[fd]) && position == 0
      modifies `fs, `log, `faults, `position, `stdout, `buffered
      ensures Valid() && old(log) <= log && old(stdout) <= stdout
      ensures if failed then faults > old(faults) else faults == old(faults)
      ensures var start := StartOf(See(old(fs), d, name).bytes, maxBytes);
        if failed then stdout + buffered <= old(stdout + buffered) + start
        else stdout + buffered == old(stdout + buffered) + start
      ensures Makes(log, |old(log)|, {})
    {
      hide Valid, See, StartOf, Makes;
      NothingMade(log, {});
      ghost var bytes := See(fs, d, name).bytes;
      var remaining := maxBytes;
      while remaining > 0
        invariant Valid() && old(log) <= log && Makes(log, |old(log)|, {})
        invariant 0 <= remaining <= maxBytes && faults == old(faults)
        invariant Shows(fs, d, name, fds[fd]) && See(fs, d, name).bytes == bytes
        invariant position == maxBytes - remaining <= |bytes| && old(stdout) <= stdout
        invariant stdout + buffered == old(stdout + buffered) + bytes[..position]
        decreases remaining
      {
        var ask := if remaining < IO_CHUNK then remaining else IO_CHUNK;
        ghost var at, before, was := position, log, fs;
        PartOfStart(bytes, at, maxBytes);
        var got, data := ReadFile(fd, ask, d, name);
        MakesMore(before, was, fs, fs, |old(log)|, {});
        if got < 0 {
          return true;
        }
        if got == 0 {
          break;
        }
        assert bytes[..position] == bytes[..at] + bytes[at..position];
        PartOfStart(bytes, position, maxBytes);
        var written := Print(data);
        if !written {
          return true;
        }
        remaining := remaining - got;
      }
      PartOfStart(bytes, position, maxBytes);
      failed := false;
    }

    /** What `run_read` does with the opened path: refuses all but a regular file, prints it and flushes. */
    method PrintOpened(fd: int, maxBytes: nat, ghost d: Ino, ghost name: Bytes) returns (code: int)
      requires Valid() && fd in fds && pins == {} && buffered == [] && position == 0
      requires Bound(fs, d, name) && Entry(fs, d, name) == fds[fd]
      modifies `fs, `fds, `log, `faults, `stdout, `buffered, `position, `pins
      ensures Valid() && old(log) <= log && fds == old(fds) - {fd} && pins == {} && old(stdout) <= stdout
      ensures code == EXIT_OK || code == EXIT_TRUNCATED || code == EXIT_FS
      ensures var sight := See(old(fs), d, name);
        if code == EXIT_FS then
          && (faults > old(faults) || !sight.Contents?)
          && (stdout + buffered == old(stdout)
              || (sight.Contents? && stdout + buffered <= old(stdout) + StartOf(sight.bytes, maxBytes)))
        else
          && sight.Contents? && sight.file == old(fds)[fd]
          && stdout + buffered == old(stdout) + StartOf(sight.bytes, maxBytes)
          && (code == EXIT_TRUNCATED <==> |sight.bytes| > maxBytes)
          && (buffered == [] <==> faults == old(faults))
      ensures faults >= old(faults) && Makes(log, |old(log)|, {})
    {
      hide Valid, See, StartOf, Makes;
      NothingMade(log, {});
      SeenFile(fs, d, name);
      var statFails := *;
      if statFails || fds[fd] !in fs.nodes || !fs.nodes[fds[fd]].File? {
        if statFails { faults := faults + 1; }
        Close(fd);
        return EXIT_FS;
      }
      pins := {(d, name)};
      var size := |fs.nodes[fds[fd]].bytes|;
      var failed := Drain(fd, maxBytes, d, name);
      if !failed { Flush(); }
      Close(fd);
      pins := {};
      code := if failed then EXIT_FS else if size > maxBytes then EXIT_TRUNCATED else EXIT_OK;
    }

    /** The `read` verb. No other process changes the file, or what its name leads to, once it is open. */
    method RunRead(root: int, rel: Bytes, maxBytes: int)
      returns (code: int, ghost way: seq<Ino>, ghost found: FS)
      requires Valid() && root in fds && pins == {} && buffered == []
      modifies `fs, `fds, `nextFd, `log, `faults, `stdout, `buffered, `position, `pins
      ensures Valid() && old(log) <= log && fds == old(fds) && old(stdout) <= stdout
      ensures code == EXIT_REFUSED <==> !SafePath(rel) || maxBytes <= 0
      ensures code == EXIT_REFUSED ==> log == old(log) && fs == old(fs) && stdout == old(stdout) && buffered == []
      ensures code == EXIT_OK || code == EXIT_TRUNCATED || code == EXIT_REFUSED || code == EXIT_FS
      // its own calls change nothing
      ensures Makes(log, |old(log)|, {})
      ensures code != EXIT_REFUSED ==>
        |log| > |old(log)| + 1 && log[|old(log)|].before == old(fs) && found == log[|old(log)| + 1].after
      // it is the start of the file the path led to, name by name through real directories from the root,
      // and no more of it than asked; truncation is told exactly when it happens
      ensures code == EXIT_OK || code == EXIT_TRUNCATED ==>
        var names := Segments(rel);
        && IsWay(found, old(fds)[root], names, way)
        && var d, leaf := way[|way| - 1], names[|names| - 1];
           var sight := See(found, d, leaf);
           && Reach(found, old(fds)[root], d) && sight.Contents? && Beneath(found, sight.file)
           && stdout + buffered == old(stdout) + StartOf(sight.bytes, maxBytes)
           && (code == EXIT_TRUNCATED <==> |sight.bytes| > maxBytes)
      // the exit code does not tell whether the last of it left: that is so exactly when no call failed
      ensures code == EXIT_OK || code == EXIT_TRUNCATED ==> (buffered == [] <==> faults == old(faults))
      // it fails only when a call does, or when the path does not lead to a regular file
      ensures code == EXIT_FS ==> faults > old(faults) || LeadsToNoFile(found, old(fds)[root], Segments(rel))
      // what leaves before a failure is part of the same start, and nothing when no file was opened
      ensures code == EXIT_FS && stdout + buffered != old(stdout) ==>
        var names := Segments(rel);
        && IsWay(found, old(fds)[root], names, way)
        && var sight := See(found, way[|way| - 1], names[|names| - 1]);
           sight.Contents? && stdout + buffered <= old(stdout) + StartOf(sight.bytes, maxBytes)
    {
      hide Valid, Spares, Held, WF, Recorded, Reach, Beneath, IsWay, Listed, LeadsToNoFile, See, StartOf, Makes;
      NothingMade(log, {});
      way, found := [], fs;
      var safe := PathIsSafe(rel);
      if !safe || maxBytes <= 0 {
        return EXIT_REFUSED, way, found;
      }
      hide SafePath, Segments;
      var names := Segments(rel);
      var fd;
      fd, way := OpenPath(root, names);
      found := fs;
      MakesMore(old(log), old(fs), fs, fs, |old(log)|, {});
      ghost var early := log;
      if fd < 0 {
        return EXIT_FS, way, found;
      }
      WayIsListed(fs, fds[root], names, way, fds[fd]);
      code := PrintOpened(fd, maxBytes, way[|way| - 1], names[|names| - 1]);
      if !See(found, way[|way| - 1], names[|names| - 1]).Contents? {
        NoFileAtEnd(found, fds[root], names, way);
      }
      MakesOn(early, log, |old(log)|, {}, {});
    }
  }

  /** `way` are the directories through which the names lead from `start`, one for each name: every name but
      the last is a real entry of its directory and leads to the next. */
  ghost predicate IsWay(fs: FS, start: Ino, names: seq<Bytes>, way: seq<Ino>)
    requires |names| >= 1
  {
    && |way| == |names| && way[0] == start
    && forall k :: 0 <= k < |names| - 1 ==> Onward(fs, way[k], names[k], way[k + 1])
  }

  predicate Onward(fs: FS, d: Ino, name: Bytes, next: Ino) {
    Bound(fs, d, name) && Entry(fs, d, name) == next && IsDir(fs, next)
  }

  /** The last directory of the way lists the node under the last name. */
  ghost predicate Listed(fs: FS, names: seq<Bytes>, way: seq<Ino>, i: Ino)
    requires |names| >= 1
  {
    && |way| == |names|
    && Bound(fs, way[|way| - 1], names[|names| - 1]) && Entry(fs, way[|way| - 1], names[|names| - 1]) == i
  }

  /** No way leads to a regular file. */
  ghost predicate LeadsToNoFile(fs: FS, start: Ino, names: seq<Bytes>)
    requires |names| >= 1
  {
    forall way :: IsWay(fs, start, names, way) ==> !See(fs, way[|way| - 1], names[|names| - 1]).Contents?
  }

  /** The first bytes of a file, as far as a limit. */
  function StartOf(bytes: Bytes, limit: nat): Bytes {
    if |bytes| <= limit then bytes else bytes[..limit]
  }

  lemma PartOfStart(bytes: Bytes, n: nat, limit: nat)
    requires n <= |bytes| && n <= limit
    ensures bytes[..n] <= StartOf(bytes, limit)
    ensures n == limit || n == |bytes| ==> bytes[..n] == StartOf(bytes, limit)
  {}

  lemma ResolvesBeneath(fs: FS, start: Ino, names: seq<Bytes>)
    requires WF(fs) && Held(fs, start) && |names| >= 1 && Resolve(fs, start, names).Some?
    ensures var (d, i) := Resolve(fs, start, names).value;
      && Reach(fs, start, d) && Bound(fs, d, names[|names| - 1]) && Entry(fs, d, names[|names| - 1]) == i
      && Beneath(fs, i) && (i in fs.nodes ==> Held(fs, i))
  {
    var (d, i) := Resolve(fs, start, names).value;
    ReachStart(fs, start);
    ResolvesInside(fs, start, start, names);
    ReachThrough(fs, fs.root, start, d);
    if IsDir(fs, i) {
      assert Edge(fs, d, i);
      ReachOn(fs, fs.root, d, i);
    }
  }

  lemma SeenFile(fs: FS, d: Ino, name: Bytes)
    requires Bound(fs, d, name)
    ensures var i := Entry(fs, d, name);
      if i in fs.nodes && fs.nodes[i].File? then See(fs, d, name) == Contents(i, fs.nodes[i].bytes, fs.nodes[i].synced)
      else !See(fs, d, name).Contents?
  {}

  /** Follows the names through real directories; gives the last directory and what it lists. */
  function Resolve(fs: FS, d: Ino, names: seq<Bytes>): Option<(Ino, Ino)>
    requires |names| >= 1
    decreases |names|
  {
    if !Bound(fs, d, names[0]) then None
    else if |names| == 1 then Some((d, Entry(fs, d, names[0])))
    else if IsDir(fs, Entry(fs, d, names[0])) then Resolve(fs, Entry(fs, d, names[0]), names[1..])
    else None
  }

  lemma {:induction false} ResolvesInside(fs: FS, start: Ino, d: Ino, names: seq<Bytes>)
    requires |names| >= 1 && Resolve(fs, d, names).Some? && Reach(fs, start, d)
    ensures var (last, i) := Resolve(fs, d, names).value;
      Reach(fs, start, last) && Bound(fs, last, names[|names| - 1]) && Entry(fs, last, names[|names| - 1]) == i
    decreases |names|
  {
    if |names| > 1 {
      assert Edge(fs, d, Entry(fs, d, names[0]));
      ReachOn(fs, start, d, Entry(fs, d, names[0]));
      ResolvesInside(fs, start, Entry(fs, d, names[0]), names[1..]);
    }
  }

  /** What a path resolves to is where its way leads ... */
  lemma {:induction false} WayOf(fs: FS, start: Ino, names: seq<Bytes>) returns (way: seq<Ino>)
    requires |names| >= 1 && Resolve(fs, start, names).Some?
    ensures IsWay(fs, start, names, way) && Listed(fs, names, way, Resolve(fs, start, names).value.1)
    ensures way[|way| - 1] == Resolve(fs, start, names).value.0
    decreases |names|
  {
    way := [start];
    if |names| > 1 {
      var rest := WayOf(fs, Entry(fs, start, names[0]), names[1..]);
      way := [start] + rest;
      forall k | 0 <= k < |names| - 1 ensures Onward(fs, way[k], names[k], way[k + 1]) {
        if k > 0 {
          assert Onward(fs, rest[k - 1], names[1..][k - 1], rest[k - 1 + 1]);
        }
      }
    }
  }

  /** ... and every way that ends at an entry is what the path resolves to. */
  lemma {:induction false} WayResolves(fs: FS, start: Ino, names: seq<Bytes>, way: seq<Ino>, i: Ino)
    requires |names| >= 1 && IsWay(fs, start, names, way) && Listed(fs, names, way, i)
    ensures Resolve(fs, start, names) == Some((way[|way| - 1], i))
    decreases |names|
  {
    if |names| > 1 {
      var rest, onwards := names[1..], way[1..];
      assert Onward(fs, way[0], names[0], way[0 + 1]);
      forall k | 0 <= k < |rest| - 1 ensures Onward(fs, onwards[k], rest[k], onwards[k + 1]) {
        assert Onward(fs, way[k + 1], names[k + 1], way[k + 1 + 1]);
      }
      WayResolves(fs, way[1], rest, onwards, i);
    }
  }

  lemma WayIsListed(fs: FS, start: Ino, names: seq<Bytes>, way: seq<Ino>, i: Ino)
    requires |names| >= 1 && IsWay(fs, start, names, way) && Listed(fs, names, way, i)
    ensures |way| >= 1 && Bound(fs, way[|way| - 1], names[|names| - 1])
    ensures Entry(fs, way[|way| - 1], names[|names| - 1]) == i
  {}

  lemma NoFileThere(fs: FS, start: Ino, names: seq<Bytes>)
    requires |names| >= 1
    requires var found := Resolve(fs, start, names);
             found.None? || found.value.1 !in fs.nodes || fs.nodes[found.value.1].Link?
    ensures LeadsToNoFile(fs, start, names)
  {
    forall way | IsWay(fs, start, names, way) ensures !See(fs, way[|way| - 1], names[|names| - 1]).Contents? {
      var d, leaf := way[|way| - 1], names[|names| - 1];
      if Bound(fs, d, leaf) {
        WayResolves(fs, start, names, way, Entry(fs, d, leaf));
      }
    }
  }

  /** There is one way only, so if it does not end at a file none does. */
  lemma NoFileAtEnd(fs: FS, start: Ino, names: seq<Bytes>, way: seq<Ino>)
    requires |names| >= 1 && IsWay(fs, start, names, way) && Bound(fs, way[|way| - 1], names[|names| - 1])
    requires !See(fs, way[|way| - 1], names[|names| - 1]).Contents?
    ensures LeadsToNoFile(fs, start, names)
  {
    var leaf := names[|names| - 1];
    WayResolves(fs, start, names, way, Entry(fs, way[|way| - 1], leaf));
    forall other | IsWay(fs, start, names, other) ensures !See(fs, other[|other| - 1], leaf).Contents? {
      if Bound(fs, other[|other| - 1], leaf) {
        WayResolves(fs, start, names, other, Entry(fs, other[|other| - 1], leaf));
      }
    }
  }

  lemma NotYetWritten(log: seq<Event>, d: Ino, leaf: Bytes, fs: FS, input: Bytes)
    ensures Atomic(log, |log|, d, leaf, See(fs, d, leaf), input)
  {}

  lemma AtomicSoFar(log: seq<Event>, d: Ino, leaf: Bytes, before: Sight, input: Bytes, tmpName: Bytes, maxBytes: int)
    ensures Atomic(log, |log|, d, leaf, before, input) && Capped(log, |log|, d, tmpName, maxBytes)
  {}

  predicate Fine(sight: Sight, before: Sight, input: Bytes) {
    sight == before || Complete(sight, input)
  }

  /** A call on the temporary file. */
  lemma FileCallKeeps(log: seq<Event>, fs: FS, mid: FS, after: FS, pins: Pins, mark: nat, d: Ino, leaf: Bytes,
      tmpName: Bytes, before: Sight, input: Bytes, maxBytes: int, i: Ino)
    requires Spares(fs, mid, pins) && (d, tmpName) in pins && (d, leaf) in pins && OtherFiles(mid, after, i)
    requires mark <= |log| && Capped(log, mark, d, tmpName, maxBytes)
    requires Within(See(fs, d, tmpName), maxBytes) && Within(See(after, d, tmpName), maxBytes)
    requires leaf != tmpName ==>
      !Shows(fs, d, leaf, i) && Atomic(log, mark, d, leaf, before, input) && Fine(See(fs, d, leaf), before, input)
    ensures var longer := log + [Others(fs, mid), Helper(mid, after)];
      && Capped(longer, mark, d, tmpName, maxBytes)
      && (leaf != tmpName ==> See(after, d, leaf) == See(fs, d, leaf) && Atomic(longer, mark, d, leaf, before, input))
  {}

  /** A call on the two names, or on neither. */
  lemma NameCallKeeps(log: seq<Event>, fs: FS, mid: FS, after: FS, pins: Pins, mark: nat, d: Ino, leaf: Bytes,
      tmpName: Bytes, before: Sight, input: Bytes, maxBytes: int)
    requires Spares(fs, mid, pins) && (d, tmpName) in pins && (d, leaf) in pins
    requires mark <= |log| && Capped(log, mark, d, tmpName, maxBytes)
    requires Within(See(fs, d, tmpName), maxBytes) && Within(See(after, d, tmpName), maxBytes)
    requires leaf != tmpName ==>
      && Atomic(log, mark, d, leaf, before, input)
      && Fine(See(fs, d, leaf), before, input) && Fine(See(after, d, leaf), before, input)
    ensures var longer := log + [Others(fs, mid), Helper(mid, after)];
      && Capped(longer, mark, d, tmpName, maxBytes)
      && (leaf != tmpName ==> Atomic(longer, mark, d, leaf, before, input))
    ensures See(mid, d, leaf) == See(fs, d, leaf) && See(mid, d, tmpName) == See(fs, d, tmpName)
    ensures after == mid ==> See(after, d, leaf) == See(fs, d, leaf) && See(after, d, tmpName) == See(fs, d, tmpName)
  {}

  lemma UnboundShowsNothing(fs: FS, d: Ino, name: Bytes)
    requires !Bound(fs, d, name)
    ensures See(fs, d, name) == Nothing
  {}

  lemma SparedNames(fs: FS, mid: FS, pins: Pins, d: Ino, leaf: Bytes, tmpName: Bytes)
    requires Spares(fs, mid, pins) && (d, tmpName) in pins && (d, leaf) in pins
    ensures See(mid, d, leaf) == See(fs, d, leaf) && See(mid, d, tmpName) == See(fs, d, tmpName)
  {}

  /** A file seen in a well-formed file system is older than any created next. */
  lemma OlderFile(fs: FS, d: Ino, name: Bytes)
    requires WF(fs)
    ensures !Shows(fs, d, name, fs.next)
  {}

  lemma CreationKeeps(log: seq<Event>, mark: nat, fs: FS, mid: FS, after: FS, d: Ino, leaf: Bytes, tmpName: Bytes,
      before: Sight, input: Bytes)
    requires |log| == mark + 2 && log[mark] == Others(fs, mid) && log[mark + 1] == Helper(mid, after)
    requires See(mid, d, leaf) == See(fs, d, leaf) == before
    requires after == mid || (OtherNames(mid, after, {(d, tmpName)}) && See(mid, d, tmpName) == Nothing)
    ensures after == mid || leaf != tmpName ==>
      See(after, d, leaf) == before && Atomic(log, mark, d, leaf, before, input)
  {}

  lemma SteadyIsAtomic(log: seq<Event>, mark: nat, d: Ino, name: Bytes, sight: Sight, input: Bytes)
    requires Steady(log, mark, d, name, sight)
    ensures Atomic(log, mark, d, name, sight, input)
  {}

  lemma AtomicOn(log: seq<Event>, longer: seq<Event>, mark: nat, d: Ino, name: Bytes, before: Sight, input: Bytes)
    requires log <= longer && mark <= |log|
    requires Atomic(log, mark, d, name, before, input) && Atomic(longer, |log|, d, name, before, input)
    ensures Atomic(longer, mark, d, name, before, input)
  {
    forall k | mark <= k < |log| ensures Fine(See(longer[k].after, d, name), before, input) {
      assert longer[k] == log[k];
    }
  }

  lemma CappedOn(first: seq<Event>, second: seq<Event>, third: seq<Event>, mark: nat, d: Ino, name: Bytes,
                 maxBytes: int)
    requires first <= second <= third && |first| == mark + 1 && maxBytes > 0
    requires Within(See(first[mark].after, d, name), maxBytes)
    requires Capped(second, |first|, d, name, maxBytes) && Capped(third, |second|, d, name, maxBytes)
    ensures Capped(third, mark, d, name, maxBytes)
  {
    forall k | mark <= k < |third| ensures Within(See(third[k].after, d, name), maxBytes) {
      if k < |second| { assert third[k] == second[k]; }
    }
  }

  /** One recorded moment with a partial target is enough. */
  lemma TornThere(log: seq<Event>, k: nat, mark: nat, d: Ino, name: Bytes, before: Sight, input: Bytes)
    requires mark <= k < |log| && !Fine(See(log[k].after, d, name), before, input)
    ensures !Atomic(log, mark, d, name, before, input)
  {}

  /** The target, when it is not the temporary file itself, shows something else than it did. */
  predicate Replaced(fs: FS, after: FS, d: Ino, leaf: Bytes, tmpName: Bytes) {
    leaf != tmpName && See(after, d, leaf) != See(fs, d, leaf)
  }

  predicate Complete(sight: Sight, input: Bytes) {
    sight.Contents? && sight.bytes == input && sight.synced
  }

  /** At every recorded moment since `mark` the name showed what it did before, or all of the input
      and that on stable storage. */
  ghost predicate Atomic(log: seq<Event>, mark: nat, d: Ino, name: Bytes, before: Sight, input: Bytes) {
    forall k :: mark <= k < |log| ==>
      See(log[k].after, d, name) == before || Complete(See(log[k].after, d, name), input)
  }

  /** The helper's own calls since `mark` changed nothing but these names and file `i`. */
  ghost predicate Touches(log: seq<Event>, mark: nat, names: Pins, i: Ino) {
    forall k :: mark <= k < |log| && log[k].Helper? ==>
      OtherNames(log[k].before, log[k].after, names) || OtherFiles(log[k].before, log[k].after, i)
  }

  lemma NothingTouched(log: seq<Event>, names: Pins, i: Ino)
    ensures Touches(log, |log|, names, i)
  {}

  lemma TouchesMore(log: seq<Event>, fs: FS, mid: FS, after: FS, mark: nat, names: Pins, i: Ino)
    requires Touches(log, mark, names, i)
    requires after == mid || OtherNames(mid, after, names) || OtherFiles(mid, after, i)
    ensures Touches(log + [Others(fs, mid), Helper(mid, after)], mark, names, i)
  {}

  lemma TouchesOn(log: seq<Event>, longer: seq<Event>, mark: nat, names: Pins, i: Ino)
    requires log <= longer && Touches(log, mark, names, i) && Touches(longer, |log|, names, i)
    ensures Touches(longer, mark, names, i)
  {
    hide OtherNames, OtherFiles;
    forall k | mark <= k < |longer| && longer[k].Helper?
      ensures OtherNames(longer[k].before, longer[k].after, names) || OtherFiles(longer[k].before, longer[k].after, i)
    {
      if k < |log| { assert longer[k] == log[k]; }
    }
  }

  lemma FewerNames(fs: FS, after: FS, few: Pins, names: Pins)
    requires OtherNames(fs, after, few) && few <= names
    ensures OtherNames(fs, after, names)
  {}

  /** `name` in `d` shows file `i`. */
  ghost predicate Shows(fs: FS, d: Ino, name: Bytes, i: Ino) {
    See(fs, d, name).Contents? && See(fs, d, name).file == i
  }

  /** At every recorded moment since `mark`, the name showed just this. */
  ghost predicate Steady(log: seq<Event>, mark: nat, d: Ino, name: Bytes, sight: Sight) {
    forall k :: mark <= k < |log| ==> See(log[k].after, d, name) == sight
  }

  /** At no recorded moment since `mark` did the file of that name hold more than the limit. */
  ghost predicate Capped(log: seq<Event>, mark: nat, d: Ino, name: Bytes, maxBytes: int) {
    forall k :: mark <= k < |log| ==> Within(See(log[k].after, d, name), maxBytes)
  }

  predicate Within(sight: Sight, maxBytes: int) {
    sight.Contents? ==> |sight.bytes| <= maxBytes
  }

  /** What one call on file `i` adds to the record. */
  lemma Poured(log: seq<Event>, fs: FS, mid: FS, after: FS, pins: Pins, mark: nat, d: Ino, tmpName: Bytes, leaf: Bytes,
               i: Ino, maxBytes: int)
    requires Spares(fs, mid, pins) && (d, tmpName) in pins && (d, leaf) in pins && OtherFiles(mid, after, i)
    requires mark <= |log| && Capped(log, mark, d, tmpName, maxBytes)
    requires Within(See(fs, d, tmpName), maxBytes) && Within(See(after, d, tmpName), maxBytes)
    requires leaf != tmpName ==> Steady(log, mark, d, leaf, See(fs, d, leaf)) && !Shows(fs, d, leaf, i)
    ensures var longer := log + [Others(fs, mid), Helper(mid, after)];
      && Capped(longer, mark, d, tmpName, maxBytes)
      && (leaf != tmpName ==>
            See(after, d, leaf) == See(fs, d, leaf) && Steady(longer, mark, d, leaf, See(fs, d, leaf)))
  {}

  lemma NothingYet(log: seq<Event>, fs: FS, d: Ino, tmpName: Bytes, leaf: Bytes, maxBytes: int)
    ensures Steady(log, |log|, d, leaf, See(fs, d, leaf)) && Capped(log, |log|, d, tmpName, maxBytes)
  {}

  /** Where a walk from `start` has come to after `k` hops. */
  ghost function After(start: Ino, trail: seq<Hop>, k: nat): Ino
    requires k <= |trail|
  {
    if k == 0 then start else trail[k - 1].to
  }

  ghost function Destination(start: Ino, trail: seq<Hop>): Ino {
    After(start, trail, |trail|)
  }

  ghost predicate Walked(log: seq<Event>, mark: nat, start: Ino, trail: seq<Hop>) {
    forall k :: 0 <= k < |trail| ==> Hopped(log, mark, After(start, trail, k), trail[k])
  }

  ghost predicate Hopped(log: seq<Event>, mark: nat, from: Ino, hop: Hop) {
    && mark <= hop.at < |log| && log[hop.at].Helper? && hop.from == from
    && Leads(log[hop.at].before, hop) && Inside(log[hop.at].before, hop.to)
  }

  /** `hop` follows a real entry to a directory. */
  ghost predicate Leads(fs: FS, hop: Hop) {
    Bound(fs, hop.from, hop.name) && Entry(fs, hop.from, hop.name) == hop.to && IsDir(fs, hop.to)
  }

  ghost predicate Stands(fs: FS, trail: seq<Hop>) {
    forall k :: 0 <= k < |trail| ==> Leads(fs, trail[k])
  }

  /** Every entry that led to a directory still does. */
  ghost predicate OnlyAdds(fs: FS, after: FS) {
    forall hop :: Leads(fs, hop) ==> Leads(after, hop)
  }

  /** The helper's own calls since `mark` changed nothing, except that they made directories of these names. */
  ghost predicate Makes(log: seq<Event>, mark: nat, stops: Pins) {
    forall k :: mark <= k < |log| && log[k].Helper? && log[k].after != log[k].before ==>
      exists d, name :: (d, name) in stops && Made(log[k].before, log[k].after, d, name)
  }

  ghost predicate Made(fs: FS, after: FS, d: Ino, name: Bytes) {
    IsDir(fs, d) && !Bound(fs, d, name) && after == Do(fs, MkDir(d, name))
  }

  /** Where a walk may make a directory: at each place it has come to, by the name that comes next, save
      the last. */
  ghost function Stops(start: Ino, trail: seq<Hop>, names: seq<Bytes>): Pins {
    set k: nat | k <= |trail| && k < |names| - 1 :: (After(start, trail, k), names[k])
  }

  /** The name was there at a recorded moment since `mark`, and is not now. */
  ghost predicate Lost(log: seq<Event>, mark: nat, fs: FS, d: Ino, name: Bytes) {
    !Bound(fs, d, name) && exists k :: mark <= k < |log| && Bound(log[k].after, d, name)
  }

  lemma LostSince(log: seq<Event>, longer: seq<Event>, mark: nat, fs: FS, d: Ino, name: Bytes)
    requires log <= longer && mark < |log| && Bound(log[|log| - 1].after, d, name) && !Bound(fs, d, name)
    ensures Lost(longer, mark, fs, d, name)
  {
    assert longer[|log| - 1] == log[|log| - 1];
  }

  lemma LostEarlier(log: seq<Event>, mark: nat, since: nat, fs: FS, d: Ino, name: Bytes)
    requires mark <= since
    ensures Lost(log, since, fs, d, name) ==> Lost(log, mark, fs, d, name)
  {}

  lemma NothingMade(log: seq<Event>, stops: Pins)
    ensures Makes(log, |log|, stops)
  {}

  lemma NothingMadeYet(log: seq<Event>, fs: FS, after: FS, stops: Pins)
    ensures Makes(log + [Others(fs, after)], |log|, stops)
  {}

  lemma DirectoryMade(fs: FS, after: FS, d: Ino, name: Bytes)
    requires IsDir(fs, d) && !Bound(fs, d, name) && after == Do(fs, MkDir(d, name))
    ensures Made(fs, after, d, name)
  {}

  lemma MakesMore(log: seq<Event>, fs: FS, mid: FS, after: FS, mark: nat, stops: Pins)
    requires Makes(log, mark, stops)
    requires after == mid || exists d, name :: (d, name) in stops && Made(mid, after, d, name)
    ensures Makes(log + [Others(fs, mid), Helper(mid, after)], mark, stops)
  {
    hide Made;
  }

  lemma MakesFor(log: seq<Event>, mark: nat, few: Pins, stops: Pins)
    requires Makes(log, mark, few) && few <= stops
    ensures Makes(log, mark, stops)
  {
    hide Made;
  }

  lemma MakesOn(log: seq<Event>, longer: seq<Event>, mark: nat, stops: Pins, few: Pins)
    requires log <= longer && Makes(log, mark, stops) && Makes(longer, |log|, few) && few <= stops
    ensures Makes(longer, mark, stops)
  {
    hide Made;
    forall k | mark <= k < |longer| && longer[k].Helper? && longer[k].after != longer[k].before
      ensures exists d, name :: (d, name) in stops && Made(longer[k].before, longer[k].after, d, name)
    {
      if k < |log| { assert longer[k] == log[k]; }
    }
  }

  lemma StopIsThere(start: Ino, trail: seq<Hop>, names: seq<Bytes>)
    requires |trail| < |names| - 1
    ensures (Destination(start, trail), names[|trail|]) in Stops(start, trail, names)
  {}

  lemma StopsGrow(start: Ino, trail: seq<Hop>, hop: Hop, names: seq<Bytes>)
    ensures Stops(start, trail, names) <= Stops(start, trail + [hop], names)
  {
    forall k: nat | k <= |trail| ensures After(start, trail + [hop], k) == After(start, trail, k) {}
  }

  lemma MakingOnlyAdds(fs: FS, d: Ino, name: Bytes)
    requires WF(fs) && Enabled(fs, MkDir(d, name))
    ensures Bound(Do(fs, MkDir(d, name)), d, name) && OnlyAdds(fs, Do(fs, MkDir(d, name)))
  {}

  lemma SeenChange(log: seq<Event>, mark: nat, k: nat)
    requires mark <= k < |log| && log[k].Others?
    ensures log[k].before != log[k].after ==> Disturbed(log, mark)
  {}

  lemma DisturbedLonger(log: seq<Event>, longer: seq<Event>, mark: nat)
    requires log <= longer && mark <= |log|
    ensures Disturbed(log, mark) || Disturbed(longer, |log|) ==> Disturbed(longer, mark)
  {
    if Disturbed(log, mark) {
      var k :| mark <= k < |log| && log[k].Others? && log[k].before != log[k].after;
      assert longer[k] == log[k];
    }
  }

  lemma NothingWalked(log: seq<Event>, mark: nat, start: Ino, fs: FS)
    ensures Walked(log, mark, start, []) && Stands(fs, [])
  {}

  lemma SegmentFits(rel: Bytes, k: nat)
    requires SafePath(rel) && k < |Segments(rel)|
    ensures |Segments(rel)[k]| <= MAX_NAME_BYTES
  {}

  lemma HoppedLonger(log: seq<Event>, longer: seq<Event>, mark: nat, from: Ino, hop: Hop)
    requires log <= longer && Hopped(log, mark, from, hop)
    ensures Hopped(longer, mark, from, hop)
  {
    assert longer[hop.at] == log[hop.at];
  }

  lemma HoppedSince(log: seq<Event>, mark: nat, earlier: nat, from: Ino, hop: Hop)
    requires earlier <= mark && Hopped(log, mark, from, hop)
    ensures Hopped(log, earlier, from, hop)
  {}

  lemma WalkedLonger(log: seq<Event>, longer: seq<Event>, mark: nat, start: Ino, trail: seq<Hop>)
    requires log <= longer && Walked(log, mark, start, trail)
    ensures Walked(longer, mark, start, trail)
  {
    hide Hopped;
    forall k | 0 <= k < |trail| ensures Hopped(longer, mark, After(start, trail, k), trail[k]) {
      HoppedLonger(log, longer, mark, After(start, trail, k), trail[k]);
    }
  }

  lemma WalkedFurther(log: seq<Event>, longer: seq<Event>, mark: nat, start: Ino, trail: seq<Hop>, hop: Hop)
    requires log <= longer && Walked(log, mark, start, trail)
    requires mark <= |log| && Hopped(longer, |log|, Destination(start, trail), hop)
    ensures Walked(longer, mark, start, trail + [hop])
  {
    hide Hopped;
    WalkedLonger(log, longer, mark, start, trail);
    HoppedSince(longer, |log|, mark, Destination(start, trail), hop);
    var further := trail + [hop];
    forall k | 0 <= k < |further| ensures Hopped(longer, mark, After(start, further, k), further[k]) {
      if k < |trail| {
        assert further[k] == trail[k] && After(start, further, k) == After(start, trail, k);
      } else {
        assert further[k] == hop && After(start, further, k) == Destination(start, trail);
      }
    }
  }

  lemma StandsFurther(fs: FS, after: FS, log: seq<Event>, mark: nat, trail: seq<Hop>, hop: Hop)
    requires Disturbed(log, mark) || (Stands(fs, trail) && OnlyAdds(fs, after))
    requires Leads(after, hop)
    ensures Disturbed(log, mark) || Stands(after, trail + [hop])
  {}
}
