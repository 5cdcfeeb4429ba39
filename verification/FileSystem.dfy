/** An inode graph with directories, files and symbolic links, and what the system calls do to it.
    The same steps serve the helper and every other process on the machine. */
module FileSystem {
  import opened Options
  import opened Paths

  type Ino = nat

  /** `synced` says whether every byte of a file has reached stable storage. */
  datatype Node =
    | Dir(entries: map<Bytes, Ino>)
    | File(bytes: Bytes, synced: bool)
    | Link(target: Bytes)

  /** `next` is an inode number never used before; `root` is the data root the helper was given. */
  datatype FS = FS(nodes: map<Ino, Node>, next: Ino, root: Ino)

  predicate IsDir(fs: FS, i: Ino) {
    i in fs.nodes && fs.nodes[i].Dir?
  }

  predicate Bound(fs: FS, d: Ino, name: Bytes) {
    IsDir(fs, d) && name in fs.nodes[d].entries
  }

  function Entry(fs: FS, d: Ino, name: Bytes): Ino
    requires Bound(fs, d, name)
  {
    fs.nodes[d].entries[name]
  }

  ghost predicate WF(fs: FS) {
    && fs.root < fs.next
    && (forall i :: i in fs.nodes ==> i < fs.next)
    && (forall d, n :: Bound(fs, d, n) ==> Entry(fs, d, n) in fs.nodes)
    // a directory has one name in one directory
    && (forall d, n, e, m :: Bound(fs, d, n) && Bound(fs, e, m) && SameDir(fs, d, n, e, m) ==> d == e && n == m)
  }

  predicate SameDir(fs: FS, d: Ino, n: Bytes, e: Ino, m: Bytes)
    requires Bound(fs, d, n) && Bound(fs, e, m)
  {
    Entry(fs, d, n) == Entry(fs, e, m) && IsDir(fs, Entry(fs, d, n))
  }

  // ---- inside and outside -------------------------------------------------

  /** `child` is a real directory entry of `d`: not a symbolic link to a directory. */
  ghost predicate Edge(fs: FS, d: Ino, child: Ino) {
    IsDir(fs, child) && exists n :: Bound(fs, d, n) && Entry(fs, d, n) == child
  }

  ghost predicate Chain(fs: FS, c: seq<Ino>) {
    |c| >= 1 && forall k :: 0 <= k < |c| - 1 ==> Edge(fs, c[k], c[k + 1])
  }

  /** `to` is reached from `from` through real directory entries only. */
  ghost predicate Reach(fs: FS, from: Ino, to: Ino) {
    exists c :: Chain(fs, c) && c[0] == from && c[|c| - 1] == to
  }

  ghost predicate Inside(fs: FS, i: Ino) {
    Reach(fs, fs.root, i)
  }

  /** A directory inside the root, or anything such a directory lists. */
  ghost predicate Beneath(fs: FS, i: Ino) {
    Inside(fs, i) || exists d, n :: Inside(fs, d) && Bound(fs, d, n) && Entry(fs, d, n) == i
  }

  /** An open directory never leads out: it is inside the root, or has been removed. */
  ghost predicate Held(fs: FS, i: Ino) {
    i < fs.next && (IsDir(fs, i) ==> Inside(fs, i))
  }

  // ---- steps --------------------------------------------------------------

  datatype Act =
    | MkDir(dir: Ino, name: Bytes)
    | Create(dir: Ino, name: Bytes)                     // O_CREAT | O_EXCL
    | MakeLink(dir: Ino, name: Bytes, target: Bytes)
    | Write(file: Ino, bytes: Bytes)                    // the file's bytes after the write
    | Sync(file: Ino)
    | Unlink(dir: Ino, name: Bytes)
    | RmDir(dir: Ino, name: Bytes)
    | Rename(dir: Ino, name: Bytes, toDir: Ino, toName: Bytes)

  /** When the kernel carries a step out; a removed directory (absent from `nodes`) takes no entry. */
  ghost predicate Enabled(fs: FS, act: Act) {
    match act
    case MkDir(d, n) => IsDir(fs, d) && !Bound(fs, d, n)
    case Create(d, n) => IsDir(fs, d) && !Bound(fs, d, n)
    case MakeLink(d, n, _) => IsDir(fs, d) && !Bound(fs, d, n)
    case Write(f, _) => f in fs.nodes && fs.nodes[f].File?
    case Sync(f) => f in fs.nodes && fs.nodes[f].File?
    case Unlink(d, n) => Bound(fs, d, n) && !IsDir(fs, Entry(fs, d, n))
    case RmDir(d, n) => Bound(fs, d, n) && EmptyDir(fs, Entry(fs, d, n))
    case Rename(d, n, e, m) =>
      && Bound(fs, d, n) && IsDir(fs, e)
      && (if IsDir(fs, Entry(fs, d, n)) then
            // never into itself or below itself; over nothing, or over an empty directory
            && !Reach(fs, Entry(fs, d, n), e)
            && (Bound(fs, e, m) ==> EmptyDir(fs, Entry(fs, e, m)))
          else Replaceable(fs, e, m))
  }

  predicate EmptyDir(fs: FS, i: Ino) {
    IsDir(fs, i) && fs.nodes[i].entries == map[]
  }

  /** A name that renaming a file may take: free, or not a directory. */
  predicate Replaceable(fs: FS, d: Ino, name: Bytes) {
    Bound(fs, d, name) ==> !IsDir(fs, Entry(fs, d, name))
  }

  /** `d`'s entry `name` now leads to `i`. */
  function Put(nodes: map<Ino, Node>, d: Ino, name: Bytes, i: Ino): map<Ino, Node>
    requires d in nodes && nodes[d].Dir?
  {
    nodes[d := Dir(nodes[d].entries[name := i])]
  }

  function Drop(nodes: map<Ino, Node>, d: Ino, name: Bytes): map<Ino, Node>
    requires d in nodes && nodes[d].Dir?
  {
    nodes[d := Dir(nodes[d].entries - {name})]
  }

  function Add(fs: FS, d: Ino, name: Bytes, node: Node): FS
    requires IsDir(fs, d)
  {
    if fs.next in fs.nodes then fs  // not in a well-formed file system
    else fs.(nodes := Put(fs.nodes, d, name, fs.next)[fs.next := node], next := fs.next + 1)
  }

  predicate Applies(fs: FS, act: Act) {
    match act
    case MkDir(d, n) => IsDir(fs, d)
    case Create(d, n) => IsDir(fs, d)
    case MakeLink(d, n, _) => IsDir(fs, d)
    case Write(f, _) => f in fs.nodes && fs.nodes[f].File?
    case Sync(f) => f in fs.nodes && fs.nodes[f].File?
    case Unlink(d, n) => Bound(fs, d, n)
    case RmDir(d, n) => Bound(fs, d, n)
    case Rename(d, n, e, m) => Bound(fs, d, n) && IsDir(fs, e)
  }

  function Do(fs: FS, act: Act): FS
    requires Applies(fs, act)
  {
    match act
    case MkDir(d, n) => Add(fs, d, n, Dir(map[]))
    case Create(d, n) => Add(fs, d, n, File([], false))
    case MakeLink(d, n, target) => Add(fs, d, n, Link(target))
    case Write(f, bytes) => fs.(nodes := fs.nodes[f := File(bytes, false)])
    case Sync(f) => fs.(nodes := fs.nodes[f := fs.nodes[f].(synced := true)])
    case Unlink(d, n) => fs.(nodes := Drop(fs.nodes, d, n))
    case RmDir(d, n) => fs.(nodes := Drop(fs.nodes, d, n) - {Entry(fs, d, n)})
    case Rename(d, n, e, m) =>
      var i := Entry(fs, d, n);
      if Bound(fs, e, m) && Entry(fs, e, m) == i then fs else
      var dropped := Drop(fs.nodes, d, n);
      var put := Put(dropped, e, m, i);
      // an empty directory that a directory is renamed over is gone
      fs.(nodes := if Bound(fs, e, m) && IsDir(fs, Entry(fs, e, m)) then put - {Entry(fs, e, m)} else put)
  }

  /** The one thing other processes are taken not to do: carry a directory out of the root. */
  ghost predicate CarriesOut(fs: FS, act: Act) {
    && act.Rename? && Bound(fs, act.dir, act.name) && IsDir(fs, Entry(fs, act.dir, act.name))
    && Entry(fs, act.dir, act.name) != fs.root
    && Inside(fs, act.dir) && !Inside(fs, act.toDir)
  }

  // ---- what every step keeps ----------------------------------------------

  /** What a step promises beyond well-formedness: the root stays the root, inode numbers are never
      used twice, and nothing turns into another kind of node. */
  ghost predicate Follows(fs: FS, after: FS) {
    && after.root == fs.root && fs.next <= after.next
    && (forall i :: i in after.nodes && i < fs.next ==> i in fs.nodes && SameKind(fs.nodes[i], after.nodes[i]))
  }

  predicate SameKind(a: Node, b: Node) {
    a.Dir? == b.Dir? && a.File? == b.File? && a.Link? == b.Link?
  }

  lemma StepKeepsWF(fs: FS, act: Act)
    requires WF(fs) && Enabled(fs, act)
    ensures WF(Do(fs, act)) && Follows(fs, Do(fs, act))
  {
    match act
    case MkDir(d, n) => AddKeepsWF(fs, d, n, Dir(map[]));
    case Create(d, n) => AddKeepsWF(fs, d, n, File([], false));
    case MakeLink(d, n, target) => AddKeepsWF(fs, d, n, Link(target));
    case Write(_, _) => EntriesKeepWF(fs, Do(fs, act));
    case Sync(_) => EntriesKeepWF(fs, Do(fs, act));
    case Unlink(_, _) => EntriesKeepWF(fs, Do(fs, act));
    case RmDir(d, n) =>
      var after := Do(fs, act);
      forall e: Ino, m | Bound(after, e, m) ensures Entry(fs, e, m) != Entry(fs, d, n) {
        assert Bound(fs, e, m);
        assert SameDir(fs, d, n, e, m) <==> Entry(fs, e, m) == Entry(fs, d, n);
      }
      EntriesKeepWF(fs, after);
    case Rename(d, n, e, m) => RenameKeepsWF(fs, d, n, e, m);
  }

  /** A step that binds no name anew, and removes no listed node, keeps the file system well formed. */
  lemma EntriesKeepWF(fs: FS, after: FS)
    requires WF(fs) && after.root == fs.root && after.next == fs.next
    requires forall i :: i in after.nodes ==> i in fs.nodes && SameKind(fs.nodes[i], after.nodes[i])
    requires forall e: Ino, m :: Bound(after, e, m) ==>
      Bound(fs, e, m) && Entry(after, e, m) == Entry(fs, e, m) && Entry(fs, e, m) in after.nodes
    ensures WF(after) && Follows(fs, after)
  {
    forall x: Ino, y, z: Ino, w | Bound(after, x, y) && Bound(after, z, w) && SameDir(after, x, y, z, w)
      ensures x == z && y == w
    {
      assert SameDir(fs, x, y, z, w);
    }
  }

  lemma AddKeepsWF(fs: FS, d: Ino, n: Bytes, node: Node)
    requires WF(fs) && IsDir(fs, d) && !Bound(fs, d, n) && (node.Dir? ==> node.entries == map[])
    ensures WF(Add(fs, d, n, node)) && Follows(fs, Add(fs, d, n, node))
  {
    var after := Add(fs, d, n, node);
    forall e: Ino, m | Bound(after, e, m)
      ensures Entry(after, e, m) in after.nodes
      ensures (e, m) == (d, n) || (Bound(fs, e, m) && Entry(after, e, m) == Entry(fs, e, m) < fs.next)
    {
      if (e, m) != (d, n) { assert Bound(fs, e, m); }
    }
    forall x: Ino, y, z: Ino, w | Bound(after, x, y) && Bound(after, z, w) && SameDir(after, x, y, z, w)
      ensures x == z && y == w
    {
      if (x, y) != (d, n) && (z, w) != (d, n) { assert SameDir(fs, x, y, z, w); }
    }
  }

  lemma RenameKeepsWF(fs: FS, d: Ino, n: Bytes, e: Ino, m: Bytes)
    requires WF(fs) && Enabled(fs, Rename(d, n, e, m))
    ensures WF(Do(fs, Rename(d, n, e, m))) && Follows(fs, Do(fs, Rename(d, n, e, m)))
  {
    var after := Do(fs, Rename(d, n, e, m));
    if after != fs {
      RenamedEntries(fs, d, n, e, m);
      forall x: Ino, y, z: Ino, w | Bound(after, x, y) && Bound(after, z, w) && SameDir(after, x, y, z, w)
        ensures x == z && y == w
      {
        var x', y' := if (x, y) == (e, m) then d else x, if (x, y) == (e, m) then n else y;
        var z', w' := if (z, w) == (e, m) then d else z, if (z, w) == (e, m) then n else w;
        assert SameDir(fs, x', y', z', w');
      }
    }
  }

  /** After a rename every entry is either the new one, or an old one neither renamed nor replaced. */
  lemma RenamedEntries(fs: FS, d: Ino, n: Bytes, e: Ino, m: Bytes)
    requires WF(fs) && Enabled(fs, Rename(d, n, e, m))
    requires !(Bound(fs, e, m) && Entry(fs, e, m) == Entry(fs, d, n))
    ensures var after := Do(fs, Rename(d, n, e, m));
      forall x: Ino, y :: Bound(after, x, y) ==>
        && Entry(after, x, y) in after.nodes
        && (if (x, y) == (e, m) then Entry(after, x, y) == Entry(fs, d, n)
            else Bound(fs, x, y) && (x, y) != (d, n) && Entry(after, x, y) == Entry(fs, x, y))
  {
    var after := Do(fs, Rename(d, n, e, m));
    forall x: Ino, y | Bound(after, x, y)
      ensures Entry(after, x, y) in after.nodes
      ensures if (x, y) == (e, m) then Entry(after, x, y) == Entry(fs, d, n)
              else Bound(fs, x, y) && (x, y) != (d, n) && Entry(after, x, y) == Entry(fs, x, y)
    {
      if (x, y) != (e, m) {
        assert Bound(fs, x, y) && Entry(after, x, y) == Entry(fs, x, y);
        if Bound(fs, e, m) && Entry(fs, x, y) == Entry(fs, e, m) && IsDir(fs, Entry(fs, e, m)) {
          assert SameDir(fs, x, y, e, m);
        }
      }
    }
  }

  // ---- what stays inside --------------------------------------------------

  lemma ReachStart(fs: FS, i: Ino)
    ensures Reach(fs, i, i)
  {
    var c := [i];
    assert Chain(fs, c) && c[0] == i && c[|c| - 1] == i;
  }

  lemma ReachOn(fs: FS, a: Ino, b: Ino, c: Ino)
    requires Reach(fs, a, b) && Edge(fs, b, c)
    ensures Reach(fs, a, c)
  {
    var p :| Chain(fs, p) && p[0] == a && p[|p| - 1] == b;
    var q := p + [c];
    assert Chain(fs, q) && q[0] == a && q[|q| - 1] == c;
  }

  lemma ReachThrough(fs: FS, a: Ino, b: Ino, c: Ino)
    requires Reach(fs, a, b) && Reach(fs, b, c)
    ensures Reach(fs, a, c)
  {
    var p :| Chain(fs, p) && p[0] == a && p[|p| - 1] == b;
    var q :| Chain(fs, q) && q[0] == b && q[|q| - 1] == c;
    var r := p + q[1..];
    forall k | 0 <= k < |r| - 1 ensures Edge(fs, r[k], r[k + 1]) {
      if k >= |p| - 1 {
        var j := k - (|p| - 1);
        assert r[k] == q[j] && r[k + 1] == q[j + 1];
      }
    }
    assert Chain(fs, r) && r[0] == a && r[|r| - 1] == c;
  }

  /** A chain cut at any of its members is a chain from there. */
  lemma ReachFromMember(fs: FS, c: seq<Ino>, k: nat)
    requires Chain(fs, c) && k < |c|
    ensures Reach(fs, c[0], c[k]) && Reach(fs, c[k], c[|c| - 1])
  {
    var front, back := c[..k + 1], c[k..];
    assert Chain(fs, front) && front[0] == c[0] && front[|front| - 1] == c[k];
    assert Chain(fs, back) && back[0] == c[k] && back[|back| - 1] == c[|c| - 1];
  }

  /** If every real entry of the old tree is still there, what was reached still is. */
  lemma ReachGrows(fs: FS, after: FS, from: Ino, to: Ino)
    requires Reach(fs, from, to)
    requires forall x: Ino, y: Ino :: Edge(fs, x, y) ==> Edge(after, x, y)
    ensures Reach(after, from, to)
  {
    var c :| Chain(fs, c) && c[0] == from && c[|c| - 1] == to;
    assert Chain(after, c);
  }

  /** Losing the entries of one directory costs only what is reached through it. */
  lemma ReachAvoids(fs: FS, after: FS, from: Ino, to: Ino, lost: set<Ino>)
    requires Reach(fs, from, to) && from !in lost
    requires forall y :: y in lost ==> !Reach(fs, y, to)
    requires forall x: Ino, y: Ino :: Edge(fs, x, y) && y !in lost ==> Edge(after, x, y)
    ensures Reach(after, from, to)
  {
    var c :| Chain(fs, c) && c[0] == from && c[|c| - 1] == to;
    forall k | 0 <= k < |c| - 1 ensures Edge(after, c[k], c[k + 1]) {
      assert Edge(fs, c[k], c[k + 1]);
      ReachFromMember(fs, c, k + 1);
    }
    assert Chain(after, c);
  }

  lemma EmptyReachesItself(fs: FS, e: Ino, to: Ino)
    requires Reach(fs, e, to) && EmptyDir(fs, e)
    ensures to == e
  {
    var c :| Chain(fs, c) && c[0] == e && c[|c| - 1] == to;
    assert |c| > 1 ==> Edge(fs, c[0], c[1]);
  }

  /** The boundary of the root holds: no step of another process that carries no directory out of
      the root leads an open directory out, not even by moving or replacing its ancestors. */
  lemma StepKeepsHeld(fs: FS, act: Act, i: Ino)
    requires WF(fs) && Enabled(fs, act) && !CarriesOut(fs, act) && Held(fs, i)
    ensures Held(Do(fs, act), i)
  {
    StepKeepsWF(fs, act);
    var after := Do(fs, act);
    if IsDir(after, i) {
      if act.Rename? && IsDir(fs, Entry(fs, act.dir, act.name)) {
        var c :| Chain(fs, c) && c[0] == fs.root && c[|c| - 1] == i;
        MovedStaysInside(fs, act.dir, act.name, act.toDir, act.toName, c);
      } else if act.RmDir? {
        var gone := Entry(fs, act.dir, act.name);
        if Reach(fs, gone, i) { EmptyReachesItself(fs, gone, i); }
        KeptEdges(fs, act, {gone});
        if fs.root == gone { EmptyReachesItself(fs, gone, i); }
        ReachAvoids(fs, after, fs.root, i, {gone});
      } else {
        KeptEdges(fs, act, {});
        ReachGrows(fs, after, fs.root, i);
      }
    }
  }

  /** The only real entries a step takes away are those of a removed, moved or replaced directory. */
  lemma KeptEdges(fs: FS, act: Act, lost: set<Ino>)
    requires WF(fs) && Enabled(fs, act)
    requires act.RmDir? ==> Entry(fs, act.dir, act.name) in lost
    requires act.Rename? && IsDir(fs, Entry(fs, act.dir, act.name)) ==>
      && Entry(fs, act.dir, act.name) in lost
      && (Bound(fs, act.toDir, act.toName) ==> Entry(fs, act.toDir, act.toName) in lost)
    ensures forall x: Ino, y: Ino :: Edge(fs, x, y) && y !in lost ==> Edge(Do(fs, act), x, y)
  {
    var after := Do(fs, act);
    forall x: Ino, y: Ino | Edge(fs, x, y) && y !in lost ensures Edge(after, x, y) {
      var n :| Bound(fs, x, n) && Entry(fs, x, n) == y;
      assert Bound(after, x, n) && Entry(after, x, n) == y;
    }
  }

  /** A directory taking in another one stays where it is: it is neither moved nor replaced. */
  lemma DestinationStays(fs: FS, d: Ino, n: Bytes, e: Ino, m: Bytes)
    requires WF(fs) && Enabled(fs, Rename(d, n, e, m)) && IsDir(fs, Entry(fs, d, n))
    requires Inside(fs, e) && fs.root != Entry(fs, d, n)
    ensures Inside(Do(fs, Rename(d, n, e, m)), e)
  {
    var moved := Entry(fs, d, n);
    var lost := {moved} + if Bound(fs, e, m) then {Entry(fs, e, m)} else {};
    KeptEdges(fs, Rename(d, n, e, m), lost);
    forall y | y in lost && y != moved ensures !Reach(fs, y, e) && y != e {
      if Reach(fs, y, e) { EmptyReachesItself(fs, y, e); }
    }
    ReachAvoids(fs, Do(fs, Rename(d, n, e, m)), fs.root, e, lost);
  }

  /** The moved directory's one parent was inside, so the directory it moves to is inside as well. */
  lemma MovedItself(fs: FS, d: Ino, n: Bytes, e: Ino, m: Bytes, p: Ino)
    requires WF(fs) && Enabled(fs, Rename(d, n, e, m)) && !CarriesOut(fs, Rename(d, n, e, m))
    requires Inside(fs, p) && Edge(fs, p, Entry(fs, d, n)) && Entry(fs, d, n) != fs.root
    ensures Inside(Do(fs, Rename(d, n, e, m)), Entry(fs, d, n))
  {
    var after, moved := Do(fs, Rename(d, n, e, m)), Entry(fs, d, n);
    var k :| Bound(fs, p, k) && Entry(fs, p, k) == moved;
    assert SameDir(fs, p, k, d, n);
    DestinationStays(fs, d, n, e, m);
    assert Bound(after, e, m) && Entry(after, e, m) == moved;
    ReachOn(after, fs.root, e, moved);
  }

  lemma {:induction false} MovedStaysInside(fs: FS, d: Ino, n: Bytes, e: Ino, m: Bytes, c: seq<Ino>)
    requires WF(fs) && Enabled(fs, Rename(d, n, e, m)) && !CarriesOut(fs, Rename(d, n, e, m))
    requires IsDir(fs, Entry(fs, d, n))
    requires Chain(fs, c) && c[0] == fs.root && IsDir(Do(fs, Rename(d, n, e, m)), c[|c| - 1])
    ensures Inside(Do(fs, Rename(d, n, e, m)), c[|c| - 1])
    decreases |c|
  {
    var act, i := Rename(d, n, e, m), c[|c| - 1];
    if i == fs.root {
      ReachStart(Do(fs, act), i);
    } else {
      var p := c[|c| - 2];
      assert Edge(fs, p, c[|c| - 2 + 1]);
      if i == Entry(fs, d, n) {
        ReachFromMember(fs, c, |c| - 2);
        MovedItself(fs, d, n, e, m, p);
      } else {
        KeptEdges(fs, act, {Entry(fs, d, n)} + if Bound(fs, e, m) then {Entry(fs, e, m)} else {});
        MovedStaysInside(fs, d, n, e, m, c[..|c| - 1]);
        ReachOn(Do(fs, act), fs.root, p, i);
      }
    }
  }

  /** ... and that is the only step that can: whatever carries a directory out takes it from anyone
      holding it. */
  lemma CarryingOutEscapes(fs: FS, act: Act)
    requires WF(fs) && Enabled(fs, act) && CarriesOut(fs, act)
    ensures Held(fs, Entry(fs, act.dir, act.name)) && !Held(Do(fs, act), Entry(fs, act.dir, act.name))
  {
    var after, moved := Do(fs, act), Entry(fs, act.dir, act.name);
    assert Edge(fs, act.dir, moved);
    ReachOn(fs, fs.root, act.dir, moved);
    assert Bound(fs, act.toDir, act.toName) ==>
      (SameDir(fs, act.dir, act.name, act.toDir, act.toName) <==> Entry(fs, act.toDir, act.toName) == moved);
    if Inside(after, moved) {
      var c :| Chain(after, c) && c[0] == fs.root && c[|c| - 1] == moved;
      OnlyParent(fs, act, c, |c| - 1);
      NotBackInside(fs, act, c[..|c| - 1]);
    }
  }

  /** After the move, a chain comes to the moved directory only from its new parent, and over old
      entries to everything else. */
  lemma OnlyParent(fs: FS, act: Act, c: seq<Ino>, k: nat)
    requires WF(fs) && Enabled(fs, act) && CarriesOut(fs, act)
    requires !(Bound(fs, act.toDir, act.toName) && Entry(fs, act.toDir, act.toName) == Entry(fs, act.dir, act.name))
    requires Chain(Do(fs, act), c) && 1 <= k < |c|
    ensures if c[k] == Entry(fs, act.dir, act.name) then c[k - 1] == act.toDir else Edge(fs, c[k - 1], c[k])
  {
    var after := Do(fs, act);
    assert Edge(after, c[k - 1], c[k - 1 + 1]);
    var n :| Bound(after, c[k - 1], n) && Entry(after, c[k - 1], n) == c[k];
    RenamedEntries(fs, act.dir, act.name, act.toDir, act.toName);
    if (c[k - 1], n) != (act.toDir, act.toName) {
      assert SameDir(fs, c[k - 1], n, act.dir, act.name) <==> c[k] == Entry(fs, act.dir, act.name);
      assert IsDir(fs, c[k]);
    }
  }

  lemma {:induction false} NotBackInside(fs: FS, act: Act, c: seq<Ino>)
    requires WF(fs) && Enabled(fs, act) && CarriesOut(fs, act)
    requires !(Bound(fs, act.toDir, act.toName) && Entry(fs, act.toDir, act.toName) == Entry(fs, act.dir, act.name))
    requires Chain(Do(fs, act), c) && c[0] == fs.root && c[|c| - 1] == act.toDir
    ensures false
    decreases |c|
  {
    var moved := Entry(fs, act.dir, act.name);
    if k :| 1 <= k < |c| && c[k] == moved {
      OnlyParent(fs, act, c, k);
      NotBackInside(fs, act, c[..k]);
    } else {
      forall k | 0 <= k < |c| - 1 ensures Edge(fs, c[k], c[k + 1]) {
        OnlyParent(fs, act, c, k + 1);
      }
      assert Chain(fs, c);
    }
  }

  // ---- runs of other processes ---------------------------------------------

  /** What a name in a directory shows to whoever looks it up. */
  datatype Sight = Nothing | Contents(file: Ino, bytes: Bytes, synced: bool) | SomethingElse(ino: Ino)

  function See(fs: FS, d: Ino, name: Bytes): Sight {
    if !Bound(fs, d, name) then Nothing else
    var i := Entry(fs, d, name);
    if i in fs.nodes && fs.nodes[i].File? then Contents(i, fs.nodes[i].bytes, fs.nodes[i].synced)
    else SomethingElse(i)
  }

  type Pins = set<(Ino, Bytes)>

  ghost predicate Spares(fs: FS, after: FS, pins: Pins) {
    forall d, n :: (d, n) in pins ==> See(after, d, n) == See(fs, d, n)
  }

  /** One step of another process; the names in `pins` are left alone. */
  ghost predicate WorldStep(fs: FS, after: FS, pins: Pins) {
    && Spares(fs, after, pins)
    && exists act :: Enabled(fs, act) && !CarriesOut(fs, act) && after == Do(fs, act)
  }

  ghost predicate WorldRun(run: seq<FS>, pins: Pins) {
    |run| >= 1 && forall k :: 0 <= k < |run| - 1 ==> WorldStep(run[k], run[k + 1], pins)
  }

  /** Any number of steps of other processes lead from one state to the other. */
  ghost predicate World(fs: FS, after: FS, pins: Pins) {
    exists run :: WorldRun(run, pins) && run[0] == fs && run[|run| - 1] == after
  }

  /** Nothing but the root's own descendants is different. */
  ghost predicate OutsideUntouched(fs: FS, after: FS) {
    forall i :: i in fs.nodes && !Beneath(fs, i) ==> i in after.nodes && after.nodes[i] == fs.nodes[i]
  }

  /** However many steps other processes take, the file system stays well formed, the spared names
      show the same, and no open directory leads outside. */
  lemma {:induction false} WorldKeeps(run: seq<FS>, pins: Pins)
    requires WorldRun(run, pins) && WF(run[0])
    ensures var fs, after := run[0], run[|run| - 1];
            WF(after) && Follows(fs, after) && Spares(fs, after, pins) && forall i :: Held(fs, i) ==> Held(after, i)
    decreases |run|
  {
    if |run| > 1 {
      assert WorldStep(run[0], run[0 + 1], pins);
      var act :| Enabled(run[0], act) && !CarriesOut(run[0], act) && run[1] == Do(run[0], act);
      StepKeepsWF(run[0], act);
      forall i | Held(run[0], i) ensures Held(run[1], i) { StepKeepsHeld(run[0], act, i); }
      var rest := run[1..];
      forall k | 0 <= k < |rest| - 1 ensures WorldStep(rest[k], rest[k + 1], pins) {
        assert WorldStep(run[k + 1], run[k + 1 + 1], pins);
      }
      WorldKeeps(rest, pins);
    }
  }

  /** What other processes can do at the least, all at once or in turn: make entries wherever there is none,
      take away files, links and empty directories, and move files anywhere, and directories anywhere inside
      but below themselves. */
  lemma OthersMay(fs: FS, d: Ino, n: Bytes, e: Ino, m: Bytes, target: Bytes)
    requires IsDir(fs, d) && IsDir(fs, e)
    ensures n !in fs.nodes[d].entries ==>
      && WorldStep(fs, Do(fs, MkDir(d, n)), {}) && WorldStep(fs, Do(fs, Create(d, n)), {})
      && WorldStep(fs, Do(fs, MakeLink(d, n, target)), {})
    ensures n in fs.nodes[d].entries && !IsDir(fs, fs.nodes[d].entries[n]) ==>
      && WorldStep(fs, Do(fs, Unlink(d, n)), {})
      && (m !in fs.nodes[e].entries ==> WorldStep(fs, Do(fs, Rename(d, n, e, m)), {}))
    ensures n in fs.nodes[d].entries && IsDir(fs, fs.nodes[d].entries[n]) ==>
      && (fs.nodes[fs.nodes[d].entries[n]].entries == map[] ==> WorldStep(fs, Do(fs, RmDir(d, n)), {}))
      && (m !in fs.nodes[e].entries && !Reach(fs, fs.nodes[d].entries[n], e) && Inside(fs, e) ==>
            WorldStep(fs, Do(fs, Rename(d, n, e, m)), {}))
  {
    hide Do;
    forall act | Enabled(fs, act) && !CarriesOut(fs, act) ensures WorldStep(fs, Do(fs, act), {}) {}
  }

  /** Where a step of the helper lands. */
  ghost predicate LandsInside(fs: FS, act: Act) {
    match act
    case MkDir(d, _) => Inside(fs, d)
    case Create(d, _) => Inside(fs, d)
    case MakeLink(d, _, _) => Inside(fs, d)
    case Write(f, _) => Beneath(fs, f)
    case Sync(f) => Beneath(fs, f)
    case Unlink(d, _) => Inside(fs, d)
    case RmDir(d, _) => Inside(fs, d)
    case Rename(d, _, e, _) => Inside(fs, d) && Inside(fs, e)
  }

  /** A step that lands inside changes nothing outside. */
  lemma LandingTouchesInside(fs: FS, act: Act)
    requires WF(fs) && Enabled(fs, act) && LandsInside(fs, act)
    ensures OutsideUntouched(fs, Do(fs, act))
  {}

  // ---- what a step shows ---------------------------------------------------

  /** Every other name shows what it did. */
  ghost predicate OtherNames(fs: FS, after: FS, names: set<(Ino, Bytes)>) {
    forall d: Ino, n :: (d, n) !in names ==> See(after, d, n) == See(fs, d, n)
  }

  /** Every name that does not show file `i` shows what it did. */
  ghost predicate OtherFiles(fs: FS, after: FS, i: Ino) {
    forall d: Ino, n :: !(See(fs, d, n).Contents? && See(fs, d, n).file == i) ==> See(after, d, n) == See(fs, d, n)
  }

  lemma CreateShows(fs: FS, d: Ino, name: Bytes)
    requires WF(fs) && Enabled(fs, Create(d, name))
    ensures See(Do(fs, Create(d, name)), d, name) == Contents(fs.next, [], false)
    ensures OtherNames(fs, Do(fs, Create(d, name)), {(d, name)})
  {
    var after := Do(fs, Create(d, name));
    forall e: Ino, n | (e, n) != (d, name) ensures See(after, e, n) == See(fs, e, n) {
      assert Bound(after, e, n) <==> Bound(fs, e, n);
    }
  }

  lemma FileStepShows(fs: FS, act: Act, i: Ino)
    requires WF(fs) && Enabled(fs, act) && (act == Sync(i) || (act.Write? && act.file == i))
    ensures OtherFiles(fs, Do(fs, act), i)
    ensures forall d: Ino, n :: See(fs, d, n).Contents? && See(fs, d, n).file == i ==>
      See(Do(fs, act), d, n) == if act.Sync? then See(fs, d, n).(synced := true) else Contents(i, act.bytes, false)
  {
    var after := Do(fs, act);
    forall e: Ino, n ensures Bound(after, e, n) <==> Bound(fs, e, n) {}
  }

  lemma UnlinkShows(fs: FS, d: Ino, name: Bytes)
    requires WF(fs) && Enabled(fs, Unlink(d, name))
    ensures See(Do(fs, Unlink(d, name)), d, name) == Nothing
    ensures OtherNames(fs, Do(fs, Unlink(d, name)), {(d, name)})
  {
    var after := Do(fs, Unlink(d, name));
    forall e: Ino, n | (e, n) != (d, name) ensures See(after, e, n) == See(fs, e, n) {
      assert Bound(after, e, n) <==> Bound(fs, e, n);
    }
  }

  /** A file renamed within a directory shows under its new name and no longer under the old one. */
  lemma RenameShows(fs: FS, d: Ino, name: Bytes, toName: Bytes)
    requires WF(fs) && Enabled(fs, Rename(d, name, d, toName)) && See(fs, d, name).Contents?
    requires name != toName ==> See(fs, d, toName) != See(fs, d, name)
    ensures var after := Do(fs, Rename(d, name, d, toName));
      && See(after, d, toName) == See(fs, d, name)
      && (name != toName ==> See(after, d, name) == Nothing)
      && OtherNames(fs, after, {(d, name), (d, toName)})
  {
    var after := Do(fs, Rename(d, name, d, toName));
    if name != toName {
      forall e: Ino, n | (e, n) !in {(d, name), (d, toName)} ensures See(after, e, n) == See(fs, e, n) {
        assert Bound(after, e, n) <==> Bound(fs, e, n);
      }
    }
  }
}
