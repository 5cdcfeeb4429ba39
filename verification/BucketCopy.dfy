/** Moving a bucket from one object store to another, with runs that may be cut off anywhere. */
module BucketCopy {
  import opened Options

  type Bytes = seq<int>

  type Objects = map<string, Bytes>

  /** SHA-256, or any other digest. */
  type Digest = Bytes -> int

  datatype Read = Body(bytes: Bytes) | NoSuchKey | Raised

  /** One store with the bucket in question. Every call to a faulty store may raise, which also stands for
      the run being cut off there, and may leave any bytes behind under the key it was writing. */
  class Store {
    const faulty: bool
    var bucket: bool
    var objects: Objects

    constructor (faulty: bool, objects: Objects)
      ensures this.faulty == faulty && bucket && this.objects == objects
    {
      this.faulty, bucket, this.objects := faulty, true, objects;
    }

    method EnsureBucket() returns (ok: bool)
      modifies `bucket
      ensures !faulty ==> ok
      ensures old(bucket) ==> bucket
      ensures ok ==> bucket
    {
      if faulty {
        var raises := *;
        if raises { return false; }
      }
      if !bucket { bucket := true; }
      return true;
    }

    /** `_read`. */
    method Get(key: string) returns (r: Read)
      ensures r.Raised? ==> faulty
      ensures r.Body? ==> key in objects && r.bytes == objects[key]
      ensures r.NoSuchKey? ==> key !in objects
    {
      if faulty {
        var raises := *;
        if raises { return Raised; }
      }
      r := if key in objects then Body(objects[key]) else NoSuchKey;
    }

    method Put(key: string, body: Bytes) returns (ok: bool)
      modifies `objects
      ensures !faulty ==> ok && objects == old(objects)[key := body]
      ensures SameBut(old(objects), objects, [key])
    {
      ok := true;
      if faulty {
        var left: bool, bytes: Bytes := *, *;
        ok := *;
        if left { objects := objects[key := bytes]; }
      } else {
        objects := objects[key := body];
      }
    }
  }

  /** The same objects, the given keys aside. */
  ghost predicate SameBut(a: Objects, b: Objects, keys: seq<string>) {
    forall k :: k !in keys ==> (k in a <==> k in b) && (k in a && k in b ==> a[k] == b[k])
  }

  ghost predicate Matches(digest: Digest, source: Objects, target: Objects, key: string) {
    key in source && key in target && digest(target[key]) == digest(source[key])
  }

  datatype Report = Report(copied: nat, skipped: nat, keys: seq<string>)

  datatype Outcome = Finished(report: Report) | Failed

  /** The keys a listing names; an entry without a name is passed over. */
  function Named(listing: seq<Option<string>>): seq<string> {
    if listing == [] then []
    else
      var before, last := Named(listing[..|listing| - 1]), listing[|listing| - 1];
      match last case None => before case Some(key) => before + [key]
  }

  ghost predicate Distinct(names: seq<string>) {
    forall i, j :: 0 <= i < j < |names| ==> names[i] != names[j]
  }

  /** The names whose object on the target does not have the source's digest. */
  ghost function Lacking(digest: Digest, names: seq<string>, source: Objects, target: Objects): seq<string> {
    if names == [] then []
    else
      var before, last := Lacking(digest, names[..|names| - 1], source, target), names[|names| - 1];
      if Matches(digest, source, target, last) then before else before + [last]
  }

  datatype Step = Copied | Skipped | Stopped

  /** The body of the loop: one object is there already, or is copied and read back. */
  method CopyObject(digest: Digest, source: Store, key: string, target: Store) returns (step: Step)
    requires source != target
    modifies target`objects
    ensures SameBut(old(target.objects), target.objects, [key])
    ensures !step.Stopped? ==> Matches(digest, source.objects, target.objects, key)
    ensures step.Skipped? || Matches(digest, source.objects, old(target.objects), key) ==>
      target.objects == old(target.objects)
    ensures step.Copied? ==> !Matches(digest, source.objects, old(target.objects), key)
    ensures step.Stopped? ==> source.faulty || target.faulty || key !in source.objects
  {
    var body := source.Get(key);
    if !body.Body? { return Stopped; }
    var expected := digest(body.bytes);
    var existing := target.Get(key);
    if existing.Raised? { return Stopped; }
    if existing.Body? && digest(existing.bytes) == expected { return Skipped; }
    var ok := target.Put(key, body.bytes);
    if !ok { return Stopped; }
    var landed := target.Get(key);
    if !landed.Body? || digest(landed.bytes) != expected { return Stopped; }
    return Copied;
  }

  /** What a report says of the names gone through: each is counted once, and those copied are those the
      target lacked. */
  ghost predicate Tells(report: Report, digest: Digest, names: seq<string>, source: Objects, before: Objects) {
    && report.copied + report.skipped == |names|
    && report.copied == |report.keys|
    && report.keys == Lacking(digest, names, source, before)
  }

  /** The state after the names gone through. */
  ghost predicate Progress(digest: Digest, names: seq<string>, source: Objects, before: Objects, now: Objects) {
    && SameBut(before, now, names)
    && forall k :: k in names ==> Matches(digest, source, now, k)
  }

  /** What matched before is left as it is. */
  ghost predicate KeepsMatched(digest: Digest, source: Objects, before: Objects, now: Objects) {
    forall k :: Matches(digest, source, before, k) ==> k in now && now[k] == before[k]
  }

  /** `copy_bucket`. A run that finishes leaves every listed key on the target with the source's digest,
      has counted each once, and has copied just those that lacked it; whatever happens, nothing else on
      the target changes. */
  method CopyBucket(digest: Digest, source: Store, listing: seq<Option<string>>, target: Store)
    returns (outcome: Outcome)
    requires source != target && Distinct(Named(listing))
    modifies target
    ensures SameBut(old(target.objects), target.objects, Named(listing))
    ensures KeepsMatched(digest, source.objects, old(target.objects), target.objects)
    ensures outcome.Finished? ==>
      target.bucket && Progress(digest, Named(listing), source.objects, old(target.objects), target.objects)
    ensures outcome.Finished? ==> Tells(outcome.report, digest, Named(listing), source.objects, old(target.objects))
    ensures outcome.Finished? && outcome.report.copied == 0 ==> target.objects == old(target.objects)
    ensures outcome.Failed? ==>
      source.faulty || target.faulty || exists k :: k in Named(listing) && k !in source.objects
  {
    hide Named, Distinct, SameBut, Matches, Tells, Lacking, Progress, KeepsMatched;
    ghost var before := target.objects;
    ghost var all := Named(listing);
    var ok := target.EnsureBucket();
    StartUp(digest, listing, source.objects, before);
    if !ok { return Failed; }
    var report := Report(0, 0, []);
    for i := 0 to |listing|
      invariant target.bucket
      invariant Progress(digest, Named(listing[..i]), source.objects, before, target.objects)
      invariant Tells(report, digest, Named(listing[..i]), source.objects, before)
      invariant KeepsMatched(digest, source.objects, before, target.objects)
      invariant report.copied == 0 ==> target.objects == before
    {
      ghost var names, was := Named(listing[..i]), target.objects;
      Earlier(listing, i);
      Narrow(digest, names, all, source.objects, before, was);
      if source.faulty {
        var raises := *;
        if raises { return Failed; }
      }
      NextName(listing, i);
      if listing[i].None? { continue; }
      var key := listing[i].value;
      var step := CopyObject(digest, source, key, target);
      OneMore(digest, names, all, key, source.objects, before, was, target.objects);
      if step.Stopped? { return Failed; }
      CountOne(report, step.Copied?, digest, names, key, source.objects, before, was);
      report := if step.Skipped? then report.(skipped := report.skipped + 1)
                else Report(report.copied + 1, report.skipped, report.keys + [key]);
    }
    assert listing[..|listing|] == listing;
    Narrow(digest, all, all, source.objects, before, target.objects);
    return Finished(report);
  }

  lemma StartUp(digest: Digest, listing: seq<Option<string>>, source: Objects, before: Objects)
    ensures Named(listing[..0]) == []
    ensures Progress(digest, [], source, before, before) && Tells(Report(0, 0, []), digest, [], source, before)
    ensures SameBut(before, before, Named(listing)) && KeepsMatched(digest, source, before, before)
  {}

  lemma {:induction false} Earlier(listing: seq<Option<string>>, i: nat)
    requires i <= |listing|
    ensures Named(listing[..i]) <= Named(listing)
    decreases |listing| - i
  {
    if i < |listing| {
      Earlier(listing, i + 1);
      assert listing[..i + 1][..i] == listing[..i];
    } else {
      assert listing[..i] == listing;
    }
  }

  lemma NextName(listing: seq<Option<string>>, i: nat)
    requires i < |listing| && Distinct(Named(listing))
    ensures listing[i].None? ==> Named(listing[..i + 1]) == Named(listing[..i])
    ensures listing[i].Some? ==> Named(listing[..i + 1]) == Named(listing[..i]) + [listing[i].value]
    ensures listing[i].Some? ==> listing[i].value in Named(listing) && listing[i].value !in Named(listing[..i])
  {
    assert listing[..i + 1][..i] == listing[..i];
    Earlier(listing, i + 1);
    var names, all := Named(listing[..i + 1]), Named(listing);
    assert forall j :: 0 <= j < |names| ==> names[j] == all[j];
  }

  lemma Narrow(digest: Digest, names: seq<string>, all: seq<string>, source: Objects, before: Objects, now: Objects)
    requires Progress(digest, names, source, before, now) && names <= all
    ensures SameBut(before, now, all)
  {
    assert forall k :: k in names ==> k in all;
  }

  /** Work on a new key leaves what was done for the others. */
  lemma OneMore(digest: Digest, names: seq<string>, all: seq<string>, key: string, source: Objects,
                before: Objects, was: Objects, now: Objects)
    requires Progress(digest, names, source, before, was) && SameBut(was, now, [key])
    requires names <= all && key in all && key !in names
    requires KeepsMatched(digest, source, before, was) && (Matches(digest, source, was, key) ==> now == was)
    ensures SameBut(before, now, all) && KeepsMatched(digest, source, before, now)
    ensures Matches(digest, source, now, key) ==> Progress(digest, names + [key], source, before, now)
  {
    assert forall k :: k in names ==> k in all;
  }

  lemma Counted(digest: Digest, names: seq<string>, key: string, source: Objects, before: Objects, was: Objects)
    requires Progress(digest, names, source, before, was) && key !in names
    ensures Lacking(digest, names + [key], source, before)
         == Lacking(digest, names, source, before) + if Matches(digest, source, was, key) then [] else [key]
  {
    assert (names + [key])[..|names|] == names;
  }

  lemma CountOne(report: Report, copied: bool, digest: Digest, names: seq<string>, key: string, source: Objects,
                 before: Objects, was: Objects)
    requires Tells(report, digest, names, source, before) && Progress(digest, names, source, before, was)
    requires key !in names
    requires copied <==> !Matches(digest, source, was, key)
    ensures Tells(if copied then Report(report.copied + 1, report.skipped, report.keys + [key])
                  else report.(skipped := report.skipped + 1), digest, names + [key], source, before)
  {
    Counted(digest, names, key, source, before, was);
  }

  /** The names a listing gives are those of its entries that have one. */
  lemma {:induction false} NamedAre(listing: seq<Option<string>>)
    ensures forall k :: k in Named(listing) <==> Some(k) in listing
  {
    if listing != [] {
      NamedAre(listing[..|listing| - 1]);
      assert forall e :: e in listing <==> e in listing[..|listing| - 1] || e == listing[|listing| - 1];
    }
  }

  lemma {:induction false} NothingLacking(digest: Digest, names: seq<string>, source: Objects, target: Objects)
    ensures forall k :: k in Lacking(digest, names, source, target) <==>
                          k in names && !Matches(digest, source, target, k)
    ensures Lacking(digest, names, source, target) == [] <==>
      forall k :: k in names ==> Matches(digest, source, target, k)
  {
    if names != [] {
      NothingLacking(digest, names[..|names| - 1], source, target);
      assert forall k :: k in names <==> k in names[..|names| - 1] || k == names[|names| - 1];
    }
  }

  /** Any number of runs, each cut off wherever it may be, then one more and another after it: once the
      one has finished, the target holds every key with the source's digest, and the other copies nothing.
      All other keys of the target are as at the start. */
  method Migrate(digest: Digest, source: Store, listing: seq<Option<string>>, target: Store, attempts: nat)
    returns (done: Outcome, again: Outcome)
    requires source != target && Distinct(Named(listing))
    modifies target
    ensures SameBut(old(target.objects), target.objects, Named(listing))
    ensures done.Finished? ==> forall k :: k in Named(listing) ==> Matches(digest, source.objects, target.objects, k)
    ensures done.Finished? && again.Finished? ==> again.report == Report(0, |Named(listing)|, [])
  {
    hide Named, Distinct;
    for i := 0 to attempts
      invariant SameBut(old(target.objects), target.objects, Named(listing))
    {
      var cut := CopyBucket(digest, source, listing, target);
    }
    done := CopyBucket(digest, source, listing, target);
    NothingLacking(digest, Named(listing), source.objects, target.objects);
    again := CopyBucket(digest, source, listing, target);
  }
}
