/** What versioning promises: stored versions do not change, and each key has one latest. */
module VersionSafety {
  import opened Basics
  import opened Storage

  // --------------------------------------------------------------- immutability

  function NameOf(v: VerId): BlobId {
    BlobId(v.bucket, VersionedName(v.key, v.version))
  }

  /** A read of the version finds this content. */
  ghost predicate Reads(s: Store, v: VerId, data: Blob) {
    GetVersion(s, v) == Some(data)
  }

  /** The same in a bucket that keeps versions. */
  ghost predicate Stores(s: Store, v: VerId, data: Blob) {
    v.bucket in s.buckets && s.buckets[v.bucket].versioning == Enabled && Reads(s, v, data)
  }

  /**
   The step does not delete the version by its identifier, does not switch its bucket's
   versioning off, and copies or completes no object onto the version's own blob name.
   */
  predicate Spares(s: Store, op: Op, v: VerId) {
    match op
    case RemoveVersion(id) => id != v
    case Switch(b, setting) => b == v.bucket ==> setting == Enabled
    case Copy(_, o, _) => BlobId(o.bucket, o.key) != NameOf(v)
    case Complete(upload, _, _) =>
      upload in s.uploads ==> BlobId(s.uploads[upload].bucket, s.uploads[upload].key) != NameOf(v)
    case _ => true
  }

  /** A put on a versioned bucket stores the new version with the content that was put. */
  lemma PutStores(s: Store, op: Op)
    requires op.Put? && op.o.bucket in s.buckets && s.buckets[op.o.bucket].versioning == Enabled
    requires Step(s, op).0 == Done
    ensures Stores(Step(s, op).1, VerId(op.o.bucket, op.o.key, op.version), op.body)
    ensures op.version != "" ==> GetObject(Step(s, op).1, op.o) == Some(op.body)
  {
  }

  /** A completion leaves every blob that is neither its target nor a part. */
  lemma CompleteLeaves(s: Store, upload: string, listed: seq<nat>, now: int, id: BlobId)
    requires upload in s.uploads && id != BlobId(s.uploads[upload].bucket, s.uploads[upload].key)
             && !IsPartName(id.name)
    ensures Get(CompleteUpload(s, upload, listed, now).1.blobs, id) == Get(s.blobs, id)
  {
    var (r, s') := CompleteUpload(s, upload, listed, now);
    if r == Done {
      var up := s.uploads[upload];
      assert id !in FirstParts(up.bucket, upload, |listed|);
    }
  }

  /** Under versioning no put and no deletion reaches a stored version's blob. */
  lemma SparesIsHarmless(s: Store, op: Op, v: VerId, data: Blob)
    requires Stores(s, v, data) && Proper(s, op) && Spares(s, op, v)
    ensures Harmless(s, op, v, data)
  {
  }

  lemma BucketKeepsVersions(s: Store, op: Op, v: VerId)
    requires v.bucket in s.buckets && s.buckets[v.bucket].versioning == Enabled && Spares(s, op, v)
    ensures v.bucket in Step(s, op).1.buckets && Step(s, op).1.buckets[v.bucket].versioning == Enabled
  {
  }

  lemma StepSpares(s: Store, op: Op, v: VerId, data: Blob)
    requires Stores(s, v, data) && Tidy(s) && Proper(s, op) && Spares(s, op, v)
    ensures Stores(Step(s, op).1, v, data)
  {
    SparesIsHarmless(s, op, v, data);
    StepKeepsVersionIff(s, op, v, data);
    BucketKeepsVersions(s, op, v);
  }

  /**
   Version immutability: once a version is stored, a read by its identifier finds the
   bytes that were put, after any run that spares it.
   */
  lemma {:induction false} VersionsAreImmutable(states: seq<Store>, ops: seq<Op>, v: VerId, data: Blob, i: nat, j: nat)
    requires ProperRun(states, ops) && i <= j < |states| && Tidy(states[0])
    requires Stores(states[i], v, data)
    requires forall k {:trigger ops[k]} :: i <= k < j ==> Spares(states[k], ops[k], v)
    ensures Stores(states[j], v, data)
    decreases j - i
  {
    if i < j {
      VersionsAreImmutable(states, ops, v, data, i, j - 1);
      RunTidy(states, ops, j - 1);
      StepSpares(states[j - 1], ops[j - 1], v, data);
    }
  }

  /**
   A copy changes a stored version exactly when it goes to the version's own blob name
   with other content, which versioning does not prevent.
   */
  lemma CopyHitsVersionIff(s: Store, src: ObjId, dst: ObjId, now: int, v: VerId, data: Blob)
    requires Reads(s, v, data) && CopyObject(s, src, dst, now).0 == Done
    ensures GetVersion(CopyObject(s, src, dst, now).1, v) != Some(data) <==>
            BlobId(dst.bucket, dst.key) == NameOf(v) && s.blobs[BlobOf(src, s.objects[src])] != data
  {
  }

  /** A completion changes a version exactly when it goes to its blob name with other content. */
  lemma CompletionHitsVersionIff(s: Store, upload: string, listed: seq<nat>, now: int, v: VerId, data: Blob)
    requires Reads(s, v, data) && Tidy(s) && CompleteUpload(s, upload, listed, now).0 == Done
    ensures var up := s.uploads[upload];
      GetVersion(CompleteUpload(s, upload, listed, now).1, v) != Some(data) <==>
      BlobId(up.bucket, up.key) == NameOf(v)
      && Assemble(s.blobs, up.bucket, upload, SortNumbers(listed)) != Some(data)
  {
    VersionedNameIsNoPart(v.key, v.version);
    var up := s.uploads[upload];
    if BlobId(up.bucket, up.key) == NameOf(v) {
      CompletionWrites(s, upload, listed, now);
    } else {
      CompleteLeaves(s, upload, listed, now, NameOf(v));
    }
  }

  /** A completion's target holds the assembled parts; version records stay. */
  lemma CompletionWrites(s: Store, upload: string, listed: seq<nat>, now: int)
    requires CompleteUpload(s, upload, listed, now).0 == Done && !IsPartName(s.uploads[upload].key)
    ensures var s', up := CompleteUpload(s, upload, listed, now).1, s.uploads[upload];
      && Get(s'.blobs, BlobId(up.bucket, up.key)) == Assemble(s.blobs, up.bucket, upload, SortNumbers(listed))
      && s'.versions == s.versions
  {
    var up := s.uploads[upload];
    assert BlobId(up.bucket, up.key) !in FirstParts(up.bucket, upload, |listed|);
  }

  // ----------------------------------------------- any operation, any versioning

  /** A put of the declared size is accepted and goes to the plain blob name. */
  predicate Overwrites(s: Store, o: ObjId, declared: int) {
    o.bucket in s.buckets && s.buckets[o.bucket].versioning != Enabled && WithinQuota(s.buckets[o.bucket], declared)
  }

  /**
   The operation leaves the version readable: it does not remove it by its identifier,
   does not delete an object whose index entry names its blob, and writes nothing else
   to its blob name.
   */
  ghost predicate Harmless(s: Store, op: Op, v: VerId, data: Blob) {
    match op
    case Put(o, body, declared, _, _, _) =>
      Overwrites(s, o, declared) && BlobId(o.bucket, o.key) == NameOf(v) ==> body == data
    case Delete(o, _) =>
      o.bucket in s.buckets && s.buckets[o.bucket].versioning != Enabled && o in s.objects ==>
        BlobOf(o, s.objects[o]) != NameOf(v)
    case RemoveVersion(id) => id != v
    case Copy(src, o, now) =>
      CopyObject(s, src, o, now).0 == Done && BlobId(o.bucket, o.key) == NameOf(v) ==>
        s.blobs[BlobOf(src, s.objects[src])] == data
    case Complete(upload, listed, now) =>
      CompleteUpload(s, upload, listed, now).0 == Done
      && BlobId(s.uploads[upload].bucket, s.uploads[upload].key) == NameOf(v) ==>
        Assemble(s.blobs, s.uploads[upload].bucket, upload, SortNumbers(listed)) == Some(data)
    case _ => true
  }

  lemma PutKeepsIff(s: Store, op: Op, v: VerId, data: Blob)
    requires op.Put? && Reads(s, v, data) && Tidy(s) && Proper(s, op)
    ensures Reads(Step(s, op).1, v, data) <==> Harmless(s, op, v, data)
  {
    if op.o.bucket in s.buckets && s.buckets[op.o.bucket].versioning == Enabled {
      assert op.o.bucket == v.bucket ==> BlobId(v.bucket, VersionedName(op.o.key, op.version)) !in s.blobs;
    }
  }

  lemma DeleteKeepsIff(s: Store, op: Op, v: VerId, data: Blob)
    requires op.Delete? && Reads(s, v, data) && Proper(s, op)
    ensures Reads(Step(s, op).1, v, data) <==> Harmless(s, op, v, data)
  {
  }

  lemma RemoveKeepsIff(s: Store, op: Op, v: VerId, data: Blob)
    requires op.RemoveVersion? && Reads(s, v, data) && Tidy(s)
    ensures Reads(Step(s, op).1, v, data) <==> Harmless(s, op, v, data)
  {
    if op.id in s.versions && op.id != v && NameOf(op.id) == NameOf(v) {
      VersionedNameInjective(op.id.key, op.id.version, v.key, v.version);
    }
  }

  lemma CopyKeepsIff(s: Store, op: Op, v: VerId, data: Blob)
    requires op.Copy? && Reads(s, v, data)
    ensures Reads(Step(s, op).1, v, data) <==> Harmless(s, op, v, data)
  {
  }

  lemma CompleteKeepsIff(s: Store, op: Op, v: VerId, data: Blob)
    requires op.Complete? && Reads(s, v, data) && Tidy(s)
    ensures Reads(Step(s, op).1, v, data) <==> Harmless(s, op, v, data)
  {
    if CompleteUpload(s, op.upload, op.listed, op.now).0 == Done {
      CompletionHitsVersionIff(s, op.upload, op.listed, op.now, v, data);
    }
  }

  lemma SendKeeps(s: Store, op: Op, v: VerId, data: Blob)
    requires op.SendPart? && Reads(s, v, data) && Tidy(s)
    ensures Reads(Step(s, op).1, v, data)
  {
    VersionedNameIsNoPart(v.key, v.version);
    PartNameIsPart(op.part.upload, op.part.number);
  }

  /** Part blobs are dropped beside the versions. */
  lemma AbortKeeps(s: Store, op: Op, v: VerId, data: Blob)
    requires op.Abort? && Reads(s, v, data) && Tidy(s)
    ensures Reads(Step(s, op).1, v, data)
  {
    VersionedNameIsNoPart(v.key, v.version);
  }

  /** Every operation, under any versioning, keeps a version exactly when it is harmless to it. */
  lemma StepKeepsVersionIff(s: Store, op: Op, v: VerId, data: Blob)
    requires Reads(s, v, data) && Tidy(s) && Proper(s, op)
    ensures Reads(Step(s, op).1, v, data) <==> Harmless(s, op, v, data)
  {
    match op
    case Put(_, _, _, _, _, _) => PutKeepsIff(s, op, v, data);
    case Delete(_, _) => DeleteKeepsIff(s, op, v, data);
    case RemoveVersion(_) => RemoveKeepsIff(s, op, v, data);
    case Copy(_, _, _) => CopyKeepsIff(s, op, v, data);
    case Complete(_, _, _) => CompleteKeepsIff(s, op, v, data);
    case SendPart(_, _, _) => SendKeeps(s, op, v, data);
    case Abort(_) => AbortKeeps(s, op, v, data);
    case _ =>
  }

  /** At which moments from the i-th on the version reads as the data. */
  ghost function ReadsFrom(states: seq<Store>, v: VerId, data: Blob, i: nat): (holds: seq<bool>)
    requires i <= |states|
    ensures |holds| == |states| - i && forall k :: 0 <= k < |holds| ==> holds[k] == Reads(states[i + k], v, data)
  {
    seq(|states| - i, k requires 0 <= k < |states| - i => Reads(states[i + k], v, data))
  }

  /** Which operations from the i-th on are harmless to the version. */
  ghost function HarmlessFrom(states: seq<Store>, ops: seq<Op>, v: VerId, data: Blob, i: nat): (good: seq<bool>)
    requires i <= |ops| && |states| == |ops| + 1
    ensures |good| == |ops| - i
    ensures forall k :: 0 <= k < |good| ==> good[k] == Harmless(states[i + k], ops[i + k], v, data)
  {
    seq(|ops| - i, k requires 0 <= k < |ops| - i => Harmless(states[i + k], ops[i + k], v, data))
  }

  lemma NextReadIff(states: seq<Store>, ops: seq<Op>, v: VerId, data: Blob, n: nat)
    requires ProperRun(states, ops) && n < |ops| && Tidy(states[0]) && Reads(states[n], v, data)
    ensures Reads(states[n + 1], v, data) <==> Harmless(states[n], ops[n], v, data)
  {
    RunTidy(states, ops, n);
    StepKeepsVersionIff(states[n], ops[n], v, data);
  }

  lemma NextFromIff(states: seq<Store>, ops: seq<Op>, v: VerId, data: Blob, i: nat, k: nat)
    requires ProperRun(states, ops) && Tidy(states[0]) && i + k < |ops|
    ensures var holds, good := ReadsFrom(states, v, data, i), HarmlessFrom(states, ops, v, data, i);
      holds[k] ==> (holds[k + 1] <==> good[k])
  {
    var holds := ReadsFrom(states, v, data, i);
    if holds[k] {
      NextReadIff(states, ops, v, data, i + k);
      assert holds[k + 1] == Reads(states[i + (k + 1)], v, data) && i + (k + 1) == i + k + 1;
    }
  }

  /**
   The exact reach of immutability: in any proper run, under any versioning and however
   it is switched, a version that reads as the data from the i-th moment on does so at
   every later moment exactly when every later operation is harmless to it.
   */
  lemma VersionReadsIff(states: seq<Store>, ops: seq<Op>, v: VerId, data: Blob, i: nat)
    requires ProperRun(states, ops) && i < |states| && Tidy(states[0]) && ReadsFrom(states, v, data, i)[0]
    ensures var holds, good := ReadsFrom(states, v, data, i), HarmlessFrom(states, ops, v, data, i);
      (forall k :: 0 <= k < |holds| ==> holds[k]) <==> (forall k :: 0 <= k < |good| ==> good[k])
  {
    var holds, good := ReadsFrom(states, v, data, i), HarmlessFrom(states, ops, v, data, i);
    forall k | 0 <= k < |good| ensures holds[k] ==> (holds[k + 1] <==> good[k]) {
      NextFromIff(states, ops, v, data, i, k);
    }
    HoldsThroughoutIff(holds, good);
  }

  // -------------------------------------------------------------- latest version

  /** The version that a step makes: a put or a delete marker on a bucket that keeps versions. */
  function Makes(s: Store, op: Op): Option<VerId> {
    match op
    case Put(o, _, declared, version, _, _) =>
      if o.bucket in s.buckets && s.buckets[o.bucket].versioning == Enabled
        && WithinQuota(s.buckets[o.bucket], declared)
      then Some(VerId(o.bucket, o.key, version)) else None
    case Delete(o, version) =>
      if o.bucket in s.buckets && s.buckets[o.bucket].versioning == Enabled
      then Some(VerId(o.bucket, o.key, version)) else None
    case _ => None
  }

  /** The version of the key that was made last in the first n steps. */
  ghost function LastMade(states: seq<Store>, ops: seq<Op>, n: nat, bucket: string, key: string): Option<VerId>
    requires n <= |ops| && |states| == |ops| + 1
  {
    if n == 0 then None
    else
      var made := Makes(states[n - 1], ops[n - 1]);
      if made.Some? && made.value.bucket == bucket && made.value.key == key then made
      else LastMade(states, ops, n - 1, bucket, key)
  }

  /** What one step does to one record: a made version is latest, and it alone of its key. */
  lemma StepLatest(s: Store, op: Op, v: VerId)
    requires Proper(s, op)
    ensures var s', made := Step(s, op).1, Makes(s, op);
      && (made == Some(v) ==> v in s'.versions && s'.versions[v].isLatest)
      && (made != Some(v) && v in s'.versions ==>
            && v in s.versions
            && (s'.versions[v].isLatest <==>
                s.versions[v].isLatest && !(made.Some? && made.value.bucket == v.bucket && made.value.key == v.key)))
  {
  }

  /**
   Latest versions: in a run from a store without versions, a stored version is latest
   exactly when it is the last one that was made for its key.
   */
  lemma {:induction false} LatestIsLastMade(states: seq<Store>, ops: seq<Op>, n: nat, v: VerId)
    requires ProperRun(states, ops) && n <= |ops| && states[0].versions == map[]
    requires v in states[n].versions
    ensures states[n].versions[v].isLatest <==> LastMade(states, ops, n, v.bucket, v.key) == Some(v)
  {
    if n > 0 {
      var s, op := states[n - 1], ops[n - 1];
      StepLatest(s, op, v);
      if Makes(s, op) != Some(v) {
        LatestIsLastMade(states, ops, n - 1, v);
      }
    }
  }

  /** So no key ever has two latest versions. */
  lemma OneLatest(states: seq<Store>, ops: seq<Op>, n: nat, v: VerId, w: VerId)
    requires ProperRun(states, ops) && n <= |ops| && states[0].versions == map[]
    requires v in states[n].versions && w in states[n].versions && v.bucket == w.bucket && v.key == w.key
    requires states[n].versions[v].isLatest && states[n].versions[w].isLatest
    ensures v == w
  {
    LatestIsLastMade(states, ops, n, v);
    LatestIsLastMade(states, ops, n, w);
  }
}
