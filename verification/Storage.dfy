/**
 The storage engine (internal/storage) over its two stores: the metadata records and
 the blobs. Each operation is one function from the store before to the outcome and
 the store after. No storage fault happens; a blob that is missing is an outcome.
 Identifiers and clock readings are inputs.
 */
module Storage {
  import opened Basics
  import opened Strings

  datatype Versioning = Disabled | Enabled | Suspended

  /** A limit of zero means unlimited. */
  datatype Quota = Quota(maxSizeBytes: int, maxObjects: int)

  datatype BucketRecord = BucketRecord(versioning: Versioning, objectCount: int, totalBytes: int, quota: Option<Quota>)

  datatype ObjId = ObjId(bucket: string, key: string)

  /** An entry of the object index; the version is empty for an unversioned object. */
  datatype ObjectRecord = ObjectRecord(versionID: string, size: int, lastModified: int, tags: map<string, string>)

  datatype VerId = VerId(bucket: string, key: string, version: string)

  datatype VersionRecord = VersionRecord(isDeleteMarker: bool, isLatest: bool, size: nat)

  datatype PartId = PartId(upload: string, number: nat)

  datatype Upload = Upload(bucket: string, key: string, initiated: int)

  datatype BlobId = BlobId(bucket: string, name: string)

  datatype Store = Store(
    buckets: map<string, BucketRecord>,
    objects: map<ObjId, ObjectRecord>,
    versions: map<VerId, VersionRecord>,
    uploads: map<string, Upload>,
    parts: map<PartId, int>,
    blobs: map<BlobId, Blob>)

  datatype Outcome = Done | NoBucket | NoObject | NoUpload | QuotaExceeded | Unreadable

  type Effect = (Outcome, Store)

  // ------------------------------------------------------------- blob names

  const PARTS := ".multipart/"

  function VersionedName(key: string, version: string): string {
    key + ".v." + version
  }

  function PartName(upload: string, number: nat): string {
    PARTS + upload + "/" + Pad5(number)
  }

  predicate IsPartName(name: string) {
    PARTS <= name
  }

  /** Generated identifiers are UUIDs in text form. */
  predicate IsId(id: string) {
    |id| == 36 && '/' !in id
  }

  /** Identifiers have one length, so a versioned name tells key and version apart. */
  lemma VersionedNameInjective(k1: string, v1: string, k2: string, v2: string)
    requires IsId(v1) && IsId(v2) && VersionedName(k1, v1) == VersionedName(k2, v2)
    ensures k1 == k2 && v1 == v2
  {
    var n := VersionedName(k1, v1);
    assert n[|n| - 36..] == v1 && n[|n| - 36..] == v2;
    assert n[..|n| - 39] == k1 && n[..|n| - 39] == k2;
  }

  /** A versioned name is a part name only when its key is one. */
  lemma VersionedNameIsNoPart(key: string, version: string)
    ensures IsPartName(VersionedName(key, version)) <==> IsPartName(key)
  {
    var n := VersionedName(key, version);
    if |key| < 11 {
      assert n[|key|] == '.' && (|n| > |key| + 1 ==> n[|key| + 1] == 'v');
      assert forall i :: 0 < i < 11 ==> PARTS[i] != '.';
      assert PARTS[1] == 'm';
      assert |PARTS| == 11;
    } else {
      assert n[..11] == key[..11];
    }
  }

  lemma PartNameIsPart(upload: string, number: nat)
    ensures IsPartName(PartName(upload, number))
  {
  }

  lemma PartNameCuts(upload: string, number: nat)
    requires IsId(upload)
    ensures var p := PartName(upload, number);
      |p| >= 48 && p[11..47] == upload && p[47] == '/' && p[48..] == Pad5(number)
  {
    var n := Pad5(number);
    assert |PARTS| == 11;
    assert PartName(upload, number)[48..] == n;
    assert (PARTS + upload)[11..] == upload;
    assert PartName(upload, number)[..47] == PARTS + upload;
  }

  lemma PartNameInjective(u1: string, n1: nat, u2: string, n2: nat)
    requires IsId(u1) && IsId(u2) && PartName(u1, n1) == PartName(u2, n2)
    ensures u1 == u2 && n1 == n2
  {
    PartNameCuts(u1, n1);
    PartNameCuts(u2, n2);
    Pad5Injective(n1, n2);
  }

  /**
   No versioned name is the name of a part blob, whatever its key: an identifier holds no slash, a part
   number no dot.
   */
  lemma VersionedNameHitsNoPart(key: string, version: string, upload: string, number: nat)
    requires IsId(version) && IsId(upload)
    ensures VersionedName(key, version) != PartName(upload, number)
  {
    var n, p := VersionedName(key, version), PartName(upload, number);
    var start := |n| - 36;
    assert n[start - 1] == '.' && n[start..] == version;
    PartNameCuts(upload, number);
    if |n| == |p| && start <= 47 {
      assert n[47] == version[47 - start];
      assert n[47] != p[47];
    } else if |n| == |p| {
      assert start > 48 ==> p[start - 1] == Pad5(number)[start - 1 - 48];
      assert n[start - 1] != p[start - 1];
    }
  }

  // ---------------------------------------------------------------- records

  /** The quota test that precedes a write of the declared size. */
  predicate WithinQuota(b: BucketRecord, incoming: int) {
    b.quota.None? ||
    var q := b.quota.value;
    && !(q.maxSizeBytes > 0 && b.totalBytes + incoming > q.maxSizeBytes)
    && !(q.maxObjects > 0 && b.objectCount + 1 > q.maxObjects)
  }

  /** Adjusts a bucket's counters; a missing bucket is ignored by the callers. */
  function AddStats(buckets: map<string, BucketRecord>, bucket: string, count: int,
                    bytes: int): map<string, BucketRecord>
  {
    if bucket in buckets then
      var b := buckets[bucket];
      buckets[bucket := b.(objectCount := b.objectCount + count, totalBytes := b.totalBytes + bytes)]
    else buckets
  }

  function MarkNotLatest(versions: map<VerId, VersionRecord>, bucket: string, key: string): map<VerId, VersionRecord> {
    map id | id in versions ::
      if id.bucket == bucket && id.key == key then versions[id].(isLatest := false) else versions[id]
  }

  /** The blob that an index entry names. */
  function BlobOf(o: ObjId, rec: ObjectRecord): BlobId {
    BlobId(o.bucket, if rec.versionID == "" then o.key else VersionedName(o.key, rec.versionID))
  }

  // --------------------------------------------------------------- operations

  function PutObject(s: Store, o: ObjId, body: Blob, declared: int, version: string, now: int,
                     tags: map<string, string>): Effect
  {
    if o.bucket !in s.buckets then (NoBucket, s)
    else if !WithinQuota(s.buckets[o.bucket], declared) then (QuotaExceeded, s)
    else
      var n := |body|;
      if s.buckets[o.bucket].versioning == Enabled then
        (Done, s.(
          blobs := s.blobs[BlobId(o.bucket, VersionedName(o.key, version)) := body],
          versions := MarkNotLatest(s.versions, o.bucket, o.key)
                        [VerId(o.bucket, o.key, version) := VersionRecord(false, true, n)],
          objects := s.objects[o := ObjectRecord(version, n, now, tags)],
          buckets := AddStats(s.buckets, o.bucket, 1, n)))
      else
        (Done, s.(
          blobs := s.blobs[BlobId(o.bucket, o.key) := body],
          objects := s.objects[o := ObjectRecord("", n, now, tags)],
          buckets := if o in s.objects then AddStats(s.buckets, o.bucket, 0, n - s.objects[o].size)
                     else AddStats(s.buckets, o.bucket, 1, n)))
  }

  /** Deletion without a version: a delete marker, or the object itself. */
  function DeleteObject(s: Store, o: ObjId, marker: string): Effect {
    if o.bucket !in s.buckets then (Done, s)
    else if s.buckets[o.bucket].versioning == Enabled then
      (Done, s.(
        versions := MarkNotLatest(s.versions, o.bucket, o.key)
                      [VerId(o.bucket, o.key, marker) := VersionRecord(true, true, 0)],
        objects := s.objects - {o}))
    else if o !in s.objects then (Done, s)
    else
      var rec := s.objects[o];
      (Done, s.(
        blobs := s.blobs - {BlobOf(o, rec)},
        objects := s.objects - {o},
        buckets := AddStats(s.buckets, o.bucket, -1, 0 - rec.size)))
  }

  function DeleteVersion(s: Store, id: VerId): Effect {
    if id !in s.versions then (Done, s)
    else if s.versions[id].isDeleteMarker then (Done, s.(versions := s.versions - {id}))
    else
      (Done, s.(
        blobs := s.blobs - {BlobId(id.bucket, VersionedName(id.key, id.version))},
        buckets := AddStats(s.buckets, id.bucket, -1, 0 - s.versions[id].size),
        versions := s.versions - {id}))
  }

  /** The copy always goes to the plain name and always counts as a new object. */
  function CopyObject(s: Store, src: ObjId, dst: ObjId, now: int): Effect {
    if src !in s.objects then (NoObject, s)
    else if dst.bucket !in s.buckets then (NoBucket, s)
    else if BlobOf(src, s.objects[src]) !in s.blobs then (Unreadable, s)
    else
      var data := s.blobs[BlobOf(src, s.objects[src])];
      (Done, s.(
        blobs := s.blobs[BlobId(dst.bucket, dst.key) := data],
        objects := s.objects[dst := ObjectRecord("", |data|, now, map[])],
        buckets := AddStats(s.buckets, dst.bucket, 1, |data|)))
  }

  function CreateUpload(s: Store, o: ObjId, id: string, now: int): Effect {
    if o.bucket !in s.buckets then (NoBucket, s)
    else (Done, s.(uploads := s.uploads[id := Upload(o.bucket, o.key, now)]))
  }

  function UploadPart(s: Store, p: PartId, body: Blob, declared: int): Effect {
    if p.upload !in s.uploads then (NoUpload, s)
    else (Done, s.(
      blobs := s.blobs[BlobId(s.uploads[p.upload].bucket, PartName(p.upload, p.number)) := body],
      parts := s.parts[p := declared]))
  }

  predicate Rising(ns: seq<nat>) {
    forall i, j :: 0 <= i < j < |ns| ==> ns[i] <= ns[j]
  }

  function InsertNumber(ns: seq<nat>, x: nat): (r: seq<nat>)
    ensures multiset(r) == multiset(ns) + multiset{x}
  {
    if |ns| == 0 || x <= ns[0] then [x] + ns
    else
      assert ns == [ns[0]] + ns[1..];
      [ns[0]] + InsertNumber(ns[1..], x)
  }

  /** The listed part numbers in ascending order. */
  function SortNumbers(ns: seq<nat>): (r: seq<nat>)
    ensures multiset(r) == multiset(ns)
  {
    if |ns| == 0 then []
    else
      assert ns == [ns[0]] + ns[1..];
      InsertNumber(SortNumbers(ns[1..]), ns[0])
  }

  /** What is put in lies with the rest above any lower bound of both. */
  lemma InsertedAbove(ns: seq<nat>, x: nat, low: nat)
    requires low <= x && forall y :: y in ns ==> low <= y
    ensures forall y :: y in InsertNumber(ns, x) ==> low <= y
  {
    forall y | y in InsertNumber(ns, x) ensures low <= y {
      assert y in multiset(InsertNumber(ns, x));
      if y != x {
        assert y in multiset(ns);
        assert y in ns;
      }
    }
  }

  lemma RisesBehind(first: nat, rest: seq<nat>)
    requires Rising(rest) && forall y :: y in rest ==> first <= y
    ensures Rising([first] + rest)
  {
    forall i, j | 0 <= i < j < |[first] + rest| ensures ([first] + rest)[i] <= ([first] + rest)[j] {
      assert rest[j - 1] in rest;
    }
  }

  lemma {:induction false} InsertRises(ns: seq<nat>, x: nat)
    requires Rising(ns)
    ensures Rising(InsertNumber(ns, x))
  {
    if |ns| > 0 {
      forall y | y in ns[1..] ensures ns[0] <= y {
      }
      if ns[0] < x {
        InsertRises(ns[1..], x);
        InsertedAbove(ns[1..], x, ns[0]);
        RisesBehind(ns[0], InsertNumber(ns[1..], x));
      } else {
        RisesBehind(x, ns);
      }
    }
  }

  lemma {:induction false} SortRises(ns: seq<nat>)
    ensures Rising(SortNumbers(ns))
  {
    if |ns| > 0 {
      SortRises(ns[1..]);
      InsertRises(SortNumbers(ns[1..]), ns[0]);
    }
  }

  /** The recorded size of a part, zero when there is no record. */
  function PartSize(parts: map<PartId, int>, p: PartId): int {
    if p in parts then parts[p] else 0
  }

  function TotalSize(parts: map<PartId, int>, upload: string, ns: seq<nat>): int {
    if |ns| == 0 then 0
    else TotalSize(parts, upload, ns[..|ns| - 1]) + PartSize(parts, PartId(upload, ns[|ns| - 1]))
  }

  /** The parts' bodies one after the other; None when one of them is missing. */
  function Assemble(blobs: map<BlobId, Blob>, bucket: string, upload: string, ns: seq<nat>): Option<Blob> {
    if |ns| == 0 then Some([])
    else
      var last := BlobId(bucket, PartName(upload, ns[|ns| - 1]));
      match Assemble(blobs, bucket, upload, ns[..|ns| - 1])
      case None => None
      case Some(data) => if last in blobs then Some(data + blobs[last]) else None
  }

  /** The part blobs numbered 1 to n. */
  function FirstParts(bucket: string, upload: string, n: nat): set<BlobId> {
    set i: nat | 1 <= i <= n :: BlobId(bucket, PartName(upload, i))
  }

  function PartsOf(parts: map<PartId, int>, upload: string): set<PartId> {
    set p | p in parts && p.upload == upload
  }

  function Cleanup(s: Store, upload: string, bucket: string, n: nat): Store {
    s.(uploads := s.uploads - {upload},
       parts := s.parts - PartsOf(s.parts, upload),
       blobs := s.blobs - FirstParts(bucket, upload, n))
  }

  function CompleteUpload(s: Store, id: string, listed: seq<nat>, now: int): Effect {
    if id !in s.uploads then (NoUpload, s)
    else
      var o := ObjId(s.uploads[id].bucket, s.uploads[id].key);
      if o.bucket !in s.buckets then (NoBucket, s)
      else if !WithinQuota(s.buckets[o.bucket], TotalSize(s.parts, id, listed)) then (QuotaExceeded, s)
      else
        var sorted := SortNumbers(listed);
        match Assemble(s.blobs, o.bucket, id, sorted)
        case None => (Unreadable, s)
        case Some(data) =>
          var total := TotalSize(s.parts, id, sorted);
          var written := s.(
            blobs := s.blobs[BlobId(o.bucket, o.key) := data],
            objects := s.objects[o := ObjectRecord("", total, now, map[])],
            buckets := AddStats(s.buckets, o.bucket, 1, total));
          (Done, Cleanup(written, id, o.bucket, |listed|))
  }

  function AbortUpload(s: Store, id: string): Effect {
    if id !in s.uploads then (NoUpload, s)
    else
      var bucket := s.uploads[id].bucket;
      var ps := PartsOf(s.parts, id);
      var dropped := s.(blobs := s.blobs - set p | p in ps :: BlobId(bucket, PartName(id, p.number)));
      (Done, Cleanup(dropped, id, bucket, |ps|))
  }

  function SetVersioning(s: Store, bucket: string, v: Versioning): Effect {
    if bucket !in s.buckets then (NoBucket, s)
    else (Done, s.(buckets := s.buckets[bucket := s.buckets[bucket].(versioning := v)]))
  }

  /** The object's current content, as a read without a version finds it. */
  function GetObject(s: Store, o: ObjId): Option<Blob> {
    if o !in s.objects then None else Get(s.blobs, BlobOf(o, s.objects[o]))
  }

  /** The content of one version, as a read by version finds it. */
  function GetVersion(s: Store, id: VerId): Option<Blob> {
    if id !in s.versions || s.versions[id].isDeleteMarker then None
    else Get(s.blobs, BlobId(id.bucket, VersionedName(id.key, id.version)))
  }

  // --------------------------------------------------------------------- runs

  datatype Op =
    | Put(o: ObjId, body: Blob, declared: int, version: string, now: int, tags: map<string, string>)
    | Delete(o: ObjId, version: string)
    | RemoveVersion(id: VerId)
    | Copy(src: ObjId, o: ObjId, now: int)
    | StartUpload(o: ObjId, upload: string, now: int)
    | SendPart(part: PartId, body: Blob, size: int)
    | Complete(upload: string, listed: seq<nat>, now: int)
    | Abort(upload: string)
    | Switch(bucket: string, versioning: Versioning)

  function Step(s: Store, op: Op): Effect {
    match op
    case Put(o, body, declared, version, now, tags) => PutObject(s, o, body, declared, version, now, tags)
    case Delete(o, version) => DeleteObject(s, o, version)
    case RemoveVersion(id) => DeleteVersion(s, id)
    case Copy(src, o, now) => CopyObject(s, src, o, now)
    case StartUpload(o, upload, now) => CreateUpload(s, o, upload, now)
    case SendPart(part, body, size) => UploadPart(s, part, body, size)
    case Complete(upload, listed, now) => CompleteUpload(s, upload, listed, now)
    case Abort(upload) => AbortUpload(s, upload)
    case Switch(bucket, versioning) => SetVersioning(s, bucket, versioning)
  }

  /** States of a run: each is what the operation makes of the one before. */
  ghost predicate Run(states: seq<Store>, ops: seq<Op>) {
    && |states| == |ops| + 1
    && forall i {:trigger ops[i]} :: 0 <= i < |ops| ==> states[i + 1] == Step(states[i], ops[i]).1
  }

  /** A generated identifier that nothing stored uses yet. */
  ghost predicate FreshId(s: Store, id: string) {
    && IsId(id)
    && (forall v :: v in s.versions ==> v.version != id)
    && id !in s.uploads && (forall p :: p in s.parts ==> p.upload != id)
    && (forall b, key :: BlobId(b, VersionedName(key, id)) !in s.blobs)
    && (forall b, n :: BlobId(b, PartName(id, n)) !in s.blobs)
  }

  /** Generated identifiers are fresh. */
  ghost predicate Generated(s: Store, op: Op) {
    match op
    case Put(_, _, _, version, _, _) => FreshId(s, version)
    case Delete(_, version) => FreshId(s, version)
    case StartUpload(_, upload, _) => FreshId(s, upload)
    case _ => true
  }

  /** The client's key stays out of the name space of parts. */
  predicate ClientKey(op: Op) {
    op.Put? || op.Delete? || op.Copy? || op.StartUpload? ==> !IsPartName(op.o.key)
  }

  /** What is assumed of every call. */
  ghost predicate Proper(s: Store, op: Op) {
    ClientKey(op) && Generated(s, op)
  }

  ghost predicate ProperRun(states: seq<Store>, ops: seq<Op>) {
    Run(states, ops) && forall i {:trigger ops[i]} :: 0 <= i < |ops| ==> Proper(states[i], ops[i])
  }

  /** A proper run goes on with any proper operation. */
  lemma ExtendRun(states: seq<Store>, ops: seq<Op>, op: Op)
    requires ProperRun(states, ops) && Proper(states[|ops|], op)
    ensures ProperRun(states + [Step(states[|ops|], op).1], ops + [op])
  {
    var states', ops' := states + [Step(states[|ops|], op).1], ops + [op];
    forall i | 0 <= i < |ops'| ensures states'[i + 1] == Step(states'[i], ops'[i]).1 && Proper(states'[i], ops'[i]) {
      if i < |ops| {
        assert ops'[i] == ops[i];
      }
    }
  }

  /** Version records and uploads carry identifiers, and parts belong to open uploads. */
  ghost predicate Labelled(s: Store) {
    && (forall v :: v in s.versions ==> IsId(v.version))
    && (forall u :: u in s.uploads ==> IsId(u))
    && (forall p :: p in s.parts ==> p.upload in s.uploads)
  }

  /** Records are added under fresh identifiers only. */
  lemma StepLabelled(s: Store, op: Op)
    requires Labelled(s) && Generated(s, op)
    ensures Labelled(Step(s, op).1)
  {
    match op
    case Put(_, _, _, _, _, _) => PutLabelled(s, op);
    case Delete(_, _) => DeleteLabelled(s, op);
    case Complete(_, _, _) => EndLabelled(s, op);
    case Abort(_) => EndLabelled(s, op);
    case _ =>
  }

  lemma PutLabelled(s: Store, op: Op)
    requires op.Put? && Labelled(s) && Generated(s, op)
    ensures Labelled(Step(s, op).1)
  {
  }

  lemma DeleteLabelled(s: Store, op: Op)
    requires op.Delete? && Labelled(s) && Generated(s, op)
    ensures Labelled(Step(s, op).1)
  {
  }

  lemma EndLabelled(s: Store, op: Op)
    requires (op.Complete? || op.Abort?) && Labelled(s)
    ensures Labelled(Step(s, op).1)
  {
  }

  /** No object, upload or version has a key in the name space of parts. */
  ghost predicate KeysOutside(s: Store) {
    && (forall v :: v in s.versions ==> !IsPartName(v.key))
    && (forall u :: u in s.uploads ==> !IsPartName(s.uploads[u].key))
    && (forall o :: o in s.objects ==> !IsPartName(o.key))
  }

  lemma PutKeysOutside(s: Store, op: Op)
    requires op.Put? && KeysOutside(s) && ClientKey(op)
    ensures KeysOutside(Step(s, op).1)
  {
  }

  lemma StepKeysOutside(s: Store, op: Op)
    requires KeysOutside(s) && ClientKey(op)
    ensures KeysOutside(Step(s, op).1)
  {
    if op.Put? {
      PutKeysOutside(s, op);
    }
  }

  /** What proper runs keep: labels, and keys outside the name space of parts. */
  ghost predicate Tidy(s: Store) {
    Labelled(s) && KeysOutside(s)
  }

  lemma StepTidy(s: Store, op: Op)
    requires Tidy(s) && Proper(s, op)
    ensures Tidy(Step(s, op).1)
  {
    StepLabelled(s, op);
    StepKeysOutside(s, op);
  }

  lemma {:induction false} RunTidy(states: seq<Store>, ops: seq<Op>, i: nat)
    requires ProperRun(states, ops) && i < |states| && Tidy(states[0])
    ensures Tidy(states[i])
  {
    if i > 0 {
      RunTidy(states, ops, i - 1);
      StepTidy(states[i - 1], ops[i - 1]);
    }
  }
}
