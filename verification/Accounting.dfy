/** A bucket's counters against the blobs that it really holds. */
module Accounting {
  import opened Basics
  import opened Strings
  import opened Storage

  type Sizes = map<BlobId, nat>

  /** The bucket's blobs that are not parts of uploads, with their lengths. */
  ghost function Held(blobs: map<BlobId, Blob>, bucket: string): Sizes {
    map id | id in blobs && id.bucket == bucket && !IsPartName(id.name) :: |blobs[id]|
  }

  ghost function Sum(m: Sizes): nat {
    if m == map[] then 0
    else
      var k :| k in m;
      m[k] + Sum(m - {k})
  }

  lemma {:induction false} SumWithout(m: Sizes, k: BlobId)
    requires k in m
    ensures Sum(m) == m[k] + Sum(m - {k})
    decreases |m|
  {
    var j :| j in m && Sum(m) == m[j] + Sum(m - {j});
    if j != k {
      SumWithout(m - {j}, k);
      SumWithout(m - {k}, j);
      assert m - {j} - {k} == m - {k} - {j};
    }
  }

  lemma SumPut(m: Sizes, k: BlobId, n: nat)
    ensures Sum(m[k := n]) == n + Sum(m - {k})
    ensures Sum(m) == (if k in m then m[k] else 0) + Sum(m - {k})
    ensures |m[k := n]| == |m| + if k in m then 0 else 1
    ensures |m - {k}| == |m| - if k in m then 1 else 0
  {
    var m' := m[k := n];
    SumWithout(m', k);
    assert m' - {k} == m - {k};
    if k in m {
      SumWithout(m, k);
    } else {
      assert m - {k} == m;
    }
    Cardinality(m, k, n);
  }

  lemma Cardinality(m: Sizes, k: BlobId, n: nat)
    ensures |m[k := n]| == |m| + if k in m then 0 else 1
    ensures |m - {k}| == |m| - if k in m then 1 else 0
  {
    assert m[k := n].Keys == m.Keys + {k};
    assert (m - {k}).Keys == m.Keys - {k};
    assert |m.Keys| == |m| && |m[k := n].Keys| == |m[k := n]| && |(m - {k}).Keys| == |m - {k}|;
  }

  lemma HeldPut(blobs: map<BlobId, Blob>, bucket: string, id: BlobId, data: Blob)
    ensures Held(blobs[id := data], bucket) ==
            if id.bucket == bucket && !IsPartName(id.name) then Held(blobs, bucket)[id := |data|]
            else Held(blobs, bucket)
  {
  }

  lemma HeldDrop(blobs: map<BlobId, Blob>, bucket: string, id: BlobId)
    ensures Held(blobs - {id}, bucket) ==
            if id.bucket == bucket && !IsPartName(id.name) then Held(blobs, bucket) - {id} else Held(blobs, bucket)
  {
  }

  /** Dropping part blobs holds everything else. */
  lemma HeldDropParts(blobs: map<BlobId, Blob>, bucket: string, ids: set<BlobId>)
    requires forall id :: id in ids ==> IsPartName(id.name)
    ensures Held(blobs - ids, bucket) == Held(blobs, bucket)
  {
  }

  /** The counters tell the number and the summed size of the blobs held. */
  ghost predicate Balanced(s: Store, bucket: string)
    requires bucket in s.buckets
  {
    && s.buckets[bucket].objectCount == |Held(s.blobs, bucket)|
    && s.buckets[bucket].totalBytes == Sum(Held(s.blobs, bucket))
  }

  function VersionBlob(v: VerId): BlobId {
    BlobId(v.bucket, VersionedName(v.key, v.version))
  }

  /** Every version of the bucket that is not a marker has its blob, of the recorded size. */
  ghost predicate VersionsHeld(s: Store, bucket: string) {
    forall v :: v in s.versions && v.bucket == bucket && !s.versions[v].isDeleteMarker ==>
      VersionBlob(v) in s.blobs && |s.blobs[VersionBlob(v)]| == s.versions[v].size
  }

  /** Before versioning: the index lists exactly the blobs, under their own keys. */
  ghost predicate PlainIndex(s: Store, bucket: string) {
    && (forall v :: v in s.versions && v.bucket == bucket ==> s.versions[v].isDeleteMarker)
    && (forall o :: o in s.objects && o.bucket == bucket ==>
          && !IsPartName(o.key) && s.objects[o].versionID == ""
          && BlobId(bucket, o.key) in s.blobs && |s.blobs[BlobId(bucket, o.key)]| == s.objects[o].size)
    && (forall id :: id in s.blobs && id.bucket == bucket && !IsPartName(id.name) ==>
          ObjId(bucket, id.name) in s.objects)
  }

  ghost predicate Books(s: Store, bucket: string) {
    && bucket in s.buckets && s.buckets[bucket].versioning != Suspended
    && Balanced(s, bucket) && VersionsHeld(s, bucket)
    && (s.buckets[bucket].versioning == Disabled ==> PlainIndex(s, bucket))
  }

  /** The part is recorded exactly when its blob is there and, if asked, with its true size. */
  ghost predicate PartMatches(s: Store, p: PartId, sized: bool)
    requires p.upload in s.uploads
  {
    var id := BlobId(s.uploads[p.upload].bucket, PartName(p.upload, p.number));
    && (p in s.parts <==> id in s.blobs)
    && (sized && p in s.parts ==> s.parts[p] == |s.blobs[id]|)
  }

  /** A live upload's records are its blobs. */
  ghost predicate PartsMatch(s: Store, sized: bool) {
    forall p: PartId :: p.upload in s.uploads ==> PartMatches(s, p, sized)
  }

  /** The same, and the records tell the true sizes. */
  ghost predicate PartsTrue(s: Store) {
    PartsMatch(s, true)
  }

  /** Declared part sizes are the sizes sent. */
  predicate TrueSize(op: Op) {
    op.SendPart? ==> op.size == |op.body|
  }

  /** Versioning goes from disabled to enabled at most; copies and completions hit no blob. */
  predicate Tame(s: Store, op: Op, bucket: string) {
    match op
    case Copy(_, o, _) => o.bucket == bucket ==> BlobId(bucket, o.key) !in s.blobs
    case Complete(upload, _, _) =>
      upload in s.uploads && s.uploads[upload].bucket == bucket ==> BlobId(bucket, s.uploads[upload].key) !in s.blobs
    case Switch(b, v) =>
      b == bucket && b in s.buckets ==> v == Enabled || (v == Disabled && s.buckets[b].versioning == Disabled)
    case _ => true
  }

  // --------------------------------------------------------- upload records

  lemma SendPartMatch(s: Store, op: Op, sized: bool)
    requires op.SendPart? && Tidy(s) && PartsMatch(s, sized) && (sized ==> TrueSize(op))
    ensures PartsMatch(Step(s, op).1, sized)
  {
    var s' := Step(s, op).1;
    if op.part.upload in s.uploads {
      var q := op.part;
      forall p: PartId | p.upload in s'.uploads
        ensures PartMatches(s', p, sized)
      {
        assert PartMatches(s, p, sized);
        if PartName(p.upload, p.number) == PartName(q.upload, q.number) {
          PartNameInjective(p.upload, p.number, q.upload, q.number);
        }
      }
    }
  }

  /** Operations that write or drop only blobs outside the name space of parts. */
  lemma OtherNamesMatch(s: Store, s': Store, sized: bool)
    requires PartsMatch(s, sized) && s'.uploads == s.uploads && s'.parts == s.parts
    requires forall id: BlobId :: IsPartName(id.name) ==> Get(s'.blobs, id) == Get(s.blobs, id)
    ensures PartsMatch(s', sized)
  {
    forall p: PartId | p.upload in s'.uploads ensures PartMatches(s', p, sized) {
      assert PartMatches(s, p, sized);
      PartNameIsPart(p.upload, p.number);
      var id := BlobId(s.uploads[p.upload].bucket, PartName(p.upload, p.number));
      assert Get(s'.blobs, id) == Get(s.blobs, id);
    }
  }

  /** Ending an upload drops part blobs of its own only. */
  lemma EndedMatch(s: Store, s': Store, upload: string, sized: bool)
    requires PartsMatch(s, sized) && Tidy(s) && upload in s.uploads
    requires s'.uploads == s.uploads - {upload} && s'.parts == s.parts - PartsOf(s.parts, upload)
    requires forall u, n :: IsId(u) && u != upload ==>
               forall b :: Get(s'.blobs, BlobId(b, PartName(u, n))) == Get(s.blobs, BlobId(b, PartName(u, n)))
    ensures PartsMatch(s', sized)
  {
    forall p: PartId | p.upload in s'.uploads ensures PartMatches(s', p, sized) {
      assert PartMatches(s, p, sized);
      var id := BlobId(s.uploads[p.upload].bucket, PartName(p.upload, p.number));
      assert Get(s'.blobs, id) == Get(s.blobs, id);
    }
  }

  lemma StartMatch(s: Store, op: Op, sized: bool)
    requires op.StartUpload? && PartsMatch(s, sized) && Proper(s, op)
    ensures PartsMatch(Step(s, op).1, sized)
  {
    var s' := Step(s, op).1;
    forall p: PartId | p.upload in s'.uploads ensures PartMatches(s', p, sized) {
      if p.upload in s.uploads {
        assert PartMatches(s, p, sized);
      }
    }
  }

  /** The names dropped at the end of an upload are no other upload's. */
  lemma OtherUploadsKept(blobs: map<BlobId, Blob>, drop: set<BlobId>, upload: string, u: string, n: nat, b: string)
    requires IsId(u) && IsId(upload) && u != upload
    requires forall id :: id in drop ==> exists k :: id.name == PartName(upload, k)
    ensures Get(blobs - drop, BlobId(b, PartName(u, n))) == Get(blobs, BlobId(b, PartName(u, n)))
  {
    var id := BlobId(b, PartName(u, n));
    if id in drop {
      var k :| id.name == PartName(upload, k);
      PartNameInjective(u, n, upload, k);
    }
  }

  lemma AbortMatch(s: Store, op: Op, sized: bool)
    requires op.Abort? && PartsMatch(s, sized) && Tidy(s)
    ensures PartsMatch(Step(s, op).1, sized)
  {
    if op.upload in s.uploads {
      var s' := Step(s, op).1;
      var bucket, ps := s.uploads[op.upload].bucket, PartsOf(s.parts, op.upload);
      var first := set p | p in ps :: BlobId(bucket, PartName(op.upload, p.number));
      var drop := first + FirstParts(bucket, op.upload, |ps|);
      assert s'.blobs == s.blobs - drop;
      forall u, n, b | IsId(u) && u != op.upload
        ensures Get(s'.blobs, BlobId(b, PartName(u, n))) == Get(s.blobs, BlobId(b, PartName(u, n)))
      {
        OtherUploadsKept(s.blobs, drop, op.upload, u, n, b);
      }
      EndedMatch(s, s', op.upload, sized);
    }
  }

  lemma CompleteMatch(s: Store, op: Op, sized: bool)
    requires op.Complete? && PartsMatch(s, sized) && Tidy(s)
    ensures PartsMatch(Step(s, op).1, sized)
  {
    var (r, s') := Step(s, op);
    if r == Done {
      var up := s.uploads[op.upload];
      var drop := FirstParts(up.bucket, op.upload, |op.listed|);
      var target := BlobId(up.bucket, up.key);
      var written := s.blobs[target := Assemble(s.blobs, up.bucket, op.upload, SortNumbers(op.listed)).value];
      assert s'.blobs == written - drop;
      forall u, n, b | IsId(u) && u != op.upload
        ensures Get(s'.blobs, BlobId(b, PartName(u, n))) == Get(s.blobs, BlobId(b, PartName(u, n)))
      {
        PartNameIsPart(u, n);
        OtherUploadsKept(written, drop, op.upload, u, n, b);
      }
      EndedMatch(s, s', op.upload, sized);
    }
  }

  lemma PutMatch(s: Store, op: Op, sized: bool)
    requires op.Put? && PartsMatch(s, sized) && Proper(s, op)
    ensures PartsMatch(Step(s, op).1, sized)
  {
    VersionedNameIsNoPart(op.o.key, op.version);
    OtherNamesMatch(s, Step(s, op).1, sized);
  }

  lemma RemoveMatch(s: Store, op: Op, sized: bool)
    requires op.RemoveVersion? && PartsMatch(s, sized) && Tidy(s)
    ensures PartsMatch(Step(s, op).1, sized)
  {
    if op.id in s.versions {
      VersionedNameIsNoPart(op.id.key, op.id.version);
      OtherNamesMatch(s, Step(s, op).1, sized);
    }
  }

  lemma DeleteMatch(s: Store, op: Op, sized: bool)
    requires op.Delete? && PartsMatch(s, sized) && Tidy(s)
    ensures PartsMatch(Step(s, op).1, sized)
  {
    if op.o in s.objects {
      VersionedNameIsNoPart(op.o.key, s.objects[op.o].versionID);
    }
    OtherNamesMatch(s, Step(s, op).1, sized);
  }

  lemma StepPartsMatch(s: Store, op: Op, sized: bool)
    requires PartsMatch(s, sized) && Tidy(s) && Proper(s, op) && (sized ==> TrueSize(op))
    ensures PartsMatch(Step(s, op).1, sized)
  {
    match op
    case SendPart(_, _, _) => SendPartMatch(s, op, sized);
    case StartUpload(_, _, _) => StartMatch(s, op, sized);
    case Abort(_) => AbortMatch(s, op, sized);
    case Complete(_, _, _) => CompleteMatch(s, op, sized);
    case Put(_, _, _, _, _, _) => PutMatch(s, op, sized);
    case RemoveVersion(_) => RemoveMatch(s, op, sized);
    case Delete(_, _) => DeleteMatch(s, op, sized);
    case _ => OtherNamesMatch(s, Step(s, op).1, sized);
  }

  // ------------------------------------------------------------------ the books

  /** Writing one blob balances when the counters move by what the blob adds. */
  lemma WriteBalances(s: Store, s': Store, id: BlobId, data: Blob)
    requires id.bucket in s.buckets && id.bucket in s'.buckets && Balanced(s, id.bucket) && !IsPartName(id.name)
    requires s'.blobs == s.blobs[id := data]
    requires s'.buckets[id.bucket].objectCount == s.buckets[id.bucket].objectCount + (if id in s.blobs then 0 else 1)
    requires s'.buckets[id.bucket].totalBytes ==
             s.buckets[id.bucket].totalBytes + |data| - (if id in s.blobs then |s.blobs[id]| else 0)
    ensures Balanced(s', id.bucket)
  {
    HeldPut(s.blobs, id.bucket, id, data);
    SumPut(Held(s.blobs, id.bucket), id, |data|);
  }

  lemma DropBalances(s: Store, s': Store, id: BlobId)
    requires id.bucket in s.buckets && id.bucket in s'.buckets && Balanced(s, id.bucket) && !IsPartName(id.name)
    requires id in s.blobs && s'.blobs == s.blobs - {id}
    requires s'.buckets[id.bucket].objectCount == s.buckets[id.bucket].objectCount - 1
    requires s'.buckets[id.bucket].totalBytes == s.buckets[id.bucket].totalBytes - |s.blobs[id]|
    ensures Balanced(s', id.bucket)
  {
    HeldDrop(s.blobs, id.bucket, id);
    SumPut(Held(s.blobs, id.bucket), id, 0);
  }

  /** Part blobs and other buckets' blobs do not matter to a bucket's books. */
  ghost predicate SameHoldings(s: Store, s': Store, bucket: string) {
    forall id: BlobId :: id.bucket == bucket && !IsPartName(id.name) ==> Get(s'.blobs, id) == Get(s.blobs, id)
  }

  lemma SameHeld(s: Store, s': Store, bucket: string)
    requires SameHoldings(s, s', bucket)
    ensures Held(s'.blobs, bucket) == Held(s.blobs, bucket)
  {
    var h, h' := Held(s.blobs, bucket), Held(s'.blobs, bucket);
    forall id ensures Get(h', id) == Get(h, id) {
      if id.bucket == bucket && !IsPartName(id.name) {
        assert Get(s'.blobs, id) == Get(s.blobs, id);
      }
    }
    SameLookups(h', h);
  }

  /** Nothing that the bucket's books speak of has changed. */
  ghost predicate SameBooks(s: Store, s': Store, bucket: string) {
    && bucket in s.buckets && bucket in s'.buckets && s'.buckets[bucket] == s.buckets[bucket]
    && SameHoldings(s, s', bucket)
    && (forall v: VerId :: v.bucket == bucket ==> Get(s'.versions, v) == Get(s.versions, v))
    && (forall o: ObjId :: o.bucket == bucket ==> Get(s'.objects, o) == Get(s.objects, o))
  }

  lemma SameBooksKept(s: Store, s': Store, bucket: string)
    requires Books(s, bucket) && SameBooks(s, s', bucket) && Tidy(s)
    ensures Books(s', bucket)
  {
    SameHeld(s, s', bucket);
    SameVersions(s, s', bucket);
    if s.buckets[bucket].versioning == Disabled {
      SamePlainIndex(s, s', bucket);
    }
  }

  lemma SameVersions(s: Store, s': Store, bucket: string)
    requires VersionsHeld(s, bucket) && SameBooks(s, s', bucket) && Tidy(s)
    ensures VersionsHeld(s', bucket)
  {
    forall v | v in s'.versions && v.bucket == bucket && !s'.versions[v].isDeleteMarker
      ensures VersionBlob(v) in s'.blobs && |s'.blobs[VersionBlob(v)]| == s'.versions[v].size
    {
      assert Get(s'.versions, v) == Get(s.versions, v);
      VersionedNameIsNoPart(v.key, v.version);
      assert Get(s'.blobs, VersionBlob(v)) == Get(s.blobs, VersionBlob(v));
    }
  }

  lemma SamePlainIndex(s: Store, s': Store, bucket: string)
    requires PlainIndex(s, bucket) && SameBooks(s, s', bucket)
    ensures PlainIndex(s', bucket)
  {
    forall v | v in s'.versions && v.bucket == bucket ensures s'.versions[v].isDeleteMarker {
      assert Get(s'.versions, v) == Get(s.versions, v);
    }
    forall o | o in s'.objects && o.bucket == bucket
      ensures !IsPartName(o.key) && s'.objects[o].versionID == ""
      ensures BlobId(bucket, o.key) in s'.blobs && |s'.blobs[BlobId(bucket, o.key)]| == s'.objects[o].size
    {
      assert Get(s'.objects, o) == Get(s.objects, o);
      assert Get(s'.blobs, BlobId(bucket, o.key)) == Get(s.blobs, BlobId(bucket, o.key));
    }
    forall id | id in s'.blobs && id.bucket == bucket && !IsPartName(id.name)
      ensures ObjId(bucket, id.name) in s'.objects
    {
      assert Get(s'.blobs, id) == Get(s.blobs, id);
      var o := ObjId(bucket, id.name);
      assert Get(s'.objects, o) == Get(s.objects, o);
    }
  }

  // -------------------------------------------- the steps on the bucket itself

  lemma PutVersionHeld(s: Store, s': Store, o: ObjId, version: string, body: Blob)
    requires VersionsHeld(s, o.bucket) && Tidy(s) && FreshId(s, version)
    requires s'.blobs == s.blobs[BlobId(o.bucket, VersionedName(o.key, version)) := body]
    requires s'.versions == MarkNotLatest(s.versions, o.bucket, o.key)
                              [VerId(o.bucket, o.key, version) := VersionRecord(false, true, |body|)]
    ensures VersionsHeld(s', o.bucket)
  {
    var id := BlobId(o.bucket, VersionedName(o.key, version));
    forall v | v in s'.versions && v.bucket == o.bucket && !s'.versions[v].isDeleteMarker
      ensures VersionBlob(v) in s'.blobs && |s'.blobs[VersionBlob(v)]| == s'.versions[v].size
    {
      if v != VerId(o.bucket, o.key, version) {
        assert v in s.versions;
        if VersionBlob(v) == id {
          VersionedNameInjective(v.key, v.version, o.key, version);
        }
      }
    }
  }

  lemma PutEnabledBooks(s: Store, o: ObjId, body: Blob, declared: int, version: string, now: int,
                        tags: map<string, string>)
    requires Books(s, o.bucket) && Tidy(s) && FreshId(s, version) && !IsPartName(o.key)
    requires s.buckets[o.bucket].versioning == Enabled
    ensures Books(PutObject(s, o, body, declared, version, now, tags).1, o.bucket)
  {
    var (r, s') := PutObject(s, o, body, declared, version, now, tags);
    if r == Done {
      var id := BlobId(o.bucket, VersionedName(o.key, version));
      VersionedNameIsNoPart(o.key, version);
      assert id !in s.blobs;
      WriteBalances(s, s', id, body);
      PutVersionHeld(s, s', o, version, body);
    }
  }

  lemma PlainIndexWrite(s: Store, s': Store, o: ObjId, body: Blob, rec: ObjectRecord)
    requires PlainIndex(s, o.bucket) && !IsPartName(o.key) && rec.versionID == "" && rec.size == |body|
    requires s'.blobs == s.blobs[BlobId(o.bucket, o.key) := body] && s'.objects == s.objects[o := rec]
             && s'.versions == s.versions
    ensures PlainIndex(s', o.bucket)
  {
  }

  lemma PlainVersionsHeld(s: Store, s': Store, bucket: string)
    requires PlainIndex(s, bucket) && s'.versions == s.versions
    ensures VersionsHeld(s', bucket)
  {
  }

  lemma PutDisabledBooks(s: Store, o: ObjId, body: Blob, declared: int, version: string, now: int,
                         tags: map<string, string>)
    requires Books(s, o.bucket) && !IsPartName(o.key)
    requires s.buckets[o.bucket].versioning == Disabled
    ensures Books(PutObject(s, o, body, declared, version, now, tags).1, o.bucket)
  {
    var (r, s') := PutObject(s, o, body, declared, version, now, tags);
    if r == Done {
      var id := BlobId(o.bucket, o.key);
      assert o in s.objects <==> id in s.blobs;
      WriteBalances(s, s', id, body);
      PlainIndexWrite(s, s', o, body, s'.objects[o]);
      PlainVersionsHeld(s, s', o.bucket);
    }
  }

  lemma PlainIndexDrop(s: Store, s': Store, o: ObjId)
    requires PlainIndex(s, o.bucket)
    requires s'.blobs == s.blobs - {BlobId(o.bucket, o.key)} && s'.objects == s.objects - {o}
             && s'.versions == s.versions
    ensures PlainIndex(s', o.bucket)
  {
  }

  lemma MarkerHeld(s: Store, s': Store, o: ObjId, marker: string)
    requires VersionsHeld(s, o.bucket) && s'.blobs == s.blobs
    requires s'.versions == MarkNotLatest(s.versions, o.bucket, o.key)
                              [VerId(o.bucket, o.key, marker) := VersionRecord(true, true, 0)]
    ensures VersionsHeld(s', o.bucket)
  {
  }

  lemma DeleteBooks(s: Store, o: ObjId, marker: string)
    requires Books(s, o.bucket)
    ensures Books(DeleteObject(s, o, marker).1, o.bucket)
  {
    var s' := DeleteObject(s, o, marker).1;
    if s.buckets[o.bucket].versioning == Enabled {
      MarkerHeld(s, s', o, marker);
    } else if o in s.objects {
      DropBalances(s, s', BlobId(o.bucket, o.key));
      PlainIndexDrop(s, s', o);
      PlainVersionsHeld(s, s', o.bucket);
    }
  }

  lemma DroppedVersionHeld(s: Store, s': Store, id: VerId)
    requires VersionsHeld(s, id.bucket) && Tidy(s) && id in s.versions
    requires s'.blobs == s.blobs - {VersionBlob(id)} && s'.versions == s.versions - {id}
    ensures VersionsHeld(s', id.bucket)
  {
    forall v | v in s'.versions && v.bucket == id.bucket && !s'.versions[v].isDeleteMarker
      ensures VersionBlob(v) in s'.blobs && |s'.blobs[VersionBlob(v)]| == s'.versions[v].size
    {
      if VersionBlob(v) == VersionBlob(id) {
        VersionedNameInjective(v.key, v.version, id.key, id.version);
      }
    }
  }

  lemma RemoveVersionBooks(s: Store, id: VerId)
    requires Books(s, id.bucket) && Tidy(s)
    ensures Books(DeleteVersion(s, id).1, id.bucket)
  {
    var s' := DeleteVersion(s, id).1;
    if id in s.versions && !s.versions[id].isDeleteMarker {
      VersionedNameIsNoPart(id.key, id.version);
      DropBalances(s, s', VersionBlob(id));
      DroppedVersionHeld(s, s', id);
    }
  }

  /** A plain blob written where none was: no version's blob is touched. */
  lemma NewPlainBlob(s: Store, s': Store, o: ObjId, data: Blob, rec: ObjectRecord)
    requires Books(s, o.bucket) && !IsPartName(o.key) && rec.versionID == "" && rec.size == |data|
    requires BlobId(o.bucket, o.key) !in s.blobs && s'.versions == s.versions
    requires s'.blobs == s.blobs[BlobId(o.bucket, o.key) := data] && s'.objects == s.objects[o := rec]
    requires s'.buckets == AddStats(s.buckets, o.bucket, 1, |data|)
    ensures Books(s', o.bucket)
  {
    WriteBalances(s, s', BlobId(o.bucket, o.key), data);
    if s.buckets[o.bucket].versioning == Disabled {
      PlainIndexWrite(s, s', o, data, rec);
    }
  }

  lemma CopyBooks(s: Store, src: ObjId, dst: ObjId, now: int)
    requires Books(s, dst.bucket) && !IsPartName(dst.key) && BlobId(dst.bucket, dst.key) !in s.blobs
    ensures Books(CopyObject(s, src, dst, now).1, dst.bucket)
  {
    var (r, s') := CopyObject(s, src, dst, now);
    if r == Done {
      NewPlainBlob(s, s', dst, s.blobs[BlobOf(src, s.objects[src])], s'.objects[dst]);
    }
  }

  /** The recorded total of parts of true size is the length of what they make up. */
  lemma {:induction false} TrueTotal(s: Store, upload: string, ns: seq<nat>)
    requires PartsTrue(s) && upload in s.uploads
    requires Assemble(s.blobs, s.uploads[upload].bucket, upload, ns).Some?
    ensures TotalSize(s.parts, upload, ns) == |Assemble(s.blobs, s.uploads[upload].bucket, upload, ns).value|
  {
    if |ns| > 0 {
      TrueTotal(s, upload, ns[..|ns| - 1]);
      assert PartMatches(s, PartId(upload, ns[|ns| - 1]), true);
    }
  }

  lemma CompleteBooks(s: Store, upload: string, listed: seq<nat>, now: int)
    requires upload in s.uploads && Tidy(s) && PartsTrue(s)
    requires var up := s.uploads[upload];
      Books(s, up.bucket) && BlobId(up.bucket, up.key) !in s.blobs
    ensures Books(CompleteUpload(s, upload, listed, now).1, s.uploads[upload].bucket)
  {
    var (r, s') := CompleteUpload(s, upload, listed, now);
    if r == Done {
      var up := s.uploads[upload];
      var o := ObjId(up.bucket, up.key);
      var sorted := SortNumbers(listed);
      var data := Assemble(s.blobs, up.bucket, upload, sorted).value;
      TrueTotal(s, upload, sorted);
      var rec := ObjectRecord("", |data|, now, map[]);
      var written := s.(blobs := s.blobs[BlobId(o.bucket, o.key) := data], objects := s.objects[o := rec],
                        buckets := AddStats(s.buckets, o.bucket, 1, |data|));
      NewPlainBlob(s, written, o, data, rec);
      assert s' == Cleanup(written, upload, o.bucket, |listed|);
      CleanupBooks(written, upload, o.bucket, |listed|, o.bucket);
    }
  }

  lemma CleanupBooks(s: Store, upload: string, b: string, n: nat, bucket: string)
    requires Books(s, bucket) && forall v :: v in s.versions ==> IsId(v.version) && !IsPartName(v.key)
    requires forall o :: o in s.objects ==> !IsPartName(o.key)
    ensures Books(Cleanup(s, upload, b, n), bucket)
  {
    var s' := Cleanup(s, upload, b, n);
    DropPartsHoldings(s, s', FirstParts(b, upload, n), bucket);
    SameHeld(s, s', bucket);
    CleanupVersions(s, s', bucket);
    if s.buckets[bucket].versioning == Disabled {
      SamePlainIndex(s, s', bucket);
    }
  }

  lemma CleanupVersions(s: Store, s': Store, bucket: string)
    requires VersionsHeld(s, bucket) && s'.versions == s.versions && SameHoldings(s, s', bucket)
    requires forall v :: v in s.versions ==> !IsPartName(v.key)
    ensures VersionsHeld(s', bucket)
  {
    forall v | v in s'.versions && v.bucket == bucket && !s'.versions[v].isDeleteMarker
      ensures VersionBlob(v) in s'.blobs && |s'.blobs[VersionBlob(v)]| == s'.versions[v].size
    {
      VersionedNameIsNoPart(v.key, v.version);
      assert Get(s'.blobs, VersionBlob(v)) == Get(s.blobs, VersionBlob(v));
    }
  }

  lemma FirstPartsAreParts(bucket: string, upload: string, n: nat)
    ensures forall id :: id in FirstParts(bucket, upload, n) ==> IsPartName(id.name)
  {
  }

  lemma DropPartsHoldings(s: Store, s': Store, drop: set<BlobId>, bucket: string)
    requires s'.blobs == s.blobs - drop && forall id :: id in drop ==> IsPartName(id.name)
    ensures SameHoldings(s, s', bucket)
  {
  }

  // ------------------------------------------------------------ any step, any run

  /** A step that is aimed at another bucket, or at parts, leaves the books alone. */
  ghost predicate Elsewhere(s: Store, op: Op, bucket: string) {
    match op
    case Put(o, _, _, _, _, _) => o.bucket != bucket
    case Delete(o, _) => o.bucket != bucket
    case RemoveVersion(id) => id.bucket != bucket
    case Copy(_, o, _) => o.bucket != bucket
    case StartUpload(_, _, _) => true
    case SendPart(_, _, _) => true
    case Complete(upload, _, _) => upload in s.uploads ==> s.uploads[upload].bucket != bucket
    case Abort(_) => true
    case Switch(b, _) => b != bucket
  }

  /** A version put into one bucket leaves the records of every other. */
  lemma VersionElsewhere(versions: map<VerId, VersionRecord>, id: VerId, rec: VersionRecord, bucket: string)
    requires id.bucket != bucket
    ensures forall v: VerId :: v.bucket == bucket ==>
              Get(MarkNotLatest(versions, id.bucket, id.key)[id := rec], v) == Get(versions, v)
  {
  }

  /** One blob and one index entry written to another bucket. */
  lemma WriteElsewhere(s: Store, s': Store, id: BlobId, data: Blob, o: ObjId, rec: ObjectRecord, count: int, bytes: int,
                       bucket: string)
    requires id.bucket == o.bucket != bucket && bucket in s.buckets
    requires s'.blobs == s.blobs[id := data] && s'.objects == s.objects[o := rec]
    requires s'.buckets == AddStats(s.buckets, o.bucket, count, bytes)
    requires forall v: VerId :: v.bucket == bucket ==> Get(s'.versions, v) == Get(s.versions, v)
    ensures SameBooks(s, s', bucket)
  {
  }

  lemma PutElsewhere(s: Store, op: Op, bucket: string)
    requires op.Put? && bucket in s.buckets && op.o.bucket != bucket
    ensures SameBooks(s, Step(s, op).1, bucket)
  {
    var (r, s') := PutObject(s, op.o, op.body, op.declared, op.version, op.now, op.tags);
    if r == Done {
      var o, n := op.o, |op.body|;
      if s.buckets[o.bucket].versioning == Enabled {
        VersionElsewhere(s.versions, VerId(o.bucket, o.key, op.version), VersionRecord(false, true, n), bucket);
        var id := BlobId(o.bucket, VersionedName(o.key, op.version));
        WriteElsewhere(s, s', id, op.body, o, s'.objects[o], 1, n, bucket);
      } else if o in s.objects {
        WriteElsewhere(s, s', BlobId(o.bucket, o.key), op.body, o, s'.objects[o], 0, n - s.objects[o].size, bucket);
      } else {
        WriteElsewhere(s, s', BlobId(o.bucket, o.key), op.body, o, s'.objects[o], 1, n, bucket);
      }
    }
  }

  lemma DeleteElsewhere(s: Store, op: Op, bucket: string)
    requires op.Delete? && bucket in s.buckets && op.o.bucket != bucket
    ensures SameBooks(s, Step(s, op).1, bucket)
  {
    var s' := Step(s, op).1;
    assert SameHoldings(s, s', bucket);
  }

  lemma RemoveElsewhere(s: Store, op: Op, bucket: string)
    requires op.RemoveVersion? && bucket in s.buckets && op.id.bucket != bucket
    ensures SameBooks(s, Step(s, op).1, bucket)
  {
  }

  lemma ElsewhereSame(s: Store, op: Op, bucket: string)
    requires bucket in s.buckets && Elsewhere(s, op, bucket)
    requires op.Copy? || op.StartUpload? || op.SendPart? || op.Switch?
    ensures SameBooks(s, Step(s, op).1, bucket)
  {
  }

  lemma AbortElsewhere(s: Store, op: Op, bucket: string)
    requires op.Abort? && bucket in s.buckets
    ensures SameBooks(s, Step(s, op).1, bucket)
  {
  }

  lemma CompleteElsewhere(s: Store, op: Op, bucket: string)
    requires op.Complete? && bucket in s.buckets && Elsewhere(s, op, bucket)
    ensures SameBooks(s, Step(s, op).1, bucket)
  {
    var (r, s') := CompleteUpload(s, op.upload, op.listed, op.now);
    if r == Done {
      FirstPartsAreParts(s.uploads[op.upload].bucket, op.upload, |op.listed|);
      assert SameHoldings(s, s', bucket);
    }
  }

  lemma StepElsewhere(s: Store, op: Op, bucket: string)
    requires bucket in s.buckets && Elsewhere(s, op, bucket)
    ensures SameBooks(s, Step(s, op).1, bucket)
  {
    match op
    case Abort(_) => AbortElsewhere(s, op, bucket);
    case Complete(_, _, _) => CompleteElsewhere(s, op, bucket);
    case Put(_, _, _, _, _, _) => PutElsewhere(s, op, bucket);
    case Delete(_, _) => DeleteElsewhere(s, op, bucket);
    case RemoveVersion(_) => RemoveElsewhere(s, op, bucket);
    case _ => ElsewhereSame(s, op, bucket);
  }

  lemma StepBooks(s: Store, op: Op, bucket: string)
    requires Books(s, bucket) && Tidy(s) && PartsTrue(s) && Proper(s, op) && Tame(s, op, bucket)
    ensures Books(Step(s, op).1, bucket)
  {
    if Elsewhere(s, op, bucket) {
      StepElsewhere(s, op, bucket);
      SameBooksKept(s, Step(s, op).1, bucket);
    } else {
      match op
      case Put(o, body, declared, version, now, tags) =>
        if s.buckets[bucket].versioning == Enabled {
          PutEnabledBooks(s, o, body, declared, version, now, tags);
        } else {
          PutDisabledBooks(s, o, body, declared, version, now, tags);
        }
      case Delete(o, marker) => DeleteBooks(s, o, marker);
      case RemoveVersion(id) => RemoveVersionBooks(s, id);
      case Copy(src, o, now) => CopyBooks(s, src, o, now);
      case Complete(upload, listed, now) => CompleteBooks(s, upload, listed, now);
      case Switch(_, _) =>
    }
  }

  /** A proper run that is tame for the bucket and sends parts of their declared size. */
  ghost predicate TameRun(states: seq<Store>, ops: seq<Op>, bucket: string) {
    && ProperRun(states, ops)
    && forall i {:trigger ops[i]} :: 0 <= i < |ops| ==> TrueSize(ops[i]) && Tame(states[i], ops[i], bucket)
  }

  /** All that the steps of a tame run keep. */
  ghost predicate InOrder(s: Store, bucket: string) {
    Tidy(s) && PartsTrue(s) && Books(s, bucket)
  }

  lemma StepInOrder(s: Store, op: Op, s': Store, bucket: string)
    requires InOrder(s, bucket) && Proper(s, op) && TrueSize(op) && Tame(s, op, bucket) && s' == Step(s, op).1
    ensures InOrder(s', bucket)
  {
    StepTidy(s, op);
    StepPartsMatch(s, op, true);
    StepBooks(s, op, bucket);
  }

  /** At which moments all is in order. */
  ghost function Moments(states: seq<Store>, bucket: string): (holds: seq<bool>)
    ensures |holds| == |states| && forall k :: 0 <= k < |states| ==> holds[k] == InOrder(states[k], bucket)
  {
    seq(|states|, k requires 0 <= k < |states| => InOrder(states[k], bucket))
  }

  lemma OrderPasses(states: seq<Store>, ops: seq<Op>, bucket: string, k: nat)
    requires TameRun(states, ops, bucket) && k < |ops|
    ensures Moments(states, bucket)[k] ==> Moments(states, bucket)[k + 1]
  {
    if Moments(states, bucket)[k] {
      StepInOrder(states[k], ops[k], states[k + 1], bucket);
    }
  }

  lemma RunInOrder(states: seq<Store>, ops: seq<Op>, bucket: string, i: nat)
    requires TameRun(states, ops, bucket) && i < |states| && Moments(states, bucket)[0]
    ensures Moments(states, bucket)[i]
  {
    forall k | 0 <= k < |ops| ensures Moments(states, bucket)[k] ==> Moments(states, bucket)[k + 1] {
      OrderPasses(states, ops, bucket, k);
    }
    HoldsThroughout(Moments(states, bucket), i);
  }

  /** A store in which the bucket has just been created. */
  ghost predicate NewBucket(s: Store, bucket: string) {
    && bucket in s.buckets && s.buckets[bucket].versioning == Disabled
    && s.buckets[bucket].objectCount == 0 && s.buckets[bucket].totalBytes == 0
    && (forall o :: o in s.objects ==> o.bucket != bucket) && (forall v :: v in s.versions ==> v.bucket != bucket)
    && (forall id :: id in s.blobs ==> id.bucket != bucket)
  }

  lemma NewIsInOrder(s: Store, bucket: string)
    requires Tidy(s) && PartsTrue(s) && NewBucket(s, bucket)
    ensures InOrder(s, bucket)
  {
    assert Held(s.blobs, bucket) == map[];
  }

  /** The test that lets a bucket be deleted. */
  predicate Deletable(b: BucketRecord) {
    !(b.objectCount > 0)
  }

  /**
   Accounting: from a new bucket on, every tame run keeps the counters equal to the
   number and the summed size of the blobs held, so the test that lets a bucket be
   deleted passes exactly when it holds none.
   */
  lemma CountersTellHoldings(states: seq<Store>, ops: seq<Op>, bucket: string, i: nat)
    requires TameRun(states, ops, bucket) && i < |states|
    requires Tidy(states[0]) && PartsTrue(states[0]) && NewBucket(states[0], bucket)
    ensures bucket in states[i].buckets && Balanced(states[i], bucket)
    ensures Deletable(states[i].buckets[bucket]) <==>
            forall id :: id in states[i].blobs && id.bucket == bucket ==> IsPartName(id.name)
  {
    NewIsInOrder(states[0], bucket);
    assert Moments(states, bucket)[0] == InOrder(states[0], bucket);
    RunInOrder(states, ops, bucket, i);
    var h := Held(states[i].blobs, bucket);
    assert |h| == 0 <==> h == map[];
    if h == map[] {
      forall id | id in states[i].blobs && id.bucket == bucket ensures IsPartName(id.name) {
        assert id !in h;
      }
    } else {
      var id :| id in h;
    }
  }
}
