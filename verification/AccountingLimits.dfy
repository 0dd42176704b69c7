/**
 How far the counters can be trusted: for each operation, under any versioning, the
 exact condition under which it keeps them right, and what that means for whole runs.
 */
module AccountingLimits {
  import opened Basics
  import opened Storage
  import opened Accounting

  /**
   A write of one blob that moves the counters by the given amounts keeps the balance
   exactly when these are what the blob adds.
   */
  lemma WriteBalancesIff(s: Store, s': Store, id: BlobId, data: Blob, count: int, bytes: int)
    requires id.bucket in s.buckets && Balanced(s, id.bucket) && !IsPartName(id.name)
    requires Held(s'.blobs, id.bucket) == Held(s.blobs[id := data], id.bucket)
    requires s'.buckets == AddStats(s.buckets, id.bucket, count, bytes)
    ensures id.bucket in s'.buckets
    ensures Balanced(s', id.bucket) <==>
            if id in s.blobs then count == 0 && bytes == |data| - |s.blobs[id]| else count == 1 && bytes == |data|
  {
    HeldPut(s.blobs, id.bucket, id, data);
    SumPut(Held(s.blobs, id.bucket), id, |data|);
  }

  /** A copy keeps the balance exactly when no blob was at its target. */
  lemma CopyBalancesIff(s: Store, src: ObjId, dst: ObjId, now: int)
    requires dst.bucket in s.buckets && Balanced(s, dst.bucket) && !IsPartName(dst.key)
    requires CopyObject(s, src, dst, now).0 == Done
    ensures var s' := CopyObject(s, src, dst, now).1;
      dst.bucket in s'.buckets && (Balanced(s', dst.bucket) <==> BlobId(dst.bucket, dst.key) !in s.blobs)
  {
    var s' := CopyObject(s, src, dst, now).1;
    var data := s.blobs[BlobOf(src, s.objects[src])];
    WriteBalancesIff(s, s', BlobId(dst.bucket, dst.key), data, 1, |data|);
  }

  /**
   A put on a bucket without versioning (suspended included) keeps the balance exactly
   when the index and the blob of its key agree: both absent, or both there and of one
   size.
   */
  lemma PlainPutBalancesIff(s: Store, o: ObjId, body: Blob, declared: int, version: string, now: int,
                            tags: map<string, string>)
    requires o.bucket in s.buckets && Balanced(s, o.bucket) && !IsPartName(o.key)
    requires s.buckets[o.bucket].versioning != Enabled
    requires PutObject(s, o, body, declared, version, now, tags).0 == Done
    ensures var s', id := PutObject(s, o, body, declared, version, now, tags).1, BlobId(o.bucket, o.key);
      o.bucket in s'.buckets &&
      (Balanced(s', o.bucket) <==>
       (o in s.objects <==> id in s.blobs) && (o in s.objects ==> s.objects[o].size == |s.blobs[id]|))
  {
    var s', id := PutObject(s, o, body, declared, version, now, tags).1, BlobId(o.bucket, o.key);
    if o in s.objects {
      WriteBalancesIff(s, s', id, body, 0, |body| - s.objects[o].size);
    } else {
      WriteBalancesIff(s, s', id, body, 1, |body|);
    }
  }

  /** The declared sizes of the listed parts add up to the length of what they make up. */
  predicate TotalTold(s: Store, upload: string, listed: seq<nat>)
    requires upload in s.uploads
  {
    var sorted := SortNumbers(listed);
    Some(TotalSize(s.parts, upload, sorted)) == Length(Assemble(s.blobs, s.uploads[upload].bucket, upload, sorted))
  }

  function Length(data: Option<Blob>): Option<int> {
    if data.None? then None else Some(|data.value|)
  }

  /**
   A completion keeps the balance exactly when it fails, or no blob was at its target and
   the declared part sizes add up to the true length.
   */
  lemma CompleteBalancesIff(s: Store, upload: string, listed: seq<nat>, now: int)
    requires upload in s.uploads && !IsPartName(s.uploads[upload].key)
    requires s.uploads[upload].bucket in s.buckets && Balanced(s, s.uploads[upload].bucket)
    ensures var (r, s'), up := CompleteUpload(s, upload, listed, now), s.uploads[upload];
      up.bucket in s'.buckets &&
      (Balanced(s', up.bucket) <==>
       r != Done || (BlobId(up.bucket, up.key) !in s.blobs && TotalTold(s, upload, listed)))
  {
    var (r, s') := CompleteUpload(s, upload, listed, now);
    if r == Done {
      var up := s.uploads[upload];
      var id := BlobId(up.bucket, up.key);
      var sorted := SortNumbers(listed);
      var data := Assemble(s.blobs, up.bucket, upload, sorted).value;
      FirstPartsAreParts(up.bucket, upload, |listed|);
      HeldDropParts(s.blobs[id := data], up.bucket, FirstParts(up.bucket, upload, |listed|));
      WriteBalancesIff(s, s', id, data, 1, TotalSize(s.parts, upload, sorted));
    }
  }

  /**
   Dropping one blob with the given amounts off the counters keeps the balance exactly
   when the blob is there and of that size.
   */
  lemma DropBalancesIff(s: Store, s': Store, id: BlobId, size: int)
    requires id.bucket in s.buckets && Balanced(s, id.bucket) && !IsPartName(id.name)
    requires s'.blobs == s.blobs - {id}
    requires s'.buckets == AddStats(s.buckets, id.bucket, -1, 0 - size)
    ensures id.bucket in s'.buckets
    ensures Balanced(s', id.bucket) <==> id in s.blobs && |s.blobs[id]| == size
  {
    HeldDrop(s.blobs, id.bucket, id);
    SumPut(Held(s.blobs, id.bucket), id, 0);
  }

  lemma UntouchedBalances(s: Store, s': Store, bucket: string)
    requires bucket in s.buckets && Balanced(s, bucket) && s'.blobs == s.blobs && s'.buckets == s.buckets
    ensures Balanced(s', bucket)
  {
  }

  /** The index entry tells its blob: it is there and of the recorded size. */
  predicate EntryTold(s: Store, o: ObjId)
    requires o in s.objects
  {
    var id := BlobOf(o, s.objects[o]);
    id in s.blobs && |s.blobs[id]| == s.objects[o].size
  }

  /** The version record tells its blob. */
  predicate VersionTold(s: Store, v: VerId)
    requires v in s.versions
  {
    var id := BlobId(v.bucket, VersionedName(v.key, v.version));
    id in s.blobs && |s.blobs[id]| == s.versions[v].size
  }

  /**
   A deletion keeps the balance exactly when the bucket keeps versions, or the key has
   no index entry, or the blob that the entry names is there with the entry's size.
   */
  lemma DeleteBalancesIff(s: Store, o: ObjId, marker: string)
    requires o.bucket in s.buckets && Balanced(s, o.bucket) && !IsPartName(o.key)
    ensures var s' := DeleteObject(s, o, marker).1;
      o.bucket in s'.buckets &&
      (Balanced(s', o.bucket) <==>
       s.buckets[o.bucket].versioning == Enabled || o !in s.objects || EntryTold(s, o))
  {
    var s' := DeleteObject(s, o, marker).1;
    if s.buckets[o.bucket].versioning == Enabled || o !in s.objects {
      UntouchedBalances(s, s', o.bucket);
    } else {
      PlainDeleteBalancesIff(s, o, marker);
    }
  }

  lemma PlainDeleteBalancesIff(s: Store, o: ObjId, marker: string)
    requires o.bucket in s.buckets && Balanced(s, o.bucket) && !IsPartName(o.key)
    requires s.buckets[o.bucket].versioning != Enabled && o in s.objects
    ensures var s' := DeleteObject(s, o, marker).1;
      o.bucket in s'.buckets && (Balanced(s', o.bucket) <==> EntryTold(s, o))
  {
    var rec := s.objects[o];
    VersionedNameIsNoPart(o.key, rec.versionID);
    DropBalancesIff(s, DeleteObject(s, o, marker).1, BlobOf(o, rec), rec.size);
  }

  /**
   Removing a version keeps the balance exactly when there is no record, or it is a
   marker, or its blob is there with the recorded size.
   */
  lemma RemoveVersionBalancesIff(s: Store, id: VerId)
    requires id.bucket in s.buckets && Balanced(s, id.bucket) && !IsPartName(id.key)
    ensures var s' := DeleteVersion(s, id).1;
      id.bucket in s'.buckets &&
      (Balanced(s', id.bucket) <==> id !in s.versions || s.versions[id].isDeleteMarker || VersionTold(s, id))
  {
    var s' := DeleteVersion(s, id).1;
    if id !in s.versions || s.versions[id].isDeleteMarker {
      UntouchedBalances(s, s', id.bucket);
    } else {
      ContentRemovalBalancesIff(s, id);
    }
  }

  lemma ContentRemovalBalancesIff(s: Store, id: VerId)
    requires id.bucket in s.buckets && Balanced(s, id.bucket) && !IsPartName(id.key)
    requires id in s.versions && !s.versions[id].isDeleteMarker
    ensures var s' := DeleteVersion(s, id).1;
      id.bucket in s'.buckets && (Balanced(s', id.bucket) <==> VersionTold(s, id))
  {
    VersionedNameIsNoPart(id.key, id.version);
    DropBalancesIff(s, DeleteVersion(s, id).1, VersionBlob(id), s.versions[id].size);
  }

  // --------------------------------------------------- any operation, any run

  /** What the counters assume of an operation: the index and the version records tell the blobs. */
  predicate Fits(s: Store, op: Op, bucket: string) {
    match op
    case Put(o, _, declared, _, _, _) =>
      o.bucket == bucket && bucket in s.buckets && s.buckets[bucket].versioning != Enabled
      && WithinQuota(s.buckets[bucket], declared) ==>
        var id := BlobId(bucket, o.key);
        (o in s.objects <==> id in s.blobs) && (o in s.objects ==> s.objects[o].size == |s.blobs[id]|)
    case Delete(o, _) =>
      o.bucket == bucket && bucket in s.buckets && s.buckets[bucket].versioning != Enabled && o in s.objects ==>
        EntryTold(s, o)
    case RemoveVersion(id) =>
      id.bucket == bucket && id in s.versions && !s.versions[id].isDeleteMarker ==> VersionTold(s, id)
    case Copy(src, o, now) =>
      o.bucket == bucket && CopyObject(s, src, o, now).0 == Done ==> BlobId(bucket, o.key) !in s.blobs
    case Complete(upload, listed, now) =>
      upload in s.uploads && s.uploads[upload].bucket == bucket && CompleteUpload(s, upload, listed, now).0 == Done ==>
        BlobId(bucket, s.uploads[upload].key) !in s.blobs && TotalTold(s, upload, listed)
    case _ => true
  }

  lemma PutBalancesIff(s: Store, op: Op)
    requires op.Put? && op.o.bucket in s.buckets && Balanced(s, op.o.bucket) && Proper(s, op)
    ensures var s', b := Step(s, op).1, op.o.bucket;
      b in s'.buckets && (Balanced(s', b) <==> Fits(s, op, b))
  {
    var (r, s') := PutObject(s, op.o, op.body, op.declared, op.version, op.now, op.tags);
    if r == Done {
      if s.buckets[op.o.bucket].versioning == Enabled {
        var id := BlobId(op.o.bucket, VersionedName(op.o.key, op.version));
        VersionedNameIsNoPart(op.o.key, op.version);
        assert id !in s.blobs;
        WriteBalancesIff(s, s', id, op.body, 1, |op.body|);
      } else {
        PlainPutBalancesIff(s, op.o, op.body, op.declared, op.version, op.now, op.tags);
      }
    }
  }

  lemma SwitchBalances(s: Store, op: Op, bucket: string)
    requires op.Switch? && bucket in s.buckets && Balanced(s, bucket)
    ensures bucket in Step(s, op).1.buckets && Balanced(Step(s, op).1, bucket)
  {
  }

  lemma ElsewhereBalances(s: Store, op: Op, bucket: string)
    requires bucket in s.buckets && Balanced(s, bucket) && Elsewhere(s, op, bucket)
    ensures bucket in Step(s, op).1.buckets && Balanced(Step(s, op).1, bucket)
  {
    StepElsewhere(s, op, bucket);
    SameHeld(s, Step(s, op).1, bucket);
  }

  lemma ElsewhereFits(s: Store, op: Op, bucket: string)
    requires Elsewhere(s, op, bucket) || op.Switch?
    ensures Fits(s, op, bucket)
  {
  }

  /** Every operation, under any versioning, keeps the balance exactly when it fits. */
  lemma StepBalancesIff(s: Store, op: Op, bucket: string)
    requires bucket in s.buckets && Balanced(s, bucket) && Tidy(s) && Proper(s, op)
    ensures bucket in Step(s, op).1.buckets
    ensures Balanced(Step(s, op).1, bucket) <==> Fits(s, op, bucket)
  {
    if Elsewhere(s, op, bucket) {
      ElsewhereBalances(s, op, bucket);
      ElsewhereFits(s, op, bucket);
    } else {
      HereBalancesIff(s, op, bucket);
    }
  }

  lemma HereBalancesIff(s: Store, op: Op, bucket: string)
    requires bucket in s.buckets && Balanced(s, bucket) && Tidy(s) && Proper(s, op)
    requires !Elsewhere(s, op, bucket)
    ensures bucket in Step(s, op).1.buckets
    ensures Balanced(Step(s, op).1, bucket) <==> Fits(s, op, bucket)
  {
    match op
    case Put(_, _, _, _, _, _) => PutBalancesIff(s, op);
    case Delete(o, marker) => DeleteBalancesIff(s, o, marker);
    case RemoveVersion(id) =>
      if id in s.versions {
        RemoveVersionBalancesIff(s, id);
      }
    case Copy(src, o, now) =>
      if CopyObject(s, src, o, now).0 == Done {
        CopyBalancesIff(s, src, o, now);
      }
    case Complete(upload, listed, now) => CompleteBalancesIff(s, upload, listed, now);
    case Switch(_, _) => SwitchBalances(s, op, bucket);
  }

  /** At which moments the counters are right. */
  ghost function Balances(states: seq<Store>, bucket: string): (holds: seq<bool>)
    ensures |holds| == |states|
    ensures forall k :: 0 <= k < |states| ==>
              holds[k] == (bucket in states[k].buckets && Balanced(states[k], bucket))
  {
    seq(|states|, k requires 0 <= k < |states| => bucket in states[k].buckets && Balanced(states[k], bucket))
  }

  /** Which operations fit. */
  ghost function Fitting(states: seq<Store>, ops: seq<Op>, bucket: string): (good: seq<bool>)
    requires |states| == |ops| + 1
    ensures |good| == |ops| && forall k :: 0 <= k < |ops| ==> good[k] == Fits(states[k], ops[k], bucket)
  {
    seq(|ops|, k requires 0 <= k < |ops| => Fits(states[k], ops[k], bucket))
  }

  lemma NextBalanceIff(states: seq<Store>, ops: seq<Op>, bucket: string, k: nat)
    requires ProperRun(states, ops) && k < |ops| && Tidy(states[0]) && Balances(states, bucket)[k]
    ensures Balances(states, bucket)[k + 1] <==> Fitting(states, ops, bucket)[k]
  {
    RunTidy(states, ops, k);
    StepBalancesIff(states[k], ops[k], bucket);
  }

  /**
   The exact reach of the accounting: in any proper run, under any versioning, whatever
   sizes are declared and from counters that are right, they are right at every moment
   exactly when every operation fits.
   */
  lemma RunBalancesIff(states: seq<Store>, ops: seq<Op>, bucket: string)
    requires ProperRun(states, ops) && Tidy(states[0]) && Balances(states, bucket)[0]
    ensures var holds, good := Balances(states, bucket), Fitting(states, ops, bucket);
      (forall k :: 0 <= k < |holds| ==> holds[k]) <==> (forall k :: 0 <= k < |good| ==> good[k])
  {
    var holds, good := Balances(states, bucket), Fitting(states, ops, bucket);
    forall k | 0 <= k < |ops| && holds[k] ensures holds[k + 1] <==> good[k] {
      NextBalanceIff(states, ops, bucket, k);
    }
    HoldsThroughoutIff(holds, good);
  }
}
