/** What a multipart upload stores, and what quotas let in. */
module Multipart {
  import opened Basics
  import opened Storage
  import opened Accounting
  import opened VersionSafety

  // ---------------------------------------------------------------- last bodies

  /** The last body sent for a part in the first n steps, since its upload was started. */
  ghost function LastSent(states: seq<Store>, ops: seq<Op>, n: nat, p: PartId): Option<Blob>
    requires n <= |ops| && |states| == |ops| + 1
  {
    if n == 0 then None
    else if ops[n - 1].SendPart? && ops[n - 1].part == p && p.upload in states[n - 1].uploads then Some(ops[n - 1].body)
    else if ops[n - 1].StartUpload? && ops[n - 1].upload == p.upload then None
    else LastSent(states, ops, n - 1, p)
  }

  /** The blob of a part of an open upload. */
  ghost function PartBlob(s: Store, p: PartId): Option<Blob>
    requires p.upload in s.uploads
  {
    Get(s.blobs, BlobId(s.uploads[p.upload].bucket, PartName(p.upload, p.number)))
  }

  /** The name of a part's blob in the bucket of its upload. */
  function PartBlobId(s: Store, p: PartId): BlobId
    requires p.upload in s.uploads
  {
    BlobId(s.uploads[p.upload].bucket, PartName(p.upload, p.number))
  }

  /**
   The operation, other than sending the part, leaves its blob alone: it writes no other
   bytes to the blob's name as a plain object, and deletes no object of that name.
   */
  ghost predicate SparesPart(s: Store, op: Op, p: PartId)
    requires p.upload in s.uploads
  {
    var id := PartBlobId(s, p);
    match op
    case Put(o, body, declared, _, _, _) =>
      Overwrites(s, o, declared) && BlobId(o.bucket, o.key) == id ==> Get(s.blobs, id) == Some(body)
    case Delete(o, _) =>
      o.bucket in s.buckets && s.buckets[o.bucket].versioning != Enabled && o in s.objects ==>
        BlobOf(o, s.objects[o]) != id || id !in s.blobs
    case Copy(src, o, now) =>
      CopyObject(s, src, o, now).0 == Done && BlobId(o.bucket, o.key) == id ==>
        Get(s.blobs, id) == Get(s.blobs, BlobOf(src, s.objects[src]))
    case Complete(upload, listed, now) =>
      CompleteUpload(s, upload, listed, now).0 == Done
      && BlobId(s.uploads[upload].bucket, s.uploads[upload].key) == id ==>
        Get(s.blobs, id) == Assemble(s.blobs, s.uploads[upload].bucket, upload, SortNumbers(listed))
    case _ => true
  }

  /** The part's blob after the operation is what it was. */
  ghost predicate KeepsPart(s: Store, op: Op, p: PartId)
    requires p.upload in s.uploads
  {
    p.upload in Step(s, op).1.uploads && PartBlob(Step(s, op).1, p) == PartBlob(s, p)
  }

  lemma PutPartIff(s: Store, op: Op, p: PartId)
    requires op.Put? && Generated(s, op) && Labelled(s) && p.upload in s.uploads
    ensures p.upload in Step(s, op).1.uploads && (KeepsPart(s, op, p) <==> SparesPart(s, op, p))
  {
    VersionedNameHitsNoPart(op.o.key, op.version, p.upload, p.number);
  }

  lemma DeletePartIff(s: Store, op: Op, p: PartId)
    requires op.Delete? && p.upload in s.uploads
    ensures p.upload in Step(s, op).1.uploads && (KeepsPart(s, op, p) <==> SparesPart(s, op, p))
  {
  }

  lemma RemoveKeepsPart(s: Store, op: Op, p: PartId)
    requires op.RemoveVersion? && Labelled(s) && p.upload in s.uploads
    ensures KeepsPart(s, op, p)
  {
    if op.id in s.versions {
      VersionedNameHitsNoPart(op.id.key, op.id.version, p.upload, p.number);
    }
  }

  lemma CopyPartIff(s: Store, op: Op, p: PartId)
    requires op.Copy? && p.upload in s.uploads
    ensures p.upload in Step(s, op).1.uploads && (KeepsPart(s, op, p) <==> SparesPart(s, op, p))
  {
  }

  lemma AbortKeepsPart(s: Store, op: Op, p: PartId)
    requires op.Abort? && Labelled(s) && p.upload in s.uploads && p.upload in Step(s, op).1.uploads
    ensures KeepsPart(s, op, p)
  {
    var s' := Step(s, op).1;
    if op.upload in s.uploads {
      var bucket, ps := s.uploads[op.upload].bucket, PartsOf(s.parts, op.upload);
      var first := set q | q in ps :: BlobId(bucket, PartName(op.upload, q.number));
      var drop := first + FirstParts(bucket, op.upload, |ps|);
      assert s'.blobs == s.blobs - drop;
      OtherUploadsKept(s.blobs, drop, op.upload, p.upload, p.number, s.uploads[p.upload].bucket);
    }
  }

  lemma CompletePartIff(s: Store, op: Op, p: PartId)
    requires op.Complete? && Labelled(s) && p.upload in s.uploads && p.upload in Step(s, op).1.uploads
    ensures KeepsPart(s, op, p) <==> SparesPart(s, op, p)
  {
    var (r, s') := Step(s, op);
    if r == Done {
      var up := s.uploads[op.upload];
      var drop := FirstParts(up.bucket, op.upload, |op.listed|);
      var data := Assemble(s.blobs, up.bucket, op.upload, SortNumbers(op.listed)).value;
      var written := s.blobs[BlobId(up.bucket, up.key) := data];
      assert s'.blobs == written - drop;
      OtherUploadsKept(written, drop, op.upload, p.upload, p.number, s.uploads[p.upload].bucket);
    }
  }

  lemma SendPartBlob(s: Store, op: Op, p: PartId)
    requires op.SendPart? && Labelled(s) && p.upload in s.uploads
    ensures p.upload in Step(s, op).1.uploads
    ensures PartBlob(Step(s, op).1, p) == if op.part == p then Some(op.body) else PartBlob(s, p)
  {
    var q := op.part;
    if q.upload in s.uploads && PartName(p.upload, p.number) == PartName(q.upload, q.number) {
      PartNameInjective(p.upload, p.number, q.upload, q.number);
    }
  }

  /** An upload opened in this step finds its name space empty. */
  lemma StartPartBlob(s: Store, op: Op, p: PartId)
    requires op.StartUpload? && Generated(s, op) && p.upload in Step(s, op).1.uploads
    ensures p.upload !in s.uploads ==> op.upload == p.upload && PartBlob(Step(s, op).1, p) == None
    ensures p.upload in s.uploads ==> op.upload != p.upload && KeepsPart(s, op, p)
  {
  }

  lemma OnlyStartOpens(s: Store, op: Op, upload: string)
    requires upload in Step(s, op).1.uploads && upload !in s.uploads
    ensures op.StartUpload?
  {
  }

  /**
   Whatever keys clients use, an operation that leaves the upload open keeps the blob of its
   part exactly when it spares it.
   */
  lemma StepPartIff(s: Store, op: Op, p: PartId)
    requires Labelled(s) && Generated(s, op) && p.upload in s.uploads && p.upload in Step(s, op).1.uploads
    requires !(op.SendPart? && op.part == p)
    ensures KeepsPart(s, op, p) <==> SparesPart(s, op, p)
  {
    match op
    case Put(_, _, _, _, _, _) => PutPartIff(s, op, p);
    case Delete(_, _) => DeletePartIff(s, op, p);
    case RemoveVersion(_) => RemoveKeepsPart(s, op, p);
    case Copy(_, _, _) => CopyPartIff(s, op, p);
    case StartUpload(_, _, _) => StartPartBlob(s, op, p);
    case SendPart(_, _, _) => SendPartBlob(s, op, p);
    case Complete(_, _, _) => CompletePartIff(s, op, p);
    case Abort(_) => AbortKeepsPart(s, op, p);
    case Switch(_, _) =>
  }

  // --------------------------------------------------------------- runs, any keys

  /** A run whose generated identifiers are fresh; clients may use any keys. */
  ghost predicate GeneratedRun(states: seq<Store>, ops: seq<Op>) {
    Run(states, ops) && forall i {:trigger ops[i]} :: 0 <= i < |ops| ==> Generated(states[i], ops[i])
  }

  lemma {:induction false} RunLabelled(states: seq<Store>, ops: seq<Op>, i: nat)
    requires GeneratedRun(states, ops) && i < |states| && Labelled(states[0])
    ensures Labelled(states[i])
  {
    if i > 0 {
      RunLabelled(states, ops, i - 1);
      StepLabelled(states[i - 1], ops[i - 1]);
    }
  }

  /** While its upload is open, the part's blob is the last body sent for it. */
  ghost predicate TellsLast(states: seq<Store>, ops: seq<Op>, k: nat, p: PartId)
    requires |states| == |ops| + 1 && k <= |ops|
  {
    p.upload in states[k].uploads ==> PartBlob(states[k], p) == LastSent(states, ops, k, p)
  }

  /** The operation sends the part, or finds or leaves its upload closed, or spares the part. */
  ghost predicate Respects(s: Store, op: Op, p: PartId) {
    p.upload in s.uploads && p.upload in Step(s, op).1.uploads ==>
      (op.SendPart? && op.part == p) || SparesPart(s, op, p)
  }

  /** At which moments the part's blob is the last body sent. */
  ghost function Telling(states: seq<Store>, ops: seq<Op>, p: PartId): (holds: seq<bool>)
    requires |states| == |ops| + 1
    ensures |holds| == |states| && forall k :: 0 <= k < |states| ==> holds[k] == TellsLast(states, ops, k, p)
  {
    seq(|states|, k requires 0 <= k < |states| => TellsLast(states, ops, k, p))
  }

  /** Which operations respect the part. */
  ghost function Respecting(states: seq<Store>, ops: seq<Op>, p: PartId): (good: seq<bool>)
    requires |states| == |ops| + 1
    ensures |good| == |ops| && forall k :: 0 <= k < |ops| ==> good[k] == Respects(states[k], ops[k], p)
  {
    seq(|ops|, k requires 0 <= k < |ops| => Respects(states[k], ops[k], p))
  }

  lemma NextTellsIff(states: seq<Store>, ops: seq<Op>, p: PartId, k: nat)
    requires GeneratedRun(states, ops) && Labelled(states[0]) && k < |ops| && TellsLast(states, ops, k, p)
    ensures TellsLast(states, ops, k + 1, p) <==> Respects(states[k], ops[k], p)
  {
    var s, op := states[k], ops[k];
    RunLabelled(states, ops, k);
    assert states[k + 1] == Step(s, op).1 && Generated(s, op);
    if p.upload in states[k + 1].uploads {
      if p.upload !in s.uploads {
        OnlyStartOpens(s, op, p.upload);
        StartPartBlob(s, op, p);
      } else if op.SendPart? && op.part == p {
        SendPartBlob(s, op, p);
      } else {
        StepPartIff(s, op, p);
      }
    }
  }

  /**
   The exact reach of multipart uploads: in any run from a store without uploads, whatever
   keys clients use, a part's blob is the last body sent for it whenever its upload is open,
   exactly when every operation respects it.
   */
  lemma RunPartIff(states: seq<Store>, ops: seq<Op>, p: PartId)
    requires GeneratedRun(states, ops) && Labelled(states[0]) && states[0].uploads == map[]
    ensures var holds, good := Telling(states, ops, p), Respecting(states, ops, p);
      (forall k :: 0 <= k < |holds| ==> holds[k]) <==> (forall k :: 0 <= k < |good| ==> good[k])
  {
    var holds, good := Telling(states, ops, p), Respecting(states, ops, p);
    forall k | 0 <= k < |ops| && holds[k] ensures holds[k + 1] <==> good[k] {
      NextTellsIff(states, ops, p, k);
    }
    assert holds[0] == TellsLast(states, ops, 0, p);
    HoldsThroughoutIff(holds, good);
  }

  // ------------------------------------------------------------ runs, proper keys

  /** Clients that stay out of the name space of parts spare them all. */
  lemma ProperSparesPart(s: Store, op: Op, p: PartId)
    requires Tidy(s) && Proper(s, op) && p.upload in s.uploads
    ensures SparesPart(s, op, p)
  {
    PartNameIsPart(p.upload, p.number);
    if op.Delete? && op.o in s.objects {
      VersionedNameIsNoPart(op.o.key, s.objects[op.o].versionID);
    }
  }

  /**
   While an upload is open, the blob of each of its parts is the last body that was
   sent for it, whatever else happens in the store.
   */
  lemma {:induction false} PartsAreLastSent(states: seq<Store>, ops: seq<Op>, n: nat, p: PartId)
    requires ProperRun(states, ops) && n <= |ops|
    requires Tidy(states[0]) && states[0].uploads == map[]
    requires p.upload in states[n].uploads
    ensures PartBlob(states[n], p) == LastSent(states, ops, n, p)
  {
    forall k | 0 <= k < |ops| ensures Respecting(states, ops, p)[k] {
      RunTidy(states, ops, k);
      if p.upload in states[k].uploads {
        ProperSparesPart(states[k], ops[k], p);
      }
    }
    RunPartIff(states, ops, p);
    assert Telling(states, ops, p)[n] == TellsLast(states, ops, n, p);
  }

  // ------------------------------------------------------------------- assembly

  /** The concatenation of the given bodies; None when one is missing. */
  ghost function ConcatBodies(states: seq<Store>, ops: seq<Op>, n: nat, upload: string, ns: seq<nat>): Option<Blob>
    requires n <= |ops| && |states| == |ops| + 1
  {
    if |ns| == 0 then Some([])
    else
      match (ConcatBodies(states, ops, n, upload, ns[..|ns| - 1]),
             LastSent(states, ops, n, PartId(upload, ns[|ns| - 1])))
      case (Some(data), Some(last)) => Some(data + last)
      case _ => None
  }

  lemma {:induction false} AssembleIsConcat(states: seq<Store>, ops: seq<Op>, n: nat, upload: string, ns: seq<nat>)
    requires ProperRun(states, ops) && n <= |ops|
    requires Tidy(states[0]) && states[0].uploads == map[] && upload in states[n].uploads
    ensures Assemble(states[n].blobs, states[n].uploads[upload].bucket, upload, ns) ==
            ConcatBodies(states, ops, n, upload, ns)
  {
    if |ns| > 0 {
      AssembleIsConcat(states, ops, n, upload, ns[..|ns| - 1]);
      PartsAreLastSent(states, ops, n, PartId(upload, ns[|ns| - 1]));
    }
  }

  lemma {:induction false} ConcatMissing(states: seq<Store>, ops: seq<Op>, n: nat, upload: string, ns: seq<nat>)
    requires n <= |ops| && |states| == |ops| + 1
    ensures ConcatBodies(states, ops, n, upload, ns) == None <==>
            exists k :: k in ns && LastSent(states, ops, n, PartId(upload, k)) == None
  {
    if |ns| > 0 {
      var rest, last := ns[..|ns| - 1], ns[|ns| - 1];
      ConcatMissing(states, ops, n, upload, rest);
      assert ns == rest + [last];
      assert forall k :: k in ns <==> k in rest || k == last;
    }
  }

  /** A listed part counts with its recorded size, one without a record as nothing. */
  lemma TotalMeans(parts: map<PartId, int>, upload: string, ns: seq<nat>, n: nat)
    ensures TotalSize(parts, upload, []) == 0
    ensures TotalSize(parts, upload, ns + [n]) ==
            TotalSize(parts, upload, ns) + if PartId(upload, n) in parts then parts[PartId(upload, n)] else 0
  {
    assert (ns + [n])[..|ns|] == ns;
  }

  /** Sizes add up alike in any order of the list. */
  lemma {:induction false} TotalConcat(parts: map<PartId, int>, upload: string, a: seq<nat>, b: seq<nat>)
    ensures TotalSize(parts, upload, a + b) == TotalSize(parts, upload, a) + TotalSize(parts, upload, b)
  {
    if |b| == 0 {
      assert a + b == a;
    } else {
      TotalConcat(parts, upload, a, b[..|b| - 1]);
      assert (a + b)[..|a + b| - 1] == a + b[..|b| - 1];
    }
  }

  lemma {:induction false} InsertTotal(parts: map<PartId, int>, upload: string, ns: seq<nat>, x: nat)
    ensures TotalSize(parts, upload, InsertNumber(ns, x)) ==
            TotalSize(parts, upload, ns) + PartSize(parts, PartId(upload, x))
  {
    OneTotal(parts, upload, x);
    if |ns| == 0 || x <= ns[0] {
      TotalConcat(parts, upload, [x], ns);
    } else {
      InsertTotal(parts, upload, ns[1..], x);
      TotalConcat(parts, upload, [ns[0]], InsertNumber(ns[1..], x));
      TotalConcat(parts, upload, [ns[0]], ns[1..]);
      assert ns == [ns[0]] + ns[1..];
    }
  }

  lemma OneTotal(parts: map<PartId, int>, upload: string, x: nat)
    ensures TotalSize(parts, upload, [x]) == PartSize(parts, PartId(upload, x))
  {
    assert [x][..0] == [];
    assert TotalSize(parts, upload, []) == 0;
  }

  lemma {:induction false} SortedTotal(parts: map<PartId, int>, upload: string, ns: seq<nat>)
    ensures TotalSize(parts, upload, SortNumbers(ns)) == TotalSize(parts, upload, ns)
  {
    if |ns| > 0 {
      SortedTotal(parts, upload, ns[1..]);
      InsertTotal(parts, upload, SortNumbers(ns[1..]), ns[0]);
      OneTotal(parts, upload, ns[0]);
      TotalConcat(parts, upload, [ns[0]], ns[1..]);
      assert ns == [ns[0]] + ns[1..];
    }
  }

  /** The size given to the quota test is the size recorded, however the client ordered the list. */
  lemma {:induction false} QuotaSizeIsRecordedSize(s: Store, upload: string, listed: seq<nat>, now: int)
    requires CompleteUpload(s, upload, listed, now).0 == Done
    ensures var o := ObjId(s.uploads[upload].bucket, s.uploads[upload].key);
      CompleteUpload(s, upload, listed, now).1.objects[o].size == TotalSize(s.parts, upload, listed)
  {
    CompletionRecords(s, upload, listed, now);
    SortedTotal(s.parts, upload, listed);
  }

  /** A completion records the sum of its sorted list, in its object and in its bucket. */
  lemma CompletionRecords(s: Store, upload: string, listed: seq<nat>, now: int)
    requires CompleteUpload(s, upload, listed, now).0 == Done
    ensures var s', up := CompleteUpload(s, upload, listed, now).1, s.uploads[upload];
      var total := TotalSize(s.parts, upload, SortNumbers(listed));
      && s'.objects[ObjId(up.bucket, up.key)].size == total
      && s'.buckets == AddStats(s.buckets, up.bucket, 1, total)
  {
  }

  /**
   Multipart assembly: within the quota, completing an open upload fails exactly when a
   listed part was never sent; otherwise the object holds the last bodies sent for the
   listed parts, one after the other in ascending part number.
   */
  lemma CompletionAssembles(states: seq<Store>, ops: seq<Op>, n: nat, upload: string, listed: seq<nat>, now: int)
    requires ProperRun(states, ops) && n <= |ops|
    requires Tidy(states[0]) && states[0].uploads == map[] && upload in states[n].uploads
    requires states[n].uploads[upload].bucket in states[n].buckets
    requires WithinQuota(states[n].buckets[states[n].uploads[upload].bucket],
             TotalSize(states[n].parts, upload, listed))
    ensures var (r, s') := CompleteUpload(states[n], upload, listed, now);
      var o := ObjId(states[n].uploads[upload].bucket, states[n].uploads[upload].key);
      var sorted := SortNumbers(listed);
      && (r == Unreadable <==> exists k :: k in listed && LastSent(states, ops, n, PartId(upload, k)) == None)
      && (r == Unreadable ==> s' == states[n])
      && (r != Unreadable ==>
            r == Done && Rising(sorted) && multiset(sorted) == multiset(listed)
            && GetObject(s', o) == ConcatBodies(states, ops, n, upload, sorted)
            && GetObject(s', o).Some? && upload !in s'.uploads)
  {
    var s := states[n];
    var sorted := SortNumbers(listed);
    SortRises(listed);
    AssembleIsConcat(states, ops, n, upload, sorted);
    ConcatMissing(states, ops, n, upload, sorted);
    forall k ensures k in sorted <==> k in listed {
      assert k in sorted <==> k in multiset(sorted);
      assert k in listed <==> k in multiset(listed);
    }
    RunTidy(states, ops, n);
    CompletionReads(s, upload, listed, now);
  }

  /** A completed object reads as the assembled data, which the cleanup does not touch. */
  lemma CompletionReads(s: Store, upload: string, listed: seq<nat>, now: int)
    requires upload in s.uploads && !IsPartName(s.uploads[upload].key) && s.uploads[upload].bucket in s.buckets
    requires WithinQuota(s.buckets[s.uploads[upload].bucket], TotalSize(s.parts, upload, listed))
    ensures var (r, s') := CompleteUpload(s, upload, listed, now);
      var o := ObjId(s.uploads[upload].bucket, s.uploads[upload].key);
      var data := Assemble(s.blobs, o.bucket, upload, SortNumbers(listed));
      && (data.None? ==> r == Unreadable && s' == s)
      && (data.Some? ==> r == Done && GetObject(s', o) == data && upload !in s'.uploads
                         && s'.objects[o].size == TotalSize(s.parts, upload, SortNumbers(listed)))
  {
    var up := s.uploads[upload];
    FirstPartsAreParts(up.bucket, upload, |listed|);
    assert BlobId(up.bucket, up.key) !in FirstParts(up.bucket, upload, |listed|);
  }

  /** With true declared sizes the recorded size is the length of the object. */
  lemma CompletionSizeIsTrue(s: Store, upload: string, listed: seq<nat>, now: int)
    requires PartsTrue(s) && Tidy(s) && CompleteUpload(s, upload, listed, now).0 == Done
    ensures var s' := CompleteUpload(s, upload, listed, now).1;
      var o := ObjId(s.uploads[upload].bucket, s.uploads[upload].key);
      GetObject(s', o).Some? && s'.objects[o].size == |GetObject(s', o).value|
  {
    TrueTotal(s, upload, SortNumbers(listed));
    CompletionReads(s, upload, listed, now);
  }

  // ------------------------------------------------------------------- leftovers

  /**
   Completion drops the part blobs numbered 1 to the length of the list: the blob of a
   part stays behind exactly when the part was sent and its number is outside.
   */
  lemma OrphanedPartIff(s: Store, upload: string, listed: seq<nat>, now: int, n: nat)
    requires Tidy(s) && PartsMatch(s, false) && CompleteUpload(s, upload, listed, now).0 == Done
    ensures BlobId(s.uploads[upload].bucket, PartName(upload, n)) in CompleteUpload(s, upload, listed, now).1.blobs
            <==> PartId(upload, n) in s.parts && !(1 <= n <= |listed|)
  {
    var s' := CompleteUpload(s, upload, listed, now).1;
    var up := s.uploads[upload];
    var id := BlobId(up.bucket, PartName(upload, n));
    assert PartMatches(s, PartId(upload, n), false);
    PartNameIsPart(upload, n);
    if id in FirstParts(up.bucket, upload, |listed|) {
      var i: nat :| 1 <= i <= |listed| && id == BlobId(up.bucket, PartName(upload, i));
      PartNameInjective(upload, n, upload, i);
    }
  }

  /** Aborting leaves no part blob of the upload. */
  lemma AbortLeavesNoPart(s: Store, upload: string, n: nat)
    requires PartsMatch(s, false) && upload in s.uploads
    ensures BlobId(s.uploads[upload].bucket, PartName(upload, n)) !in AbortUpload(s, upload).1.blobs
  {
    var id := BlobId(s.uploads[upload].bucket, PartName(upload, n));
    assert PartMatches(s, PartId(upload, n), false);
    if id in s.blobs {
      assert PartId(upload, n) in PartsOf(s.parts, upload);
    }
  }

  /**
   In any proper run from a store without uploads, whatever sizes are declared, recorded parts are those
   with a blob.
   */
  lemma {:induction false} RunPartsMatch(states: seq<Store>, ops: seq<Op>, n: nat)
    requires ProperRun(states, ops) && n <= |ops|
    requires Tidy(states[0]) && states[0].uploads == map[]
    ensures PartsMatch(states[n], false)
  {
    if n > 0 {
      RunPartsMatch(states, ops, n - 1);
      RunTidy(states, ops, n - 1);
      StepPartsMatch(states[n - 1], ops[n - 1], false);
    }
  }

  // ----------------------------------------------------------------------- quota

  /** Each limit that is set holds. */
  predicate LimitsHold(b: BucketRecord) {
    b.quota.None? ||
    var q := b.quota.value;
    && (q.maxSizeBytes > 0 ==> b.totalBytes <= q.maxSizeBytes)
    && (q.maxObjects > 0 ==> b.objectCount <= q.maxObjects)
  }

  /** So many more bytes fit into the bucket. */
  predicate BytesFit(b: BucketRecord, bytes: int) {
    b.quota.Some? && b.quota.value.maxSizeBytes > 0 ==> b.totalBytes + bytes <= b.quota.value.maxSizeBytes
  }

  /** One more object fits into the bucket. */
  predicate ObjectFits(b: BucketRecord) {
    b.quota.Some? && b.quota.value.maxObjects > 0 ==> b.objectCount + 1 <= b.quota.value.maxObjects
  }

  /** The bytes that a put adds to its bucket: on a bucket without versioning it replaces what the index lists. */
  function AddedBytes(s: Store, o: ObjId, body: Blob): int
    requires o.bucket in s.buckets
  {
    |body| - if s.buckets[o.bucket].versioning != Enabled && o in s.objects then s.objects[o].size else 0
  }

  /** A put over an entry of a bucket without versioning adds no object. */
  function AddedObjects(s: Store, o: ObjId): int
    requires o.bucket in s.buckets
  {
    if s.buckets[o.bucket].versioning != Enabled && o in s.objects then 0 else 1
  }

  /**
   What the quota test does not see: the true bytes of a put, everything about a copy,
   and the recorded size that a deletion takes off, which a misdeclared part makes negative.
   */
  predicate Admissible(s: Store, op: Op, bucket: string)
    requires bucket in s.buckets
  {
    var b := s.buckets[bucket];
    match op
    case Put(o, body, declared, _, _, _) =>
      o.bucket == bucket && WithinQuota(b, declared) ==> BytesFit(b, AddedBytes(s, o, body))
    case Delete(o, _) =>
      o.bucket == bucket && b.versioning != Enabled && o in s.objects ==> BytesFit(b, 0 - s.objects[o].size)
    case Copy(src, o, now) =>
      o.bucket == bucket && CopyObject(s, src, o, now).0 == Done ==>
        BytesFit(b, |s.blobs[BlobOf(src, s.objects[src])]|) && ObjectFits(b)
    case _ => true
  }

  lemma CompleteQuota(s: Store, upload: string, listed: seq<nat>, now: int, bucket: string)
    requires bucket in s.buckets && LimitsHold(s.buckets[bucket])
    ensures var s' := CompleteUpload(s, upload, listed, now).1;
      bucket in s'.buckets && LimitsHold(s'.buckets[bucket]) && s'.buckets[bucket].quota == s.buckets[bucket].quota
  {
    if CompleteUpload(s, upload, listed, now).0 == Done {
      CompletionRecords(s, upload, listed, now);
      SortedTotal(s.parts, upload, listed);
    }
  }

  /** Limits on counters that move by the given amounts. */
  lemma MovedLimitsIff(b: BucketRecord, count: int, bytes: int)
    requires LimitsHold(b) && (count == 1 ==> ObjectFits(b)) && count <= 1
    ensures LimitsHold(b.(objectCount := b.objectCount + count, totalBytes := b.totalBytes + bytes)) <==>
            BytesFit(b, bytes)
  {
  }

  lemma PutLimitsIff(s: Store, op: Op, bucket: string)
    requires op.Put? && bucket in s.buckets && LimitsHold(s.buckets[bucket])
    ensures var s' := Step(s, op).1;
      && bucket in s'.buckets && s'.buckets[bucket].quota == s.buckets[bucket].quota
      && (LimitsHold(s'.buckets[bucket]) <==> Admissible(s, op, bucket))
  {
    var b := s.buckets[bucket];
    if op.o.bucket == bucket && WithinQuota(b, op.declared) {
      AcceptedPutCounts(s, op);
      MovedLimitsIff(b, AddedObjects(s, op.o), AddedBytes(s, op.o, op.body));
    }
  }

  lemma AcceptedPutCounts(s: Store, op: Op)
    requires op.Put? && op.o.bucket in s.buckets && WithinQuota(s.buckets[op.o.bucket], op.declared)
    ensures Step(s, op).1.buckets ==
            AddStats(s.buckets, op.o.bucket, AddedObjects(s, op.o), AddedBytes(s, op.o, op.body))
  {
  }

  lemma CopyLimitsIff(s: Store, op: Op, bucket: string)
    requires op.Copy? && bucket in s.buckets && LimitsHold(s.buckets[bucket])
    ensures var s' := Step(s, op).1;
      && bucket in s'.buckets && s'.buckets[bucket].quota == s.buckets[bucket].quota
      && (LimitsHold(s'.buckets[bucket]) <==> Admissible(s, op, bucket))
  {
  }

  lemma DeleteLimitsIff(s: Store, op: Op, bucket: string)
    requires op.Delete? && bucket in s.buckets && LimitsHold(s.buckets[bucket])
    ensures var s' := Step(s, op).1;
      && bucket in s'.buckets && s'.buckets[bucket].quota == s.buckets[bucket].quota
      && (LimitsHold(s'.buckets[bucket]) <==> Admissible(s, op, bucket))
  {
    var b := s.buckets[bucket];
    if op.o.bucket == bucket && b.versioning != Enabled && op.o in s.objects {
      MovedLimitsIff(b, -1, 0 - s.objects[op.o].size);
      assert Step(s, op).1.buckets == AddStats(s.buckets, bucket, -1, 0 - s.objects[op.o].size);
    }
  }

  lemma RemovalLimits(s: Store, op: Op, bucket: string)
    requires op.RemoveVersion? && bucket in s.buckets && LimitsHold(s.buckets[bucket])
    ensures var s' := Step(s, op).1;
      bucket in s'.buckets && LimitsHold(s'.buckets[bucket]) && s'.buckets[bucket].quota == s.buckets[bucket].quota
  {
  }

  /** Every operation keeps the limits exactly when it is admissible, whatever size it declares. */
  lemma StepLimitsIff(s: Store, op: Op, bucket: string)
    requires bucket in s.buckets && LimitsHold(s.buckets[bucket])
    ensures var s' := Step(s, op).1;
      && bucket in s'.buckets && s'.buckets[bucket].quota == s.buckets[bucket].quota
      && (LimitsHold(s'.buckets[bucket]) <==> Admissible(s, op, bucket))
  {
    match op
    case Put(_, _, _, _, _, _) => PutLimitsIff(s, op, bucket);
    case Delete(_, _) => DeleteLimitsIff(s, op, bucket);
    case RemoveVersion(_) => RemovalLimits(s, op, bucket);
    case Copy(_, _, _) => CopyLimitsIff(s, op, bucket);
    case Complete(upload, listed, now) => CompleteQuota(s, upload, listed, now, bucket);
    case _ =>
  }

  /** At which moments the limits hold. */
  ghost function Limits(states: seq<Store>, bucket: string): (holds: seq<bool>)
    ensures |holds| == |states|
    ensures forall k :: 0 <= k < |states| ==>
              holds[k] == (bucket in states[k].buckets && LimitsHold(states[k].buckets[bucket]))
  {
    seq(|states|, k requires 0 <= k < |states| =>
      bucket in states[k].buckets && LimitsHold(states[k].buckets[bucket]))
  }

  /** Which operations are admissible. */
  ghost function Admitted(states: seq<Store>, ops: seq<Op>, bucket: string): (good: seq<bool>)
    requires |states| == |ops| + 1
    ensures |good| == |ops|
    ensures forall k :: 0 <= k < |ops| ==>
              good[k] == (bucket in states[k].buckets && Admissible(states[k], ops[k], bucket))
  {
    seq(|ops|, k requires 0 <= k < |ops| => bucket in states[k].buckets && Admissible(states[k], ops[k], bucket))
  }

  lemma NextLimitsIff(states: seq<Store>, ops: seq<Op>, bucket: string, k: nat)
    requires Run(states, ops) && k < |ops| && Limits(states, bucket)[k]
    ensures Limits(states, bucket)[k + 1] <==> Admitted(states, ops, bucket)[k]
  {
    StepLimitsIff(states[k], ops[k], bucket);
  }

  /**
   The exact reach of quotas: in any run from limits that hold, they hold at every moment
   exactly when every operation is admissible.
   */
  lemma RunLimitsIff(states: seq<Store>, ops: seq<Op>, bucket: string)
    requires Run(states, ops) && Limits(states, bucket)[0]
    ensures var holds, good := Limits(states, bucket), Admitted(states, ops, bucket);
      (forall k :: 0 <= k < |holds| ==> holds[k]) <==> (forall k :: 0 <= k < |good| ==> good[k])
  {
    var holds, good := Limits(states, bucket), Admitted(states, ops, bucket);
    forall k | 0 <= k < |ops| && holds[k] ensures holds[k + 1] <==> good[k] {
      NextLimitsIff(states, ops, bucket, k);
    }
    HoldsThroughoutIff(holds, good);
  }

  // ------------------------------------------------------ honest declarations

  /** Puts declare their size, parts no negative one, and nothing is copied into the bucket. */
  predicate Declared(op: Op, bucket: string) {
    match op
    case Put(o, body, declared, _, _, _) => o.bucket == bucket ==> declared == |body|
    case Copy(_, o, _) => o.bucket != bucket
    case SendPart(_, _, size) => size >= 0
    case _ => true
  }

  /** No recorded size is negative. */
  ghost predicate NoDebts(s: Store) {
    (forall o :: o in s.objects ==> s.objects[o].size >= 0) && (forall p :: p in s.parts ==> s.parts[p] >= 0)
  }

  lemma {:induction false} TotalOwesNothing(parts: map<PartId, int>, upload: string, ns: seq<nat>)
    requires forall p :: p in parts ==> parts[p] >= 0
    ensures TotalSize(parts, upload, ns) >= 0
  {
    if |ns| > 0 {
      TotalOwesNothing(parts, upload, ns[..|ns| - 1]);
    }
  }

  lemma CompleteNoDebts(s: Store, op: Op)
    requires op.Complete? && NoDebts(s)
    ensures NoDebts(Step(s, op).1)
  {
    TotalOwesNothing(s.parts, op.upload, SortNumbers(op.listed));
  }

  lemma PutNoDebts(s: Store, op: Op)
    requires op.Put? && NoDebts(s)
    ensures NoDebts(Step(s, op).1)
  {
  }

  lemma StepNoDebts(s: Store, op: Op, bucket: string)
    requires NoDebts(s) && Declared(op, bucket)
    ensures NoDebts(Step(s, op).1)
  {
    match op
    case Put(_, _, _, _, _, _) => PutNoDebts(s, op);
    case Complete(_, _, _) => CompleteNoDebts(s, op);
    case _ =>
  }

  lemma DeclaredIsAdmissible(s: Store, op: Op, bucket: string)
    requires bucket in s.buckets && LimitsHold(s.buckets[bucket]) && NoDebts(s) && Declared(op, bucket)
    ensures Admissible(s, op, bucket)
  {
  }

  /** Quota safety: limits that hold at the start hold throughout. */
  lemma {:induction false} QuotaHolds(states: seq<Store>, ops: seq<Op>, bucket: string, i: nat)
    requires Run(states, ops) && i < |states| && NoDebts(states[0])
    requires bucket in states[0].buckets && LimitsHold(states[0].buckets[bucket])
    requires forall k :: 0 <= k < |ops| ==> Declared(ops[k], bucket)
    ensures bucket in states[i].buckets && LimitsHold(states[i].buckets[bucket]) && NoDebts(states[i])
    ensures states[i].buckets[bucket].quota == states[0].buckets[bucket].quota
  {
    if i > 0 {
      QuotaHolds(states, ops, bucket, i - 1);
      DeclaredIsAdmissible(states[i - 1], ops[i - 1], bucket);
      StepLimitsIff(states[i - 1], ops[i - 1], bucket);
      StepNoDebts(states[i - 1], ops[i - 1], bucket);
    }
  }

  /**
   Whatever size it declares, a put that passes the test breaks no object limit, and breaks
   the byte limit exactly when the bytes that it really adds are too many.
   */
  lemma UndeclaredPutBreaksLimitIff(s: Store, o: ObjId, body: Blob, declared: int, version: string, now: int,
                                    tags: map<string, string>)
    requires o.bucket in s.buckets && LimitsHold(s.buckets[o.bucket])
    requires PutObject(s, o, body, declared, version, now, tags).0 == Done
    ensures var b, s' := s.buckets[o.bucket], PutObject(s, o, body, declared, version, now, tags).1;
      && o.bucket in s'.buckets
      && (!LimitsHold(s'.buckets[o.bucket]) <==>
          b.quota.Some? && b.quota.value.maxSizeBytes > 0
          && b.totalBytes + AddedBytes(s, o, body) > b.quota.value.maxSizeBytes)
  {
  }
}
