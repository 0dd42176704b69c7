/**
 What clients see of the storage engine: the objects of a store, as reads find them, are a
 plain map on which every operation acts by its name, as long as it does not touch the blob
 of another object; and what index entries and upload records say about their operations.
 */
module ObjectReads {
  import opened Basics
  import opened Storage
  import opened Accounting
  import opened VersionSafety
  import opened Multipart

  // ------------------------------------------------------------ single operations

  /** Entries that name other blobs read as before. */
  ghost predicate OthersRead(s: Store, s': Store, o: ObjId, id: BlobId) {
    forall p :: p != o && (p in s.objects ==> BlobOf(p, s.objects[p]) != id) ==> GetObject(s', p) == GetObject(s, p)
  }

  /**
   A put is accepted exactly when the bucket exists and the declared size and one more
   object fit, and else says which is missing; then, under any versioning, the object reads
   as the body, and every other object whose entry does not name the blob that was written
   reads as before.
   */
  lemma PutReads(s: Store, o: ObjId, body: Blob, declared: int, version: string, now: int, tags: map<string, string>)
    requires IsId(version)
    ensures var (r, s') := Step(s, Put(o, body, declared, version, now, tags));
      && (r == Done <==>
          o.bucket in s.buckets && BytesFit(s.buckets[o.bucket], declared) && ObjectFits(s.buckets[o.bucket]))
      && (r != Done ==> s' == s && r == if o.bucket !in s.buckets then NoBucket else QuotaExceeded)
      && (r == Done ==>
            && GetObject(s', o) == Some(body)
            && OthersRead(s, s', o, BlobId(o.bucket,
                 if s.buckets[o.bucket].versioning == Enabled then VersionedName(o.key, version) else o.key)))
  {
  }

  /**
   A copy is made exactly when its source reads as something and the target's bucket exists;
   then, under any versioning of both buckets, the target reads as the source did.
   */
  lemma CopyReads(s: Store, src: ObjId, dst: ObjId, now: int)
    ensures var (r, s') := Step(s, Copy(src, dst, now));
      && (r == Done <==> GetObject(s, src).Some? && dst.bucket in s.buckets)
      && (r != Done ==> s' == s && r == if src !in s.objects then NoObject
                                        else if dst.bucket !in s.buckets then NoBucket else Unreadable)
      && (r == Done ==> GetObject(s', dst) == GetObject(s, src) && OthersRead(s, s', dst, BlobId(dst.bucket, dst.key)))
  {
  }

  /** A deletion leaves nothing to read, and every other object whose entry names another blob as it was. */
  lemma DeleteReads(s: Store, o: ObjId, marker: string)
    requires o.bucket in s.buckets
    ensures var s' := Step(s, Delete(o, marker)).1;
      && GetObject(s', o) == None
      && (s.buckets[o.bucket].versioning == Enabled || o !in s.objects ==>
            forall p :: p != o ==> GetObject(s', p) == GetObject(s, p))
      && (o in s.objects ==> OthersRead(s, s', o, BlobOf(o, s.objects[o])))
  {
  }

  /**
   A completion is accepted exactly when upload and bucket exist, the quota allows it and no
   listed part is missing, and else says which fails first; then the object reads as the
   parts in ascending order.
   */
  lemma CompleteReads(s: Store, upload: string, listed: seq<nat>, now: int)
    requires Tidy(s)
    ensures var (r, s') := Step(s, Complete(upload, listed, now));
      && (r == Done <==>
          && upload in s.uploads && s.uploads[upload].bucket in s.buckets
          && BytesFit(s.buckets[s.uploads[upload].bucket], TotalSize(s.parts, upload, listed))
          && ObjectFits(s.buckets[s.uploads[upload].bucket])
          && Assemble(s.blobs, s.uploads[upload].bucket, upload, SortNumbers(listed)).Some?)
      && (r != Done ==>
            && s' == s
            && r == if upload !in s.uploads then NoUpload
                    else if s.uploads[upload].bucket !in s.buckets then NoBucket
                    else if BytesFit(s.buckets[s.uploads[upload].bucket], TotalSize(s.parts, upload, listed))
                            && ObjectFits(s.buckets[s.uploads[upload].bucket]) then Unreadable
                    else QuotaExceeded)
      && (r == Done ==>
            var o := ObjId(s.uploads[upload].bucket, s.uploads[upload].key);
            && GetObject(s', o) == Assemble(s.blobs, o.bucket, upload, SortNumbers(listed))
            && OthersRead(s, s', o, BlobId(o.bucket, o.key)))
  {
    var (r, s') := Step(s, Complete(upload, listed, now));
    if r == Done {
      var o := ObjId(s.uploads[upload].bucket, s.uploads[upload].key);
      CompletionWrites(s, upload, listed, now);
      forall p | p != o && p in s.objects && BlobOf(p, s.objects[p]) != BlobId(o.bucket, o.key)
        ensures GetObject(s', p) == GetObject(s, p)
      {
        VersionedNameIsNoPart(p.key, s.objects[p].versionID);
        CompleteLeaves(s, upload, listed, now, BlobOf(p, s.objects[p]));
        CompletionIndex(s, upload, listed, now, p);
      }
    }
  }

  lemma CompletionIndex(s: Store, upload: string, listed: seq<nat>, now: int, p: ObjId)
    requires upload in s.uploads && p != ObjId(s.uploads[upload].bucket, s.uploads[upload].key)
    ensures Get(CompleteUpload(s, upload, listed, now).1.objects, p) == Get(s.objects, p)
  {
  }

  // ----------------------------------------------------------------- a plain map

  /** The objects of the store as reads find them. */
  ghost function View(s: Store): (m: map<ObjId, Blob>)
    ensures forall o :: Get(m, o) == GetObject(s, o)
  {
    map o | o in s.objects && GetObject(s, o).Some? :: GetObject(s, o).value
  }

  /** What each operation means for a map; `data` is the assembled parts of a completion. */
  function MapStep(m: map<ObjId, Blob>, op: Op, target: ObjId, data: Option<Blob>): map<ObjId, Blob> {
    match op
    case Put(o, body, _, _, _, _) => m[o := body]
    case Delete(o, _) => m - {o}
    case Copy(src, o, _) => if src in m then m[o := m[src]] else m
    case Complete(_, _, _) => if data.Some? then m[target := data.value] else m
    case _ => m
  }

  /** The object that a completion writes, and the parts that it assembles. */
  function TargetOf(s: Store, op: Op): ObjId {
    if op.Complete? && op.upload in s.uploads then ObjId(s.uploads[op.upload].bucket, s.uploads[op.upload].key)
    else ObjId("", "")
  }

  function DataOf(s: Store, op: Op): Option<Blob> {
    if op.Complete? then Assemble(s.blobs, TargetOf(s, op).bucket, op.upload, SortNumbers(op.listed)) else None
  }

  /** Only the operation's own entry names the blob that it writes or drops. */
  ghost predicate OwnBlob(s: Store, o: ObjId, id: BlobId) {
    forall p :: p in s.objects && p != o ==> BlobOf(p, s.objects[p]) != id
  }

  ghost predicate Apart(s: Store, op: Op) {
    match op
    case Put(o, _, _, version, _, _) =>
      OwnBlob(s, o, BlobId(o.bucket, if o.bucket in s.buckets && s.buckets[o.bucket].versioning == Enabled
                                     then VersionedName(o.key, version) else o.key))
    case Delete(o, _) => o in s.objects ==> OwnBlob(s, o, BlobOf(o, s.objects[o]))
    case RemoveVersion(id) => forall p :: p in s.objects ==> BlobOf(p, s.objects[p]) != NameOf(id)
    case Copy(_, o, _) => OwnBlob(s, o, BlobId(o.bucket, o.key))
    case Complete(upload, _, _) =>
      upload in s.uploads ==> OwnBlob(s, TargetOf(s, op), BlobId(TargetOf(s, op).bucket, TargetOf(s, op).key))
    case _ => true
  }

  lemma ViewIs(s: Store, m: map<ObjId, Blob>)
    requires forall o :: GetObject(s, o) == Get(m, o)
    ensures View(s) == m
  {
    SameLookups(View(s), m);
  }

  lemma PutRefines(s: Store, op: Op)
    requires op.Put? && Proper(s, op) && Apart(s, op) && Step(s, op).0 == Done
    ensures View(Step(s, op).1) == View(s)[op.o := op.body]
  {
    PutReads(s, op.o, op.body, op.declared, op.version, op.now, op.tags);
    ViewIs(Step(s, op).1, View(s)[op.o := op.body]);
  }

  lemma DeleteRefines(s: Store, op: Op)
    requires op.Delete? && Apart(s, op) && op.o.bucket in s.buckets
    ensures View(Step(s, op).1) == View(s) - {op.o}
  {
    DeleteReads(s, op.o, op.version);
    ViewIs(Step(s, op).1, View(s) - {op.o});
  }

  lemma CopyRefines(s: Store, op: Op)
    requires op.Copy? && Apart(s, op) && Step(s, op).0 == Done
    ensures op.src in View(s) && View(Step(s, op).1) == View(s)[op.o := View(s)[op.src]]
  {
    CopyReads(s, op.src, op.o, op.now);
    assert Get(View(s), op.src) == GetObject(s, op.src);
    ViewIs(Step(s, op).1, View(s)[op.o := View(s)[op.src]]);
  }

  lemma CompleteRefines(s: Store, op: Op)
    requires op.Complete? && Tidy(s) && Apart(s, op) && Step(s, op).0 == Done
    ensures DataOf(s, op).Some? && View(Step(s, op).1) == View(s)[TargetOf(s, op) := DataOf(s, op).value]
  {
    CompleteReads(s, op.upload, op.listed, op.now);
    ViewIs(Step(s, op).1, View(s)[TargetOf(s, op) := DataOf(s, op).value]);
  }

  lemma RemoveRefines(s: Store, op: Op)
    requires op.RemoveVersion? && Apart(s, op)
    ensures View(Step(s, op).1) == View(s)
  {
    ViewIs(Step(s, op).1, View(s));
  }

  /** Part blobs are no object's. */
  lemma PartsRefine(s: Store, op: Op)
    requires (op.SendPart? || op.Abort?) && Tidy(s)
    ensures View(Step(s, op).1) == View(s)
  {
    var s' := Step(s, op).1;
    forall o ensures GetObject(s', o) == Get(View(s), o) {
      if o in s.objects {
        VersionedNameIsNoPart(o.key, s.objects[o].versionID);
      }
      if op.SendPart? {
        PartNameIsPart(op.part.upload, op.part.number);
      }
    }
    ViewIs(s', View(s));
  }

  /**
   The store refines a map of objects: an operation that is done acts on the map by its name
   alone, and one that fails does nothing, as long as no other entry names the blob that it
   writes or drops.
   */
  lemma StepRefinesMap(s: Store, op: Op)
    requires Tidy(s) && Proper(s, op) && Apart(s, op) && (op.Delete? ==> op.o.bucket in s.buckets)
    ensures View(Step(s, op).1) ==
            if Step(s, op).0 == Done then MapStep(View(s), op, TargetOf(s, op), DataOf(s, op)) else View(s)
  {
    match op
    case Put(o, body, declared, version, now, tags) =>
      if Step(s, op).0 == Done {
        PutRefines(s, op);
      }
    case Delete(_, _) => DeleteRefines(s, op);
    case Copy(_, _, _) =>
      if Step(s, op).0 == Done {
        CopyRefines(s, op);
      }
    case Complete(_, _, _) =>
      if Step(s, op).0 == Done {
        CompleteRefines(s, op);
      } else {
        CompleteReads(s, op.upload, op.listed, op.now);
      }
    case RemoveVersion(_) => RemoveRefines(s, op);
    case SendPart(_, _, _) => PartsRefine(s, op);
    case Abort(_) => PartsRefine(s, op);
    case _ => ViewIs(Step(s, op).1, View(s));
  }

  // ------------------------------------------------------- without versioning

  /** No bucket has ever kept versions, and entries are of existing buckets. */
  ghost predicate Unversioned(s: Store) {
    && (forall b :: b in s.buckets ==> s.buckets[b].versioning == Disabled) && s.versions == map[]
    && (forall o :: o in s.objects ==> s.objects[o].versionID == "" && o.bucket in s.buckets)
  }

  lemma UnversionedApart(s: Store, op: Op)
    requires Unversioned(s) && Tidy(s) && Proper(s, op) && (op.RemoveVersion? ==> op.id in s.versions)
    ensures Apart(s, op)
  {
  }

  lemma StepUnversioned(s: Store, op: Op)
    requires Unversioned(s) && (op.Switch? ==> op.versioning == Disabled)
    ensures Unversioned(Step(s, op).1)
  {
    if op.Complete? {
      CompleteUnversioned(s, op);
    }
  }

  lemma CompleteUnversioned(s: Store, op: Op)
    requires op.Complete? && Unversioned(s)
    ensures Unversioned(Step(s, op).1)
  {
  }

  lemma {:induction false} RunUnversioned(states: seq<Store>, ops: seq<Op>, i: nat)
    requires Run(states, ops) && i < |states| && Unversioned(states[0])
    requires forall k :: 0 <= k < |ops| && ops[k].Switch? ==> ops[k].versioning == Disabled
    ensures Unversioned(states[i])
  {
    if i > 0 {
      RunUnversioned(states, ops, i - 1);
      StepUnversioned(states[i - 1], ops[i - 1]);
    }
  }

  /** In every proper run without versioning, each operation acts on the map of objects by its name. */
  lemma UnversionedIsMap(states: seq<Store>, ops: seq<Op>, i: nat)
    requires ProperRun(states, ops) && i < |ops| && Tidy(states[0]) && Unversioned(states[0])
    requires forall k :: 0 <= k < |ops| && ops[k].Switch? ==> ops[k].versioning == Disabled
    ensures View(states[i + 1]) ==
            if Step(states[i], ops[i]).0 == Done
            then MapStep(View(states[i]), ops[i], TargetOf(states[i], ops[i]), DataOf(states[i], ops[i]))
            else View(states[i])
  {
    var s, op := states[i], ops[i];
    RunUnversioned(states, ops, i);
    RunTidy(states, ops, i);
    if op.RemoveVersion? || (op.Delete? && op.o.bucket !in s.buckets) {
      NothingThere(s, op);
    } else {
      UnversionedApart(s, op);
      StepRefinesMap(s, op);
    }
  }

  lemma NothingThere(s: Store, op: Op)
    requires Unversioned(s) && (op.RemoveVersion? || (op.Delete? && op.o.bucket !in s.buckets))
    ensures Step(s, op) == (Done, s) && MapStep(View(s), op, TargetOf(s, op), DataOf(s, op)) == View(s)
  {
    if op.Delete? {
      assert op.o !in View(s);
    }
  }

  // -------------------------------------------------------- entries and uploads

  /** The entry that the operation gives to the object, if it is one that does. */
  ghost function EntryFrom(s: Store, op: Op, o: ObjId): Option<ObjectRecord> {
    match op
    case Put(p, body, _, version, now, tags) =>
      if p == o && Step(s, op).0 == Done
      then Some(ObjectRecord(if s.buckets[o.bucket].versioning == Enabled then version else "", |body|, now, tags))
      else None
    case Copy(src, p, now) =>
      if p == o && Step(s, op).0 == Done then Some(ObjectRecord("", |GetObject(s, src).value|, now, map[])) else None
    case Complete(upload, listed, now) =>
      if Step(s, op).0 == Done && TargetOf(s, op) == o
      then Some(ObjectRecord("", TotalSize(s.parts, upload, listed), now, map[])) else None
    case _ => None
  }

  /** The entry that the last of the first n operations on the object gave to it, unless that deleted it. */
  ghost function LastEntry(states: seq<Store>, ops: seq<Op>, n: nat, o: ObjId): Option<ObjectRecord>
    requires n <= |ops| && |states| == |ops| + 1
  {
    if n == 0 then None
    else
      var given := EntryFrom(states[n - 1], ops[n - 1], o);
      if given.Some? then given
      else if ops[n - 1].Delete? && ops[n - 1].o == o && o.bucket in states[n - 1].buckets then None
      else LastEntry(states, ops, n - 1, o)
  }

  lemma StepEntry(s: Store, op: Op, o: ObjId)
    ensures var given := EntryFrom(s, op, o);
      Get(Step(s, op).1.objects, o) ==
      if given.Some? then given
      else if op.Delete? && op.o == o && o.bucket in s.buckets then None
      else Get(s.objects, o)
  {
    match op
    case Put(_, _, _, _, _, _) => PutEntry(s, op, o);
    case Complete(_, _, _) => CompleteEntry(s, op, o);
    case _ =>
  }

  lemma PutEntry(s: Store, op: Op, o: ObjId)
    requires op.Put?
    ensures Get(Step(s, op).1.objects, o) ==
            if EntryFrom(s, op, o).Some? then EntryFrom(s, op, o) else Get(s.objects, o)
  {
  }

  lemma CompleteEntry(s: Store, op: Op, o: ObjId)
    requires op.Complete?
    ensures Get(Step(s, op).1.objects, o) ==
            if EntryFrom(s, op, o).Some? then EntryFrom(s, op, o) else Get(s.objects, o)
  {
    var (r, s') := Step(s, op);
    if r == Done {
      CompletionEntry(s, op.upload, op.listed, op.now);
      SortedTotal(s.parts, op.upload, op.listed);
    } else {
      assert s' == s;
    }
  }

  lemma CompletionEntry(s: Store, upload: string, listed: seq<nat>, now: int)
    requires CompleteUpload(s, upload, listed, now).0 == Done
    ensures var up, total := s.uploads[upload], TotalSize(s.parts, upload, SortNumbers(listed));
      CompleteUpload(s, upload, listed, now).1.objects ==
      s.objects[ObjId(up.bucket, up.key) := ObjectRecord("", total, now, map[])]
  {
  }

  /**
   In any run from an empty index, an index entry, with its time, tags, size and version, is
   the one that the last write of the object gave to it.
   */
  lemma {:induction false} EntriesAreLastWritten(states: seq<Store>, ops: seq<Op>, n: nat, o: ObjId)
    requires Run(states, ops) && n <= |ops| && states[0].objects == map[]
    ensures Get(states[n].objects, o) == LastEntry(states, ops, n, o)
  {
    if n > 0 {
      EntriesAreLastWritten(states, ops, n - 1, o);
      StepEntry(states[n - 1], ops[n - 1], o);
    }
  }

  /** The operation ends the upload. */
  predicate Ends(s: Store, op: Op, upload: string) {
    (op.Abort? && op.upload == upload) || (op.Complete? && op.upload == upload && Step(s, op).0 == Done)
  }

  /** The upload as it was last started in the first n operations, unless it was ended since. */
  ghost function LastStarted(states: seq<Store>, ops: seq<Op>, n: nat, upload: string): Option<Upload>
    requires n <= |ops| && |states| == |ops| + 1
  {
    if n == 0 then None
    else
      var s, op := states[n - 1], ops[n - 1];
      if op.StartUpload? && op.upload == upload && op.o.bucket in s.buckets
      then Some(Upload(op.o.bucket, op.o.key, op.now))
      else if Ends(s, op, upload) then None
      else LastStarted(states, ops, n - 1, upload)
  }

  lemma StepUpload(s: Store, op: Op, upload: string)
    ensures Get(Step(s, op).1.uploads, upload) ==
            if op.StartUpload? && op.upload == upload && op.o.bucket in s.buckets
            then Some(Upload(op.o.bucket, op.o.key, op.now))
            else if Ends(s, op, upload) then None else Get(s.uploads, upload)
  {
  }

  /**
   In any run from a store without uploads, exactly the uploads that were started and not
   ended are open, each for the object and of the time with which it was started.
   */
  lemma {:induction false} UploadsAreLastStarted(states: seq<Store>, ops: seq<Op>, n: nat, upload: string)
    requires Run(states, ops) && n <= |ops| && states[0].uploads == map[]
    ensures Get(states[n].uploads, upload) == LastStarted(states, ops, n, upload)
  {
    if n > 0 {
      StepUpload(states[n - 1], ops[n - 1], upload);
      UploadsAreLastStarted(states, ops, n - 1, upload);
    }
  }

  // -------------------------------------------------------------------- versions

  /** What is recorded of a version: whether it is a marker, and its size. */
  function Kept(s: Store, v: VerId): Option<(bool, nat)> {
    if v in s.versions then Some((s.versions[v].isDeleteMarker, s.versions[v].size)) else None
  }

  /** What the operation makes of the version's record; None when it does not concern it. */
  function Given(s: Store, op: Op, v: VerId): Option<Option<(bool, nat)>> {
    var keeps := v.bucket in s.buckets && s.buckets[v.bucket].versioning == Enabled;
    match op
    case Put(o, body, _, version, _, _) =>
      if keeps && VerId(o.bucket, o.key, version) == v && Step(s, op).0 == Done then Some(Some((false, |body|)))
      else None
    case Delete(o, version) => if keeps && VerId(o.bucket, o.key, version) == v then Some(Some((true, 0))) else None
    case RemoveVersion(id) => if id == v then Some(None) else None
    case _ => None
  }

  /** What the last of the first n operations that concerned the version made of its record. */
  ghost function Recorded(states: seq<Store>, ops: seq<Op>, n: nat, v: VerId): Option<(bool, nat)>
    requires n <= |ops| && |states| == |ops| + 1
  {
    if n == 0 then None
    else
      match Given(states[n - 1], ops[n - 1], v)
      case Some(kept) => kept
      case None => Recorded(states, ops, n - 1, v)
  }

  lemma PutKept(s: Store, op: Op, v: VerId)
    requires op.Put?
    ensures Kept(Step(s, op).1, v) == match Given(s, op, v) case Some(kept) => kept case None => Kept(s, v)
  {
  }

  lemma DeleteKept(s: Store, op: Op, v: VerId)
    requires op.Delete?
    ensures Kept(Step(s, op).1, v) == match Given(s, op, v) case Some(kept) => kept case None => Kept(s, v)
  {
  }

  lemma StepKept(s: Store, op: Op, v: VerId)
    ensures Kept(Step(s, op).1, v) == match Given(s, op, v) case Some(kept) => kept case None => Kept(s, v)
  {
    match op
    case Put(_, _, _, _, _, _) => PutKept(s, op, v);
    case Delete(_, _) => DeleteKept(s, op, v);
    case _ =>
  }

  /**
   In any run from a store without versions, exactly the versions and markers are recorded
   that puts and deletions made under versioning and that were not removed, each as what it
   was made.
   */
  lemma {:induction false} VersionsAreMade(states: seq<Store>, ops: seq<Op>, n: nat, v: VerId)
    requires Run(states, ops) && n <= |ops| && states[0].versions == map[]
    ensures Kept(states[n], v) == Recorded(states, ops, n, v)
  {
    if n > 0 {
      VersionsAreMade(states, ops, n - 1, v);
      StepKept(states[n - 1], ops[n - 1], v);
    }
  }

  lemma CompleteSettings(s: Store, op: Op, bucket: string)
    requires op.Complete? && bucket in s.buckets
    ensures var s' := Step(s, op).1;
      && bucket in s'.buckets && s'.buckets[bucket].quota == s.buckets[bucket].quota
      && s'.buckets[bucket].versioning == s.buckets[bucket].versioning
  {
    if Step(s, op).0 == Done {
      CompletionRecords(s, op.upload, op.listed, op.now);
    }
  }

  lemma PutSettings(s: Store, op: Op, bucket: string)
    requires op.Put? && bucket in s.buckets
    ensures var s' := Step(s, op).1;
      && bucket in s'.buckets && s'.buckets[bucket].quota == s.buckets[bucket].quota
      && s'.buckets[bucket].versioning == s.buckets[bucket].versioning
  {
  }

  /** Buckets stay, with their limits, and only a switch of the bucket changes its versioning, to what it says. */
  lemma StepSettings(s: Store, op: Op, bucket: string)
    requires bucket in s.buckets
    ensures var s' := Step(s, op).1;
      && bucket in s'.buckets && s'.buckets[bucket].quota == s.buckets[bucket].quota
      && s'.buckets[bucket].versioning ==
         if op.Switch? && op.bucket == bucket then op.versioning else s.buckets[bucket].versioning
  {
    match op
    case Put(_, _, _, _, _, _) => PutSettings(s, op, bucket);
    case Complete(_, _, _) => CompleteSettings(s, op, bucket);
    case _ =>
  }
}
