/**
 Runs from a new bucket that show what the storage engine does not keep: each is a
 short proper run whose last operation breaks a property, in the way that the exact
 conditions say.
 */
module StorageWitnesses {
  import opened Basics
  import opened Strings
  import opened Storage
  import opened Accounting
  import opened AccountingLimits
  import opened VersionSafety
  import opened Multipart

  const BUCKET := "b"
  const OBJECT := ObjId(BUCKET, "k")
  const OTHER := ObjId(BUCKET, "x")
  const ID_A: string := seq(36, _ => 'a')
  const ID_B: string := seq(36, _ => 'b')
  const VERSION := VerId(BUCKET, "k", ID_A)

  lemma IdsDiffer()
    ensures IsId(ID_A) && IsId(ID_B) && ID_A != ID_B
  {
    assert ID_A[0] == 'a' && ID_B[0] == 'b';
  }

  /** A store with one new bucket. */
  function NewStore(quota: Option<Quota>): Store {
    Store(map[BUCKET := BucketRecord(Disabled, 0, 0, quota)], map[], map[], map[], map[], map[])
  }

  ghost predicate Reaches(s: Store, s': Store) {
    exists states, ops :: ProperRun(states, ops) && states[0] == s && states[|ops|] == s'
  }

  /** A store that a proper run reaches from a new bucket, with what all such stores have. */
  ghost predicate Reached(quota: Option<Quota>, s: Store) {
    Reaches(NewStore(quota), s) && Tidy(s) && PartsMatch(s, false) && BUCKET in s.buckets
  }

  lemma Begin(quota: Option<Quota>)
    ensures Reached(quota, NewStore(quota)) && Balanced(NewStore(quota), BUCKET)
  {
    var states, ops: seq<Op> := [NewStore(quota)], [];
    assert ProperRun(states, ops) && states[0] == NewStore(quota) && states[|ops|] == NewStore(quota);
    NewIsInOrder(NewStore(quota), BUCKET);
  }

  lemma ReachesNext(s0: Store, s: Store, op: Op)
    requires Reaches(s0, s) && Proper(s, op)
    ensures Reaches(s0, Step(s, op).1)
  {
    var states, ops :| ProperRun(states, ops) && states[0] == s0 && states[|ops|] == s;
    ExtendRun(states, ops, op);
    var states', ops' := states + [Step(s, op).1], ops + [op];
    assert ProperRun(states', ops') && states'[0] == s0 && states'[|ops'|] == Step(s, op).1;
  }

  /** One more operation. */
  lemma Next(quota: Option<Quota>, s: Store, op: Op) returns (s': Store)
    requires Reached(quota, s) && Proper(s, op)
    ensures s' == Step(s, op).1 && Reached(quota, s')
    ensures Balanced(s, BUCKET) ==> (Balanced(s', BUCKET) <==> Fits(s, op, BUCKET))
  {
    s' := Step(s, op).1;
    ReachesNext(NewStore(quota), s, op);
    StepTidy(s, op);
    StepPartsMatch(s, op, false);
    BucketStays(s, op);
    if Balanced(s, BUCKET) {
      StepBalancesIff(s, op, BUCKET);
    }
  }

  lemma BucketStays(s: Store, op: Op)
    requires BUCKET in s.buckets
    ensures BUCKET in Step(s, op).1.buckets
  {
  }

  /** An identifier is fresh when records do not use it and blobs, if any, have the names given here. */
  lemma StillFresh(s: Store, id: string)
    requires IsId(id) && id != ID_A
    requires s.uploads == map[] && s.parts == map[] && forall v :: v in s.versions ==> v == VERSION
    requires forall b :: b in s.blobs ==> b.name == VersionedName("k", ID_A)
    ensures FreshId(s, id)
  {
    IdsDiffer();
    VersionedNameIsNoPart("k", ID_A);
    forall b, key ensures BlobId(b, VersionedName(key, id)) !in s.blobs {
      if VersionedName(key, id) == VersionedName("k", ID_A) {
        VersionedNameInjective(key, id, "k", ID_A);
      }
    }
    forall b, n ensures BlobId(b, PartName(id, n)) !in s.blobs {
      PartNameIsPart(id, n);
    }
  }

  /** An identifier is fresh in a store without blobs when no record uses it. */
  lemma FreshWithoutBlobs(s: Store, id: string)
    requires IsId(id) && s.blobs == map[] && s.parts == map[] && s.versions == map[] && id !in s.uploads
    ensures FreshId(s, id)
  {
  }

  /** The names of plain objects used here are no versioned names and no part names. */
  lemma FreshBesidePlain(s: Store, id: string)
    requires IsId(id) && s.parts == map[] && s.versions == map[] && id !in s.uploads
    requires forall b :: b in s.blobs ==> |b.name| == 1
    ensures FreshId(s, id)
  {
  }

  // ---------------------------------------------------------------- the counters

  /** An object copied onto itself counts twice. */
  lemma CopyMiscounts()
    ensures exists s :: Reached(None, s) && !Balanced(s, BUCKET)
  {
    IdsDiffer();
    Begin(None);
    var s := NewStore(None);
    FreshWithoutBlobs(s, ID_A);
    s := Next(None, s, Put(OBJECT, [1], 1, ID_A, 0, map[]));
    s := Next(None, s, Copy(OBJECT, OBJECT, 0));
  }

  /** An upload onto the key of an object. */
  lemma UploadOverObject() returns (s: Store)
    ensures Reached(None, s) && Balanced(s, BUCKET) && s.buckets[BUCKET].quota == None
    ensures s.uploads == map[ID_A := Upload(BUCKET, "k", 0)] && s.blobs == map[BlobId(BUCKET, "k") := [1]]
  {
    IdsDiffer();
    Begin(None);
    s := NewStore(None);
    FreshWithoutBlobs(s, ID_A);
    s := Next(None, s, StartUpload(OBJECT, ID_A, 0));
    FreshWithoutBlobs(s, ID_B);
    s := Next(None, s, Put(OBJECT, [1], 1, ID_B, 0, map[]));
  }

  /** Completed, it counts twice. */
  lemma CompletionMiscounts()
    ensures exists s :: Reached(None, s) && !Balanced(s, BUCKET)
  {
    var s := UploadOverObject();
    s := Next(None, s, SendPart(PartId(ID_A, 1), [2], 1));
    OnePart(s, ID_A, 1, [2]);
    s := Next(None, s, Complete(ID_A, [1], 0));
  }

  /** An upload onto a key without an object, with a part of two bytes declared as none. */
  lemma MisdeclaredPart() returns (s: Store)
    ensures Reached(None, s) && Balanced(s, BUCKET) && s.buckets[BUCKET].quota == None
    ensures s.uploads == map[ID_A := Upload(BUCKET, "k", 0)] && s.parts == map[PartId(ID_A, 1) := 0]
    ensures s.blobs == map[BlobId(BUCKET, PartName(ID_A, 1)) := [1, 2]]
  {
    IdsDiffer();
    Begin(None);
    s := NewStore(None);
    FreshWithoutBlobs(s, ID_A);
    s := Next(None, s, StartUpload(OBJECT, ID_A, 0));
    s := Next(None, s, SendPart(PartId(ID_A, 1), [1, 2], 0));
  }

  /** Completed, it counts no bytes for the two that are held. */
  lemma MisdeclaredPartMiscounts()
    ensures exists s :: Reached(None, s) && !Balanced(s, BUCKET)
  {
    var s := MisdeclaredPart();
    OnePart(s, ID_A, 1, [1, 2]);
    OneTotal(s.parts, ID_A, 1);
    assert !TotalTold(s, ID_A, [1]);
    s := Next(None, s, Complete(ID_A, [1], 0));
  }

  /** A single listed part that was sent is what a completion assembles. */
  lemma OnePart(s: Store, upload: string, n: nat, body: Blob)
    requires upload in s.uploads && BlobId(s.uploads[upload].bucket, PartName(upload, n)) in s.blobs
    requires s.blobs[BlobId(s.uploads[upload].bucket, PartName(upload, n))] == body
    requires s.uploads[upload].bucket in s.buckets && s.buckets[s.uploads[upload].bucket].quota == None
    ensures SortNumbers([n]) == [n] && Assemble(s.blobs, s.uploads[upload].bucket, upload, [n]) == Some(body)
    ensures CompleteUpload(s, upload, [n], 0).0 == Done
  {
    assert [n][1..] == [] && [n][..0] == [];
    assert SortNumbers([n]) == InsertNumber([], n) == [n];
    assert Assemble(s.blobs, s.uploads[upload].bucket, upload, []) == Some([]);
    assert [] + body == body;
  }

  /** A bucket that keeps versions and holds one. */
  lemma EnabledWithVersion() returns (s: Store)
    ensures Reached(None, s) && Balanced(s, BUCKET) && s.buckets[BUCKET].versioning == Enabled
    ensures s.buckets[BUCKET].quota == None && Reads(s, VERSION, [1]) && s.uploads == map[] && s.parts == map[]
    ensures s.objects == map[OBJECT := ObjectRecord(ID_A, 1, 0, map[])]
    ensures s.versions == map[VERSION := VersionRecord(false, true, 1)]
    ensures s.blobs == map[NameOf(VERSION) := [1]]
  {
    IdsDiffer();
    Begin(None);
    s := NewStore(None);
    s := Next(None, s, Switch(BUCKET, Enabled));
    FreshWithoutBlobs(s, ID_A);
    s := Next(None, s, Put(OBJECT, [1], 1, ID_A, 0, map[]));
  }

  /** The same bucket once it has stopped keeping versions. */
  lemma SuspendedWithVersion() returns (s: Store)
    ensures Reached(None, s) && Balanced(s, BUCKET) && s.buckets[BUCKET].versioning == Suspended
    ensures s.buckets[BUCKET].quota == None && Reads(s, VERSION, [1]) && s.uploads == map[] && s.parts == map[]
    ensures s.objects == map[OBJECT := ObjectRecord(ID_A, 1, 0, map[])]
    ensures s.versions == map[VERSION := VersionRecord(false, true, 1)]
    ensures s.blobs == map[NameOf(VERSION) := [1]]
  {
    s := EnabledWithVersion();
    s := Next(None, s, Switch(BUCKET, Suspended));
  }

  /** After suspension a put over an index entry that names a version replaces no blob, but counts as if it did. */
  lemma SuspendedPutMiscounts()
    ensures exists s :: Reached(None, s) && !Balanced(s, BUCKET)
  {
    IdsDiffer();
    var s := SuspendedWithVersion();
    StillFresh(s, ID_B);
    assert |NameOf(VERSION).name| > 1;
    s := Next(None, s, Put(OBJECT, [2], 1, ID_B, 0, map[]));
  }

  /** A removed version's index entry stays and names a blob that is gone. */
  lemma DanglingEntry() returns (s: Store)
    ensures Reached(None, s) && Balanced(s, BUCKET) && s.buckets[BUCKET].versioning == Suspended
    ensures s.uploads == map[] && s.parts == map[] && s.versions == map[] && s.blobs == map[]
    ensures s.objects == map[OBJECT := ObjectRecord(ID_A, 1, 0, map[])]
  {
    s := SuspendedWithVersion();
    s := Next(None, s, RemoveVersion(VERSION));
  }

  /** Deleting it after suspension takes off what is gone already. */
  lemma RemovedVersionMiscounts()
    ensures exists s :: Reached(None, s) && !Balanced(s, BUCKET)
  {
    IdsDiffer();
    var s := DanglingEntry();
    FreshWithoutBlobs(s, ID_B);
    s := Next(None, s, Delete(OBJECT, ID_B));
  }

  // ------------------------------------------------------------------ the versions

  /** A plain object put before versioning. */
  lemma PlainThenEnabled() returns (s: Store)
    ensures Reached(None, s) && s.buckets[BUCKET].versioning == Enabled && s.buckets[BUCKET].quota == None
    ensures s.uploads == map[] && s.parts == map[] && s.versions == map[]
    ensures s.objects == map[OTHER := ObjectRecord("", 1, 0, map[])]
    ensures s.blobs == map[BlobId(BUCKET, "x") := [2]]
  {
    IdsDiffer();
    Begin(None);
    s := NewStore(None);
    FreshWithoutBlobs(s, ID_B);
    s := Next(None, s, Put(OTHER, [2], 1, ID_B, 0, map[]));
    s := Next(None, s, Switch(BUCKET, Enabled));
  }

  /** And a version put under versioning. */
  lemma PlainThenVersion() returns (s: Store)
    ensures Reached(None, s) && Stores(s, VERSION, [1])
    ensures OTHER in s.objects && s.objects[OTHER].versionID == ""
    ensures Get(s.blobs, BlobId(BUCKET, "x")) == Some([2])
  {
    IdsDiffer();
    s := PlainThenEnabled();
    FreshBesidePlain(s, ID_A);
    assert |NameOf(VERSION).name| > 1;
    PutStores(s, Put(OBJECT, [1], 1, ID_A, 0, map[]));
    s := Next(None, s, Put(OBJECT, [1], 1, ID_A, 0, map[]));
  }

  /** A copy to a version's blob name replaces the version, while the bucket keeps versions. */
  lemma CopyOverwritesVersion()
    ensures exists s, s' ::
      && Reached(None, s) && Stores(s, VERSION, [1])
      && Reached(None, s') && s' == Step(s, Copy(OTHER, ObjId(BUCKET, VersionedName("k", ID_A)), 0)).1
      && !Reads(s', VERSION, [1])
  {
    var s := PlainThenVersion();
    var target := ObjId(BUCKET, VersionedName("k", ID_A));
    VersionedNameIsNoPart("k", ID_A);
    CopyHitsVersionIff(s, OTHER, target, 0, VERSION, [1]);
    var s' := Next(None, s, Copy(OTHER, target, 0));
    assert !Reads(s', VERSION, [1]);
  }

  /** An upload onto the blob name of a version that is there. */
  lemma VersionThenUpload() returns (s: Store)
    ensures Reached(None, s) && Stores(s, VERSION, [1]) && s.buckets[BUCKET].quota == None
    ensures s.uploads == map[ID_B := Upload(BUCKET, VersionedName("k", ID_A), 0)]
  {
    IdsDiffer();
    s := EnabledWithVersion();
    StillFresh(s, ID_B);
    VersionedNameIsNoPart("k", ID_A);
    s := Next(None, s, StartUpload(ObjId(BUCKET, VersionedName("k", ID_A)), ID_B, 0));
  }

  /** So does a completion. */
  lemma CompletionOverwritesVersion()
    ensures exists s, s' ::
      && Reached(None, s) && Stores(s, VERSION, [1])
      && Reached(None, s') && s' == Step(s, Complete(ID_B, [1], 0)).1
      && !Reads(s', VERSION, [1])
  {
    var s := VersionThenUpload();
    SendKeeps(s, SendPart(PartId(ID_B, 1), [2], 1), VERSION, [1]);
    s := Next(None, s, SendPart(PartId(ID_B, 1), [2], 1));
    OnePart(s, ID_B, 1, [2]);
    CompletionHitsVersionIff(s, ID_B, [1], 0, VERSION, [1]);
    var s' := Next(None, s, Complete(ID_B, [1], 0));
    assert Stores(s, VERSION, [1]) && !Reads(s', VERSION, [1]);
  }

  /** After suspension, deleting an object whose index entry names a version drops the version's blob. */
  lemma SuspendedDeleteDropsVersion()
    ensures exists s, s' ::
      && Reached(None, s) && Reads(s, VERSION, [1])
      && Reached(None, s') && s' == Step(s, Delete(OBJECT, ID_B)).1
      && VERSION in s'.versions && GetVersion(s', VERSION) == None
  {
    IdsDiffer();
    var s := SuspendedWithVersion();
    StillFresh(s, ID_B);
    var s' := Next(None, s, Delete(OBJECT, ID_B));
    assert VERSION in s'.versions && GetVersion(s', VERSION) == None;
  }

  // ---------------------------------------------------------- leftovers and limits

  /** An upload with part 7 alone. */
  lemma PartSeven() returns (s: Store)
    ensures Reached(None, s) && s.buckets[BUCKET].quota == None
    ensures s.uploads == map[ID_A := Upload(BUCKET, "k", 0)]
    ensures s.versions == map[] && s.parts == map[PartId(ID_A, 7) := 1]
    ensures s.buckets[BUCKET].versioning == Disabled && s.blobs == map[BlobId(BUCKET, PartName(ID_A, 7)) := [1]]
  {
    IdsDiffer();
    Begin(None);
    s := NewStore(None);
    FreshWithoutBlobs(s, ID_A);
    s := Next(None, s, StartUpload(OBJECT, ID_A, 0));
    s := Next(None, s, SendPart(PartId(ID_A, 7), [1], 1));
  }

  /** Completed as the only part, it leaves its blob behind. */
  lemma CompletionOrphansPart()
    ensures exists s :: Reached(None, s) && s.uploads == map[] && BlobId(BUCKET, PartName(ID_A, 7)) in s.blobs
  {
    var s := PartSeven();
    OnePart(s, ID_A, 7, [1]);
    OrphanedPartIff(s, ID_A, [7], 0, 7);
    s := Next(None, s, Complete(ID_A, [7], 0));
  }

  /** An identifier is fresh beside one upload whose parts are all that is stored. */
  lemma FreshBesideParts(s: Store, id: string)
    requires IsId(id) && id != ID_A && s.versions == map[] && s.uploads.Keys == {ID_A}
    requires forall p :: p in s.parts ==> p.upload == ID_A
    requires forall b :: b in s.blobs ==> exists n :: b.name == PartName(ID_A, n)
    ensures FreshId(s, id)
  {
    IdsDiffer();
    forall b, key ensures BlobId(b, VersionedName(key, id)) !in s.blobs {
      if BlobId(b, VersionedName(key, id)) in s.blobs {
        var n :| VersionedName(key, id) == PartName(ID_A, n);
        VersionedNameHitsNoPart(key, id, ID_A, n);
      }
    }
    forall b, n ensures BlobId(b, PartName(id, n)) !in s.blobs {
      if BlobId(b, PartName(id, n)) in s.blobs {
        var m :| PartName(id, n) == PartName(ID_A, m);
        PartNameInjective(id, n, ID_A, m);
      }
    }
  }

  /** A put under the name of a part's blob replaces the part. */
  lemma PutReplacesPart()
    ensures exists s, op ::
      && Reached(None, s) && Generated(s, op) && op.Put? && PartId(ID_A, 7) in s.parts && ID_A in Step(s, op).1.uploads
      && ID_A in s.uploads && PartBlob(s, PartId(ID_A, 7)) == Some([1])
      && PartBlob(Step(s, op).1, PartId(ID_A, 7)) == Some([2])
  {
    IdsDiffer();
    var s := PartSeven();
    FreshBesideParts(s, ID_B);
    var op := Put(ObjId(BUCKET, PartName(ID_A, 7)), [2], 1, ID_B, 0, map[]);
    assert PartBlob(Step(s, op).1, PartId(ID_A, 7)) == Some([2]);
  }

  /** Two bytes declared as none pass a limit of one byte. */
  lemma UndeclaredPutBreaksLimit()
    ensures exists s :: Reached(Some(Quota(1, 0)), s) && !LimitsHold(s.buckets[BUCKET])
  {
    var quota := Some(Quota(1, 0));
    IdsDiffer();
    Begin(quota);
    var s := NewStore(quota);
    FreshWithoutBlobs(s, ID_A);
    s := Next(quota, s, Put(OBJECT, [1, 2], 0, ID_A, 0, map[]));
  }
  /** A copy is not tested at all: the second of two objects of one byte passes a limit of one object. */
  lemma CopyBreaksLimit()
    ensures exists s :: Reached(Some(Quota(0, 1)), s) && !LimitsHold(s.buckets[BUCKET])
  {
    var quota := Some(Quota(0, 1));
    IdsDiffer();
    Begin(quota);
    var s := NewStore(quota);
    FreshWithoutBlobs(s, ID_A);
    s := Next(quota, s, Put(OBJECT, [1], 1, ID_A, 0, map[]));
    s := Next(quota, s, Copy(OBJECT, OTHER, 0));
  }
}
