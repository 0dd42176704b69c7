/** The storage engine as the program runs it: the same operations, record by record. */
module Engine {
  import opened Basics
  import opened Storage

  class StorageEngine {
    var buckets: map<string, BucketRecord>
    var objects: map<ObjId, ObjectRecord>
    var versions: map<VerId, VersionRecord>
    var uploads: map<string, Upload>
    var parts: map<PartId, int>
    var blobs: map<BlobId, Blob>

    function State(): Store
      reads this
    {
      Store(buckets, objects, versions, uploads, parts, blobs)
    }

    constructor ()
      ensures State() == Store(map[], map[], map[], map[], map[], map[])
    {
      buckets, objects, versions := map[], map[], map[];
      uploads, parts, blobs := map[], map[], map[];
    }

    method UpdateBucketStats(bucket: string, count: int, bytes: int)
      modifies this`buckets
      ensures buckets == AddStats(old(buckets), bucket, count, bytes)
    {
      if bucket in buckets {
        var b := buckets[bucket];
        buckets := buckets[bucket := b.(objectCount := b.objectCount + count, totalBytes := b.totalBytes + bytes)];
      }
    }

    method Put(o: ObjId, body: Blob, declared: int, version: string, now: int, tags: map<string, string>)
      returns (r: Outcome)
      modifies this
      ensures (r, State()) == PutObject(old(State()), o, body, declared, version, now, tags)
    {
      if o.bucket !in buckets {
        return NoBucket;
      }
      var b := buckets[o.bucket];
      if !WithinQuota(b, declared) {
        return QuotaExceeded;
      }
      var versionID, backendKey := "", o.key;
      if b.versioning == Enabled {
        versionID, backendKey := version, VersionedName(o.key, version);
      }
      blobs := blobs[BlobId(o.bucket, backendKey) := body];
      var n: int := |body|;
      var deltaCount, deltaBytes := 1, n;
      if b.versioning != Enabled && o in objects {
        deltaCount, deltaBytes := 0, n - objects[o].size;
      }
      if b.versioning == Enabled {
        versions := MarkNotLatest(versions, o.bucket, o.key);
        versions := versions[VerId(o.bucket, o.key, versionID) := VersionRecord(false, true, n)];
      }
      objects := objects[o := ObjectRecord(versionID, n, now, tags)];
      UpdateBucketStats(o.bucket, deltaCount, deltaBytes);
      r := Done;
    }

    method RemoveVersion(id: VerId) returns (r: Outcome)
      modifies this
      ensures (r, State()) == DeleteVersion(old(State()), id)
    {
      r := Done;
      if id !in versions {
        return;
      }
      var ver := versions[id];
      if !ver.isDeleteMarker {
        blobs := blobs - {BlobId(id.bucket, VersionedName(id.key, id.version))};
        UpdateBucketStats(id.bucket, -1, 0 - ver.size);
      }
      versions := versions - {id};
    }

    method Delete(o: ObjId, marker: string) returns (r: Outcome)
      modifies this
      ensures (r, State()) == DeleteObject(old(State()), o, marker)
    {
      r := Done;
      if o.bucket !in buckets {
        return;
      }
      if buckets[o.bucket].versioning == Enabled {
        versions := MarkNotLatest(versions, o.bucket, o.key);
        versions := versions[VerId(o.bucket, o.key, marker) := VersionRecord(true, true, 0)];
        objects := objects - {o};
        return;
      }
      if o !in objects {
        return;
      }
      var rec := objects[o];
      var backendKey := o.key;
      if rec.versionID != "" {
        backendKey := VersionedName(o.key, rec.versionID);
      }
      blobs := blobs - {BlobId(o.bucket, backendKey)};
      objects := objects - {o};
      UpdateBucketStats(o.bucket, -1, 0 - rec.size);
    }

    method Copy(src: ObjId, dst: ObjId, now: int) returns (r: Outcome)
      modifies this
      ensures (r, State()) == CopyObject(old(State()), src, dst, now)
    {
      if src !in objects {
        return NoObject;
      }
      var rec := objects[src];
      if dst.bucket !in buckets {
        return NoBucket;
      }
      var source := BlobId(src.bucket, src.key);
      if rec.versionID != "" {
        source := BlobId(src.bucket, VersionedName(src.key, rec.versionID));
      }
      if source !in blobs {
        return Unreadable;
      }
      var data := blobs[source];
      blobs := blobs[BlobId(dst.bucket, dst.key) := data];
      objects := objects[dst := ObjectRecord("", |data|, now, map[])];
      UpdateBucketStats(dst.bucket, 1, |data|);
      r := Done;
    }

    method CreateMultipartUpload(o: ObjId, id: string, now: int) returns (r: Outcome)
      modifies this
      ensures (r, State()) == CreateUpload(old(State()), o, id, now)
    {
      if o.bucket !in buckets {
        return NoBucket;
      }
      uploads := uploads[id := Upload(o.bucket, o.key, now)];
      r := Done;
    }

    method SendPart(p: PartId, body: Blob, declared: int) returns (r: Outcome)
      modifies this
      ensures (r, State()) == UploadPart(old(State()), p, body, declared)
    {
      if p.upload !in uploads {
        return NoUpload;
      }
      blobs := blobs[BlobId(uploads[p.upload].bucket, PartName(p.upload, p.number)) := body];
      parts := parts[p := declared];
      r := Done;
    }

    method MultipartTotalSize(upload: string, selected: seq<nat>) returns (total: int)
      ensures total == TotalSize(parts, upload, selected)
    {
      total := 0;
      for i := 0 to |selected|
        invariant total == TotalSize(parts, upload, selected[..i])
      {
        assert selected[..i + 1][..i] == selected[..i];
        total := total + PartSize(parts, PartId(upload, selected[i]));
      }
      assert selected[..|selected|] == selected;
    }

    /** Reads the parts in the given order; stops at the first that is missing. */
    method AssembleParts(bucket: string, upload: string, selected: seq<nat>) returns (data: Option<Blob>)
      ensures data == Assemble(blobs, bucket, upload, selected)
    {
      var sofar: Blob := [];
      for i := 0 to |selected|
        invariant Assemble(blobs, bucket, upload, selected[..i]) == Some(sofar)
      {
        assert selected[..i + 1][..i] == selected[..i];
        var id := BlobId(bucket, PartName(upload, selected[i]));
        if id !in blobs {
          MissingEarly(blobs, bucket, upload, selected, i + 1);
          return None;
        }
        sofar := sofar + blobs[id];
      }
      assert selected[..|selected|] == selected;
      data := Some(sofar);
    }

    method CleanupMultipart(upload: string, bucket: string, numParts: nat)
      modifies this
      ensures State() == Cleanup(old(State()), upload, bucket, numParts)
    {
      uploads := uploads - {upload};
      parts := parts - PartsOf(parts, upload);
      var i := 1;
      while i <= numParts
        invariant 1 <= i <= numParts + 1
        invariant blobs == old(blobs) - FirstParts(bucket, upload, i - 1)
        invariant uploads == old(uploads) - {upload} && parts == old(parts) - PartsOf(old(parts), upload)
        invariant buckets == old(buckets) && objects == old(objects) && versions == old(versions)
      {
        blobs := blobs - {BlobId(bucket, PartName(upload, i))};
        DropNext(old(blobs), bucket, upload, i);
        i := i + 1;
      }
    }

    method Complete(id: string, listed: seq<nat>, now: int) returns (r: Outcome)
      modifies this
      ensures (r, State()) == CompleteUpload(old(State()), id, listed, now)
    {
      if id !in uploads {
        return NoUpload;
      }
      var m := uploads[id];
      if m.bucket !in buckets {
        return NoBucket;
      }
      var quotaSize := MultipartTotalSize(id, listed);
      if !WithinQuota(buckets[m.bucket], quotaSize) {
        return QuotaExceeded;
      }
      var sorted := SortNumbers(listed);
      var total := MultipartTotalSize(id, sorted);
      var combined := AssembleParts(m.bucket, id, sorted);
      match combined
      case None => return Unreadable;
      case Some(data) =>
        blobs := blobs[BlobId(m.bucket, m.key) := data];
        objects := objects[ObjId(m.bucket, m.key) := ObjectRecord("", total, now, map[])];
        UpdateBucketStats(m.bucket, 1, total);
        CleanupMultipart(id, m.bucket, |listed|);
        return Done;
    }

    method Abort(id: string) returns (r: Outcome)
      modifies this
      ensures (r, State()) == AbortUpload(old(State()), id)
    {
      if id !in uploads {
        return NoUpload;
      }
      var m := uploads[id];
      var ps := PartsOf(parts, id);
      var todo := ps;
      while todo != {}
        invariant todo <= ps
        invariant blobs == old(blobs) - set p | p in ps - todo :: BlobId(m.bucket, PartName(id, p.number))
        invariant State() == old(State()).(blobs := blobs)
        decreases todo
      {
        var p :| p in todo;
        var next := todo - {p};
        blobs := blobs - {BlobId(m.bucket, PartName(id, p.number))};
        assert (set q | q in ps - next :: BlobId(m.bucket, PartName(id, q.number))) ==
               (set q | q in ps - todo :: BlobId(m.bucket, PartName(id, q.number)))
               + {BlobId(m.bucket, PartName(id, p.number))};
        todo := next;
      }
      assert ps - todo == ps;
      CleanupMultipart(id, m.bucket, |ps|);
      r := Done;
    }
  }

  lemma DropNext(blobs: map<BlobId, Blob>, bucket: string, upload: string, i: nat)
    requires i >= 1
    ensures blobs - FirstParts(bucket, upload, i - 1) - {BlobId(bucket, PartName(upload, i))} ==
            blobs - FirstParts(bucket, upload, i)
  {
    assert FirstParts(bucket, upload, i) == FirstParts(bucket, upload, i - 1) + {BlobId(bucket, PartName(upload, i))};
  }

  /** One missing part makes the whole unreadable. */
  lemma {:induction false} MissingEarly(blobs: map<BlobId, Blob>, bucket: string, upload: string, ns: seq<nat>, i: nat)
    requires i <= |ns| && Assemble(blobs, bucket, upload, ns[..i]) == None
    ensures Assemble(blobs, bucket, upload, ns) == None
    decreases |ns| - i
  {
    if i == |ns| {
      assert ns[..i] == ns;
    } else {
      assert ns[..i + 1][..i] == ns[..i];
      MissingEarly(blobs, bucket, upload, ns, i + 1);
    }
  }
}
