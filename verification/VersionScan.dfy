/**
 Version records in the bbolt store (internal/metadata/bbolt): the prefix scan that
 marks the versions of one key as not latest.
 */
module VersionScan {
  import opened Strings
  import opened Listing
  import Storage

  /** A version record as it is stored, with the fields that make up its key. */
  datatype VersionRecord = VersionRecord(bucket: string, key: string, versionID: string,
                                         isLatest: bool, isDeleteMarker: bool, size: nat)

  function VersionKey(v: VersionRecord): string {
    v.bucket + NUL + v.key + NUL + v.versionID
  }

  function VersionPrefix(bucket: string, key: string): string {
    bucket + NUL + key + NUL
  }

  function VersionKeys(t: seq<VersionRecord>): (ks: seq<string>)
    ensures |ks| == |t| && forall i :: 0 <= i < |t| ==> ks[i] == VersionKey(t[i])
  {
    seq(|t|, i requires 0 <= i < |t| => VersionKey(t[i]))
  }

  /** No name holds a NUL. */
  ghost predicate CleanNames(t: seq<VersionRecord>) {
    forall i :: 0 <= i < |t| ==> NulFree(t[i].bucket) && NulFree(t[i].key)
  }

  /** Without NULs the prefix of a key is the prefix of its versions and of nothing else. */
  lemma PrefixIsKey(bucket: string, key: string, v: VersionRecord)
    requires NulFree(bucket) && NulFree(key) && NulFree(v.bucket) && NulFree(v.key)
    ensures VersionPrefix(bucket, key) <= VersionKey(v) <==> v.bucket == bucket && v.key == key
  {
    assert VersionPrefix(bucket, key) == bucket + NUL + (key + NUL);
    assert VersionKey(v) == v.bucket + NUL + (v.key + NUL + v.versionID);
    PrefixSplits(bucket, key + NUL, v.bucket, v.key + NUL + v.versionID);
    assert key + NUL + "" == key + NUL;
    PrefixSplits(key, "", v.key, v.versionID);
  }

  /** With NULs the scan touches another key's versions. */
  lemma NulReachesOtherKeys()
    ensures var v := VersionRecord("b", ['a', '\0', 'c'], "1", true, false, 0);
      VersionPrefix("b", "a") <= VersionKey(v) && v.key != "a"
  {
    var v := VersionRecord("b", ['a', '\0', 'c'], "1", true, false, 0);
    assert VersionKey(v)[..4] == VersionPrefix("b", "a");
  }

  function Unmarked(v: VersionRecord, bucket: string, key: string): VersionRecord {
    if v.bucket == bucket && v.key == key then v.(isLatest := false) else v
  }

  /** Scans the records with the prefix from `start` on and collects those to be written back. */
  method CollectLatest(t: seq<VersionRecord>, prefix: string, start: nat)
    returns (updates: seq<(nat, VersionRecord)>, end: nat)
    requires start <= |t|
    ensures start <= end <= |t| && (end < |t| ==> !(prefix <= VersionKeys(t)[end]))
    ensures forall k :: start <= k < end ==> prefix <= VersionKeys(t)[k]
    ensures forall u :: u in updates ==> start <= u.0 < end && u.1 == t[u.0].(isLatest := false)
    ensures forall k :: start <= k < end && t[k].isLatest ==> (k, t[k].(isLatest := false)) in updates
  {
    end, updates := start, [];
    while end < |t| && prefix <= VersionKey(t[end])
      invariant start <= end <= |t| && forall k :: start <= k < end ==> prefix <= VersionKeys(t)[k]
      invariant forall u :: u in updates ==> start <= u.0 < end && u.1 == t[u.0].(isLatest := false)
      invariant forall k :: start <= k < end && t[k].isLatest ==> (k, t[k].(isLatest := false)) in updates
    {
      if t[end].isLatest {
        updates := updates + [(end, t[end].(isLatest := false))];
      }
      end := end + 1;
    }
  }

  /** Scans the key's versions, then writes back those that were latest. */
  method MarkVersionsNotLatest(t: seq<VersionRecord>, bucket: string, key: string) returns (t': seq<VersionRecord>)
    requires StrictlyAscending(VersionKeys(t)) && CleanNames(t) && NulFree(bucket) && NulFree(key)
    ensures |t'| == |t| && forall i :: 0 <= i < |t| ==> t'[i] == Unmarked(t[i], bucket, key)
    ensures VersionKeys(t') == VersionKeys(t)
  {
    var prefix := VersionPrefix(bucket, key);
    var start := SeekVersions(t, prefix);
    var updates, end := CollectLatest(t, prefix, start);
    PrefixBlock(VersionKeys(t), prefix, start, end);
    t' := t;
    for j := 0 to |updates|
      invariant |t'| == |t|
      invariant forall k :: 0 <= k < |t| ==> t'[k] == t[k] || t'[k] == t[k].(isLatest := false)
      invariant forall k :: 0 <= k < |t| && !(start <= k < end) ==> t'[k] == t[k]
      invariant forall n :: 0 <= n < j ==> t'[updates[n].0] == updates[n].1
    {
      assert updates[j] in updates;
      t' := t'[updates[j].0 := updates[j].1];
    }
    UpdatesUnmark(t, t', bucket, key, start, end, updates);
  }

  /** The updates written back are what the key asks of each record. */
  lemma UpdatesUnmark(t: seq<VersionRecord>, t': seq<VersionRecord>, bucket: string, key: string, start: nat, end: nat,
                      updates: seq<(nat, VersionRecord)>)
    requires |t'| == |t| && NulFree(bucket) && NulFree(key) && CleanNames(t)
    requires forall k :: 0 <= k < |t| ==> (start <= k < end <==> VersionPrefix(bucket, key) <= VersionKeys(t)[k])
    requires forall k :: 0 <= k < |t| ==> t'[k] == t[k] || t'[k] == t[k].(isLatest := false)
    requires forall k :: 0 <= k < |t| && !(start <= k < end) ==> t'[k] == t[k]
    requires forall u :: u in updates ==> u.0 < |t'| && t'[u.0] == u.1
    requires forall k :: start <= k < end && k < |t| && t[k].isLatest ==> (k, t[k].(isLatest := false)) in updates
    ensures forall k :: 0 <= k < |t| ==> t'[k] == Unmarked(t[k], bucket, key)
  {
    forall k | 0 <= k < |t| ensures t'[k] == Unmarked(t[k], bucket, key) {
      PrefixIsKey(bucket, key, t[k]);
      assert VersionKeys(t)[k] == VersionKey(t[k]);
      if start <= k < end && t[k].isLatest {
        assert (k, t[k].(isLatest := false)) in updates;
      }
    }
  }

  /** The first version whose key is not below the target. */
  method SeekVersions(t: seq<VersionRecord>, target: string) returns (p: nat)
    ensures p <= |t|
    ensures forall k :: 0 <= k < p ==> Less(VersionKeys(t)[k], target)
    ensures p < |t| ==> !Less(VersionKeys(t)[p], target)
  {
    p := 0;
    while p < |t| && Less(VersionKey(t[p]), target)
      invariant p <= |t| && forall k :: 0 <= k < p ==> Less(VersionKeys(t)[k], target)
    {
      p := p + 1;
    }
  }

  // ------------------------------------------------- the scan as a map update

  function IdOf(v: VersionRecord): Storage.VerId {
    Storage.VerId(v.bucket, v.key, v.versionID)
  }

  function RecordOf(v: VersionRecord): Storage.VersionRecord {
    Storage.VersionRecord(v.isDeleteMarker, v.isLatest, v.size)
  }

  /** Each stored record is in the map under its identifier. */
  ghost predicate Mapped(t: seq<VersionRecord>, m: map<Storage.VerId, Storage.VersionRecord>) {
    forall i :: 0 <= i < |t| ==> IdOf(t[i]) in m && m[IdOf(t[i])] == RecordOf(t[i])
  }

  ghost function Ids(t: seq<VersionRecord>): set<Storage.VerId> {
    set v | v in t :: IdOf(v)
  }

  /** The map holds no other identifiers. */
  ghost predicate Covered(t: seq<VersionRecord>, m: map<Storage.VerId, Storage.VersionRecord>) {
    m.Keys == Ids(t)
  }

  /** The prefix scan does to the database what marking does to the map of versions. */
  lemma ScanMarksMap(t: seq<VersionRecord>, t': seq<VersionRecord>, bucket: string, key: string,
                     m: map<Storage.VerId, Storage.VersionRecord>)
    requires Mapped(t, m) && Covered(t, m) && |t'| == |t|
    requires forall i :: 0 <= i < |t| ==> t'[i] == Unmarked(t[i], bucket, key)
    ensures Mapped(t', Storage.MarkNotLatest(m, bucket, key)) && Covered(t', Storage.MarkNotLatest(m, bucket, key))
  {
    MarkedMapped(t, t', bucket, key, m);
    SameIds(t, t');
    assert Storage.MarkNotLatest(m, bucket, key).Keys == m.Keys;
  }

  lemma MarkedMapped(t: seq<VersionRecord>, t': seq<VersionRecord>, bucket: string, key: string,
                     m: map<Storage.VerId, Storage.VersionRecord>)
    requires Mapped(t, m) && |t'| == |t|
    requires forall i :: 0 <= i < |t| ==> t'[i] == Unmarked(t[i], bucket, key)
    ensures Mapped(t', Storage.MarkNotLatest(m, bucket, key))
  {
    forall i | 0 <= i < |t'|
      ensures var m' := Storage.MarkNotLatest(m, bucket, key);
        IdOf(t'[i]) in m' && m'[IdOf(t'[i])] == RecordOf(t'[i])
    {
      assert IdOf(t'[i]) == IdOf(t[i]);
    }
  }

  lemma SameIds(t: seq<VersionRecord>, t': seq<VersionRecord>)
    requires |t'| == |t| && forall i :: 0 <= i < |t| ==> IdOf(t'[i]) == IdOf(t[i])
    ensures Ids(t') == Ids(t)
  {
    forall id ensures id in Ids(t') <==> id in Ids(t) {
      if v :| v in t' && IdOf(v) == id {
        var i :| 0 <= i < |t'| && t'[i] == v;
        assert t[i] in t && IdOf(t[i]) == id;
      }
      if v :| v in t && IdOf(v) == id {
        var i :| 0 <= i < |t| && t[i] == v;
        assert t'[i] in t' && IdOf(t'[i]) == id;
      }
    }
  }

  /** Every sorted database stands for one map of versions. */
  lemma {:induction false} TableIsMap(t: seq<VersionRecord>) returns (m: map<Storage.VerId, Storage.VersionRecord>)
    requires StrictlyAscending(VersionKeys(t))
    ensures Mapped(t, m) && Covered(t, m)
  {
    if |t| == 0 {
      m := map[];
    } else {
      var n := |t| - 1;
      assert forall i :: 0 <= i < n ==> VersionKeys(t[..n])[i] == VersionKeys(t)[i];
      var init := TableIsMap(t[..n]);
      forall i | 0 <= i < n ensures IdOf(t[i]) != IdOf(t[n]) {
        Irreflexive(VersionKey(t[n]));
        assert Less(VersionKeys(t)[i], VersionKeys(t)[n]);
      }
      m := init[IdOf(t[n]) := RecordOf(t[n])];
      assert t == t[..n] + [t[n]];
      assert forall i :: 0 <= i < n ==> t[..n][i] == t[i];
    }
  }
}
