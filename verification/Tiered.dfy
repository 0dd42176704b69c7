/**
 The tiered backend (internal/backend/tiered): ordered tiers, each a store of its
 own. A write goes to the first tier and leaves older copies below it; the
 topmost copy is the object. Tier operations may fail; a failed tier operation
 changes nothing (localfs writes a temporary file and renames it).
 */
module Tiered {
  import opened Basics

  datatype ObjId = ObjId(bucket: string, key: string)

  type Tiers = seq<map<ObjId, Blob>>

  /** What one object has in each tier, hottest first. */
  function Column(ts: Tiers, o: ObjId): (c: seq<Option<Blob>>)
    ensures |c| == |ts|
    ensures forall i :: 0 <= i < |ts| ==> c[i] == Get(ts[i], o)
  {
    seq(|ts|, i requires 0 <= i < |ts| => Get(ts[i], o))
  }

  /** The index of the first copy, or the number of tiers. */
  function Top(c: seq<Option<Blob>>): (t: nat)
    ensures t <= |c|
    ensures forall i :: 0 <= i < t ==> c[i].None?
    ensures t < |c| ==> c[t].Some?
  {
    if |c| == 0 || c[0].Some? then 0 else 1 + Top(c[1..])
  }

  function First(c: seq<Option<Blob>>): Option<Blob> {
    if Top(c) < |c| then c[Top(c)] else None
  }

  lemma TopIs(c: seq<Option<Blob>>, t: nat)
    requires t < |c| && c[t].Some? && forall i :: 0 <= i < t ==> c[i].None?
    ensures Top(c) == t
  {
  }

  lemma TopNone(c: seq<Option<Blob>>)
    ensures Top(c) == |c| <==> forall i :: 0 <= i < |c| ==> c[i].None?
  {
  }

  /** The plain map that the tiers stand for: each tier shadows the ones below it. */
  function View(ts: Tiers): map<ObjId, Blob> {
    if |ts| == 0 then map[] else View(ts[1..]) + ts[0]
  }

  lemma {:induction false} ViewIsFirst(ts: Tiers, o: ObjId)
    ensures Get(View(ts), o) == First(Column(ts, o))
  {
    if |ts| > 0 {
      ViewIsFirst(ts[1..], o);
      assert Column(ts, o)[1..] == Column(ts[1..], o);
    }
  }

  lemma ViewBy(ts: Tiers, m: map<ObjId, Blob>)
    requires forall o :: First(Column(ts, o)) == Get(m, o)
    ensures View(ts) == m
  {
    forall o ensures Get(View(ts), o) == Get(m, o) {
      ViewIsFirst(ts, o);
    }
    SameLookups(View(ts), m);
  }

  // ------------------------------------------------------- tier operations

  function PutIn(ts: Tiers, i: nat, o: ObjId, data: Blob): (r: Tiers)
    requires i < |ts|
    ensures |r| == |ts|
    ensures Column(r, o) == Column(ts, o)[i := Some(data)]
    ensures forall p :: p != o ==> Column(r, p) == Column(ts, p)
  {
    ts[i := ts[i][o := data]]
  }

  function DropFrom(ts: Tiers, i: nat, o: ObjId): (r: Tiers)
    requires i < |ts|
    ensures |r| == |ts|
    ensures Column(r, o) == Column(ts, o)[i := None]
    ensures forall p :: p != o ==> Column(r, p) == Column(ts, p)
  {
    ts[i := ts[i] - {o}]
  }

  /** Which of the three tier operations of a move fails, if any. */
  datatype Fault = NoFault | ReadFails | WriteFails | DeleteFails

  function Move(ts: Tiers, o: ObjId, src: nat, dst: nat, fault: Fault): (r: (bool, Tiers))
    requires src < |ts| && dst < |ts|
    ensures |r.1| == |ts|
  {
    if o !in ts[src] || fault.ReadFails? || fault.WriteFails? then (false, ts)
    else
      var written := PutIn(ts, dst, o, ts[src][o]);
      if fault.DeleteFails? then (false, written) else (true, DropFrom(written, src, o))
  }

  /** The same move on the one column that it touches. */
  function MoveColumn(c: seq<Option<Blob>>, src: nat, dst: nat, fault: Fault): (r: (bool, seq<Option<Blob>>))
    requires src < |c| && dst < |c|
    ensures |r.1| == |c|
  {
    if c[src].None? || fault.ReadFails? || fault.WriteFails? then (false, c)
    else if fault.DeleteFails? then (false, c[dst := c[src]])
    else (true, c[dst := c[src]][src := None])
  }

  lemma MoveTouchesOneColumn(ts: Tiers, o: ObjId, src: nat, dst: nat, fault: Fault)
    requires src < |ts| && dst < |ts|
    ensures Move(ts, o, src, dst, fault).0 == MoveColumn(Column(ts, o), src, dst, fault).0
    ensures Column(Move(ts, o, src, dst, fault).1, o) == MoveColumn(Column(ts, o), src, dst, fault).1
    ensures forall p :: p != o ==> Column(Move(ts, o, src, dst, fault).1, p) == Column(ts, p)
  {
  }

  /** Promoting the topmost copy keeps the object, wherever the move stops. */
  lemma PromoteKeepsFirst(c: seq<Option<Blob>>, fault: Fault)
    requires 0 < Top(c) < |c|
    ensures var r := MoveColumn(c, Top(c), 0, fault);
      && First(r.1) == First(c)
      && (r.0 <==> fault == NoFault) && (r.0 ==> Top(r.1) == 0)
      && (!r.0 ==> r.1[Top(c)] == c[Top(c)])
  {
  }

  /**
   Moving one tier down keeps the object, wherever the move stops and whether or not
   the tier it starts from holds the topmost copy.
   */
  lemma DemoteKeepsFirst(c: seq<Option<Blob>>, src: nat, fault: Fault)
    requires src + 1 < |c|
    ensures var r := MoveColumn(c, src, src + 1, fault);
      && First(r.1) == First(c)
      && (src == Top(c) && fault == NoFault ==> r.0 && Top(r.1) == src + 1)
      && (src == Top(c) && !r.0 ==> Top(r.1) == Top(c))
  {
    var r := MoveColumn(c, src, src + 1, fault);
    var t := Top(c);
    if r.1 != c {
      if t < src {
        TopIs(r.1, t);
      } else {
        TopIs(c, src);
        TopIs(r.1, if r.0 then src + 1 else src);
      }
    }
  }

  // ------------------------------------------------------------ access keys

  function ObjKey(o: ObjId): string {
    o.bucket + "/" + o.key
  }

  /** Cuts a compound key at its first slash. */
  function SplitObjKey(compound: string): ObjId {
    SplitFrom(compound, 0)
  }

  function SplitFrom(compound: string, i: nat): ObjId
    requires i <= |compound|
    decreases |compound| - i
  {
    if i == |compound| then ObjId("", "")
    else if compound[i] == '/' then ObjId(compound[..i], compound[i + 1..])
    else SplitFrom(compound, i + 1)
  }

  lemma {:induction false} SplitFromFinds(compound: string, i: nat, j: nat)
    requires i <= j < |compound| && compound[j] == '/'
    requires forall k :: i <= k < j ==> compound[k] != '/'
    ensures SplitFrom(compound, i) == ObjId(compound[..j], compound[j + 1..])
    decreases j - i
  {
    if i < j {
      SplitFromFinds(compound, i + 1, j);
    }
  }

  /** Slash-free buckets: splitting the compound key gives back the object. */
  lemma SplitJoin(o: ObjId)
    requires '/' !in o.bucket
    ensures SplitObjKey(ObjKey(o)) == o
  {
    var k := ObjKey(o);
    SplitFromFinds(k, 0, |o.bucket|);
    assert k[..|o.bucket|] == o.bucket && k[|o.bucket| + 1..] == o.key;
  }

  lemma {:induction false} SplitFromIs(compound: string, i: nat)
    requires i <= |compound| && forall k :: 0 <= k < i ==> compound[k] != '/'
    ensures var o := SplitFrom(compound, i);
      '/' !in o.bucket && ('/' in compound ==> ObjKey(o) == compound) && ('/' !in compound ==> o == ObjId("", ""))
    decreases |compound| - i
  {
    if i < |compound| {
      if compound[i] == '/' {
        assert compound[..i] + "/" + compound[i + 1..] == compound;
      } else {
        SplitFromIs(compound, i + 1);
      }
    }
  }

  /** The split is the only slash-free reading of a compound key, so it is injective. */
  lemma JoinSplit(compound: string)
    ensures var o := SplitObjKey(compound);
      '/' !in o.bucket && ('/' in compound ==> ObjKey(o) == compound) && ('/' !in compound ==> o == ObjId("", ""))
  {
    SplitFromIs(compound, 0);
  }

  // ----------------------------------------------------------- the backend

  datatype AccessRecord = AccessRecord(lastAccess: int, tier: nat)

  /** Each record names the topmost tier that holds its object. */
  ghost predicate RecordsTop(ts: Tiers, access: map<string, AccessRecord>) {
    forall k :: k in access ==> '/' in k && access[k].tier == Top(Column(ts, SplitObjKey(k))) < |ts|
  }

  /** The record's object is due for demotion out of its tier. */
  predicate Due(demoteAfter: seq<int>, rec: AccessRecord, now: int) {
    rec.tier < |demoteAfter| - 1 && demoteAfter[rec.tier] != 0 && now - rec.lastAccess >= demoteAfter[rec.tier]
  }

  /** A demotion pass handles compound key k. */
  predicate Handles(demoteAfter: seq<int>, access: map<string, AccessRecord>, now: string -> int, k: string) {
    k in access && Due(demoteAfter, access[k], now(k)) && SplitObjKey(k).bucket != "" && SplitObjKey(k).key != ""
  }

  /** The object that a pass handles under its own compound key. */
  predicate HandlesObject(demoteAfter: seq<int>, access: map<string, AccessRecord>, now: string -> int, o: ObjId) {
    '/' !in o.bucket && o.bucket != "" && o.key != "" && Handles(demoteAfter, access, now, ObjKey(o))
  }

  /** What a pass does for one record. */
  ghost predicate DemotesOne(demoteAfter: seq<int>, ts: Tiers, access: map<string, AccessRecord>, k: string,
                             now: int, fault: Fault, ts': Tiers, access': map<string, AccessRecord>)
    requires |ts| == |demoteAfter| && k in access
  {
    var o, rec := SplitObjKey(k), access[k];
    if Due(demoteAfter, rec, now) && o.bucket != "" && o.key != "" then
      var moved := Move(ts, o, rec.tier, rec.tier + 1, fault);
      && ts' == moved.1
      && access' == if moved.0 then access[k := AccessRecord(rec.lastAccess, rec.tier + 1)] else access
    else
      ts' == ts && access' == access
  }

  // ------------------------------------------- what the operations rely on

  lemma {:induction false} SameFirst(ts: Tiers, ts': Tiers, o: ObjId)
    requires First(Column(ts, o)) == First(Column(ts', o))
    requires forall p :: p != o ==> Column(ts, p) == Column(ts', p)
    ensures View(ts) == View(ts')
  {
    forall p ensures First(Column(ts', p)) == Get(View(ts), p) {
      ViewIsFirst(ts, p);
    }
    ViewBy(ts', View(ts));
  }

  /** An operation on one object that refreshes its record keeps all records right. */
  lemma TouchedRecord(ts: Tiers, access: map<string, AccessRecord>, ts': Tiers, o: ObjId, rec: AccessRecord)
    requires RecordsTop(ts, access) && '/' !in o.bucket && |ts'| == |ts|
    requires forall p :: p != o ==> Column(ts', p) == Column(ts, p)
    requires rec.tier == Top(Column(ts', o)) < |ts|
    ensures RecordsTop(ts', access[ObjKey(o) := rec])
  {
    SplitJoin(o);
    forall k | k in access && k != ObjKey(o) ensures Column(ts', SplitObjKey(k)) == Column(ts, SplitObjKey(k)) {
      JoinSplit(k);
    }
  }

  lemma DroppedRecord(ts: Tiers, access: map<string, AccessRecord>, ts': Tiers, o: ObjId)
    requires RecordsTop(ts, access) && '/' !in o.bucket && |ts'| == |ts|
    requires forall p :: p != o ==> Column(ts', p) == Column(ts, p)
    ensures RecordsTop(ts', access - {ObjKey(o)})
  {
    SplitJoin(o);
    forall k | k in access && k != ObjKey(o) ensures Column(ts', SplitObjKey(k)) == Column(ts, SplitObjKey(k)) {
      JoinSplit(k);
    }
  }

  /** The copies in the given tiers only. */
  function Masked(c: seq<Option<Blob>>, keep: set<nat>): (r: seq<Option<Blob>>)
    ensures |r| == |c| && forall i :: 0 <= i < |c| ==> r[i] == if i in keep then c[i] else None
  {
    seq(|c|, i requires 0 <= i < |c| => if i in keep then c[i] else None)
  }

  /** The tiers after a deletion that failed in the given ones. */
  function DropAll(ts: Tiers, o: ObjId, failing: set<nat>): (r: Tiers)
    ensures |r| == |ts|
    ensures Column(r, o) == Masked(Column(ts, o), failing)
    ensures forall p :: p != o ==> Column(r, p) == Column(ts, p)
  {
    var r := seq(|ts|, i requires 0 <= i < |ts| => if i in failing then ts[i] else ts[i] - {o});
    assert Column(r, o) == Masked(Column(ts, o), failing);
    r
  }

  /** What a deletion leaves visible: the topmost copy among the tiers that failed to delete theirs. */
  function Survivor(ts: Tiers, o: ObjId, failing: set<nat>): Option<Blob> {
    First(Masked(Column(ts, o), failing))
  }

  /** A map in which the object has the given content, if any. */
  function Leave(m: map<ObjId, Blob>, o: ObjId, content: Option<Blob>): map<ObjId, Blob> {
    match content
    case None => m - {o}
    case Some(data) => m[o := data]
  }

  lemma LeaveChangesIff(m: map<ObjId, Blob>, o: ObjId, content: Option<Blob>)
    ensures Leave(m, o, content) != m <==> content != Get(m, o)
  {
    if content == Get(m, o) {
      SameLookups(Leave(m, o, content), m);
    } else {
      assert Get(Leave(m, o, content), o) == content;
    }
  }

  /** A deletion leaves exactly the surviving copy as the object and every other object alone. */
  lemma DeleteView(ts: Tiers, o: ObjId, failing: set<nat>)
    ensures View(DropAll(ts, o, failing)) == Leave(View(ts), o, Survivor(ts, o, failing))
  {
    var ts' := DropAll(ts, o, failing);
    forall p ensures First(Column(ts', p)) == Get(Leave(View(ts), o, Survivor(ts, o, failing)), p) {
      ViewIsFirst(ts, p);
    }
    ViewBy(ts', Leave(View(ts), o, Survivor(ts, o, failing)));
  }

  /** Nothing survives exactly when no tier whose deletion failed holds a copy; so after no failure. */
  lemma SurvivorNoneIff(ts: Tiers, o: ObjId, failing: set<nat>)
    ensures Survivor(ts, o, failing) == None <==> forall i :: 0 <= i < |ts| && i in failing ==> o !in ts[i]
  {
    var c := Masked(Column(ts, o), failing);
    TopNone(c);
    assert forall i :: 0 <= i < |ts| ==> (c[i].None? <==> !(i in failing && o in ts[i]));
  }

  /** When the topmost copy could be deleted and a lower one could not, the older copy becomes the object. */
  lemma FailedDeletionRevives(ts: Tiers, o: ObjId, failing: set<nat>, i: nat)
    requires i < |ts| && i in failing && o in ts[i] && forall j :: 0 <= j < i ==> j !in failing || o !in ts[j]
    ensures Get(View(DropAll(ts, o, failing)), o) == Some(ts[i][o])
  {
    DeleteView(ts, o, failing);
    TopIs(Masked(Column(ts, o), failing), i);
  }

  // ---------------------------------------------------------------- reads

  /** The copies that a read gets to see: those in tiers whose existence test does not err. */
  function Visible(c: seq<Option<Blob>>, erring: set<nat>): (r: seq<Option<Blob>>)
    ensures |r| == |c| && forall i :: 0 <= i < |c| ==> r[i] == if i in erring then None else c[i]
  {
    Masked(c, set i: nat | i < |c| && i !in erring)
  }

  /** What a read does to its column: it promotes the first copy that it sees. */
  function ReadColumn(c: seq<Option<Blob>>, erring: set<nat>, fault: Fault): (r: seq<Option<Blob>>)
    ensures |r| == |c|
  {
    var t := Top(Visible(c, erring));
    if 0 < t < |c| then MoveColumn(c, t, 0, fault).1 else c
  }

  /** A read hits a stale copy: the topmost copy is in a tier that errs, and one below it is promoted over it. */
  predicate Revives(c: seq<Option<Blob>>, erring: set<nat>, fault: Fault) {
    Top(c) in erring && First(Visible(c, erring)).Some? && (fault.NoFault? || fault.DeleteFails?)
  }

  /** After a read the copy that it saw is the object if it was stale and got promoted, else the same copy as before. */
  lemma ReadLeaves(c: seq<Option<Blob>>, erring: set<nat>, fault: Fault)
    ensures First(ReadColumn(c, erring, fault)) ==
            if Revives(c, erring, fault) then First(Visible(c, erring)) else First(c)
  {
    var v := Visible(c, erring);
    var t := Top(v);
    if t < |c| {
      if Top(c) !in erring {
        TopIs(v, Top(c));
        if 0 < t {
          PromoteKeepsFirst(c, fault);
        }
      } else if fault.NoFault? || fault.DeleteFails? {
        TopIs(ReadColumn(c, erring, fault), 0);
      }
    } else if Top(c) < |c| {
      assert Top(c) in erring;
    }
  }

  /** The first visible copy is the object itself unless the topmost tier errs. */
  lemma SeesObject(c: seq<Option<Blob>>, erring: set<nat>)
    requires Top(c) !in erring
    ensures Top(Visible(c, erring)) == Top(c) && First(Visible(c, erring)) == First(c)
  {
    if Top(c) < |c| {
      TopIs(Visible(c, erring), Top(c));
    } else {
      TopNone(Visible(c, erring));
    }
  }

  lemma ReadTouchesOneColumn(ts: Tiers, o: ObjId, erring: set<nat>, fault: Fault)
    requires |ts| >= 1
    ensures var ts' := Effect(ts, Read(o, erring, fault));
      && Column(ts', o) == ReadColumn(Column(ts, o), erring, fault)
      && forall p :: p != o ==> Column(ts', p) == Column(ts, p)
  {
    var t := Top(Visible(Column(ts, o), erring));
    if 0 < t < |ts| {
      MoveTouchesOneColumn(ts, o, t, 0, fault);
    }
  }

  /** A read leaves the map alone unless it promotes a stale copy, which then becomes the object. */
  lemma ReadView(ts: Tiers, o: ObjId, erring: set<nat>, fault: Fault)
    requires |ts| >= 1
    ensures var c := Column(ts, o);
      View(Effect(ts, Read(o, erring, fault))) ==
      if Revives(c, erring, fault) then Leave(View(ts), o, First(Visible(c, erring))) else View(ts)
  {
    var ts', c := Effect(ts, Read(o, erring, fault)), Column(ts, o);
    var m := if Revives(c, erring, fault) then Leave(View(ts), o, First(Visible(c, erring))) else View(ts);
    ReadTouchesOneColumn(ts, o, erring, fault);
    ReadLeaves(c, erring, fault);
    forall p ensures First(Column(ts', p)) == Get(m, p) {
      ViewIsFirst(ts, p);
    }
    ViewBy(ts', m);
  }

  /** Unless the topmost tier errs, a read finds the object and changes nothing. */
  lemma ReadFinds(ts: Tiers, o: ObjId, erring: set<nat>, fault: Fault)
    requires |ts| >= 1 && Top(Column(ts, o)) !in erring
    ensures View(Effect(ts, Read(o, erring, fault))) == View(ts)
    ensures First(Visible(Column(ts, o), erring)) == Get(View(ts), o)
  {
    ReadView(ts, o, erring, fault);
    SeesObject(Column(ts, o), erring);
    ViewIsFirst(ts, o);
  }

  /** A read changes the map exactly when the stale copy that it promotes differs from the object. */
  lemma ReadChangesIff(ts: Tiers, o: ObjId, erring: set<nat>, fault: Fault)
    requires |ts| >= 1
    ensures var c := Column(ts, o);
      View(Effect(ts, Read(o, erring, fault))) != View(ts) <==>
      Revives(c, erring, fault) && First(Visible(c, erring)) != Get(View(ts), o)
  {
    ReadView(ts, o, erring, fault);
    LeaveChangesIff(View(ts), o, First(Visible(Column(ts, o), erring)));
  }

  // ------------------------------------------------------------- demotion passes

  /** An object's column when all records but those in `todo` have been visited. */
  ghost function PassColumn(demoteAfter: seq<int>, ts: Tiers, access: map<string, AccessRecord>,
                            now: string -> int, fault: string -> Fault, todo: set<string>, o: ObjId): seq<Option<Blob>>
    requires |ts| == |demoteAfter|
  {
    if HandlesObject(demoteAfter, access, now, o) && ObjKey(o) !in todo
    then MoveColumn(Column(ts, o), access[ObjKey(o)].tier, access[ObjKey(o)].tier + 1, fault(ObjKey(o))).1
    else Column(ts, o)
  }

  lemma PassStep(demoteAfter: seq<int>, ts0: Tiers, access: map<string, AccessRecord>,
                 now: string -> int, fault: string -> Fault, todo: set<string>, k: string, ts: Tiers, ts': Tiers)
    requires |ts0| == |ts| == |demoteAfter| && k in todo && k in access
    requires forall o :: Column(ts, o) == PassColumn(demoteAfter, ts0, access, now, fault, todo, o)
    requires ts' == if Handles(demoteAfter, access, now, k)
                    then Move(ts, SplitObjKey(k), access[k].tier, access[k].tier + 1, fault(k)).1 else ts
    ensures forall o :: Column(ts', o) == PassColumn(demoteAfter, ts0, access, now, fault, todo - {k}, o)
  {
    var q := SplitObjKey(k);
    if Handles(demoteAfter, access, now, k) {
      MoveTouchesOneColumn(ts, q, access[k].tier, access[k].tier + 1, fault(k));
    }
    forall o ensures Column(ts', o) == PassColumn(demoteAfter, ts0, access, now, fault, todo - {k}, o) {
      assert Column(ts, o) == PassColumn(demoteAfter, ts0, access, now, fault, todo, o);
      OneKey(o, k);
    }
  }

  /** A compound key is that of its split alone. */
  lemma OneKey(o: ObjId, k: string)
    ensures '/' !in o.bucket && ObjKey(o) == k ==> o == SplitObjKey(k)
    ensures SplitObjKey(k).bucket != "" ==> ObjKey(SplitObjKey(k)) == k && '/' !in SplitObjKey(k).bucket
  {
    JoinSplit(k);
    if '/' !in o.bucket && ObjKey(o) == k {
      SplitJoin(o);
    }
  }

  /** The record follows its object down when the whole move succeeds; so it stays right wherever the move stops. */
  lemma FollowMove(ts: Tiers, access: map<string, AccessRecord>, k: string, fault: Fault)
    requires RecordsTop(ts, access) && k in access && access[k].tier + 1 < |ts|
    ensures var (moved, ts') := Move(ts, SplitObjKey(k), access[k].tier, access[k].tier + 1, fault);
      && (moved <==> fault == NoFault)
      && RecordsTop(ts', if moved then access[k := AccessRecord(access[k].lastAccess, access[k].tier + 1)] else access)
  {
    JoinSplit(k);
    var o, t := SplitObjKey(k), access[k].tier;
    var (moved, ts') := Move(ts, o, t, t + 1, fault);
    MoveTouchesOneColumn(ts, o, t, t + 1, fault);
    DemoteKeepsFirst(Column(ts, o), t, fault);
    if moved {
      TouchedRecord(ts, access, ts', o, AccessRecord(access[k].lastAccess, t + 1));
    } else {
      TouchedRecord(ts, access, ts', o, access[k]);
      assert access[k := access[k]] == access;
    }
  }

  lemma RecordStep(demoteAfter: seq<int>, ts: Tiers, access: map<string, AccessRecord>, now: int, k: string,
                   fault: Fault, ts': Tiers, access': map<string, AccessRecord>)
    requires |ts| == |demoteAfter| && RecordsTop(ts, access) && k in access
    requires DemotesOne(demoteAfter, ts, access, k, now, fault, ts', access')
    ensures RecordsTop(ts', access')
    ensures access' ==
            if Due(demoteAfter, access[k], now) && SplitObjKey(k).bucket != "" && SplitObjKey(k).key != ""
               && fault == NoFault
            then access[k := AccessRecord(access[k].lastAccess, access[k].tier + 1)] else access
  {
    var o := SplitObjKey(k);
    if Due(demoteAfter, access[k], now) && o.bucket != "" && o.key != "" {
      FollowMove(ts, access, k, fault);
    }
  }

  /** Midway through a pass the records are one tier further down for each move that succeeded. */
  ghost predicate Followed(demoteAfter: seq<int>, access0: map<string, AccessRecord>, now: string -> int,
                           fault: string -> Fault, todo: set<string>, access: map<string, AccessRecord>) {
    && access.Keys == access0.Keys
    && forall k :: k in access ==>
         access[k].tier == access0[k].tier +
           if k !in todo && Handles(demoteAfter, access0, now, k) && fault(k) == NoFault then 1 else 0
  }

  ghost predicate PassRecords(demoteAfter: seq<int>, access0: map<string, AccessRecord>, now: string -> int,
                              fault: string -> Fault, todo: set<string>,
                              ts: Tiers, access: map<string, AccessRecord>) {
    RecordsTop(ts, access) && Followed(demoteAfter, access0, now, fault, todo, access)
  }

  lemma FollowedStep(demoteAfter: seq<int>, access0: map<string, AccessRecord>, now: string -> int,
                     fault: string -> Fault, todo: set<string>, k: string,
                     access: map<string, AccessRecord>, access': map<string, AccessRecord>)
    requires Followed(demoteAfter, access0, now, fault, todo, access)
    requires k in todo && k in access && access[k] == access0[k]
    requires access' == if Handles(demoteAfter, access, now, k) && fault(k) == NoFault
                        then access[k := AccessRecord(access[k].lastAccess, access[k].tier + 1)] else access
    ensures Followed(demoteAfter, access0, now, fault, todo - {k}, access')
  {
    assert Handles(demoteAfter, access, now, k) == Handles(demoteAfter, access0, now, k);
  }

  lemma PassRecordsStep(demoteAfter: seq<int>, access0: map<string, AccessRecord>, now: string -> int,
                        fault: string -> Fault, todo: set<string>, k: string,
                        ts: Tiers, access: map<string, AccessRecord>, ts': Tiers, access': map<string, AccessRecord>)
    requires PassRecords(demoteAfter, access0, now, fault, todo, ts, access)
    requires |ts| == |demoteAfter| && k in todo && k in access && access[k] == access0[k]
    requires DemotesOne(demoteAfter, ts, access, k, now(k), fault(k), ts', access')
    ensures PassRecords(demoteAfter, access0, now, fault, todo - {k}, ts', access')
  {
    RecordStep(demoteAfter, ts, access, now(k), k, fault(k), ts', access');
    FollowedStep(demoteAfter, access0, now, fault, todo, k, access, access');
  }

  /** Columns and access times midway through a pass. */
  ghost predicate PassState(demoteAfter: seq<int>, ts0: Tiers, access0: map<string, AccessRecord>,
                            now: string -> int, fault: string -> Fault, todo: set<string>,
                            ts: Tiers, access: map<string, AccessRecord>) {
    && |ts0| == |ts| == |demoteAfter| && todo <= access.Keys == access0.Keys
    && (forall k :: k in todo ==> access[k] == access0[k])
    && (forall k :: k in access ==> access[k].lastAccess == access0[k].lastAccess)
    && forall o :: Column(ts, o) == PassColumn(demoteAfter, ts0, access0, now, fault, todo, o)
  }

  lemma PassAdvances(demoteAfter: seq<int>, ts0: Tiers, access0: map<string, AccessRecord>,
                     now: string -> int, fault: string -> Fault, todo: set<string>, k: string,
                     ts: Tiers, access: map<string, AccessRecord>, ts': Tiers, access': map<string, AccessRecord>)
    requires PassState(demoteAfter, ts0, access0, now, fault, todo, ts, access) && k in todo
    requires DemotesOne(demoteAfter, ts, access, k, now(k), fault(k), ts', access')
    ensures PassState(demoteAfter, ts0, access0, now, fault, todo - {k}, ts', access')
  {
    PassStep(demoteAfter, ts0, access0, now, fault, todo, k, ts, ts');
  }

  /** A finished pass keeps the view. */
  lemma PassKeepsView(demoteAfter: seq<int>, ts0: Tiers, access0: map<string, AccessRecord>,
                      now: string -> int, fault: string -> Fault, ts: Tiers, access: map<string, AccessRecord>)
    requires PassState(demoteAfter, ts0, access0, now, fault, {}, ts, access)
    ensures View(ts) == View(ts0)
  {
    forall o ensures First(Column(ts, o)) == Get(View(ts0), o) {
      ViewIsFirst(ts0, o);
      assert Column(ts, o) == PassColumn(demoteAfter, ts0, access0, now, fault, {}, o);
      if HandlesObject(demoteAfter, access0, now, o) {
        DemoteKeepsFirst(Column(ts0, o), access0[ObjKey(o)].tier, fault(ObjKey(o)));
      }
    }
    ViewBy(ts, View(ts0));
  }

  /**
   The object's record keeps it where it is: there is none, it names the last tier or one
   without a threshold, or the last access is not as long ago as that tier's threshold.
   */
  ghost predicate Stays(demoteAfter: seq<int>, access: map<string, AccessRecord>, now: string -> int, o: ObjId) {
    var k := o.bucket + "/" + o.key;
    k in access ==>
      var t, age := access[k].tier, now(k) - access[k].lastAccess;
      t + 1 >= |demoteAfter| || demoteAfter[t] == 0 || age < demoteAfter[t]
  }

  lemma StaysPut(demoteAfter: seq<int>, ts: Tiers, access: map<string, AccessRecord>,
                 now: string -> int, fault: string -> Fault, o: ObjId)
    requires |ts| == |demoteAfter| && Stays(demoteAfter, access, now, o)
    ensures PassColumn(demoteAfter, ts, access, now, fault, {}, o) == Column(ts, o)
  {
  }

  /** The object does not stay, has a name that its record spells, and no fault stops its move. */
  ghost predicate Sinks(demoteAfter: seq<int>, access: map<string, AccessRecord>,
                        now: string -> int, fault: string -> Fault, o: ObjId) {
    && !Stays(demoteAfter, access, now, o) && fault(o.bucket + "/" + o.key) == NoFault
    && '/' !in o.bucket && o.bucket != "" && o.key != ""
  }

  /** Under right records its topmost copy then goes one tier down. */
  lemma SinksOneTier(demoteAfter: seq<int>, ts: Tiers, access: map<string, AccessRecord>,
              now: string -> int, fault: string -> Fault, o: ObjId)
    requires |ts| == |demoteAfter| && RecordsTop(ts, access) && Sinks(demoteAfter, access, now, fault, o)
    ensures Top(PassColumn(demoteAfter, ts, access, now, fault, {}, o)) ==
            Top(Column(ts, o)) + 1 == access[o.bucket + "/" + o.key].tier + 1
  {
    SplitJoin(o);
    DemoteKeepsFirst(Column(ts, o), access[ObjKey(o)].tier, NoFault);
  }

  /** A finished pass moves the objects that do not stay, and no others. */
  lemma PassMoves(demoteAfter: seq<int>, ts0: Tiers, access0: map<string, AccessRecord>,
                  now: string -> int, fault: string -> Fault, ts: Tiers, access: map<string, AccessRecord>)
    requires PassState(demoteAfter, ts0, access0, now, fault, {}, ts, access)
    ensures forall o :: Stays(demoteAfter, access0, now, o) ==> Column(ts, o) == Column(ts0, o)
    ensures RecordsTop(ts0, access0) ==>
              forall o :: Sinks(demoteAfter, access0, now, fault, o) ==> Top(Column(ts, o)) == Top(Column(ts0, o)) + 1
  {
    forall o | Stays(demoteAfter, access0, now, o) ensures Column(ts, o) == Column(ts0, o) {
      StaysPut(demoteAfter, ts0, access0, now, fault, o);
      assert Column(ts, o) == PassColumn(demoteAfter, ts0, access0, now, fault, {}, o);
    }
    if RecordsTop(ts0, access0) {
      forall o | Sinks(demoteAfter, access0, now, fault, o) ensures Top(Column(ts, o)) == Top(Column(ts0, o)) + 1 {
        SinksOneTier(demoteAfter, ts0, access0, now, fault, o);
        assert Column(ts, o) == PassColumn(demoteAfter, ts0, access0, now, fault, {}, o);
      }
    }
  }

  // --------------------------------------------------------------- whole runs

  datatype Op =
    | Written(o: ObjId, data: Blob)
    | Deleted(o: ObjId, failing: set<nat>)
    | Read(o: ObjId, erring: set<nat>, fault: Fault)
    | Demoted(o: ObjId, src: nat, fault: Fault)

  /** What an operation does to the tiers. Failed writes are no operation at all. */
  function Effect(ts: Tiers, op: Op): (ts': Tiers)
    requires |ts| >= 1
    ensures |ts'| == |ts|
  {
    match op
    case Written(o, data) => PutIn(ts, 0, o, data)
    case Deleted(o, failing) => DropAll(ts, o, failing)
    case Read(o, erring, fault) =>
      var t := Top(Visible(Column(ts, o), erring));
      if 0 < t < |ts| then Move(ts, o, t, 0, fault).1 else ts
    case Demoted(o, src, fault) => if src + 1 < |ts| then Move(ts, o, src, src + 1, fault).1 else ts
  }

  /** The tiers before the run and after each of its operations. */
  function Trace(ts: Tiers, ops: seq<Op>): (states: seq<Tiers>)
    requires |ts| >= 1
    ensures |states| == |ops| + 1 && states[0] == ts && forall i :: 0 <= i < |states| ==> |states[i]| == |ts|
    decreases |ops|
  {
    if |ops| == 0 then [ts] else [ts] + Trace(Effect(ts, ops[0]), ops[1..])
  }

  /**
   The copy that the operation leaves as the object: after a deletion one in a tier that
   failed, if any; after a read that promotes a stale copy, that one.
   */
  function LeftBy(ts: Tiers, op: Op): Option<Blob> {
    match op
    case Deleted(o, failing) => Survivor(ts, o, failing)
    case Read(o, erring, fault) =>
      if Revives(Column(ts, o), erring, fault) then First(Visible(Column(ts, o), erring)) else Get(View(ts), o)
    case _ => None
  }

  /** The plain map: a write sets its object, a deletion or a read leaves it the given copy, a demotion nothing. */
  function MapEffect(m: map<ObjId, Blob>, op: Op, left: Option<Blob>): map<ObjId, Blob> {
    match op
    case Written(o, data) => m[o := data]
    case Deleted(o, _) => Leave(m, o, left)
    case Read(o, _, _) => Leave(m, o, left)
    case Demoted(_, _, _) => m
  }

  lemma {:induction false} WriteRefines(ts: Tiers, o: ObjId, data: Blob)
    requires |ts| >= 1
    ensures View(PutIn(ts, 0, o, data)) == View(ts)[o := data]
  {
    var ts' := PutIn(ts, 0, o, data);
    forall p ensures First(Column(ts', p)) == Get(View(ts)[o := data], p) {
      ViewIsFirst(ts, p);
    }
    ViewBy(ts', View(ts)[o := data]);
  }

  lemma DemotionRefines(ts: Tiers, o: ObjId, src: nat, fault: Fault)
    requires src + 1 < |ts|
    ensures View(Move(ts, o, src, src + 1, fault).1) == View(ts)
  {
    MoveTouchesOneColumn(ts, o, src, src + 1, fault);
    DemoteKeepsFirst(Column(ts, o), src, fault);
    SameFirst(ts, Move(ts, o, src, src + 1, fault).1, o);
  }

  lemma ReadRefines(ts: Tiers, o: ObjId, erring: set<nat>, fault: Fault)
    requires |ts| >= 1
    ensures var op := Read(o, erring, fault); View(Effect(ts, op)) == MapEffect(View(ts), op, LeftBy(ts, op))
  {
    ReadView(ts, o, erring, fault);
    LeaveChangesIff(View(ts), o, Get(View(ts), o));
  }

  lemma {:induction false} DemotedRefines(ts: Tiers, o: ObjId, src: nat, fault: Fault)
    requires |ts| >= 1
    ensures View(Effect(ts, Demoted(o, src, fault))) == View(ts)
  {
    var ts' := Effect(ts, Demoted(o, src, fault));
    if src + 1 < |ts| {
      DemotionRefines(ts, o, src, fault);
    } else {
      assert ts' == ts;
    }
  }

  lemma {:induction false} EffectRefines(ts: Tiers, op: Op)
    requires |ts| >= 1
    ensures View(Effect(ts, op)) == MapEffect(View(ts), op, LeftBy(ts, op))
  {
    match op
    case Written(o, data) => WriteRefines(ts, o, data);
    case Deleted(o, failing) => DeleteView(ts, o, failing);
    case Read(o, erring, fault) => ReadRefines(ts, o, erring, fault);
    case Demoted(o, src, fault) => DemotedRefines(ts, o, src, fault);
  }

  /** Every step of every run of the tiers is a step of the plain map. */
  lemma {:induction false} TiersRefineMap(ts: Tiers, ops: seq<Op>, i: nat)
    requires |ts| >= 1 && i < |ops|
    ensures var states := Trace(ts, ops);
      View(states[i + 1]) == MapEffect(View(states[i]), ops[i], LeftBy(states[i], ops[i]))
    decreases |ops|
  {
    var next := Effect(ts, ops[0]);
    if i == 0 {
      EffectRefines(ts, ops[0]);
      assert Trace(ts, ops)[1] == Trace(next, ops[1..])[0];
    } else {
      TiersRefineMap(next, ops[1..], i - 1);
    }
  }

  /** A copy anywhere in the tiers, stale ones included, was there before the operation or is written by it. */
  lemma CopiesComeFrom(ts: Tiers, op: Op, k: nat, o: ObjId)
    requires |ts| >= 1 && k < |ts| && o in Effect(ts, op)[k]
    ensures || op == Written(o, Effect(ts, op)[k][o])
            || exists j :: 0 <= j < |ts| && Get(ts[j], o) == Some(Effect(ts, op)[k][o])
  {
    var ts' := Effect(ts, op);
    assert Column(ts', o)[k] == Some(ts'[k][o]);
    assert forall j :: 0 <= j < |ts| ==> Column(ts, o)[j] == Get(ts[j], o);
    match op
    case Written(p, data) =>
    case Deleted(p, failing) =>
    case Read(p, erring, fault) =>
      var t := Top(Visible(Column(ts, p), erring));
      if 0 < t < |ts| {
        MoveTouchesOneColumn(ts, p, t, 0, fault);
      }
    case Demoted(p, src, fault) =>
      if src + 1 < |ts| {
        MoveTouchesOneColumn(ts, p, src, src + 1, fault);
      }
  }

  /**
   In a run from empty tiers every copy, so every survivor of a failed deletion, was written by an earlier
   operation.
   */
  lemma {:induction false} CopiesWereWritten(ts: Tiers, ops: seq<Op>, i: nat, k: nat, o: ObjId)
    requires |ts| >= 1 && i <= |ops| && (forall j :: 0 <= j < |ts| ==> ts[j] == map[])
    requires k < |ts| && o in Trace(ts, ops)[i][k]
    ensures exists j :: 0 <= j < i && ops[j] == Written(o, Trace(ts, ops)[i][k][o])
    decreases i
  {
    var states := Trace(ts, ops);
    if i > 0 {
      TraceStep(ts, ops, i - 1);
      CopiesComeFrom(states[i - 1], ops[i - 1], k, o);
      if ops[i - 1] != Written(o, states[i][k][o]) {
        var j :| 0 <= j < |ts| && Get(states[i - 1][j], o) == Some(states[i][k][o]);
        CopiesWereWritten(ts, ops, i - 1, j, o);
      }
    }
  }

  lemma {:induction false} TraceStep(ts: Tiers, ops: seq<Op>, i: nat)
    requires |ts| >= 1 && i < |ops|
    ensures Trace(ts, ops)[i + 1] == Effect(Trace(ts, ops)[i], ops[i])
    decreases |ops|
  {
    if i > 0 {
      TraceStep(Effect(ts, ops[0]), ops[1..], i - 1);
    }
  }

  /** A read's record names the topmost copy: it saw tier 0, or promoted in full, or copied nothing over the object. */
  predicate RecordRight(c: seq<Option<Blob>>, erring: set<nat>, fault: Fault) {
    Top(Visible(c, erring)) == 0 || fault == NoFault || (fault != DeleteFails && Top(c) !in erring)
  }

  lemma ReadTop(c: seq<Option<Blob>>, erring: set<nat>, fault: Fault)
    requires First(Visible(c, erring)).Some?
    ensures var t := if fault == NoFault then 0 else Top(Visible(c, erring));
      Top(ReadColumn(c, erring, fault)) == t <==> RecordRight(c, erring, fault)
  {
    var t := Top(Visible(c, erring));
    if Top(c) !in erring {
      SeesObject(c, erring);
    }
    if 0 < t && (fault == NoFault || fault == DeleteFails) {
      TopIs(ReadColumn(c, erring, fault), 0);
    } else if t == 0 {
      TopIs(c, 0);
    }
  }

  /** Reads keep all records right exactly when their own is. */
  lemma ReadRecord(ts: Tiers, access: map<string, AccessRecord>, o: ObjId, erring: set<nat>, fault: Fault, now: int)
    requires |ts| >= 1 && First(Visible(Column(ts, o), erring)).Some?
    ensures var tier := if fault == NoFault then 0 else Top(Visible(Column(ts, o), erring));
      RecordsTop(ts, access) && '/' !in o.bucket ==>
        (RecordsTop(Effect(ts, Read(o, erring, fault)), access[ObjKey(o) := AccessRecord(now, tier)])
         <==> RecordRight(Column(ts, o), erring, fault))
  {
    var ts' := Effect(ts, Read(o, erring, fault));
    var tier := if fault == NoFault then 0 else Top(Visible(Column(ts, o), erring));
    ReadTouchesOneColumn(ts, o, erring, fault);
    ReadTop(Column(ts, o), erring, fault);
    if RecordsTop(ts, access) && '/' !in o.bucket {
      if RecordRight(Column(ts, o), erring, fault) {
        TouchedRecord(ts, access, ts', o, AccessRecord(now, tier));
      } else {
        SplitJoin(o);
        assert ObjKey(o) in access[ObjKey(o) := AccessRecord(now, tier)];
      }
    }
  }

  // -------------------------------------------------------------- two runs

  const OBJECT := ObjId("b", "k")
  const EMPTY: Tiers := [map[], map[]]

  /** Version 1 is demoted, version 2 written above it. */
  const TWICE: seq<Op> := [Written(OBJECT, [1]), Demoted(OBJECT, 0, NoFault), Written(OBJECT, [2])]

  lemma TwiceWritten(op: Op)
    ensures var states := Trace(EMPTY, TWICE + [op]);
      && states[3] == [map[OBJECT := [2]], map[OBJECT := [1]]]
      && states[4] == Effect(states[3], op)
  {
    var ops := TWICE + [op];
    TraceStep(EMPTY, ops, 0);
    TraceStep(EMPTY, ops, 1);
    TraceStep(EMPTY, ops, 2);
    TraceStep(EMPTY, ops, 3);
    var states := Trace(EMPTY, ops);
    assert states[1] == [map[OBJECT := [1]], map[]];
    assert states[2] == [map[], map[OBJECT := [1]]];
  }

  /** A deletion that fails in the lower tier turns the object back into its first version. */
  lemma DeletionRevives()
    ensures var states := Trace(EMPTY, TWICE + [Deleted(OBJECT, {1})]);
      Get(View(states[3]), OBJECT) == Some([2]) && Get(View(states[4]), OBJECT) == Some([1])
  {
    TwiceWritten(Deleted(OBJECT, {1}));
    var ts: Tiers := [map[OBJECT := [2]], map[OBJECT := [1]]];
    FailedDeletionRevives(ts, OBJECT, {1}, 1);
    ViewIsFirst(ts, OBJECT);
  }

  /** So does a read whose existence test errs in the first tier, and the second version is nowhere any more. */
  lemma ReadRevives()
    ensures var states := Trace(EMPTY, TWICE + [Read(OBJECT, {0}, NoFault)]);
      && Get(View(states[3]), OBJECT) == Some([2]) && Get(View(states[4]), OBJECT) == Some([1])
      && forall i :: 0 <= i < 2 ==> Get(states[4][i], OBJECT) != Some([2])
  {
    TwiceWritten(Read(OBJECT, {0}, NoFault));
    var ts: Tiers := [map[OBJECT := [2]], map[OBJECT := [1]]];
    var v := Visible(Column(ts, OBJECT), {0});
    TopIs(v, 1);
    TopIs(Column(ts, OBJECT), 0);
    ReadView(ts, OBJECT, {0}, NoFault);
    ViewIsFirst(ts, OBJECT);
  }

  // ---------------------------------------------------------------- the class

  /** The result of a call that may fail. */
  datatype Answer<T> = Failed | Answered(value: T)

  /** Some tier fails to tell whether it holds the object before one that does. */
  ghost predicate ErrsFirst(c: seq<Option<Blob>>, erring: set<nat>) {
    exists i :: 0 <= i < |c| && i <= Top(c) && i in erring
  }

  class Backend {
    var tiers: Tiers
    var access: map<string, AccessRecord>
    const demoteAfter: seq<int>

    ghost predicate Valid()
      reads this
    {
      |tiers| == |demoteAfter| >= 1
    }

    constructor (demoteAfter: seq<int>)
      requires |demoteAfter| >= 1
      ensures Valid() && this.demoteAfter == demoteAfter && access == map[]
      ensures View(tiers) == map[] && RecordsTop(tiers, access)
    {
      this.demoteAfter := demoteAfter;
      tiers := seq(|demoteAfter|, _ => map[]);
      access := map[];
      new;
      forall o ensures First(Column(tiers, o)) == Get(map[], o) {
        TopNone(Column(tiers, o));
      }
      ViewBy(tiers, map[]);
    }

    method Write(o: ObjId, data: Blob, now: int, fails: bool) returns (n: Option<nat>)
      requires Valid()
      modifies this
      ensures Valid() && n == if fails then None else Some(|data|)
      ensures fails ==> tiers == old(tiers) && access == old(access)
      ensures !fails ==> View(tiers) == old(View(tiers))[o := data] && tiers == PutIn(old(tiers), 0, o, data)
      ensures !fails ==> access == old(access)[ObjKey(o) := AccessRecord(now, 0)]
      ensures old(RecordsTop(tiers, access)) && '/' !in o.bucket ==> RecordsTop(tiers, access)
    {
      if fails {
        return None;
      }
      ghost var before := tiers;
      tiers := tiers[0 := tiers[0][o := data]];
      access := access[o.bucket + "/" + o.key := AccessRecord(now, 0)];
      n := Some(|data|);
      assert tiers == PutIn(before, 0, o, data);
      WriteRefines(before, o, data);
      if RecordsTop(before, old(access)) && '/' !in o.bucket {
        TouchedRecord(before, old(access), tiers, o, AccessRecord(now, 0));
      }
    }

    /** Copies, then deletes the source copy; stops at the first failure. */
    method MoveObject(o: ObjId, src: nat, dst: nat, fault: Fault) returns (ok: bool)
      requires Valid() && src < |tiers| && dst < |tiers|
      modifies this`tiers
      ensures Valid() && (ok, tiers) == Move(old(tiers), o, src, dst, fault)
    {
      if o !in tiers[src] || fault.ReadFails? {
        return false;
      }
      var buf := tiers[src][o];
      if fault.WriteFails? {
        return false;
      }
      tiers := tiers[dst := tiers[dst][o := buf]];
      if fault.DeleteFails? {
        return false;
      }
      tiers := tiers[src := tiers[src] - {o}];
      ok := true;
    }

    /**
     Reports and promotes the first copy in a tier whose existence test does not err; that is
     the object unless the topmost tier errs. `readFails` is the final read's own failure.
     */
    method Read(o: ObjId, now: int, erring: set<nat>, fault: Fault, readFails: bool)
      returns (found: bool, data: Option<Blob>)
      requires Valid()
      modifies this
      ensures Valid() && tiers == Effect(old(tiers), Op.Read(o, erring, fault))
      ensures var seen := First(Visible(Column(old(tiers), o), erring));
        (found <==> seen.Some?) && data == if readFails then None else seen
      ensures Top(Column(old(tiers), o)) !in erring ==>
                && View(tiers) == old(View(tiers)) && (found <==> o in old(View(tiers)))
                && data == if readFails then None else Get(old(View(tiers)), o)
      ensures found ==> access == old(access)[ObjKey(o) :=
                AccessRecord(now, if fault == NoFault then 0 else Top(Visible(Column(old(tiers), o), erring)))]
      ensures !found ==> access == old(access)
      ensures old(RecordsTop(tiers, access)) && '/' !in o.bucket && found ==>
                (RecordsTop(tiers, access) <==> RecordRight(Column(old(tiers), o), erring, fault))
    {
      ghost var c := Column(tiers, o);
      ghost var v := Visible(c, erring);
      if Top(c) !in erring {
        ReadFinds(tiers, o, erring, fault);
      }
      var i := 0;
      while i < |tiers|
        invariant i <= |tiers| && forall j :: 0 <= j < i ==> v[j].None?
        invariant tiers == old(tiers) && access == old(access)
      {
        if i in erring || o !in tiers[i] {
          i := i + 1;
          continue;
        }
        TopIs(v, i);
        ReadRecord(old(tiers), old(access), o, erring, fault, now);
        if i == 0 {
          RecordAccess(o, now, 0);
          data := if readFails then None else Some(tiers[0][o]);
          return true, data;
        }
        var ok := MoveObject(o, i, 0, fault);
        if !ok {
          RecordAccess(o, now, i);
          data := if readFails then None else Some(tiers[i][o]);
        } else {
          RecordAccess(o, now, 0);
          data := if readFails then None else Some(tiers[0][o]);
        }
        return true, data;
      }
      TopNone(v);
      return false, None;
    }

    method RecordAccess(o: ObjId, now: int, tier: nat)
      modifies this`access
      ensures access == old(access)[ObjKey(o) := AccessRecord(now, tier)]
    {
      var k := o.bucket + "/" + o.key;
      access := access[k := AccessRecord(now, tier)];
    }

    /** Removes the object from every tier whose deletion does not fail. */
    method Delete(o: ObjId, failing: set<nat>) returns (ok: bool)
      requires Valid()
      modifies this
      ensures Valid()
      ensures ok <==> forall i :: 0 <= i < |tiers| ==> i !in failing
      ensures tiers == DropAll(old(tiers), o, failing)
      ensures View(tiers) == Leave(old(View(tiers)), o, Survivor(old(tiers), o, failing))
      ensures ok ==> View(tiers) == old(View(tiers)) - {o}
      ensures access == old(access) - {ObjKey(o)}
      ensures old(RecordsTop(tiers, access)) && '/' !in o.bucket ==> RecordsTop(tiers, access)
    {
      ok := true;
      var i := 0;
      while i < |tiers|
        invariant i <= |tiers| == |old(tiers)|
        invariant ok <==> forall j :: 0 <= j < i ==> j !in failing
        invariant forall j :: 0 <= j < i ==> tiers[j] == if j in failing then old(tiers)[j] else old(tiers)[j] - {o}
        invariant forall j :: i <= j < |tiers| ==> tiers[j] == old(tiers)[j]
        invariant access == old(access)
      {
        if i in failing {
          ok := false;
        } else {
          tiers := tiers[i := tiers[i] - {o}];
        }
        i := i + 1;
      }
      access := access - {o.bucket + "/" + o.key};
      assert tiers == DropAll(old(tiers), o, failing);
      DeleteView(old(tiers), o, failing);
      SurvivorNoneIff(old(tiers), o, failing);
      if RecordsTop(old(tiers), old(access)) && '/' !in o.bucket {
        DroppedRecord(old(tiers), old(access), tiers, o);
      }
    }

    /** Looks through the tiers until one holds the object or fails to answer. */
    method Exists(o: ObjId, erring: set<nat>) returns (r: Answer<bool>)
      requires Valid()
      ensures r == if ErrsFirst(Column(tiers, o), erring) then Failed else Answered(o in View(tiers))
      ensures r == Failed <==>
              exists i :: 0 <= i < |tiers| && i in erring && forall j :: 0 <= j < i ==> o !in tiers[j]
    {
      ViewIsFirst(tiers, o);
      ghost var c := Column(tiers, o);
      for i := 0 to |tiers|
        invariant forall j :: 0 <= j < i ==> c[j].None? && j !in erring
      {
        if i in erring {
          return Failed;
        }
        if o in tiers[i] {
          TopIs(c, i);
          return Answered(true);
        }
      }
      TopNone(c);
      r := Answered(false);
    }

    /** The size of the object of the view; `statFails` is the error of the tier that holds it. */
    method Stat(o: ObjId, erring: set<nat>, statFails: bool) returns (r: Answer<Option<nat>>)
      requires Valid()
      ensures r == if ErrsFirst(Column(tiers, o), erring) then Failed
                   else if o !in View(tiers) then Answered(None)
                   else if statFails then Failed
                   else Answered(Some(|View(tiers)[o]|))
      ensures r == Failed <==>
              || (exists i :: 0 <= i < |tiers| && i in erring && forall j :: 0 <= j < i ==> o !in tiers[j])
              || (statFails && o in View(tiers))
    {
      ViewIsFirst(tiers, o);
      ghost var c := Column(tiers, o);
      for i := 0 to |tiers|
        invariant forall j :: 0 <= j < i ==> c[j].None? && j !in erring
      {
        if i in erring {
          return Failed;
        }
        if o in tiers[i] {
          TopIs(c, i);
          return if statFails then Failed else Answered(Some(|tiers[i][o]|));
        }
      }
      TopNone(c);
      r := Answered(None);
    }

    /** One record of a demotion pass. */
    method DemoteOne(objKey: string, now: int, fault: Fault)
      requires Valid() && objKey in access
      modifies this
      ensures Valid()
      ensures DemotesOne(demoteAfter, old(tiers), old(access), objKey, now, fault, tiers, access)
      ensures var t, age := old(access)[objKey].tier, now - old(access)[objKey].lastAccess;
        t + 1 >= |demoteAfter| || demoteAfter[t] == 0 || age < demoteAfter[t] ==>
          tiers == old(tiers) && access == old(access)
    {
      var rec := access[objKey];
      if rec.tier >= |demoteAfter| - 1 {
        return;
      }
      if demoteAfter[rec.tier] == 0 {
        return;
      }
      if now - rec.lastAccess < demoteAfter[rec.tier] {
        return;
      }
      var o := SplitObjKey(objKey);
      if o.bucket == "" || o.key == "" {
        return;
      }
      var ok := MoveObject(o, rec.tier, rec.tier + 1, fault);
      if ok && objKey in access {
        access := access[objKey := AccessRecord(access[objKey].lastAccess, rec.tier + 1)];
      }
    }

    /**
     A pass over a snapshot of the records, in any order. Every handled object moves
     one tier down (as far as its faults let it), no other object or record is
     touched, the view stays, and records that named the topmost copies still do.
     */
    method RunDemotion(now: string -> int, fault: string -> Fault)
      requires Valid()
      modifies this
      ensures Valid() && View(tiers) == old(View(tiers))
      ensures forall o :: Column(tiers, o) == PassColumn(demoteAfter, old(tiers), old(access), now, fault, {}, o)
      ensures forall o :: Stays(demoteAfter, old(access), now, o) ==> Column(tiers, o) == Column(old(tiers), o)
      ensures old(RecordsTop(tiers, access)) ==>
                forall o :: Sinks(demoteAfter, old(access), now, fault, o) ==>
                  Top(Column(tiers, o)) == Top(Column(old(tiers), o)) + 1
      ensures access.Keys == old(access).Keys
      ensures forall k :: k in access ==> access[k].lastAccess == old(access)[k].lastAccess
      ensures old(RecordsTop(tiers, access)) ==>
                PassRecords(demoteAfter, old(access), now, fault, {}, tiers, access)
    {
      ghost var ts0, acc0 := tiers, access;
      ghost var right := RecordsTop(tiers, access);
      var todo := access.Keys;
      while todo != {}
        invariant Valid() && PassState(demoteAfter, ts0, acc0, now, fault, todo, tiers, access)
        invariant right ==> PassRecords(demoteAfter, acc0, now, fault, todo, tiers, access)
        decreases todo
      {
        var k :| k in todo;
        ghost var ts, acc := tiers, access;
        DemoteOne(k, now(k), fault(k));
        PassAdvances(demoteAfter, ts0, acc0, now, fault, todo, k, ts, acc, tiers, access);
        if right {
          PassRecordsStep(demoteAfter, acc0, now, fault, todo, k, ts, acc, tiers, access);
        }
        todo := todo - {k};
      }
      PassKeepsView(demoteAfter, ts0, acc0, now, fault, tiers, access);
      PassMoves(demoteAfter, ts0, acc0, now, fault, tiers, access);
    }
  }
}
