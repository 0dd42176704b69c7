/**
 Lifecycle passes inside runs: a pass is a stretch of deletions and aborts, so what runs of
 single operations keep is kept by histories in which operations and passes alternate.
 */
module LifecycleRuns {
  import opened Basics
  import opened Strings
  import opened Storage
  import opened Lifecycle
  import Accounting
  import Listing
  import ObjectReads
  import VersionSafety

  /** A pass deletes objects of its bucket and aborts uploads. */
  predicate PassOp(op: Op, bucket: string) {
    op.Abort? || (op.Delete? && op.o.bucket == bucket)
  }

  /** The identifiers that a pass generates for its delete markers: unused, and one for each indexed key. */
  ghost predicate FreshMarkers(s: Store, bucket: string, marker: string -> string) {
    && (forall k :: ObjId(bucket, k) in s.objects ==> FreshId(s, marker(k)))
    && (forall j, k ::
          ObjId(bucket, j) in s.objects && ObjId(bucket, k) in s.objects && marker(j) == marker(k) ==> j == k)
  }

  /** What a pass needs, and leaves. */
  ghost predicate Ready(s: Store, bucket: string, marker: string -> string) {
    Tidy(s) && FreshMarkers(s, bucket, marker)
  }

  /** The longer run goes on from the shorter one with operations of a pass. */
  ghost predicate GoesOn(states: seq<Store>, ops: seq<Op>, bucket: string, states': seq<Store>, ops': seq<Op>) {
    && |states| == |ops| + 1 && ProperRun(states', ops')
    && states <= states' && ops <= ops'
    && forall i :: |ops| <= i < |ops'| ==> PassOp(ops'[i], bucket)
  }

  lemma OneMore(states: seq<Store>, ops: seq<Op>, bucket: string, op: Op) returns (states': seq<Store>, ops': seq<Op>)
    requires ProperRun(states, ops) && Proper(states[|ops|], op) && PassOp(op, bucket)
    ensures GoesOn(states, ops, bucket, states', ops') && states'[|ops'|] == Step(states[|ops|], op).1
  {
    states', ops' := states + [Step(states[|ops|], op).1], ops + [op];
    ExtendRun(states, ops, op);
  }

  lemma OnAndOn(s1: seq<Store>, o1: seq<Op>, bucket: string, s2: seq<Store>, o2: seq<Op>, s3: seq<Store>, o3: seq<Op>)
    requires GoesOn(s1, o1, bucket, s2, o2) && GoesOn(s2, o2, bucket, s3, o3)
    ensures GoesOn(s1, o1, bucket, s3, o3)
  {
    forall i | |o1| <= i < |o3| ensures PassOp(o3[i], bucket) {
      assert i < |o2| ==> o3[i] == o2[i];
    }
  }

  // -------------------------------------------------------------- one operation

  /** Deleting an indexed object uses up its marker and leaves those of the other keys unused. */
  lemma OneDeletion(s: Store, o: ObjId, marker: string -> string)
    requires Ready(s, o.bucket, marker) && o in s.objects
    ensures Proper(s, Delete(o, marker(o.key)))
    ensures Ready(DeleteObject(s, o, marker(o.key)).1, o.bucket, marker)
  {
    var s' := DeleteObject(s, o, marker(o.key)).1;
    StepTidy(s, Delete(o, marker(o.key)));
    forall k | ObjId(o.bucket, k) in s'.objects ensures FreshId(s', marker(k)) {
      assert FreshId(s, marker(k));
    }
  }

  lemma OneAbort(s: Store, id: string, bucket: string, marker: string -> string)
    requires Ready(s, bucket, marker)
    ensures Ready(AbortUpload(s, id).1, bucket, marker)
  {
    var s' := AbortUpload(s, id).1;
    StepTidy(s, Abort(id));
    forall k | ObjId(bucket, k) in s'.objects ensures FreshId(s', marker(k)) {
      assert FreshId(s, marker(k));
    }
  }

  // ------------------------------------------------------------- many operations

  ghost predicate Distinct(ks: seq<string>) {
    forall i, j :: 0 <= i < j < |ks| ==> ks[i] != ks[j]
  }

  lemma AscendingIsDistinct(ks: seq<string>)
    requires StrictlyAscending(ks)
    ensures Distinct(ks)
  {
    forall i, j | 0 <= i < j < |ks| ensures ks[i] != ks[j] {
      Irreflexive(ks[i]);
    }
  }

  lemma {:induction false} FilterIsDistinct(ks: seq<string>, test: string -> bool)
    requires Distinct(ks)
    ensures Distinct(Filter(ks, test))
  {
    if |ks| > 0 {
      FilterIsDistinct(ks[..|ks| - 1], test);
    }
  }

  /** Deletions leave every other entry in the index. */
  lemma {:induction false} DeleteEachLeaves(s: Store, bucket: string, keys: seq<string>, marker: string -> string,
                                            o: ObjId)
    requires o in s.objects && o.key !in keys
    ensures o in DeleteEach(s, bucket, keys, marker).objects
  {
    if |keys| > 0 {
      DeleteEachLeaves(s, bucket, keys[..|keys| - 1], marker, o);
    }
  }

  lemma {:induction false} DeletionsGoOn(states: seq<Store>, ops: seq<Op>, bucket: string, keys: seq<string>,
                                         marker: string -> string) returns (states': seq<Store>, ops': seq<Op>)
    requires ProperRun(states, ops) && Ready(states[|ops|], bucket, marker)
    requires Distinct(keys) && forall k :: k in keys ==> ObjId(bucket, k) in states[|ops|].objects
    ensures GoesOn(states, ops, bucket, states', ops')
    ensures states'[|ops'|] == DeleteEach(states[|ops|], bucket, keys, marker) && Ready(states'[|ops'|], bucket, marker)
  {
    states', ops' := states, ops;
    if |keys| > 0 {
      var n := |keys| - 1;
      var o := ObjId(bucket, keys[n]);
      var sm, om := DeletionsGoOn(states, ops, bucket, keys[..n], marker);
      DeleteEachLeaves(states[|ops|], bucket, keys[..n], marker, o);
      OneDeletion(sm[|om|], o, marker);
      states', ops' := OneMore(sm, om, bucket, Delete(o, marker(keys[n])));
      OnAndOn(states, ops, bucket, sm, om, states', ops');
    }
  }

  lemma {:induction false} AbortsGoOn(states: seq<Store>, ops: seq<Op>, bucket: string, ids: seq<string>,
                                      marker: string -> string) returns (states': seq<Store>, ops': seq<Op>)
    requires ProperRun(states, ops) && Ready(states[|ops|], bucket, marker)
    ensures GoesOn(states, ops, bucket, states', ops')
    ensures states'[|ops'|] == AbortEach(states[|ops|], ids) && Ready(states'[|ops'|], bucket, marker)
  {
    states', ops' := states, ops;
    if |ids| > 0 {
      var n := |ids| - 1;
      var sm, om := AbortsGoOn(states, ops, bucket, ids[..n], marker);
      OneAbort(sm[|om|], ids[n], bucket, marker);
      states', ops' := OneMore(sm, om, bucket, Abort(ids[n]));
      OnAndOn(states, ops, bucket, sm, om, states', ops');
    }
  }

  // ---------------------------------------------------------------------- a pass

  lemma ExpiryGoesOn(states: seq<Store>, ops: seq<Op>, bucket: string, rule: Rule, now: int, marker: string -> string,
                     s': Store) returns (states': seq<Store>, ops': seq<Op>)
    requires ProperRun(states, ops) && Ready(states[|ops|], bucket, marker)
    requires Expires(states[|ops|], bucket, rule, now, marker, s')
    ensures GoesOn(states, ops, bucket, states', ops') && states'[|ops'|] == s' && Ready(s', bucket, marker)
  {
    var s := states[|ops|];
    var page :| Listing.FirstPage(KeysUnder(s.objects, bucket, rule.prefix), PAGE, page)
                && s' == DeleteEach(s, bucket, OverdueOf(s.objects, bucket, rule, now, page), marker);
    AscendingIsDistinct(page);
    FilterIsDistinct(page, k => ObjId(bucket, k) in s.objects && Overdue(rule, k, s.objects[ObjId(bucket, k)], now));
    states', ops' := DeletionsGoOn(states, ops, bucket, OverdueOf(s.objects, bucket, rule, now, page), marker);
  }

  lemma StaleGoOn(states: seq<Store>, ops: seq<Op>, bucket: string, rule: Rule, now: int, marker: string -> string,
                  s': Store) returns (states': seq<Store>, ops': seq<Op>)
    requires ProperRun(states, ops) && Ready(states[|ops|], bucket, marker)
    requires AbortsStale(states[|ops|], bucket, rule, now, s')
    ensures GoesOn(states, ops, bucket, states', ops') && states'[|ops'|] == s' && Ready(s', bucket, marker)
  {
    var s := states[|ops|];
    var ids :| && StrictlyAscending(ids) && (forall id :: id in ids <==> id in UploadsIn(s.uploads, bucket))
               && s' == AbortEach(s, StaleOf(s.uploads, rule, now, ids));
    states', ops' := AbortsGoOn(states, ops, bucket, StaleOf(s.uploads, rule, now, ids), marker);
  }

  lemma RuleGoesOn(states: seq<Store>, ops: seq<Op>, bucket: string, rule: Rule, now: int, marker: string -> string,
                   s': Store) returns (states': seq<Store>, ops': seq<Op>)
    requires ProperRun(states, ops) && Ready(states[|ops|], bucket, marker)
    requires RuleStep(states[|ops|], bucket, rule, now, marker, s')
    ensures GoesOn(states, ops, bucket, states', ops') && states'[|ops'|] == s' && Ready(s', bucket, marker)
  {
    states', ops' := states, ops;
    if rule.enabled {
      var mid :| ExpiryPart(states[|ops|], bucket, rule, now, marker, mid) && AbortPart(mid, bucket, rule, now, s');
      if rule.expirationDays > 0 {
        states', ops' := ExpiryGoesOn(states, ops, bucket, rule, now, marker, mid);
      }
      if rule.abortDays > 0 {
        var sm, om := states', ops';
        states', ops' := StaleGoOn(sm, om, bucket, rule, now, marker, s');
        OnAndOn(states, ops, bucket, sm, om, states', ops');
      }
    }
  }

  lemma {:induction false} PassGoesOn(states: seq<Store>, ops: seq<Op>, bucket: string, rules: seq<Rule>, now: int,
                                      marker: string -> string, s': Store)
    returns (states': seq<Store>, ops': seq<Op>)
    requires ProperRun(states, ops) && Ready(states[|ops|], bucket, marker)
    requires Pass(states[|ops|], bucket, rules, now, marker, s')
    ensures GoesOn(states, ops, bucket, states', ops') && states'[|ops'|] == s' && Ready(s', bucket, marker)
  {
    states', ops' := states, ops;
    if |rules| > 0 {
      var n := |rules| - 1;
      var mid :| && Pass(states[|ops|], bucket, rules[..n], now, marker, mid)
                 && RuleStep(mid, bucket, rules[n], now, marker, s');
      var sm, om := PassGoesOn(states, ops, bucket, rules[..n], now, marker, mid);
      states', ops' := RuleGoesOn(sm, om, bucket, rules[n], now, marker, s');
      OnAndOn(states, ops, bucket, sm, om, states', ops');
    }
  }

  /**
   A pass is a proper run of deletions in its bucket and of aborts, when its delete markers
   get fresh identifiers; the hypothesis holds again afterwards.
   */
  lemma PassIsRun(s: Store, bucket: string, rules: seq<Rule>, now: int, marker: string -> string, s': Store)
    returns (states: seq<Store>, ops: seq<Op>)
    requires Tidy(s) && FreshMarkers(s, bucket, marker) && Pass(s, bucket, rules, now, marker, s')
    ensures ProperRun(states, ops) && states[0] == s && states[|ops|] == s'
    ensures forall i :: 0 <= i < |ops| ==> PassOp(ops[i], bucket)
    ensures Tidy(s') && FreshMarkers(s', bucket, marker)
  {
    states, ops := PassGoesOn([s], [], bucket, rules, now, marker, s');
  }

  /**
   What a pass expires was last written, by a put, a copy or a completion, more days ago than
   some rule allows, with tags that the rule asks for.
   */
  lemma ExpiredIsOld(states: seq<Store>, ops: seq<Op>, n: nat, bucket: string, rules: seq<Rule>, now: int,
                     marker: string -> string, s': Store, o: ObjId)
    requires Run(states, ops) && n <= |ops| && states[0].objects == map[] && bucket in states[n].buckets
    requires Pass(states[n], bucket, rules, now, marker, s') && o in states[n].objects && o !in s'.objects
    ensures var entry := ObjectReads.LastEntry(states, ops, n, o);
      entry.Some? && SomeDueFor(rules, o.key, entry.value, now)
  {
    ExpiryByAge(states[n], bucket, rules, now, marker, s', o);
    ObjectReads.EntriesAreLastWritten(states, ops, n, o);
  }

  /** What a pass aborts was started more days ago than some rule allows. */
  lemma AbortedIsOld(states: seq<Store>, ops: seq<Op>, n: nat, bucket: string, rules: seq<Rule>, now: int,
                     marker: string -> string, s': Store, id: string)
    requires Run(states, ops) && n <= |ops| && states[0].uploads == map[]
    requires Pass(states[n], bucket, rules, now, marker, s') && id in states[n].uploads && id !in s'.uploads
    ensures var up := ObjectReads.LastStarted(states, ops, n, id);
      up.Some? && up.value.bucket == bucket && TooOld(rules, up.value, now)
  {
    AbortsByAge(states[n], bucket, rules, now, marker, s', id);
    ObjectReads.UploadsAreLastStarted(states, ops, n, id);
  }

  // ------------------------------------------------------------------- histories

  datatype Event =
    | Single(op: Op)
    | LifecyclePass(bucket: string, rules: seq<Rule>, now: int, marker: string -> string)

  ghost predicate Happens(s: Store, e: Event, s': Store) {
    match e
    case Single(op) => Proper(s, op) && s' == Step(s, op).1
    case LifecyclePass(bucket, rules, now, marker) =>
      FreshMarkers(s, bucket, marker) && Pass(s, bucket, rules, now, marker, s')
  }

  /** Operations and whole passes, one after the other. */
  ghost predicate History(states: seq<Store>, events: seq<Event>) {
    && |states| == |events| + 1
    && forall i {:trigger events[i]} :: 0 <= i < |events| ==> Happens(states[i], events[i], states[i + 1])
  }

  /** The stretch of a run from position a to position b is what the event does. */
  predicate Covers(ops: seq<Op>, a: nat, b: nat, e: Event) {
    && a <= b <= |ops|
    && match e
       case Single(op) => b == a + 1 && ops[a] == op
       case LifecyclePass(bucket, _, _, _) => forall i :: a <= i < b ==> PassOp(ops[i], bucket)
  }

  /** The run passes through the states of the history, at the given positions. */
  ghost predicate Embeds(states: seq<Store>, events: seq<Event>, all: seq<Store>, ops: seq<Op>, at: seq<nat>) {
    && |states| == |at| == |events| + 1 && ProperRun(all, ops)
    && at[0] == 0 && at[|events|] == |ops|
    && (forall i :: 0 <= i < |at| ==> at[i] <= |ops| && all[at[i]] == states[i])
    && forall i {:trigger events[i]} :: 0 <= i < |events| ==> Covers(ops, at[i], at[i + 1], events[i])
  }

  lemma EventGoesOn(all: seq<Store>, ops: seq<Op>, e: Event, s': Store) returns (all': seq<Store>, ops': seq<Op>)
    requires ProperRun(all, ops) && Tidy(all[|ops|]) && Happens(all[|ops|], e, s')
    ensures ProperRun(all', ops') && all <= all' && ops <= ops'
    ensures all'[|ops'|] == s' && Covers(ops', |ops|, |ops'|, e)
  {
    match e
    case Single(op) =>
      ExtendRun(all, ops, op);
      all', ops' := all + [Step(all[|ops|], op).1], ops + [op];
    case LifecyclePass(bucket, rules, now, marker) =>
      all', ops' := PassGoesOn(all, ops, bucket, rules, now, marker, s');
  }

  lemma EmbedsOneMore(states: seq<Store>, events: seq<Event>, all: seq<Store>, ops: seq<Op>, at: seq<nat>,
                      all': seq<Store>, ops': seq<Op>)
    requires |events| > 0 && |states| == |events| + 1
    requires Embeds(states[..|events|], events[..|events| - 1], all, ops, at)
    requires ProperRun(all', ops') && all <= all' && ops <= ops' && all'[|ops'|] == states[|events|]
    requires Covers(ops', |ops|, |ops'|, events[|events| - 1])
    ensures Embeds(states, events, all', ops', at + [|ops'|])
  {
    var n := |events| - 1;
    var at' := at + [|ops'|];
    forall i | 0 <= i < |at'| ensures at'[i] <= |ops'| && all'[at'[i]] == states[i] {
      if i <= n {
        assert at[i] <= |ops| && all[at[i]] == states[..|events|][i];
      }
    }
    forall i | 0 <= i < |events| ensures Covers(ops', at'[i], at'[i + 1], events[i]) {
      if i < n {
        assert Covers(ops, at[i], at[i + 1], events[..n][i]);
      }
    }
  }

  lemma EarlierHistory(states: seq<Store>, events: seq<Event>)
    requires History(states, events) && |events| > 0
    ensures var n := |events|;
      History(states[..n], events[..n - 1]) && Happens(states[n - 1], events[n - 1], states[n])
  {
    var n := |events|;
    forall i | 0 <= i < n - 1 ensures Happens(states[..n][i], events[..n - 1][i], states[..n][i + 1]) {
      assert Happens(states[i], events[i], states[i + 1]);
    }
    assert Happens(states[n - 1], events[n - 1], states[n]);
  }

  /**
   Every history of operations and passes is embedded in a proper run of operations: all
   that is proved of runs holds of histories.
   */
  lemma {:induction false} HistoryIsRun(states: seq<Store>, events: seq<Event>)
    returns (all: seq<Store>, ops: seq<Op>, at: seq<nat>)
    requires History(states, events) && Tidy(states[0])
    ensures Embeds(states, events, all, ops, at)
    decreases |events|
  {
    var n := |events|;
    if n == 0 {
      all, ops, at := states, [], [0];
    } else {
      EarlierHistory(states, events);
      all, ops, at := HistoryIsRun(states[..n], events[..n - 1]);
      RunTidy(all, ops, |ops|);
      var all', ops' := EventGoesOn(all, ops, events[n - 1], states[n]);
      EmbedsOneMore(states, events, all, ops, at, all', ops');
      all, ops, at := all', ops', at + [|ops'|];
    }
  }

  /**
   Version immutability over histories: a stored version reads the same whatever passes hit
   its bucket, when the single operations spare it.
   */
  lemma {:induction false} HistoryKeepsVersions(states: seq<Store>, events: seq<Event>, v: VerId, data: Blob, i: nat,
                                                j: nat)
    requires History(states, events) && Tidy(states[0]) && i <= j < |states|
    requires VersionSafety.Stores(states[i], v, data)
    requires forall k {:trigger events[k]} :: i <= k < j && events[k].Single? ==>
               VersionSafety.Spares(states[k], events[k].op, v)
    ensures VersionSafety.Stores(states[j], v, data)
    decreases j - i
  {
    if i < j {
      HistoryKeepsVersions(states, events, v, data, i, j - 1);
      EventKeepsVersion(states, events, v, data, j - 1);
    }
  }

  lemma EventKeepsVersion(states: seq<Store>, events: seq<Event>, v: VerId, data: Blob, i: nat)
    requires History(states, events) && Tidy(states[0]) && i < |events|
    requires VersionSafety.Stores(states[i], v, data)
    requires events[i].Single? ==> VersionSafety.Spares(states[i], events[i].op, v)
    ensures VersionSafety.Stores(states[i + 1], v, data)
  {
    var all, ops, at := HistoryIsRun(states, events);
    assert Covers(ops, at[i], at[i + 1], events[i]);
    StretchSpares(all, ops, at[i], at[i + 1], events[i], v);
    VersionSafety.VersionsAreImmutable(all, ops, v, data, at[i], at[i + 1]);
  }

  /** No operation of a pass touches a version. */
  lemma StretchSpares(all: seq<Store>, ops: seq<Op>, a: nat, b: nat, e: Event, v: VerId)
    requires |all| == |ops| + 1 && Covers(ops, a, b, e)
    requires e.Single? ==> VersionSafety.Spares(all[a], e.op, v)
    ensures forall k {:trigger ops[k]} :: a <= k < b ==> VersionSafety.Spares(all[k], ops[k], v)
  {
    forall k | a <= k < b ensures VersionSafety.Spares(all[k], ops[k], v) {
    }
  }

  /** Accounting over histories: from a new bucket on, tame operations and any passes keep the counters right. */
  lemma HistoryTellsHoldings(states: seq<Store>, events: seq<Event>, bucket: string, i: nat)
    requires History(states, events) && i < |states|
    requires Tidy(states[0]) && Accounting.PartsTrue(states[0]) && Accounting.NewBucket(states[0], bucket)
    requires forall k {:trigger events[k]} :: 0 <= k < |events| && events[k].Single? ==>
               Accounting.TrueSize(events[k].op) && Accounting.Tame(states[k], events[k].op, bucket)
    ensures bucket in states[i].buckets && Accounting.Balanced(states[i], bucket)
  {
    var all, ops, at := HistoryIsRun(states, events);
    forall k | 0 <= k < |ops| ensures Accounting.TrueSize(ops[k]) && Accounting.Tame(all[k], ops[k], bucket) {
      var e := EventAt(states, events, all, ops, at, k);
    }
    Accounting.CountersTellHoldings(all, ops, bucket, at[i]);
  }

  /** The event to which an operation of the run belongs. */
  lemma {:induction false} EventBefore(ops: seq<Op>, events: seq<Event>, at: seq<nat>, n: nat, k: nat) returns (e: nat)
    requires |at| == |events| + 1 && n <= |events| && at[0] <= k < at[n]
    requires forall i {:trigger events[i]} :: 0 <= i < |events| ==> Covers(ops, at[i], at[i + 1], events[i])
    ensures e < n && at[e] <= k < at[e + 1]
  {
    e := n - 1;
    if k < at[e] {
      e := EventBefore(ops, events, at, e, k);
    }
  }

  lemma EventAt(states: seq<Store>, events: seq<Event>, all: seq<Store>, ops: seq<Op>, at: seq<nat>, k: nat)
    returns (e: nat)
    requires Embeds(states, events, all, ops, at) && k < |ops|
    ensures e < |events| && at[e] <= k < at[e + 1]
    ensures events[e].Single? ==> at[e] == k && ops[k] == events[e].op && all[k] == states[e]
    ensures events[e].LifecyclePass? ==> PassOp(ops[k], events[e].bucket)
  {
    e := EventBefore(ops, events, at, |events|, k);
    assert Covers(ops, at[e], at[e + 1], events[e]);
  }
}
