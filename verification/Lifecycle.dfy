/**
 Lifecycle passes (internal/storage/lifecycle.go) over one bucket: each enabled rule
 deletes the overdue objects among the first page of its prefix and aborts the stale
 uploads of the bucket. The clock is read once; a day is 24 hours, as in UTC.
 */
module Lifecycle {
  import opened Basics
  import opened Strings
  import opened Storage
  import opened Engine
  import Listing
  import VersionSafety

  datatype Rule = Rule(enabled: bool, prefix: string, tags: map<string, string>, expirationDays: int, abortDays: int)

  const DAY: int := 24 * 3600 * 1_000_000_000
  const PAGE: nat := 1000

  /** A tag that an object does not have reads as the empty string. */
  function TagOf(rec: ObjectRecord, k: string): string {
    if k in rec.tags then rec.tags[k] else ""
  }

  predicate MatchesFilter(key: string, rec: ObjectRecord, rule: Rule) {
    |rule.prefix| <= |key| && forall k :: k in rule.tags ==> TagOf(rec, k) == rule.tags[k]
  }

  predicate Overdue(rule: Rule, key: string, rec: ObjectRecord, now: int) {
    rec.lastModified < now - rule.expirationDays * DAY && MatchesFilter(key, rec, rule)
  }

  predicate Stale(rule: Rule, up: Upload, now: int) {
    up.initiated < now - rule.abortDays * DAY
  }

  function KeysUnder(objects: map<ObjId, ObjectRecord>, bucket: string, prefix: string): (ks: set<string>)
    ensures forall k :: k in ks <==> ObjId(bucket, k) in objects && prefix <= k
  {
    set o | o in objects && o.bucket == bucket && prefix <= o.key :: o.key
  }

  function UploadsIn(uploads: map<string, Upload>, bucket: string): set<string> {
    set id | id in uploads && uploads[id].bucket == bucket
  }

  /** The strings that pass the test, in order. */
  function Filter(ks: seq<string>, test: string -> bool): (r: seq<string>)
    ensures forall k :: k in r <==> k in ks && test(k)
  {
    if |ks| == 0 then []
    else
      var rest, last := Filter(ks[..|ks| - 1], test), ks[|ks| - 1];
      if test(last) then rest + [last] else rest
  }

  /** Deletions one after the other; `marker` makes the identifier of a delete marker. */
  function DeleteEach(s: Store, bucket: string, keys: seq<string>, marker: string -> string): Store {
    if |keys| == 0 then s
    else
      var n := |keys| - 1;
      DeleteObject(DeleteEach(s, bucket, keys[..n], marker), ObjId(bucket, keys[n]), marker(keys[n])).1
  }

  function AbortEach(s: Store, ids: seq<string>): Store {
    if |ids| == 0 then s else AbortUpload(AbortEach(s, ids[..|ids| - 1]), ids[|ids| - 1]).1
  }

  // ------------------------------------------------------------------ the pass

  /** The objects of a listed page that the rule deletes. */
  function OverdueOf(objects: map<ObjId, ObjectRecord>, bucket: string, rule: Rule, now: int,
                     page: seq<string>): seq<string>
  {
    Filter(page, k => ObjId(bucket, k) in objects && Overdue(rule, k, objects[ObjId(bucket, k)], now))
  }

  function StaleOf(uploads: map<string, Upload>, rule: Rule, now: int, ids: seq<string>): seq<string> {
    Filter(ids, id => id in uploads && Stale(rule, uploads[id], now))
  }

  ghost predicate Expires(s: Store, bucket: string, rule: Rule, now: int, marker: string -> string, s': Store) {
    exists page ::
      && Listing.FirstPage(KeysUnder(s.objects, bucket, rule.prefix), PAGE, page)
      && s' == DeleteEach(s, bucket, OverdueOf(s.objects, bucket, rule, now, page), marker)
  }

  ghost predicate AbortsStale(s: Store, bucket: string, rule: Rule, now: int, s': Store) {
    exists ids ::
      && StrictlyAscending(ids) && (forall id :: id in ids <==> id in UploadsIn(s.uploads, bucket))
      && s' == AbortEach(s, StaleOf(s.uploads, rule, now, ids))
  }

  ghost predicate ExpiryPart(s: Store, bucket: string, rule: Rule, now: int, marker: string -> string, s': Store) {
    if rule.expirationDays > 0 then Expires(s, bucket, rule, now, marker, s') else s' == s
  }

  ghost predicate AbortPart(s: Store, bucket: string, rule: Rule, now: int, s': Store) {
    if rule.abortDays > 0 then AbortsStale(s, bucket, rule, now, s') else s' == s
  }

  /** What one rule does: expiry first, then the uploads. */
  ghost predicate RuleStep(s: Store, bucket: string, rule: Rule, now: int, marker: string -> string, s': Store) {
    if !rule.enabled then s' == s
    else exists mid :: ExpiryPart(s, bucket, rule, now, marker, mid) && AbortPart(mid, bucket, rule, now, s')
  }

  ghost predicate Pass(s: Store, bucket: string, rules: seq<Rule>, now: int, marker: string -> string, s': Store) {
    if |rules| == 0 then s' == s
    else
      var n := |rules| - 1;
      exists mid :: Pass(s, bucket, rules[..n], now, marker, mid) && RuleStep(mid, bucket, rules[n], now, marker, s')
  }

  method ObjectMatchesFilter(key: string, rec: ObjectRecord, rule: Rule) returns (ok: bool)
    ensures ok <==> MatchesFilter(key, rec, rule)
  {
    if rule.prefix != "" {
      if |key| < |rule.prefix| {
        return false;
      }
    }
    var todo := rule.tags.Keys;
    while todo != {}
      invariant todo <= rule.tags.Keys
      invariant forall k :: k in rule.tags && k !in todo ==> TagOf(rec, k) == rule.tags[k]
      decreases todo
    {
      var k :| k in todo;
      if TagOf(rec, k) != rule.tags[k] {
        return false;
      }
      todo := todo - {k};
    }
    ok := true;
  }

  /** The listing that a rule works on; later deletions do not change it. */
  method ListKeys(objects: map<ObjId, ObjectRecord>, bucket: string, prefix: string, max: nat)
    returns (page: seq<string>)
    ensures Listing.FirstPage(KeysUnder(objects, bucket, prefix), max, page)
  {
    var keys := KeysUnder(objects, bucket, prefix);
    var list := Listing.SortedList(keys);
    page := list[..if max < |list| then max else |list|];
    Listing.CutIsFirstPage(keys, list, max);
  }

  method ExpireObjects(e: StorageEngine, bucket: string, rule: Rule, now: int, marker: string -> string)
    modifies e
    ensures Expires(old(e.State()), bucket, rule, now, marker, e.State())
  {
    var objects := e.objects;
    ghost var s := e.State();
    var page := ListKeys(objects, bucket, rule.prefix, PAGE);
    var threshold := now - rule.expirationDays * DAY;
    for i := 0 to |page|
      invariant e.State() == DeleteEach(s, bucket, OverdueOf(objects, bucket, rule, now, page[..i]), marker)
    {
      assert page[..i + 1][..i] == page[..i];
      assert page[i] in page;
      var rec := objects[ObjId(bucket, page[i])];
      if rec.lastModified < threshold {
        var matches := ObjectMatchesFilter(page[i], rec, rule);
        if !matches {
          continue;
        }
        ghost var done := OverdueOf(objects, bucket, rule, now, page[..i]);
        assert OverdueOf(objects, bucket, rule, now, page[..i + 1]) == done + [page[i]];
        assert (done + [page[i]])[..|done|] == done;
        var _ := e.Delete(ObjId(bucket, page[i]), marker(page[i]));
      }
    }
    assert page[..|page|] == page;
  }

  method AbortIncompleteMultiparts(e: StorageEngine, bucket: string, rule: Rule, now: int)
    modifies e
    ensures AbortsStale(old(e.State()), bucket, rule, now, e.State())
  {
    var uploads := e.uploads;
    ghost var s := e.State();
    var ids := Listing.SortedList(UploadsIn(uploads, bucket));
    var threshold := now - rule.abortDays * DAY;
    for i := 0 to |ids|
      invariant e.State() == AbortEach(s, StaleOf(uploads, rule, now, ids[..i]))
    {
      assert ids[..i + 1][..i] == ids[..i];
      assert ids[i] in ids;
      if uploads[ids[i]].initiated < threshold {
        ghost var done := StaleOf(uploads, rule, now, ids[..i]);
        assert StaleOf(uploads, rule, now, ids[..i + 1]) == done + [ids[i]];
        assert (done + [ids[i]])[..|done|] == done;
        var _ := e.Abort(ids[i]);
      }
    }
    assert ids[..|ids|] == ids;
  }

  method ApplyRule(e: StorageEngine, bucket: string, rule: Rule, now: int, marker: string -> string)
    requires rule.enabled
    modifies e
    ensures RuleStep(old(e.State()), bucket, rule, now, marker, e.State())
  {
    if rule.expirationDays > 0 {
      ExpireObjects(e, bucket, rule, now, marker);
    }
    ghost var mid := e.State();
    assert ExpiryPart(old(e.State()), bucket, rule, now, marker, mid);
    if rule.abortDays > 0 {
      AbortIncompleteMultiparts(e, bucket, rule, now);
    }
    assert AbortPart(mid, bucket, rule, now, e.State());
  }

  method ApplyBucketLifecycle(e: StorageEngine, bucket: string, rules: seq<Rule>, now: int, marker: string -> string)
    modifies e
    ensures Pass(old(e.State()), bucket, rules, now, marker, e.State())
  {
    for i := 0 to |rules|
      invariant Pass(old(e.State()), bucket, rules[..i], now, marker, e.State())
    {
      assert rules[..i + 1][..i] == rules[..i];
      ghost var before := e.State();
      if rules[i].enabled {
        ApplyRule(e, bucket, rules[i], now, marker);
      }
      assert RuleStep(before, bucket, rules[i], now, marker, e.State());
    }
    assert rules[..|rules|] == rules;
  }

  // ------------------------------------------------------ what deletions and aborts do

  /** The bucket is there before and after, under the same versioning. */
  ghost predicate SameVersioning(s: Store, s': Store, bucket: string) {
    bucket in s.buckets && bucket in s'.buckets && s'.buckets[bucket].versioning == s.buckets[bucket].versioning
  }

  /** Under any versioning a deletion takes the object, and nothing else, out of the index. */
  lemma DeleteOne(s: Store, o: ObjId, marker: string)
    requires o.bucket in s.buckets
    ensures var s' := DeleteObject(s, o, marker).1;
      && s'.buckets.Keys == s.buckets.Keys && s'.buckets[o.bucket].versioning == s.buckets[o.bucket].versioning
      && s'.uploads == s.uploads && s'.parts == s.parts && s'.objects == s.objects - {o}
  {
  }

  lemma {:induction false} DeleteEachRemoves(s: Store, bucket: string, keys: seq<string>, marker: string -> string)
    requires bucket in s.buckets
    ensures var s' := DeleteEach(s, bucket, keys, marker);
      && SameVersioning(s, s', bucket)
      && s'.uploads == s.uploads && s'.parts == s.parts
      && forall o :: Get(s'.objects, o) == if o.bucket == bucket && o.key in keys then None else Get(s.objects, o)
  {
    if |keys| > 0 {
      var n := |keys| - 1;
      DeleteEachRemoves(s, bucket, keys[..n], marker);
      DeleteOne(DeleteEach(s, bucket, keys[..n], marker), ObjId(bucket, keys[n]), marker(keys[n]));
      assert keys == keys[..n] + [keys[n]];
    }
  }

  lemma AbortOne(s: Store, id: string)
    ensures var s' := AbortUpload(s, id).1;
      s'.objects == s.objects && s'.buckets == s.buckets && s'.versions == s.versions && s'.uploads == s.uploads - {id}
  {
  }

  lemma {:induction false} AbortEachRemoves(s: Store, ids: seq<string>)
    ensures var s' := AbortEach(s, ids);
      && s'.objects == s.objects && s'.buckets == s.buckets && s'.versions == s.versions
      && forall id :: Get(s'.uploads, id) == if id in ids then None else Get(s.uploads, id)
  {
    if |ids| > 0 {
      var n := |ids| - 1;
      AbortEachRemoves(s, ids[..n]);
      AbortOne(AbortEach(s, ids[..n]), ids[n]);
      assert ids == ids[..n] + [ids[n]];
    }
  }

  // --------------------------------------------------------------------- exactness

  /** The rule would expire the object: by its days, its prefix and its tags. */
  predicate Expirable(rule: Rule, key: string, rec: ObjectRecord, now: int) {
    rule.enabled && rule.expirationDays > 0 && rule.prefix <= key && Overdue(rule, key, rec, now)
  }

  ghost predicate ExpirableByAny(rules: seq<Rule>, key: string, rec: ObjectRecord, now: int) {
    exists i :: 0 <= i < |rules| && Expirable(rules[i], key, rec, now)
  }

  /** The rule's listing shows the key: fewer than a page of the prefix's keys come before it. */
  ghost predicate Shown(objects: map<ObjId, ObjectRecord>, bucket: string, prefix: string, key: string) {
    |Listing.Below(KeysUnder(objects, bucket, prefix), key)| < PAGE
  }

  /** One rule's expiry removes exactly the expirable objects that its listing shows. */
  lemma ExpiryExact(s: Store, bucket: string, rule: Rule, now: int, marker: string -> string, s': Store, o: ObjId)
    requires bucket in s.buckets && Expires(s, bucket, rule, now, marker, s')
    ensures SameVersioning(s, s', bucket) && s'.uploads == s.uploads
    ensures Get(s'.objects, o) ==
            if o in s.objects && o.bucket == bucket && rule.prefix <= o.key && Overdue(rule, o.key, s.objects[o], now)
               && Shown(s.objects, bucket, rule.prefix, o.key)
            then None else Get(s.objects, o)
  {
    var page :| Listing.FirstPage(KeysUnder(s.objects, bucket, rule.prefix), PAGE, page)
                && s' == DeleteEach(s, bucket, OverdueOf(s.objects, bucket, rule, now, page), marker);
    var keys := OverdueOf(s.objects, bucket, rule, now, page);
    DeleteEachRemoves(s, bucket, keys, marker);
  }

  /** One rule on one object. */
  lemma RuleExact(s: Store, bucket: string, rule: Rule, now: int, marker: string -> string, s': Store, o: ObjId)
    requires bucket in s.buckets && RuleStep(s, bucket, rule, now, marker, s')
    ensures SameVersioning(s, s', bucket)
    ensures Get(s'.objects, o) ==
            if o in s.objects && o.bucket == bucket && Expirable(rule, o.key, s.objects[o], now)
               && Shown(s.objects, bucket, rule.prefix, o.key)
            then None else Get(s.objects, o)
  {
    if rule.enabled {
      var mid :| ExpiryPart(s, bucket, rule, now, marker, mid) && AbortPart(mid, bucket, rule, now, s');
      if rule.expirationDays > 0 {
        ExpiryExact(s, bucket, rule, now, marker, mid, o);
      }
      if rule.abortDays > 0 {
        AbortsKeepObjects(mid, bucket, rule, now, s');
      }
    }
  }

  lemma AbortsKeepObjects(s: Store, bucket: string, rule: Rule, now: int, s': Store)
    requires AbortsStale(s, bucket, rule, now, s')
    ensures s'.objects == s.objects && s'.buckets == s.buckets && s'.versions == s.versions
  {
    var ids :| && StrictlyAscending(ids) && (forall id :: id in ids <==> id in UploadsIn(s.uploads, bucket))
               && s' == AbortEach(s, StaleOf(s.uploads, rule, now, ids));
    AbortEachRemoves(s, StaleOf(s.uploads, rule, now, ids));
  }

  /** The prefix of each rule that expires objects covers no more than a page of keys. */
  ghost predicate Covered(s: Store, bucket: string, rules: seq<Rule>) {
    forall i :: 0 <= i < |rules| && rules[i].enabled && rules[i].expirationDays > 0 ==>
      |KeysUnder(s.objects, bucket, rules[i].prefix)| <= PAGE
  }

  /** With no more than a page of keys, also after some objects are gone, each key is shown. */
  lemma AllShown(objects: map<ObjId, ObjectRecord>, fewer: map<ObjId, ObjectRecord>, bucket: string, prefix: string,
                 key: string)
    requires fewer.Keys <= objects.Keys && |KeysUnder(objects, bucket, prefix)| <= PAGE
    requires ObjId(bucket, key) in fewer && prefix <= key
    ensures Shown(fewer, bucket, prefix, key)
  {
    var keys := KeysUnder(objects, bucket, prefix);
    Irreflexive(key);
    SubsetSize(Listing.Below(KeysUnder(fewer, bucket, prefix), key), keys - {key});
  }

  lemma AnySplits(rules: seq<Rule>, key: string, rec: ObjectRecord, now: int)
    requires |rules| > 0
    ensures ExpirableByAny(rules, key, rec, now) <==>
            ExpirableByAny(rules[..|rules| - 1], key, rec, now) || Expirable(rules[|rules| - 1], key, rec, now)
  {
    var n := |rules| - 1;
    if ExpirableByAny(rules[..n], key, rec, now) {
      var i :| 0 <= i < n && Expirable(rules[..n][i], key, rec, now);
      assert rules[i] == rules[..n][i];
    }
    if ExpirableByAny(rules, key, rec, now) && !Expirable(rules[n], key, rec, now) {
      var i :| 0 <= i < |rules| && Expirable(rules[i], key, rec, now);
      assert rules[..n][i] == rules[i];
    }
  }

  /** The index only lost entries. */
  ghost predicate Shrunk(s: Store, s': Store) {
    forall o :: o in s'.objects ==> o in s.objects && s'.objects[o] == s.objects[o]
  }

  lemma RuleShrinks(s: Store, bucket: string, rule: Rule, now: int, marker: string -> string, s': Store)
    requires bucket in s.buckets && RuleStep(s, bucket, rule, now, marker, s')
    ensures SameVersioning(s, s', bucket) && Shrunk(s, s')
  {
    forall o
      ensures SameVersioning(s, s', bucket) && (o in s'.objects ==> o in s.objects && s'.objects[o] == s.objects[o])
    {
      RuleExact(s, bucket, rule, now, marker, s', o);
    }
  }

  lemma {:induction false} PassShrinks(s: Store, bucket: string, rules: seq<Rule>, now: int, marker: string -> string,
                                       s': Store)
    requires bucket in s.buckets && Pass(s, bucket, rules, now, marker, s')
    ensures SameVersioning(s, s', bucket) && Shrunk(s, s')
  {
    if |rules| > 0 {
      var n := |rules| - 1;
      var mid :| Pass(s, bucket, rules[..n], now, marker, mid) && RuleStep(mid, bucket, rules[n], now, marker, s');
      PassShrinks(s, bucket, rules[..n], now, marker, mid);
      RuleShrinks(mid, bucket, rules[n], now, marker, s');
    }
  }

  /** What a pass may and must do to one object. */
  ghost predicate Exact(s: Store, bucket: string, rules: seq<Rule>, now: int, s': Store, o: ObjId) {
    && (o in s'.objects ==> o in s.objects && s'.objects[o] == s.objects[o])
    && (o in s.objects && o !in s'.objects ==> o.bucket == bucket && ExpirableByAny(rules, o.key, s.objects[o], now))
    && (Covered(s, bucket, rules) && o in s.objects && o in s'.objects && o.bucket == bucket ==>
          !ExpirableByAny(rules, o.key, s.objects[o], now))
  }

  lemma LastRuleExact(s: Store, bucket: string, rules: seq<Rule>, now: int, marker: string -> string,
                      mid: Store, s': Store, o: ObjId)
    requires |rules| > 0 && bucket in mid.buckets && RuleStep(mid, bucket, rules[|rules| - 1], now, marker, s')
    requires Shrunk(s, mid) && Exact(s, bucket, rules[..|rules| - 1], now, mid, o)
    ensures Exact(s, bucket, rules, now, s', o)
  {
    var n := |rules| - 1;
    var last := rules[n];
    RuleExact(mid, bucket, last, now, marker, s', o);
    if o in s.objects {
      AnySplits(rules, o.key, s.objects[o], now);
      if Covered(s, bucket, rules) && o in mid.objects && Expirable(last, o.key, s.objects[o], now)
        && o.bucket == bucket {
        AllShown(s.objects, mid.objects, bucket, last.prefix, o.key);
      }
      assert Covered(s, bucket, rules) ==> Covered(s, bucket, rules[..n]);
    }
  }

  lemma {:induction false} PassExact(s: Store, bucket: string, rules: seq<Rule>, now: int, marker: string -> string,
                                     s': Store, o: ObjId)
    requires bucket in s.buckets && Pass(s, bucket, rules, now, marker, s')
    ensures Exact(s, bucket, rules, now, s', o)
  {
    if |rules| > 0 {
      var n := |rules| - 1;
      var mid :| Pass(s, bucket, rules[..n], now, marker, mid) && RuleStep(mid, bucket, rules[n], now, marker, s');
      PassShrinks(s, bucket, rules[..n], now, marker, mid);
      PassExact(s, bucket, rules[..n], now, marker, mid, o);
      LastRuleExact(s, bucket, rules, now, marker, mid, s', o);
    }
  }

  /**
   Lifecycle exactness: under any versioning a pass takes no object out of the index
   unless some enabled rule with positive days covers it by prefix, by every tag and by
   age, and changes no other index entry; when each such rule's prefix covers no more
   than a page of keys, it removes them all.
   */
  lemma {:induction false} LifecycleExact(s: Store, bucket: string, rules: seq<Rule>, now: int,
                                          marker: string -> string, s': Store, o: ObjId)
    requires bucket in s.buckets && Pass(s, bucket, rules, now, marker, s')
    ensures o in s'.objects ==> o in s.objects && s'.objects[o] == s.objects[o]
    ensures o in s.objects && o !in s'.objects ==> o.bucket == bucket && ExpirableByAny(rules, o.key, s.objects[o], now)
    ensures Covered(s, bucket, rules) && o in s.objects ==>
              (o !in s'.objects <==> o.bucket == bucket && ExpirableByAny(rules, o.key, s.objects[o], now))
  {
    PassExact(s, bucket, rules, now, marker, s', o);
  }

  // ------------------------------------------------------------- in plain terms

  /**
   An enabled rule with positive days is due for the object: its key has the prefix, it was
   last modified more than that many days of 86,400 seconds ago, and each tag of the rule
   has its value on the object, where a missing tag is an empty one.
   */
  ghost predicate DueFor(rule: Rule, key: string, rec: ObjectRecord, now: int) {
    && rule.enabled && rule.expirationDays > 0 && rule.prefix <= key
    && now - rec.lastModified > rule.expirationDays * 86_400_000_000_000
    && forall k :: k in rule.tags ==>
         (k in rec.tags && rec.tags[k] == rule.tags[k]) || (k !in rec.tags && rule.tags[k] == "")
  }

  lemma DueIsExpirable(rule: Rule, key: string, rec: ObjectRecord, now: int)
    ensures DueFor(rule, key, rec, now) <==> Expirable(rule, key, rec, now)
  {
    assert DAY == 86_400_000_000_000;
    assert forall k :: k in rule.tags ==>
      (TagOf(rec, k) == rule.tags[k] <==>
       (k in rec.tags && rec.tags[k] == rule.tags[k]) || (k !in rec.tags && rule.tags[k] == ""));
  }

  ghost predicate SomeDueFor(rules: seq<Rule>, key: string, rec: ObjectRecord, now: int) {
    exists i :: 0 <= i < |rules| && DueFor(rules[i], key, rec, now)
  }

  lemma SomeDueIsExpirable(rules: seq<Rule>, key: string, rec: ObjectRecord, now: int)
    ensures SomeDueFor(rules, key, rec, now) <==> ExpirableByAny(rules, key, rec, now)
  {
    forall i | 0 <= i < |rules| ensures DueFor(rules[i], key, rec, now) <==> Expirable(rules[i], key, rec, now) {
      DueIsExpirable(rules[i], key, rec, now);
    }
  }

  /** Each rule's prefix covers at most a thousand keys of the bucket. */
  ghost predicate AtMostAThousand(s: Store, bucket: string, rules: seq<Rule>) {
    forall i :: 0 <= i < |rules| ==>
      |set o | o in s.objects && o.bucket == bucket && rules[i].prefix <= o.key :: o.key| <= 1000
  }

  /**
   Expiry by age: a pass takes an object out of the index only when some rule is due for it,
   and takes out all such objects of the bucket when each prefix covers at most a thousand.
   */
  lemma ExpiryByAge(s: Store, bucket: string, rules: seq<Rule>, now: int, marker: string -> string, s': Store, o: ObjId)
    requires bucket in s.buckets && Pass(s, bucket, rules, now, marker, s') && o in s.objects
    ensures o !in s'.objects ==> o.bucket == bucket && SomeDueFor(rules, o.key, s.objects[o], now)
    ensures AtMostAThousand(s, bucket, rules) ==>
              (o !in s'.objects <==> o.bucket == bucket && SomeDueFor(rules, o.key, s.objects[o], now))
  {
    LifecycleExact(s, bucket, rules, now, marker, s', o);
    SomeDueIsExpirable(rules, o.key, s.objects[o], now);
    if AtMostAThousand(s, bucket, rules) {
      forall i | 0 <= i < |rules| ensures |KeysUnder(s.objects, bucket, rules[i].prefix)| <= PAGE {
        assert KeysUnder(s.objects, bucket, rules[i].prefix) ==
          set p | p in s.objects && p.bucket == bucket && rules[i].prefix <= p.key :: p.key;
      }
    }
  }

  /** The keys of the prefix that come before the key. */
  ghost function Before(s: Store, bucket: string, prefix: string, key: string): set<string> {
    set o | o in s.objects && o.bucket == bucket && prefix <= o.key && Less(o.key, key) :: o.key
  }

  lemma BeforeIsBelow(s: Store, bucket: string, prefix: string, key: string)
    ensures Before(s, bucket, prefix, key) == Listing.Below(KeysUnder(s.objects, bucket, prefix), key)
  {
  }

  /** One rule's expiry takes exactly the objects for which it is due with fewer than a thousand keys before them. */
  lemma RuleByAge(s: Store, bucket: string, rule: Rule, now: int, marker: string -> string, s': Store, o: ObjId)
    requires bucket in s.buckets && Expires(s, bucket, rule, now, marker, s')
    requires rule.enabled && rule.expirationDays > 0 && o in s.objects
    ensures o !in s'.objects <==>
            && o.bucket == bucket && DueFor(rule, o.key, s.objects[o], now)
            && |Before(s, bucket, rule.prefix, o.key)| < 1000
  {
    ExpiryExact(s, bucket, rule, now, marker, s', o);
    DueIsExpirable(rule, o.key, s.objects[o], now);
    BeforeIsBelow(s, bucket, rule.prefix, o.key);
  }

  /** An enabled rule with positive abort days finds the upload more than that many days old. */
  ghost predicate TooOld(rules: seq<Rule>, up: Upload, now: int) {
    exists i :: 0 <= i < |rules| && rules[i].enabled && rules[i].abortDays > 0
      && now - up.initiated > rules[i].abortDays * 86_400_000_000_000
  }

  /** A pass ends exactly the bucket's uploads that are too old by some rule. */
  lemma AbortsByAge(s: Store, bucket: string, rules: seq<Rule>, now: int, marker: string -> string, s': Store,
                    id: string)
    requires Pass(s, bucket, rules, now, marker, s')
    ensures Get(s'.uploads, id) ==
            if id in s.uploads && s.uploads[id].bucket == bucket && TooOld(rules, s.uploads[id], now)
            then None else Get(s.uploads, id)
  {
    AbortsExact(s, bucket, rules, now, marker, s', id);
    if id in s.uploads {
      var up := s.uploads[id];
      assert DAY == 86_400_000_000_000;
      forall i | 0 <= i < |rules|
        ensures Stale(rules[i], up, now) <==> now - up.initiated > rules[i].abortDays * 86_400_000_000_000
      {
      }
      assert TooOld(rules, up, now) <==> StaleByAny(rules, up, now);
    }
  }

  // ------------------------------------------------------------ what objects keep

  ghost predicate ProperKeys(s: Store) {
    forall o :: o in s.objects ==> !IsPartName(o.key)
  }

  /** An entry that the index lost named the blob. */
  ghost predicate Freed(s: Store, s': Store, id: BlobId) {
    exists o :: o in s.objects && o !in s'.objects && BlobOf(o, s.objects[o]) == id
  }

  /** In a bucket that does not keep versions, what the index lost takes its blobs along, and nothing else goes. */
  ghost predicate BlobExact(s: Store, s': Store, bucket: string, id: BlobId)
    requires bucket in s.buckets
  {
    Get(s'.blobs, id) ==
    if s.buckets[bucket].versioning != Enabled && Freed(s, s', id) then None else Get(s.blobs, id)
  }

  lemma SameBlobsExact(s: Store, s': Store, bucket: string, id: BlobId)
    requires bucket in s.buckets && s'.objects == s.objects && Get(s'.blobs, id) == Get(s.blobs, id)
    ensures BlobExact(s, s', bucket, id)
  {
  }

  lemma BlobExactTwice(s: Store, mid: Store, s': Store, bucket: string, id: BlobId)
    requires SameVersioning(s, mid, bucket) && Shrunk(s, mid) && Shrunk(mid, s')
    requires BlobExact(s, mid, bucket, id) && BlobExact(mid, s', bucket, id)
    ensures BlobExact(s, s', bucket, id)
  {
    if Freed(s, s', id) {
      var o :| o in s.objects && o !in s'.objects && BlobOf(o, s.objects[o]) == id;
      assert o in mid.objects ==> Freed(mid, s', id);
    }
    if Freed(s, mid, id) {
      var o :| o in s.objects && o !in mid.objects && BlobOf(o, s.objects[o]) == id;
      assert o !in s'.objects;
    }
    if Freed(mid, s', id) {
      var o :| o in mid.objects && o !in s'.objects && BlobOf(o, mid.objects[o]) == id;
      assert o in s.objects;
    }
  }

  lemma DeleteOneBlobs(s: Store, o: ObjId, marker: string, id: BlobId)
    requires o.bucket in s.buckets
    ensures var s' := DeleteObject(s, o, marker).1;
      SameVersioning(s, s', o.bucket) && Shrunk(s, s') && BlobExact(s, s', o.bucket, id)
  {
    var s' := DeleteObject(s, o, marker).1;
    DeleteOne(s, o, marker);
    if o in s.objects && BlobOf(o, s.objects[o]) == id {
      assert Freed(s, s', id);
    }
  }

  lemma {:induction false} DeleteEachBlobs(s: Store, bucket: string, keys: seq<string>, marker: string -> string,
                                           id: BlobId)
    requires bucket in s.buckets
    ensures var s' := DeleteEach(s, bucket, keys, marker);
      SameVersioning(s, s', bucket) && Shrunk(s, s') && BlobExact(s, s', bucket, id)
  {
    if |keys| > 0 {
      var n := |keys| - 1;
      var mid, o := DeleteEach(s, bucket, keys[..n], marker), ObjId(bucket, keys[n]);
      DeleteEachBlobs(s, bucket, keys[..n], marker, id);
      DeleteOneBlobs(mid, o, marker(keys[n]), id);
      BlobExactTwice(s, mid, DeleteObject(mid, o, marker(keys[n])).1, bucket, id);
    } else {
      SameBlobsExact(s, s, bucket, id);
    }
  }

  /** Aborts drop part blobs only. */
  lemma {:induction false} AbortEachBlobs(s: Store, ids: seq<string>, id: BlobId)
    requires !IsPartName(id.name)
    ensures Get(AbortEach(s, ids).blobs, id) == Get(s.blobs, id)
  {
    if |ids| > 0 {
      AbortEachBlobs(s, ids[..|ids| - 1], id);
    }
  }

  lemma ExpiryBlobs(s: Store, bucket: string, rule: Rule, now: int, marker: string -> string, s': Store, id: BlobId)
    requires bucket in s.buckets && Expires(s, bucket, rule, now, marker, s')
    ensures SameVersioning(s, s', bucket) && Shrunk(s, s') && BlobExact(s, s', bucket, id)
  {
    var page :| Listing.FirstPage(KeysUnder(s.objects, bucket, rule.prefix), PAGE, page)
                && s' == DeleteEach(s, bucket, OverdueOf(s.objects, bucket, rule, now, page), marker);
    DeleteEachBlobs(s, bucket, OverdueOf(s.objects, bucket, rule, now, page), marker, id);
  }

  lemma AbortBlobs(s: Store, bucket: string, rule: Rule, now: int, s': Store, id: BlobId)
    requires bucket in s.buckets && AbortsStale(s, bucket, rule, now, s') && !IsPartName(id.name)
    ensures SameVersioning(s, s', bucket) && Shrunk(s, s') && BlobExact(s, s', bucket, id)
  {
    var ids :| && StrictlyAscending(ids) && (forall id :: id in ids <==> id in UploadsIn(s.uploads, bucket))
               && s' == AbortEach(s, StaleOf(s.uploads, rule, now, ids));
    AbortEachRemoves(s, StaleOf(s.uploads, rule, now, ids));
    AbortEachBlobs(s, StaleOf(s.uploads, rule, now, ids), id);
    SameBlobsExact(s, s', bucket, id);
  }

  lemma RuleBlobs(s: Store, bucket: string, rule: Rule, now: int, marker: string -> string, s': Store, id: BlobId)
    requires bucket in s.buckets && RuleStep(s, bucket, rule, now, marker, s') && !IsPartName(id.name)
    ensures SameVersioning(s, s', bucket) && Shrunk(s, s') && BlobExact(s, s', bucket, id)
  {
    SameBlobsExact(s, s, bucket, id);
    if rule.enabled {
      var mid :| ExpiryPart(s, bucket, rule, now, marker, mid) && AbortPart(mid, bucket, rule, now, s');
      if rule.expirationDays > 0 {
        ExpiryBlobs(s, bucket, rule, now, marker, mid, id);
      }
      if rule.abortDays > 0 {
        AbortBlobs(mid, bucket, rule, now, s', id);
        BlobExactTwice(s, mid, s', bucket, id);
      }
    }
  }

  /**
   A pass takes a blob that is no part exactly when the bucket does not keep versions and an entry that
   went named it.
   */
  lemma {:induction false} PassBlobs(s: Store, bucket: string, rules: seq<Rule>, now: int, marker: string -> string,
                                     s': Store, id: BlobId)
    requires bucket in s.buckets && Pass(s, bucket, rules, now, marker, s') && !IsPartName(id.name)
    ensures SameVersioning(s, s', bucket) && Shrunk(s, s') && BlobExact(s, s', bucket, id)
  {
    if |rules| > 0 {
      var n := |rules| - 1;
      var mid :| Pass(s, bucket, rules[..n], now, marker, mid) && RuleStep(mid, bucket, rules[n], now, marker, s');
      PassBlobs(s, bucket, rules[..n], now, marker, mid, id);
      RuleBlobs(mid, bucket, rules[n], now, marker, s', id);
      BlobExactTwice(s, mid, s', bucket, id);
    } else {
      SameBlobsExact(s, s, bucket, id);
    }
  }

  /**
   An object that a pass leaves reads as before it, unless the bucket does not keep versions
   and an entry that went shares the object's blob.
   */
  lemma PassSparesIff(s: Store, bucket: string, rules: seq<Rule>, now: int, marker: string -> string, s': Store,
                      o: ObjId)
    requires bucket in s.buckets && ProperKeys(s) && Pass(s, bucket, rules, now, marker, s') && o in s'.objects
    ensures o in s.objects && s'.objects[o] == s.objects[o]
    ensures GetObject(s', o) == GetObject(s, o) <==>
            GetObject(s, o) == None || s.buckets[bucket].versioning == Enabled || !Freed(s, s', BlobOf(o, s.objects[o]))
  {
    PassShrinks(s, bucket, rules, now, marker, s');
    VersionedNameIsNoPart(o.key, s.objects[o].versionID);
    PassBlobs(s, bucket, rules, now, marker, s', BlobOf(o, s.objects[o]));
  }

  /** The entries of the bucket, unless it keeps versions, name a blob each. */
  ghost predicate OwnBlobs(s: Store, bucket: string)
    requires bucket in s.buckets
  {
    s.buckets[bucket].versioning != Enabled ==>
      forall o, p ::
        o in s.objects && p in s.objects && o.bucket == bucket && BlobOf(o, s.objects[o]) == BlobOf(p, s.objects[p]) ==>
          o == p
  }

  /**
   Two entries share a blob exactly when one of them is plain and its key spells the blob name of the
   other's version.
   */
  lemma SharedBlobIff(o: ObjId, rec: ObjectRecord, p: ObjId, rec': ObjectRecord)
    requires o != p && (rec.versionID == "" || IsId(rec.versionID)) && (rec'.versionID == "" || IsId(rec'.versionID))
    ensures BlobOf(o, rec) == BlobOf(p, rec') <==>
            && o.bucket == p.bucket
            && (|| (rec.versionID == "" && rec'.versionID != "" && o.key == VersionedName(p.key, rec'.versionID))
                || (rec'.versionID == "" && rec.versionID != "" && p.key == VersionedName(o.key, rec.versionID)))
  {
    if rec.versionID != "" && rec'.versionID != "" && BlobOf(o, rec) == BlobOf(p, rec') {
      VersionedNameInjective(o.key, rec.versionID, p.key, rec'.versionID);
    }
  }

  /** So the objects that a pass leaves, in any bucket, read as before it. */
  lemma PassSparesContents(s: Store, bucket: string, rules: seq<Rule>, now: int, marker: string -> string, s': Store)
    requires bucket in s.buckets && ProperKeys(s) && OwnBlobs(s, bucket) && Pass(s, bucket, rules, now, marker, s')
    ensures Shrunk(s, s') && forall o :: o in s'.objects ==> GetObject(s', o) == GetObject(s, o)
  {
    PassShrinks(s, bucket, rules, now, marker, s');
    forall o | o in s'.objects ensures GetObject(s', o) == GetObject(s, o) {
      PassSparesIff(s, bucket, rules, now, marker, s', o);
      if s.buckets[bucket].versioning != Enabled && Freed(s, s', BlobOf(o, s.objects[o])) {
        var p :| p in s.objects && p !in s'.objects && BlobOf(p, s.objects[p]) == BlobOf(o, s.objects[o]);
        PassExact(s, bucket, rules, now, marker, s', p);
      }
    }
  }

  // ------------------------------------------------------------- what versions keep

  lemma DeleteOneKeeps(s: Store, o: ObjId, marker: string, v: VerId, data: Blob)
    requires VersionSafety.Stores(s, v, data) && marker != v.version
    ensures VersionSafety.Stores(DeleteObject(s, o, marker).1, v, data)
  {
  }

  lemma AbortOneKeeps(s: Store, id: string, v: VerId, data: Blob)
    requires VersionSafety.Stores(s, v, data) && !IsPartName(v.key)
    ensures VersionSafety.Stores(AbortUpload(s, id).1, v, data)
  {
    VersionedNameIsNoPart(v.key, v.version);
  }

  lemma {:induction false} DeleteEachKeeps(s: Store, bucket: string, keys: seq<string>, marker: string -> string,
                                           v: VerId, data: Blob)
    requires VersionSafety.Stores(s, v, data) && forall k :: k in keys ==> marker(k) != v.version
    ensures VersionSafety.Stores(DeleteEach(s, bucket, keys, marker), v, data)
  {
    if |keys| > 0 {
      var n := |keys| - 1;
      DeleteEachKeeps(s, bucket, keys[..n], marker, v, data);
      DeleteOneKeeps(DeleteEach(s, bucket, keys[..n], marker), ObjId(bucket, keys[n]), marker(keys[n]), v, data);
    }
  }

  lemma {:induction false} AbortEachKeeps(s: Store, ids: seq<string>, v: VerId, data: Blob)
    requires VersionSafety.Stores(s, v, data) && !IsPartName(v.key)
    ensures VersionSafety.Stores(AbortEach(s, ids), v, data)
  {
    if |ids| > 0 {
      var n := |ids| - 1;
      AbortEachKeeps(s, ids[..n], v, data);
      AbortOneKeeps(AbortEach(s, ids[..n]), ids[n], v, data);
    }
  }

  lemma RuleKeepsVersion(s: Store, bucket: string, rule: Rule, now: int, marker: string -> string, s': Store, v: VerId,
                         data: Blob)
    requires RuleStep(s, bucket, rule, now, marker, s') && !IsPartName(v.key)
    requires VersionSafety.Stores(s, v, data) && forall k :: marker(k) != v.version
    ensures VersionSafety.Stores(s', v, data)
  {
    if rule.enabled {
      var mid :| ExpiryPart(s, bucket, rule, now, marker, mid) && AbortPart(mid, bucket, rule, now, s');
      if rule.expirationDays > 0 {
        ExpiryKeepsVersion(s, bucket, rule, now, marker, mid, v, data);
      }
      if rule.abortDays > 0 {
        AbortsKeepVersion(mid, bucket, rule, now, s', v, data);
      }
    }
  }

  lemma ExpiryKeepsVersion(s: Store, bucket: string, rule: Rule, now: int, marker: string -> string, s': Store,
                           v: VerId, data: Blob)
    requires Expires(s, bucket, rule, now, marker, s')
    requires VersionSafety.Stores(s, v, data) && forall k :: marker(k) != v.version
    ensures VersionSafety.Stores(s', v, data)
  {
    var page :| Listing.FirstPage(KeysUnder(s.objects, bucket, rule.prefix), PAGE, page)
                && s' == DeleteEach(s, bucket, OverdueOf(s.objects, bucket, rule, now, page), marker);
    DeleteEachKeeps(s, bucket, OverdueOf(s.objects, bucket, rule, now, page), marker, v, data);
  }

  lemma AbortsKeepVersion(s: Store, bucket: string, rule: Rule, now: int, s': Store, v: VerId, data: Blob)
    requires AbortsStale(s, bucket, rule, now, s') && VersionSafety.Stores(s, v, data) && !IsPartName(v.key)
    ensures VersionSafety.Stores(s', v, data)
  {
    var ids :| && StrictlyAscending(ids) && (forall id :: id in ids <==> id in UploadsIn(s.uploads, bucket))
               && s' == AbortEach(s, StaleOf(s.uploads, rule, now, ids));
    AbortEachKeeps(s, StaleOf(s.uploads, rule, now, ids), v, data);
  }

  /** Version immutability across lifecycle passes: a pass over any bucket leaves every stored version as it was. */
  lemma {:induction false} PassKeepsVersions(s: Store, bucket: string, rules: seq<Rule>, now: int,
                                             marker: string -> string, s': Store, v: VerId, data: Blob)
    requires Pass(s, bucket, rules, now, marker, s') && !IsPartName(v.key)
    requires VersionSafety.Stores(s, v, data) && forall k :: marker(k) != v.version
    ensures VersionSafety.Stores(s', v, data)
  {
    if |rules| > 0 {
      var n := |rules| - 1;
      var mid :| Pass(s, bucket, rules[..n], now, marker, mid) && RuleStep(mid, bucket, rules[n], now, marker, s');
      PassKeepsVersions(s, bucket, rules[..n], now, marker, mid, v, data);
      RuleKeepsVersion(mid, bucket, rules[n], now, marker, s', v, data);
    }
  }

  // ---------------------------------------------------------------- stale uploads

  ghost predicate StaleByAny(rules: seq<Rule>, up: Upload, now: int) {
    exists i :: 0 <= i < |rules| && rules[i].enabled && rules[i].abortDays > 0 && Stale(rules[i], up, now)
  }

  lemma DeleteKeepsUploads(s: Store, o: ObjId, marker: string)
    ensures DeleteObject(s, o, marker).1.uploads == s.uploads
  {
  }

  lemma {:induction false} DeleteEachKeepsUploads(s: Store, bucket: string, keys: seq<string>, marker: string -> string)
    ensures DeleteEach(s, bucket, keys, marker).uploads == s.uploads
  {
    if |keys| > 0 {
      var n := |keys| - 1;
      DeleteEachKeepsUploads(s, bucket, keys[..n], marker);
      DeleteKeepsUploads(DeleteEach(s, bucket, keys[..n], marker), ObjId(bucket, keys[n]), marker(keys[n]));
    }
  }

  lemma ExpiryKeepsUploads(s: Store, bucket: string, rule: Rule, now: int, marker: string -> string, s': Store)
    requires Expires(s, bucket, rule, now, marker, s')
    ensures s'.uploads == s.uploads
  {
    var page :| Listing.FirstPage(KeysUnder(s.objects, bucket, rule.prefix), PAGE, page)
                && s' == DeleteEach(s, bucket, OverdueOf(s.objects, bucket, rule, now, page), marker);
    DeleteEachKeepsUploads(s, bucket, OverdueOf(s.objects, bucket, rule, now, page), marker);
  }

  lemma AbortsEnd(s: Store, bucket: string, rule: Rule, now: int, s': Store, id: string)
    requires AbortsStale(s, bucket, rule, now, s')
    ensures Get(s'.uploads, id) ==
            if id in s.uploads && s.uploads[id].bucket == bucket && Stale(rule, s.uploads[id], now)
            then None else Get(s.uploads, id)
  {
    var ids :| && StrictlyAscending(ids) && (forall x :: x in ids <==> x in UploadsIn(s.uploads, bucket))
               && s' == AbortEach(s, StaleOf(s.uploads, rule, now, ids));
    AbortEachRemoves(s, StaleOf(s.uploads, rule, now, ids));
  }

  lemma RuleAborts(s: Store, bucket: string, rule: Rule, now: int, marker: string -> string, s': Store, id: string)
    requires RuleStep(s, bucket, rule, now, marker, s')
    ensures Get(s'.uploads, id) ==
            if id in s.uploads && s.uploads[id].bucket == bucket && rule.enabled && rule.abortDays > 0
               && Stale(rule, s.uploads[id], now)
            then None else Get(s.uploads, id)
  {
    if rule.enabled {
      var mid :| ExpiryPart(s, bucket, rule, now, marker, mid) && AbortPart(mid, bucket, rule, now, s');
      if rule.expirationDays > 0 {
        ExpiryKeepsUploads(s, bucket, rule, now, marker, mid);
      }
      if rule.abortDays > 0 {
        AbortsEnd(mid, bucket, rule, now, s', id);
      }
    }
  }

  /**
   A pass, on any bucket, ends exactly the bucket's uploads that some enabled rule with
   positive days finds stale, and changes no other upload.
   */
  lemma {:induction false} AbortsExact(s: Store, bucket: string, rules: seq<Rule>, now: int, marker: string -> string,
                                       s': Store, id: string)
    requires Pass(s, bucket, rules, now, marker, s')
    ensures Get(s'.uploads, id) ==
            if id in s.uploads && s.uploads[id].bucket == bucket && StaleByAny(rules, s.uploads[id], now)
            then None else Get(s.uploads, id)
  {
    if |rules| > 0 {
      var n := |rules| - 1;
      var mid :| Pass(s, bucket, rules[..n], now, marker, mid) && RuleStep(mid, bucket, rules[n], now, marker, s');
      AbortsExact(s, bucket, rules[..n], now, marker, mid, id);
      RuleAborts(mid, bucket, rules[n], now, marker, s', id);
      if id in s.uploads {
        StaleSplits(rules, s.uploads[id], now);
      }
    }
  }

  lemma StaleSplits(rules: seq<Rule>, up: Upload, now: int)
    requires |rules| > 0
    ensures var last := rules[|rules| - 1];
      StaleByAny(rules, up, now) <==>
      StaleByAny(rules[..|rules| - 1], up, now) || (last.enabled && last.abortDays > 0 && Stale(last, up, now))
  {
    var n := |rules| - 1;
    if StaleByAny(rules[..n], up, now) {
      var i :| 0 <= i < n && rules[..n][i].enabled && rules[..n][i].abortDays > 0 && Stale(rules[..n][i], up, now);
      assert rules[i] == rules[..n][i];
    }
    if StaleByAny(rules, up, now) && !(rules[n].enabled && rules[n].abortDays > 0 && Stale(rules[n], up, now)) {
      var i :| 0 <= i < |rules| && rules[i].enabled && rules[i].abortDays > 0 && Stale(rules[i], up, now);
      assert rules[..n][i] == rules[i];
    }
  }
}
