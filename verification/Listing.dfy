/**
 The ordered scans of the bbolt metadata store (internal/metadata/bbolt). A bbolt
 bucket is a strictly sorted sequence of records and a cursor is an index into it.
 */
module Listing {
  import opened Basics
  import opened Strings

  const NUL := "\0"
  const AFTER := "\U{1}"

  /** An object record; `data` is everything the scans do not look at. */
  datatype Record = Record(bucket: string, key: string, data: string)

  function DbKey(r: Record): string {
    r.bucket + NUL + r.key
  }

  ghost predicate Sorted(t: seq<Record>) {
    forall i, j :: 0 <= i < j < |t| ==> Less(DbKey(t[i]), DbKey(t[j]))
  }

  predicate NulFree(s: string) {
    '\0' !in s
  }

  /** Bucket names hold no NUL (they are validated when a bucket is created). */
  ghost predicate CleanBuckets(t: seq<Record>) {
    forall i :: 0 <= i < |t| ==> NulFree(t[i].bucket)
  }

  datatype Options = Options(prefix: string, delimiter: string, startAfter: string, maxKeys: int)

  // -------------------------------------------------------------- the cursor

  /** The first position at or after i whose key is not below the target. */
  function Seek(t: seq<Record>, target: string, i: nat): (p: nat)
    requires i <= |t|
    ensures i <= p <= |t|
    ensures forall j :: i <= j < p ==> Less(DbKey(t[j]), target)
    ensures p < |t| ==> !Less(DbKey(t[p]), target)
    decreases |t| - i
  {
    if i == |t| || !Less(DbKey(t[i]), target) then i else Seek(t, target, i + 1)
  }

  lemma SeekSplits(t: seq<Record>, target: string, j: nat)
    requires Sorted(t) && j < |t|
    ensures j < Seek(t, target, 0) <==> Less(DbKey(t[j]), target)
  {
    var p := Seek(t, target, 0);
    if p <= j && Less(DbKey(t[j]), target) {
      if p < j {
        Transitive(DbKey(t[p]), DbKey(t[j]), target);
      }
    }
  }

  /** The records from position i on, as long as their keys start with p. */
  function RunOf(t: seq<Record>, p: string, i: nat): (r: seq<Record>)
    requires i <= |t|
    decreases |t| - i
  {
    if i == |t| || !HasPrefix(t[i], p) then [] else [t[i]] + RunOf(t, p, i + 1)
  }

  predicate HasPrefix(r: Record, p: string) {
    p <= DbKey(r)
  }

  /** A run is the block from i to the first record whose key does not start with p. */
  lemma {:induction false} RunIsBlock(t: seq<Record>, p: string, i: nat)
    requires i <= |t|
    ensures var n := |RunOf(t, p, i)|;
      && i + n <= |t| && RunOf(t, p, i) == t[i..i + n]
      && (forall j :: i <= j < i + n ==> HasPrefix(t[j], p))
      && (i + n < |t| ==> !HasPrefix(t[i + n], p))
    decreases |t| - i
  {
    if i < |t| && HasPrefix(t[i], p) {
      RunIsBlock(t, p, i + 1);
    }
  }

  /** All records that satisfy the test, in order. */
  ghost function Where(t: seq<Record>, test: Record -> bool): (r: seq<Record>)
    ensures forall x :: x in r <==> x in t && test(x)
  {
    if |t| == 0 then []
    else
      var rest := Where(t[1..], test);
      if test(t[0]) then [t[0]] + rest else rest
  }

  lemma {:induction false} WhereConcat(a: seq<Record>, b: seq<Record>, test: Record -> bool)
    ensures Where(a + b, test) == Where(a, test) + Where(b, test)
  {
    if |a| == 0 {
      assert a + b == b;
    } else {
      WhereConcat(a[1..], b, test);
      assert (a + b)[1..] == a[1..] + b && (a + b)[0] == a[0];
    }
  }

  lemma {:induction false} WhereAll(a: seq<Record>, test: Record -> bool)
    ensures (forall x :: x in a ==> test(x)) ==> Where(a, test) == a
    ensures (forall x :: x in a ==> !test(x)) ==> Where(a, test) == []
  {
    if |a| > 0 {
      WhereAll(a[1..], test);
      assert a == [a[0]] + a[1..];
    }
  }

  lemma WhereEvery(a: seq<Record>, test: Record -> bool)
    requires forall k :: 0 <= k < |a| ==> test(a[k])
    ensures Where(a, test) == a
  {
    WhereAll(a, test);
  }

  lemma WhereNone(a: seq<Record>, test: Record -> bool)
    requires forall k :: 0 <= k < |a| ==> !test(a[k])
    ensures Where(a, test) == []
  {
    WhereAll(a, test);
  }

  lemma WhereMiddle(t: seq<Record>, a: seq<Record>, b: seq<Record>, c: seq<Record>, test: Record -> bool)
    requires t == a + b + c
    requires forall k :: 0 <= k < |a| ==> !test(a[k])
    requires forall k :: 0 <= k < |b| ==> test(b[k])
    requires forall k :: 0 <= k < |c| ==> !test(c[k])
    ensures Where(t, test) == b
  {
    WhereConcat(a + b, c, test);
    WhereConcat(a, b, test);
    WhereNone(a, test);
    WhereEvery(b, test);
    WhereNone(c, test);
  }

  lemma BlockParts(t: seq<Record>, i: nat, j: nat, test: Record -> bool)
    requires i <= j <= |t|
    requires forall k :: 0 <= k < |t| ==> (test(t[k]) <==> i <= k < j)
    ensures forall k :: 0 <= k < j - i ==> test(t[i..j][k])
    ensures forall k :: 0 <= k < |t| - j ==> !test(t[j..][k])
  {
    forall k | 0 <= k < j - i ensures test(t[i..j][k]) {
      assert t[i..j][k] == t[i + k];
    }
    forall k | 0 <= k < |t| - j ensures !test(t[j..][k]) {
      assert t[j..][k] == t[j + k];
    }
  }

  /** A block of t is everything that satisfies a test when nothing outside it does. */
  lemma {:induction false} WhereBlock(t: seq<Record>, i: nat, j: nat, test: Record -> bool)
    requires i <= j <= |t|
    requires forall k :: 0 <= k < |t| ==> (test(t[k]) <==> i <= k < j)
    ensures Where(t, test) == t[i..j]
  {
    BlockParts(t, i, j, test);
    assert t == t[..i] + t[i..j] + t[j..];
    WhereMiddle(t, t[..i], t[i..j], t[j..], test);
  }

  /** Where the scan starts: just past the marker, or at the prefix. */
  function Start(t: seq<Record>, bucket: string, o: Options): (i: nat)
    ensures i <= |t|
  {
    if o.startAfter != "" then Seek(t, bucket + NUL + o.startAfter + AFTER, 0)
    else Seek(t, bucket + NUL + o.prefix, 0)
  }

  // ----------------------------------------------------------- the scan loop

  /** The first occurrence of d in s, or the length of s. */
  function Index(s: string, d: string): (i: nat)
    ensures i <= |s|
  {
    if |s| == 0 || d <= s then 0 else 1 + Index(s[1..], d)
  }

  lemma {:induction false} IndexIsFirst(s: string, d: string)
    ensures Index(s, d) < |s| ==> d <= s[Index(s, d)..]
    ensures forall j :: 0 <= j < Index(s, d) ==> !(d <= s[j..])
  {
    if |s| > 0 && !(d <= s) {
      IndexIsFirst(s[1..], d);
      var i := Index(s, d);
      assert s[i..] == s[1..][i - 1..];
      forall j | 0 <= j < i ensures !(d <= s[j..]) {
        if j > 0 {
          assert s[j..] == s[1..][j - 1..];
        } else {
          assert s[0..] == s;
        }
      }
    }
  }

  /** The delimiter occurs in the key after the prefix. */
  predicate Grouped(key: string, o: Options) {
    && o.delimiter != "" && |o.prefix| <= |key|
    && Index(key[|o.prefix|..], o.delimiter) < |key| - |o.prefix|
  }

  /** The key up to and including the first delimiter after the prefix. */
  function Cut(key: string, o: Options): (c: string)
    requires |o.prefix| <= |key|
  {
    var rest := key[|o.prefix|..];
    var i := Index(rest, o.delimiter);
    if i + |o.delimiter| <= |rest| then o.prefix + rest[..i + |o.delimiter|] else key
  }

  /** What the loop has gathered: records and the set of common prefixes. */
  datatype Page = Page(records: seq<Record>, groups: set<string>)

  /** The loop over the records in reach, with the limit as the code tests it. */
  function Gather(run: seq<Record>, o: Options, limit: int, page: Page): Page
    requires forall i :: 0 <= i < |run| ==> |o.prefix| <= |run[i].key|
    decreases |run|
  {
    if |run| == 0 then page
    else if Grouped(run[0].key, o) then
      Gather(run[1..], o, limit, page.(groups := page.groups + {Cut(run[0].key, o)}))
    else if |page.records| + |page.groups| >= limit then page
    else Gather(run[1..], o, limit, page.(records := page.records + [run[0]]))
  }

  function Limit(maxKeys: int): int {
    if maxKeys <= 0 then 1000 else maxKeys
  }

  lemma PrefixSplits(bucket: string, prefix: string, b: string, key: string)
    requires NulFree(bucket) && NulFree(b)
    ensures bucket + NUL + prefix <= b + NUL + key <==> bucket == b && prefix <= key
  {
    var p, k := bucket + NUL + prefix, b + NUL + key;
    if p <= k {
      assert forall i :: 0 <= i < |p| ==> k[i] == p[i];
      IndexIs(k, '\0', |bucket|);
      IndexIs(k, '\0', |b|);
      assert bucket == p[..|bucket|] == k[..|b|] == b;
      assert prefix == p[|b| + 1..] && key == k[|b| + 1..];
      assert key[..|prefix|] == prefix;
    }
    if bucket == b && prefix <= key {
      assert k[..|p|] == p;
    }
  }

  /** The records in reach of a scan. */
  function Reach(t: seq<Record>, bucket: string, o: Options): (r: seq<Record>)
  {
    RunOf(t, bucket + NUL + o.prefix, Start(t, bucket, o))
  }

  lemma ReachKeys(t: seq<Record>, bucket: string, o: Options)
    requires CleanBuckets(t) && NulFree(bucket)
    ensures forall r :: r in Reach(t, bucket, o) ==> r.bucket == bucket && o.prefix <= r.key
  {
    RunIsBlock(t, bucket + NUL + o.prefix, Start(t, bucket, o));
    forall r | r in Reach(t, bucket, o) ensures r.bucket == bucket && o.prefix <= r.key {
      PrefixSplits(bucket, o.prefix, r.bucket, r.key);
    }
  }

  /** What a call returns: the records, and the groups that it sorts afterwards. */
  function Listed(t: seq<Record>, bucket: string, o: Options): Page
    requires CleanBuckets(t) && NulFree(bucket)
  {
    ReachKeys(t, bucket, o);
    Gather(Reach(t, bucket, o), o, Limit(o.maxKeys), Page([], {}))
  }

  method ListObjects(t: seq<Record>, bucket: string, o: Options)
    returns (records: seq<Record>, commonPrefixes: seq<string>)
    requires CleanBuckets(t) && NulFree(bucket)
    ensures records == Listed(t, bucket, o).records
    ensures StrictlyAscending(commonPrefixes)
    ensures forall c :: c in commonPrefixes <==> c in Listed(t, bucket, o).groups
  {
    ReachKeys(t, bucket, o);
    var prefixSet;
    records, prefixSet := ScanFrom(t, bucket + NUL + o.prefix, Start(t, bucket, o), o, Limit(o.maxKeys));
    commonPrefixes := SortedList(prefixSet);
  }

  /** The cursor loop from position `start`. */
  method ScanFrom(t: seq<Record>, prefix: string, start: nat, o: Options, limit: int)
    returns (records: seq<Record>, prefixSet: set<string>)
    requires start <= |t|
    requires forall r :: r in RunOf(t, prefix, start) ==> |o.prefix| <= |r.key|
    ensures Page(records, prefixSet) == Gather(RunOf(t, prefix, start), o, limit, Page([], {}))
  {
    records, prefixSet := [], {};
    ghost var rest := RunOf(t, prefix, start);
    ghost var goal := Gather(rest, o, limit, Page([], {}));
    var i := start;
    while i < |t|
      invariant i <= |t| && rest == RunOf(t, prefix, i)
      invariant forall r :: r in rest ==> |o.prefix| <= |r.key|
      invariant Gather(rest, o, limit, Page(records, prefixSet)) == goal
      decreases |t| - i
    {
      if !HasPrefix(t[i], prefix) {
        return;
      }
      assert rest == [t[i]] + RunOf(t, prefix, i + 1);
      assert t[i] in rest;
      rest := RunOf(t, prefix, i + 1);
      if Grouped(t[i].key, o) {
        GatherGroup(t[i], rest, o, limit, Page(records, prefixSet));
        prefixSet := prefixSet + {Cut(t[i].key, o)};
      } else {
        GatherRecord(t[i], rest, o, limit, Page(records, prefixSet));
        if |records| + |prefixSet| >= limit {
          return;
        }
        records := records + [t[i]];
      }
      i := i + 1;
    }
  }

  lemma GatherGroup(r: Record, rest: seq<Record>, o: Options, limit: int, page: Page)
    requires forall x :: x in [r] + rest ==> |o.prefix| <= |x.key|
    requires |o.prefix| <= |r.key| && Grouped(r.key, o)
    ensures Gather([r] + rest, o, limit, page) ==
            Gather(rest, o, limit, Page(page.records, page.groups + {Cut(r.key, o)}))
  {
    assert ([r] + rest)[1..] == rest;
  }

  lemma GatherRecord(r: Record, rest: seq<Record>, o: Options, limit: int, page: Page)
    requires forall x :: x in [r] + rest ==> |o.prefix| <= |x.key|
    requires !Grouped(r.key, o)
    ensures Gather([r] + rest, o, limit, page) ==
            if |page.records| + |page.groups| >= limit then page
            else Gather(rest, o, limit, Page(page.records + [r], page.groups))
  {
    assert ([r] + rest)[1..] == rest;
  }

  /** The strings of a set in ascending order. */
  method SortedList(s: set<string>) returns (r: seq<string>)
    ensures StrictlyAscending(r) && forall x :: x in r <==> x in s
  {
    var todo := s;
    var list: seq<string> := [];
    while todo != {}
      invariant todo <= s && multiset(list) == multiset(s - todo)
      decreases todo
    {
      var x :| x in todo;
      assert s - (todo - {x}) == (s - todo) + {x};
      list := list + [x];
      todo := todo - {x};
    }
    assert s - todo == s;
    r := Sort(list);
    SortAscends(list);
    forall i, j | 0 <= i < j < |r| ensures Less(r[i], r[j]) {
      Total(r[i], r[j]);
      if r[i] == r[j] {
        TwiceCounted(r, i, j);
      }
    }
    forall x ensures x in r <==> x in s {
      assert x in r <==> x in multiset(r);
    }
  }

  lemma TwiceCounted(r: seq<string>, i: nat, j: nat)
    requires i < j < |r| && r[i] == r[j]
    ensures multiset(r)[r[i]] >= 2
  {
    assert r == r[..j] + r[j..];
    assert r[..j][i] == r[i] && r[j..][0] == r[j];
    assert multiset(r[..j])[r[i]] >= 1 && multiset(r[j..])[r[j]] >= 1;
  }

  // ------------------------------------------------------ what a scan reaches

  /** In a sorted key space the keys that start with p are the block from the first key not below p. */
  lemma PrefixBlock(ks: seq<string>, p: string, a: nat, b: nat)
    requires StrictlyAscending(ks) && a <= b <= |ks|
    requires forall k :: 0 <= k < a ==> Less(ks[k], p)
    requires a < |ks| ==> !Less(ks[a], p)
    requires forall k :: a <= k < b ==> p <= ks[k]
    requires b < |ks| ==> !(p <= ks[b])
    ensures forall k :: 0 <= k < |ks| ==> (p <= ks[k] <==> a <= k < b)
  {
    forall k | 0 <= k < |ks| ensures p <= ks[k] <==> a <= k < b {
      if p <= ks[k] {
        PrefixFirst(p, ks[k]);
        if b <= k {
          if a < b {
            WeakTransitive(p, ks[a], ks[b]);
            if Less(ks[b], p) {
              Transitive(ks[a], ks[b], p);
            }
          }
          if b < k {
            PrefixConvex(p, ks[b], ks[k]);
          }
        }
      }
    }
  }

  function Keys(t: seq<Record>): (ks: seq<string>)
    ensures |ks| == |t| && forall i :: 0 <= i < |t| ==> ks[i] == DbKey(t[i])
  {
    seq(|t|, i requires 0 <= i < |t| => DbKey(t[i]))
  }

  /** The records that a listing is about. */
  predicate InScope(bucket: string, prefix: string, r: Record) {
    r.bucket == bucket && prefix <= r.key
  }

  /** Without a marker the scan reaches exactly the bucket's records with the prefix. */
  lemma ReachFromPrefix(t: seq<Record>, bucket: string, o: Options)
    requires Sorted(t) && CleanBuckets(t) && NulFree(bucket) && o.startAfter == ""
    ensures Reach(t, bucket, o) == Where(t, (r: Record) => InScope(bucket, o.prefix, r))
  {
    var p := bucket + NUL + o.prefix;
    var a := Start(t, bucket, o);
    var b := a + |RunOf(t, p, a)|;
    RunIsBlock(t, p, a);
    PrefixBlock(Keys(t), p, a, b);
    forall k | 0 <= k < |t| ensures InScope(bucket, o.prefix, t[k]) <==> a <= k < b {
      PrefixSplits(bucket, o.prefix, t[k].bucket, t[k].key);
      assert Keys(t)[k] == DbKey(t[k]);
    }
    WhereBlock(t, a, b, (r: Record) => InScope(bucket, o.prefix, r));
  }

  /** For the keys of one bucket the database order is the key order. */
  lemma SameBucketOrder(bucket: string, x: string, y: string)
    ensures Less(bucket + NUL + x, bucket + NUL + y) <==> Less(x, y)
    ensures bucket + NUL + x <= bucket + NUL + y <==> x <= y
  {
    SuffixKeepsOrder(bucket + NUL, x, y);
    var p := bucket + NUL;
    assert x <= y ==> (p + y)[..|p + x|] == p + x;
    assert p + x <= p + y ==> y[..|x|] == (p + y)[|p|..|p + x|] == x;
  }

  /** The key comes after the marker and the scan does not jump over it. */
  predicate Beyond(marker: string, key: string) {
    Less(marker, key) && !(marker + NUL <= key)
  }

  /** A scan past a marker under the prefix starts at the first key beyond the marker. */
  lemma BeyondMarker(t: seq<Record>, bucket: string, o: Options, k: nat)
    requires Sorted(t) && CleanBuckets(t) && NulFree(bucket) && o.prefix <= o.startAfter && o.startAfter != ""
    requires k < |t| && InScope(bucket, o.prefix, t[k])
    ensures Start(t, bucket, o) <= k <==> Beyond(o.startAfter, t[k].key)
  {
    var m, key := o.startAfter, t[k].key;
    SeekSplits(t, bucket + NUL + m + AFTER, k);
    assert bucket + NUL + m + AFTER == bucket + NUL + (m + AFTER);
    SameBucketOrder(bucket, key, m + AFTER);
    GapAfter(m, key);
    Total(m, key);
    MarkerBelow(m);
    if key == m {
      Irreflexive(m);
    } else if Less(key, m) {
      Asymmetric(key, m);
      Transitive(key, m, m + AFTER);
    }
  }

  lemma MarkerBelow(m: string)
    ensures Less(m, m + AFTER)
  {
    SuffixKeepsOrder(m, "", AFTER);
    assert m + "" == m;
  }

  /** Everything from the scan's start on lies above the prefix. */
  lemma StartAbovePrefix(t: seq<Record>, bucket: string, o: Options)
    requires Sorted(t) && o.prefix <= o.startAfter && o.startAfter != ""
    ensures var a := Start(t, bucket, o);
      a < |t| ==> !Less(DbKey(t[a]), bucket + NUL + o.prefix)
  {
    var a := Start(t, bucket, o);
    var m := bucket + NUL + o.startAfter;
    if a < |t| {
      SameBucketOrder(bucket, o.prefix, o.startAfter);
      PrefixFirst(bucket + NUL + o.prefix, m);
      MarkerBelow(m);
      var p := bucket + NUL + o.prefix;
      if Less(DbKey(t[a]), p) {
        WeakTransitive(DbKey(t[a]), p, m);
        Transitive(DbKey(t[a]), m, m + AFTER);
      }
    }
  }

  /** What a scan past a marker reaches, whatever the keys. */
  lemma ReachFromMarker(t: seq<Record>, bucket: string, o: Options)
    requires Sorted(t) && CleanBuckets(t) && NulFree(bucket) && o.prefix <= o.startAfter && o.startAfter != ""
    ensures Reach(t, bucket, o) == Where(t, (r: Record) => InScope(bucket, o.prefix, r) && Beyond(o.startAfter, r.key))
  {
    var p := bucket + NUL + o.prefix;
    var a := Start(t, bucket, o);
    var b := a + |RunOf(t, p, a)|;
    RunIsBlock(t, p, a);
    StartAbovePrefix(t, bucket, o);
    forall k | 0 <= k < |t| ensures InScope(bucket, o.prefix, t[k]) && Beyond(o.startAfter, t[k].key) <==> a <= k < b {
      PrefixSplits(bucket, o.prefix, t[k].bucket, t[k].key);
      if InScope(bucket, o.prefix, t[k]) {
        BeyondMarker(t, bucket, o, k);
        if b < k {
          if a < b {
            if Less(DbKey(t[b]), p) {
              Transitive(DbKey(t[a]), DbKey(t[b]), p);
            }
          }
          PrefixConvex(p, DbKey(t[b]), DbKey(t[k]));
        }
      }
    }
    WhereBlock(t, a, b, (r: Record) => InScope(bucket, o.prefix, r) && Beyond(o.startAfter, r.key));
  }

  /**
   A scan past a marker reaches every key above the marker exactly when no key of the
   listing extends the marker by a NUL.
   */
  lemma MarkerSkipsNothingIff(t: seq<Record>, bucket: string, o: Options)
    requires Sorted(t) && CleanBuckets(t) && NulFree(bucket) && o.prefix <= o.startAfter && o.startAfter != ""
    ensures (forall r :: r in t && InScope(bucket, o.prefix, r) && Less(o.startAfter, r.key) ==>
            r in Reach(t, bucket, o))
            <==> (forall r :: r in t && InScope(bucket, o.prefix, r) ==> !(o.startAfter + NUL <= r.key))
  {
    ReachFromMarker(t, bucket, o);
    var m := o.startAfter;
    forall r | r in t && InScope(bucket, o.prefix, r) && m + NUL <= r.key ensures Less(m, r.key) {
      GapAfter(m, r.key);
    }
  }

  // -------------------------------------------------------------- pagination

  lemma {:induction false} GatherWithoutDelimiter(run: seq<Record>, o: Options, limit: int, page: Page)
    requires o.delimiter == "" && limit >= |page.records| && page.groups == {}
    requires forall r :: r in run ==> |o.prefix| <= |r.key|
    ensures var room := limit - |page.records|;
      Gather(run, o, limit, page) == Page(page.records + run[..if room < |run| then room else |run|], {})
    decreases |run|
  {
    if |run| > 0 && |page.records| < limit {
      var next := Page(page.records + [run[0]], {});
      GatherWithoutDelimiter(run[1..], o, limit, next);
      var room := limit - |page.records|;
      var n := if room < |run| then room else |run|;
      assert run[..n] == [run[0]] + run[1..][..n - 1];
      assert page.records + run[..n] == next.records + run[1..][..n - 1];
    } else {
      assert page.records + run[..0] == page.records;
    }
  }

  /** Without a delimiter a page is the first maxKeys records in reach. */
  lemma PlainPage(t: seq<Record>, bucket: string, o: Options)
    requires CleanBuckets(t) && NulFree(bucket) && o.delimiter == ""
    ensures var run := Reach(t, bucket, o);
      Listed(t, bucket, o) == Page(run[..if Limit(o.maxKeys) < |run| then Limit(o.maxKeys) else |run|], {})
  {
    ReachKeys(t, bucket, o);
    GatherWithoutDelimiter(Reach(t, bucket, o), o, Limit(o.maxKeys), Page([], {}));
  }

  lemma {:induction false} RunSuffix(t: seq<Record>, p: string, i: nat, n: nat)
    requires i <= |t| && n <= |RunOf(t, p, i)|
    ensures i + n <= |t| && RunOf(t, p, i + n) == RunOf(t, p, i)[n..]
    decreases n
  {
    if n > 0 {
      RunSuffix(t, p, i + 1, n - 1);
    }
  }

  /** The bucket's keys under the prefix hold no NUL. */
  ghost predicate CleanKeys(t: seq<Record>, bucket: string, prefix: string) {
    forall r :: r in t && InScope(bucket, prefix, r) ==> NulFree(r.key)
  }

  /** The n-th record in reach lies n - 1 places past the start. */
  lemma PlaceInRun(t: seq<Record>, bucket: string, o: Options, n: nat)
    requires CleanBuckets(t) && NulFree(bucket) && 0 < n <= |Reach(t, bucket, o)|
    ensures var i := Start(t, bucket, o) + n - 1;
      i < |t| && Reach(t, bucket, o)[n - 1] == t[i] && InScope(bucket, o.prefix, t[i])
  {
    ReachKeys(t, bucket, o);
    RunIsBlock(t, bucket + NUL + o.prefix, Start(t, bucket, o));
    assert Reach(t, bucket, o)[n - 1] in Reach(t, bucket, o);
  }

  /** Continuing after the last record of a page reaches exactly what the page left. */
  lemma NextPage(t: seq<Record>, bucket: string, o: Options, n: nat)
    requires Sorted(t) && CleanBuckets(t) && NulFree(bucket) && CleanKeys(t, bucket, o.prefix)
    requires 0 < n <= |Reach(t, bucket, o)| && Reach(t, bucket, o)[n - 1].key != ""
    ensures var run := Reach(t, bucket, o);
      Reach(t, bucket, o.(startAfter := run[n - 1].key)) == run[n..]
  {
    var a := Start(t, bucket, o);
    PlaceInRun(t, bucket, o, n);
    SeekPastRecord(t, bucket, o.prefix, a + n - 1);
    RunSuffix(t, bucket + NUL + o.prefix, a, n);
  }

  /** Seeking past a record's key finds the next record. */
  lemma {:induction false} SeekPastRecord(t: seq<Record>, bucket: string, prefix: string, i: nat)
    requires Sorted(t) && CleanBuckets(t) && NulFree(bucket) && CleanKeys(t, bucket, prefix)
    requires i < |t| && InScope(bucket, prefix, t[i])
    ensures Seek(t, bucket + NUL + t[i].key + AFTER, 0) == i + 1
  {
    var m := DbKey(t[i]);
    MarkerBelow(m);
    SeekSplits(t, m + AFTER, i);
    if i + 1 < |t| {
      var next := t[i + 1];
      SeekSplits(t, m + AFTER, i + 1);
      GapAfter(m, DbKey(next));
      assert m + NUL == bucket + NUL + (t[i].key + NUL);
      PrefixSplits(bucket, t[i].key + NUL, next.bucket, next.key);
      if m + NUL <= DbKey(next) {
        NulInside(t[i].key, next.key);
        assert prefix <= t[i].key + NUL;
        assert InScope(bucket, prefix, next);
      }
    }
  }

  lemma NulInside(m: string, key: string)
    requires m + NUL <= key
    ensures !NulFree(key) && m <= key
  {
    assert key[|m|] == (m + NUL)[|m|];
  }

  /**
   What a client has after at most n pages, each listed after the last key it got, and
   whether it has met the empty page that ends the walk.
   */
  ghost function WalkFor(t: seq<Record>, bucket: string, o: Options, n: nat): (seq<Record>, bool)
    requires CleanBuckets(t) && NulFree(bucket)
    decreases n
  {
    if n == 0 then ([], false)
    else
      var page := Listed(t, bucket, o).records;
      if |page| == 0 then ([], true)
      else
        var (rest, ended) := WalkFor(t, bucket, o.(startAfter := page[|page| - 1].key), n - 1);
        (page + rest, ended)
  }

  /** The size of the next page. */
  ghost function PageSize(t: seq<Record>, bucket: string, o: Options): nat {
    var n := |Reach(t, bucket, o)|;
    if 0 < o.maxKeys < n then o.maxKeys else n
  }

  /** One page of a walk, and the walk from there. */
  lemma WalkStep(t: seq<Record>, bucket: string, o: Options, n: nat)
    requires CleanBuckets(t) && NulFree(bucket) && o.delimiter == "" && o.maxKeys > 0 && n > 0
    ensures var run, k := Reach(t, bucket, o), PageSize(t, bucket, o);
      && (|run| == 0 ==> WalkFor(t, bucket, o, n) == ([], true))
      && (|run| > 0 ==>
            var (rest, ended) := WalkFor(t, bucket, o.(startAfter := run[k - 1].key), n - 1);
            WalkFor(t, bucket, o, n) == (run[..k] + rest, ended))
  {
    PlainPage(t, bucket, o);
  }

  /** From a place where no empty key is left, enough pages yield all that is in reach. */
  lemma {:induction false} WalkCollects(t: seq<Record>, bucket: string, o: Options, n: nat)
    requires Sorted(t) && CleanBuckets(t) && NulFree(bucket) && CleanKeys(t, bucket, o.prefix)
    requires o.delimiter == "" && o.maxKeys > 0 && n > |Reach(t, bucket, o)|
    requires forall i :: 0 <= i < |Reach(t, bucket, o)| ==> Reach(t, bucket, o)[i].key != ""
    ensures WalkFor(t, bucket, o, n) == (Reach(t, bucket, o), true)
    decreases n
  {
    var run, k := Reach(t, bucket, o), PageSize(t, bucket, o);
    WalkStep(t, bucket, o, n);
    if |run| > 0 {
      NextPage(t, bucket, o, k);
      WalkCollects(t, bucket, o.(startAfter := run[k - 1].key), n - 1);
      assert run == run[..k] + run[k..];
    }
  }

  /** The records in reach come in ascending key order. */
  lemma ReachAscends(t: seq<Record>, bucket: string, o: Options)
    requires Sorted(t) && CleanBuckets(t) && NulFree(bucket)
    ensures StrictlyAscending(KeysOf(Reach(t, bucket, o)))
  {
    var all := Reach(t, bucket, o);
    ReachKeys(t, bucket, o);
    RunIsBlock(t, bucket + NUL + o.prefix, Start(t, bucket, o));
    forall i, j | 0 <= i < j < |all| ensures Less(all[i].key, all[j].key) {
      assert all[i] in all && all[j] in all;
      assert Less(DbKey(all[i]), DbKey(all[j]));
      SameBucketOrder(bucket, all[i].key, all[j].key);
    }
  }

  /** An empty key that fills a page by itself: its page hands back the marker it was asked for. */
  ghost predicate Stalls(t: seq<Record>, bucket: string, prefix: string, maxKeys: nat) {
    exists r ::
      && r in t && InScope(bucket, prefix, r) && r.key == ""
      && (maxKeys == 1 || forall x :: x in t && InScope(bucket, prefix, x) ==> x.key == "")
  }

  /** An empty key comes first, and no other key is empty. */
  lemma EmptyKeyIsFirst(t: seq<Record>, bucket: string, o: Options, i: nat)
    requires Sorted(t) && CleanBuckets(t) && NulFree(bucket)
    requires i < |Reach(t, bucket, o)| && Reach(t, bucket, o)[i].key == ""
    ensures i == 0
  {
    ReachAscends(t, bucket, o);
    var ks := KeysOf(Reach(t, bucket, o));
    assert ks[i] == "" && (i > 0 ==> Less(ks[0], ks[i]));
  }

  /** A stalled walk never ends. */
  lemma {:induction false} StalledWalk(t: seq<Record>, bucket: string, prefix: string, maxKeys: nat, n: nat)
    requires Sorted(t) && CleanBuckets(t) && NulFree(bucket) && maxKeys > 0 && Stalls(t, bucket, prefix, maxKeys)
    ensures !WalkFor(t, bucket, Options(prefix, "", "", maxKeys), n).1
    decreases n
  {
    if n > 0 {
      var o := Options(prefix, "", "", maxKeys);
      StalledPage(t, bucket, prefix, maxKeys);
      WalkStep(t, bucket, o, n);
      StalledWalk(t, bucket, prefix, maxKeys, n - 1);
    }
  }

  lemma StalledPage(t: seq<Record>, bucket: string, prefix: string, maxKeys: nat)
    requires Sorted(t) && CleanBuckets(t) && NulFree(bucket) && maxKeys > 0 && Stalls(t, bucket, prefix, maxKeys)
    ensures var o := Options(prefix, "", "", maxKeys);
      PageSize(t, bucket, o) == 1 && Reach(t, bucket, o)[0].key == ""
  {
    var o := Options(prefix, "", "", maxKeys);
    var run := Reach(t, bucket, o);
    ReachFromPrefix(t, bucket, o);
    var r :| r in t && InScope(bucket, prefix, r) && r.key == ""
             && (maxKeys == 1 || forall x :: x in t && InScope(bucket, prefix, x) ==> x.key == "");
    assert r in run;
    var i :| 0 <= i < |run| && run[i] == r;
    EmptyKeyIsFirst(t, bucket, o, i);
    if |run| > 1 && maxKeys > 1 {
      assert run[1] in run;
      EmptyKeyIsFirst(t, bucket, o, 1);
    }
  }

  /**
   Marker pagination: unless an empty key fills a page, the walk ends and yields exactly
   the bucket's records with the prefix, in ascending key order, each once, whatever the
   page size.
   */
  lemma MarkerPagination(t: seq<Record>, bucket: string, prefix: string, maxKeys: nat)
    requires Sorted(t) && CleanBuckets(t) && NulFree(bucket) && CleanKeys(t, bucket, prefix) && maxKeys > 0
    requires !Stalls(t, bucket, prefix, maxKeys)
    ensures var all := Where(t, (r: Record) => InScope(bucket, prefix, r));
      WalkFor(t, bucket, Options(prefix, "", "", maxKeys), |all| + 1) == (all, true) && StrictlyAscending(KeysOf(all))
  {
    var o := Options(prefix, "", "", maxKeys);
    WalkYields(t, bucket, prefix, maxKeys);
    ReachFromPrefix(t, bucket, o);
    ReachAscends(t, bucket, o);
  }

  lemma WalkYields(t: seq<Record>, bucket: string, prefix: string, maxKeys: nat)
    requires Sorted(t) && CleanBuckets(t) && NulFree(bucket) && CleanKeys(t, bucket, prefix) && maxKeys > 0
    requires !Stalls(t, bucket, prefix, maxKeys)
    ensures var o := Options(prefix, "", "", maxKeys);
      WalkFor(t, bucket, o, |Reach(t, bucket, o)| + 1) == (Reach(t, bucket, o), true)
  {
    var o := Options(prefix, "", "", maxKeys);
    var run := Reach(t, bucket, o);
    if |run| > 0 && run[0].key == "" {
      WalkPastEmptyKey(t, bucket, prefix, maxKeys);
    } else {
      forall i | 0 <= i < |run| ensures run[i].key != "" {
        if run[i].key == "" {
          EmptyKeyIsFirst(t, bucket, o, i);
        }
      }
      WalkCollects(t, bucket, o, |run| + 1);
    }
  }

  /** A page that holds the empty key and another one hands back a marker that moves on. */
  lemma {:induction false} WalkPastEmptyKey(t: seq<Record>, bucket: string, prefix: string, maxKeys: nat)
    requires Sorted(t) && CleanBuckets(t) && NulFree(bucket) && CleanKeys(t, bucket, prefix) && maxKeys > 0
    requires !Stalls(t, bucket, prefix, maxKeys)
    requires var run := Reach(t, bucket, Options(prefix, "", "", maxKeys)); |run| > 0 && run[0].key == ""
    ensures var o := Options(prefix, "", "", maxKeys);
      WalkFor(t, bucket, o, |Reach(t, bucket, o)| + 1) == (Reach(t, bucket, o), true)
  {
    var o := Options(prefix, "", "", maxKeys);
    var run, k := Reach(t, bucket, o), PageSize(t, bucket, o);
    var next := o.(startAfter := run[k - 1].key);
    TwoInScope(t, bucket, prefix, maxKeys);
    NoEmptyKeyLeft(t, bucket, o, k);
    WalkStep(t, bucket, o, |run| + 1);
    WalkCollects(t, bucket, next, |run|);
    assert run == run[..k] + run[k..];
  }

  lemma NoEmptyKeyLeft(t: seq<Record>, bucket: string, o: Options, k: nat)
    requires Sorted(t) && CleanBuckets(t) && NulFree(bucket) && CleanKeys(t, bucket, o.prefix)
    requires 2 <= k <= |Reach(t, bucket, o)|
    ensures var run := Reach(t, bucket, o);
      var next := o.(startAfter := run[k - 1].key);
      Reach(t, bucket, next) == run[k..] && forall i :: 0 <= i < |run[k..]| ==> run[k..][i].key != ""
  {
    var run := Reach(t, bucket, o);
    forall i | 1 <= i < |run| ensures run[i].key != "" {
      if run[i].key == "" {
        EmptyKeyIsFirst(t, bucket, o, i);
      }
    }
    NextPage(t, bucket, o, k);
  }

  lemma TwoInScope(t: seq<Record>, bucket: string, prefix: string, maxKeys: nat)
    requires Sorted(t) && CleanBuckets(t) && NulFree(bucket) && maxKeys > 0 && !Stalls(t, bucket, prefix, maxKeys)
    requires var run := Reach(t, bucket, Options(prefix, "", "", maxKeys)); |run| > 0 && run[0].key == ""
    ensures PageSize(t, bucket, Options(prefix, "", "", maxKeys)) >= 2
  {
    var o := Options(prefix, "", "", maxKeys);
    var run := Reach(t, bucket, o);
    ReachFromPrefix(t, bucket, o);
    assert run[0] in run;
  }

  /** A walk over NUL-free keys ends exactly when no empty key fills a page. */
  lemma WalkEndsIff(t: seq<Record>, bucket: string, prefix: string, maxKeys: nat)
    requires Sorted(t) && CleanBuckets(t) && NulFree(bucket) && CleanKeys(t, bucket, prefix) && maxKeys > 0
    ensures (exists n: nat :: WalkFor(t, bucket, Options(prefix, "", "", maxKeys), n).1) <==>
            !Stalls(t, bucket, prefix, maxKeys)
  {
    var o := Options(prefix, "", "", maxKeys);
    if Stalls(t, bucket, prefix, maxKeys) {
      forall n: nat ensures !WalkFor(t, bucket, o, n).1 {
        StalledWalk(t, bucket, prefix, maxKeys, n);
      }
    } else {
      MarkerPagination(t, bucket, prefix, maxKeys);
      assert WalkFor(t, bucket, o, |Where(t, (r: Record) => InScope(bucket, prefix, r))| + 1).1;
    }
  }

  // --------------------------------------------------------- delimiter groups

  /** The cuts of the grouped records. */
  ghost function GroupsOf(run: seq<Record>, o: Options): set<string>
    requires forall r :: r in run ==> |o.prefix| <= |r.key|
  {
    if |run| == 0 then {}
    else (if Grouped(run[0].key, o) then {Cut(run[0].key, o)} else {}) + GroupsOf(run[1..], o)
  }

  /** The records that are not grouped. */
  ghost function PlainOf(run: seq<Record>, o: Options): (r: seq<Record>)
  {
    if |run| == 0 then []
    else (if Grouped(run[0].key, o) then [] else [run[0]]) + PlainOf(run[1..], o)
  }

  lemma {:induction false} SplitIs(run: seq<Record>, o: Options)
    requires forall r :: r in run ==> |o.prefix| <= |r.key|
    ensures forall r :: r in PlainOf(run, o) <==> r in run && !Grouped(r.key, o)
    ensures forall c :: c in GroupsOf(run, o) <==> exists r :: r in run && Grouped(r.key, o) && c == Cut(r.key, o)
  {
    if |run| > 0 {
      var r, rest := run[0], run[1..];
      SplitIs(rest, o);
      assert forall x :: x in run <==> x == r || x in rest;
    }
  }

  lemma {:induction false} GatherAll(run: seq<Record>, o: Options, limit: int, page: Page)
    requires forall r :: r in run ==> |o.prefix| <= |r.key|
    requires limit >= |page.records| + |PlainOf(run, o)| + |page.groups + GroupsOf(run, o)|
    ensures Gather(run, o, limit, page) == Page(page.records + PlainOf(run, o), page.groups + GroupsOf(run, o))
    decreases |run|
  {
    if |run| == 0 {
      assert page.groups + GroupsOf(run, o) == page.groups;
    } else {
      var r, rest := run[0], run[1..];
      if Grouped(r.key, o) {
        var g := page.groups + {Cut(r.key, o)};
        assert page.groups + GroupsOf(run, o) == g + GroupsOf(rest, o);
        assert PlainOf(run, o) == PlainOf(rest, o);
        GatherAll(rest, o, limit, Page(page.records, g));
      } else {
        assert GroupsOf(run, o) == GroupsOf(rest, o);
        SubsetSize(page.groups, page.groups + GroupsOf(run, o));
        assert page.records + PlainOf(run, o) == page.records + [r] + PlainOf(rest, o);
        GatherAll(rest, o, limit, Page(page.records + [r], page.groups));
      }
    }
  }

  ghost function GroupsInReach(t: seq<Record>, bucket: string, o: Options): set<string>
    requires CleanBuckets(t) && NulFree(bucket)
  {
    ReachKeys(t, bucket, o);
    GroupsOf(Reach(t, bucket, o), o)
  }

  /** The number of records and groups in reach. */
  ghost function EntryCount(t: seq<Record>, bucket: string, o: Options): nat
    requires CleanBuckets(t) && NulFree(bucket)
  {
    |PlainOf(Reach(t, bucket, o), o)| + |GroupsInReach(t, bucket, o)|
  }

  /** The records that are not grouped, in order. */
  lemma {:induction false} PlainIsWhere(t: seq<Record>, bucket: string, o: Options)
    ensures PlainOf(Where(t, (r: Record) => InScope(bucket, o.prefix, r)), o) ==
            Where(t, (r: Record) => InScope(bucket, o.prefix, r) && !Grouped(r.key, o))
  {
    if |t| > 0 {
      PlainIsWhere(t[1..], bucket, o);
      var rest := Where(t[1..], (r: Record) => InScope(bucket, o.prefix, r));
      if InScope(bucket, o.prefix, t[0]) {
        assert ([t[0]] + rest)[1..] == rest;
      }
    }
  }

  /** What is picked out of a sorted sequence is sorted. */
  lemma {:induction false} WhereSorted(t: seq<Record>, test: Record -> bool)
    requires Sorted(t)
    ensures Sorted(Where(t, test))
  {
    if |t| > 0 {
      WhereSorted(t[1..], test);
      var rest := Where(t[1..], test);
      forall j | 0 <= j < |rest| ensures Less(DbKey(t[0]), DbKey(rest[j])) {
        assert rest[j] in rest;
        var k :| 0 <= k < |t[1..]| && t[1..][k] == rest[j];
        assert t[k + 1] == rest[j];
      }
    }
  }

  /** In one bucket database order is key order. */
  lemma BucketAscends(rs: seq<Record>, bucket: string)
    requires Sorted(rs) && forall r :: r in rs ==> r.bucket == bucket
    ensures StrictlyAscending(KeysOf(rs))
  {
    forall i, j | 0 <= i < j < |rs| ensures Less(rs[i].key, rs[j].key) {
      assert rs[i] in rs && rs[j] in rs;
      assert Less(DbKey(rs[i]), DbKey(rs[j]));
      SameBucketOrder(bucket, rs[i].key, rs[j].key);
    }
  }

  /**
   Delimiter grouping with room enough: the records are, each once and in key order,
   those with no delimiter after the prefix, and the groups are the cuts of all others.
   */
  lemma DelimiterGrouping(t: seq<Record>, bucket: string, o: Options)
    requires Sorted(t) && CleanBuckets(t) && NulFree(bucket) && o.startAfter == ""
    requires Limit(o.maxKeys) >= EntryCount(t, bucket, o)
    ensures var page := Listed(t, bucket, o);
      && page.records == Where(t, (r: Record) => InScope(bucket, o.prefix, r) && !Grouped(r.key, o))
      && StrictlyAscending(KeysOf(page.records))
      && (forall c :: c in page.groups <==>
            exists r :: r in t && InScope(bucket, o.prefix, r) && Grouped(r.key, o) && c == Cut(r.key, o))
  {
    var run := Reach(t, bucket, o);
    AllGathered(t, bucket, o);
    ReachFromPrefix(t, bucket, o);
    ReachKeys(t, bucket, o);
    SplitIs(run, o);
    PlainIsWhere(t, bucket, o);
    WhereSorted(t, (r: Record) => InScope(bucket, o.prefix, r) && !Grouped(r.key, o));
    BucketAscends(PlainOf(run, o), bucket);
  }

  /** With room enough the page is all plain records and all groups in reach. */
  lemma AllGathered(t: seq<Record>, bucket: string, o: Options)
    requires CleanBuckets(t) && NulFree(bucket) && Limit(o.maxKeys) >= EntryCount(t, bucket, o)
    ensures Listed(t, bucket, o) == Page(PlainOf(Reach(t, bucket, o), o), GroupsInReach(t, bucket, o))
  {
    var run := Reach(t, bucket, o);
    ReachKeys(t, bucket, o);
    assert {} + GroupsOf(run, o) == GroupsOf(run, o);
    GatherAll(run, o, Limit(o.maxKeys), Page([], {}));
    assert [] + PlainOf(run, o) == PlainOf(run, o);
  }

  lemma CutParts(key: string, p: string, rest: string, i: nat, d: string)
    requires key == p + rest && i + |d| <= |rest| && rest[i..i + |d|] == d
    ensures var c := p + rest[..i + |d|];
      c <= key && |c| == |p| + i + |d| && c[|c| - |d|..] == d
  {
    var c := p + rest[..i + |d|];
    assert c == key[..|c|];
    forall k | 0 <= k < |d| ensures c[|c| - |d|..][k] == d[k] {
      assert rest[i..i + |d|][k] == rest[i + k];
    }
  }

  lemma CutIs(key: string, o: Options)
    requires o.prefix <= key && Grouped(key, o)
    ensures var rest := key[|o.prefix|..];
      var i := Index(rest, o.delimiter);
      && i + |o.delimiter| <= |rest| && rest[i..i + |o.delimiter|] == o.delimiter
      && Cut(key, o) == o.prefix + rest[..i + |o.delimiter|]
  {
    var rest, d := key[|o.prefix|..], o.delimiter;
    var i := Index(rest, d);
    IndexIsFirst(rest, d);
    assert rest[i..][..|d|] == rest[i..i + |d|];
  }

  /** The cut ends with the delimiter. */
  lemma CutEnds(key: string, o: Options)
    requires o.prefix <= key && Grouped(key, o)
    ensures var c, i := Cut(key, o), Index(key[|o.prefix|..], o.delimiter);
      c <= key && |c| == |o.prefix| + i + |o.delimiter| && c[|c| - |o.delimiter|..] == o.delimiter
  {
    var rest := key[|o.prefix|..];
    CutIs(key, o);
    assert o.prefix + rest == key;
    CutParts(key, o.prefix, rest, Index(rest, o.delimiter), o.delimiter);
  }

  /** A group is the key up to its first delimiter after the prefix. */
  lemma CutIsFirst(key: string, o: Options)
    requires o.prefix <= key && Grouped(key, o)
    ensures var c := Cut(key, o);
      && c <= key && |c| >= |o.prefix| + |o.delimiter| && c[|c| - |o.delimiter|..] == o.delimiter
      && forall j :: |o.prefix| <= j < |c| - |o.delimiter| ==> !(o.delimiter <= key[j..])
  {
    var rest := key[|o.prefix|..];
    var i := Index(rest, o.delimiter);
    CutEnds(key, o);
    IndexIsFirst(rest, o.delimiter);
    forall j | |o.prefix| <= j < |o.prefix| + i ensures !(o.delimiter <= key[j..]) {
      assert key[j..] == rest[j - |o.prefix|..];
    }
  }

  /** The string is the key up to and including the first delimiter after the prefix. */
  ghost predicate UpToDelimiter(c: string, key: string, prefix: string, d: string) {
    && d != "" && c <= key && |c| >= |prefix| + |d| && c[|c| - |d|..] == d
    && forall j :: |prefix| <= j < |c| - |d| ==> !(d <= key[j..])
  }

  /** The delimiter occurs in the key after the prefix. */
  ghost predicate Delimited(key: string, prefix: string, d: string) {
    d != "" && exists i :: |prefix| <= i <= |key| && d <= key[i..]
  }

  lemma GroupedIff(key: string, o: Options)
    requires o.prefix <= key
    ensures Grouped(key, o) <==> Delimited(key, o.prefix, o.delimiter)
  {
    var rest, d, n := key[|o.prefix|..], o.delimiter, |o.prefix|;
    IndexIsFirst(rest, d);
    if Grouped(key, o) {
      assert d <= rest[Index(rest, d)..] == key[n + Index(rest, d)..];
    }
    if i :| d != "" && n <= i <= |key| && d <= key[i..] {
      assert key[i..] == rest[i - n..];
    }
  }

  lemma CutIff(c: string, key: string, o: Options)
    requires o.prefix <= key
    ensures Grouped(key, o) && c == Cut(key, o) <==> UpToDelimiter(c, key, o.prefix, o.delimiter)
  {
    var d := o.delimiter;
    GroupedIff(key, o);
    if Grouped(key, o) {
      CutIsFirst(key, o);
    }
    if UpToDelimiter(c, key, o.prefix, d) {
      EndsAt(c, key, d);
      assert Delimited(key, o.prefix, d);
      EndsAt(Cut(key, o), key, d);
      assert |c| == |Cut(key, o)|;
    }
  }

  /** A beginning that ends with the delimiter has it at its last place. */
  lemma EndsAt(c: string, key: string, d: string)
    requires c <= key && |c| >= |d| && c[|c| - |d|..] == d
    ensures d <= key[|c| - |d|..]
  {
    assert key[|c| - |d|..][..|d|] == c[|c| - |d|..];
  }

  /**
   Delimiter grouping in plain terms: with room enough the records are those without a
   delimiter after the prefix and the groups the beginnings of the others up to it.
   */
  lemma GroupingMeans(t: seq<Record>, bucket: string, o: Options)
    requires Sorted(t) && CleanBuckets(t) && NulFree(bucket) && o.startAfter == ""
    requires (if o.maxKeys <= 0 then 1000 else o.maxKeys) >= EntryCount(t, bucket, o)
    ensures var page := Listed(t, bucket, o);
      && StrictlyAscending(KeysOf(page.records))
      && (forall r :: r in page.records <==>
            r in t && r.bucket == bucket && o.prefix <= r.key && !Delimited(r.key, o.prefix, o.delimiter))
      && (forall c :: c in page.groups <==>
            exists r :: r in t && r.bucket == bucket && o.prefix <= r.key
              && UpToDelimiter(c, r.key, o.prefix, o.delimiter))
  {
    var page := Listed(t, bucket, o);
    DelimiterGrouping(t, bucket, o);
    forall r ensures r in page.records <==>
      r in t && r.bucket == bucket && o.prefix <= r.key && !Delimited(r.key, o.prefix, o.delimiter)
    {
      if o.prefix <= r.key {
        GroupedIff(r.key, o);
      }
    }
    forall c, r: Record | o.prefix <= r.key
      ensures Grouped(r.key, o) && c == Cut(r.key, o) <==> UpToDelimiter(c, r.key, o.prefix, o.delimiter)
    {
      CutIff(c, r.key, o);
    }
  }

  // ------------------------------------------------------- the first page of keys

  function Below(keys: set<string>, k: string): set<string> {
    set x | x in keys && Less(x, k)
  }

  /** The `max` least keys of a set, in ascending order: those with fewer than `max` keys below them. */
  ghost predicate FirstPage(keys: set<string>, max: nat, page: seq<string>) {
    && StrictlyAscending(page)
    && forall k :: k in page <==> k in keys && |Below(keys, k)| < max
  }

  lemma {:induction false} SetOfDistinct(a: seq<string>)
    requires StrictlyAscending(a)
    ensures |set x | x in a| == |a|
  {
    if |a| > 0 {
      var n := |a| - 1;
      SetOfDistinct(a[..n]);
      assert a == a[..n] + [a[n]];
      Irreflexive(a[n]);
      assert a[n] !in a[..n];
      assert (set x | x in a) == (set x | x in a[..n]) + {a[n]};
    }
  }

  /** A key's place in the ascending list is the number of keys below it. */
  lemma RankIsPlace(keys: set<string>, list: seq<string>, i: nat)
    requires StrictlyAscending(list) && forall x :: x in list <==> x in keys
    requires i < |list|
    ensures |Below(keys, list[i])| == i
  {
    forall x ensures x in Below(keys, list[i]) <==> x in list[..i] {
      if x in keys {
        var j :| 0 <= j < |list| && list[j] == x;
        if j >= i && Less(x, list[i]) {
          Irreflexive(list[i]);
          if j > i {
            Asymmetric(list[i], x);
          }
        }
      }
    }
    assert Below(keys, list[i]) == set x | x in list[..i];
    SetOfDistinct(list[..i]);
  }

  lemma CutIsFirstPage(keys: set<string>, list: seq<string>, max: nat)
    requires StrictlyAscending(list) && forall x :: x in list <==> x in keys
    ensures FirstPage(keys, max, list[..if max < |list| then max else |list|])
  {
    var page := list[..if max < |list| then max else |list|];
    forall k ensures k in page <==> k in keys && |Below(keys, k)| < max {
      if k in keys {
        var i :| 0 <= i < |list| && list[i] == k;
        RankIsPlace(keys, list, i);
        if i < max {
          assert page[i] == k;
        }
        if k in page {
          var j :| 0 <= j < |page| && page[j] == k;
          RankIsPlace(keys, list, j);
        }
      }
    }
  }

  function KeysOf(rs: seq<Record>): (ks: seq<string>)
    ensures |ks| == |rs| && forall i :: 0 <= i < |rs| ==> ks[i] == rs[i].key
  {
    seq(|rs|, i requires 0 <= i < |rs| => rs[i].key)
  }

  /** The keys of the bucket's records with the prefix. */
  ghost function ScopeKeys(t: seq<Record>, bucket: string, prefix: string): set<string> {
    set r | r in t && InScope(bucket, prefix, r) :: r.key
  }

  lemma ReachIsScope(t: seq<Record>, bucket: string, o: Options)
    requires Sorted(t) && CleanBuckets(t) && NulFree(bucket) && o.startAfter == ""
    ensures forall x :: x in KeysOf(Reach(t, bucket, o)) <==> x in ScopeKeys(t, bucket, o.prefix)
  {
    var run := Reach(t, bucket, o);
    ReachFromPrefix(t, bucket, o);
    forall x ensures x in KeysOf(run) <==> x in ScopeKeys(t, bucket, o.prefix) {
      if x in KeysOf(run) {
        var i :| 0 <= i < |run| && run[i].key == x;
        assert run[i] in run;
      }
      if x in ScopeKeys(t, bucket, o.prefix) {
        var r :| r in t && InScope(bucket, o.prefix, r) && r.key == x;
        assert r in run;
        var i :| 0 <= i < |run| && run[i] == r;
        assert KeysOf(run)[i] == x;
      }
    }
  }

  /**
   A plain listing from the start returns the first page of the bucket's keys with the
   prefix, of a thousand keys when no positive number is asked for.
   */
  lemma ListingIsFirstPage(t: seq<Record>, bucket: string, prefix: string, maxKeys: int)
    requires Sorted(t) && CleanBuckets(t) && NulFree(bucket)
    ensures FirstPage(ScopeKeys(t, bucket, prefix), if maxKeys <= 0 then 1000 else maxKeys,
                      KeysOf(Listed(t, bucket, Options(prefix, "", "", maxKeys)).records))
  {
    var o := Options(prefix, "", "", maxKeys);
    var run := Reach(t, bucket, o);
    var max := if maxKeys <= 0 then 1000 else maxKeys;
    var n := if max < |run| then max else |run|;
    PlainPage(t, bucket, o);
    ReachIsScope(t, bucket, o);
    ReachAscends(t, bucket, o);
    CutIsFirstPage(ScopeKeys(t, bucket, prefix), KeysOf(run), max);
    assert KeysOf(run)[..n] == KeysOf(run[..n]);
  }
}
