/**
 Byte strings: one char stands for one byte. Their order, sorting, cutting and
 decimal numbers, as Go's strings, sort and strconv packages define them.
 */
module Strings {

  // ------------------------------------------------------------------- order

  /** The byte-wise order of Go strings and bbolt keys. */
  predicate Less(a: string, b: string) {
    |b| > 0 && (|a| == 0 || a[0] < b[0] || (a[0] == b[0] && Less(a[1..], b[1..])))
  }

  lemma {:induction false} Irreflexive(a: string)
    ensures !Less(a, a)
  {
    if |a| > 0 {
      Irreflexive(a[1..]);
    }
  }

  lemma {:induction false} Transitive(a: string, b: string, c: string)
    requires Less(a, b) && Less(b, c)
    ensures Less(a, c)
  {
    if |a| > 0 && a[0] == b[0] == c[0] {
      Transitive(a[1..], b[1..], c[1..]);
    }
  }

  lemma {:induction false} Total(a: string, b: string)
    ensures Less(a, b) || a == b || Less(b, a)
  {
    if |a| > 0 && |b| > 0 && a[0] == b[0] {
      Total(a[1..], b[1..]);
      assert a == [a[0]] + a[1..] && b == [b[0]] + b[1..];
    }
  }

  lemma Asymmetric(a: string, b: string)
    requires Less(a, b)
    ensures !Less(b, a) && a != b
  {
    Irreflexive(a);
    if Less(b, a) {
      Transitive(a, b, a);
    }
  }

  /** a < b <= c gives a < c; a <= b < c gives a < c. */
  lemma WeakTransitive(a: string, b: string, c: string)
    ensures Less(a, b) && !Less(c, b) ==> Less(a, c)
    ensures !Less(b, a) && Less(b, c) ==> Less(a, c)
  {
    if Less(a, b) && !Less(c, b) {
      Total(b, c);
      if Less(b, c) {
        Transitive(a, b, c);
      }
    }
    if !Less(b, a) && Less(b, c) {
      Total(a, b);
      if Less(a, b) {
        Transitive(a, b, c);
      }
    }
  }

  /** Nothing that starts with p comes before p. */
  lemma {:induction false} PrefixFirst(p: string, s: string)
    requires p <= s
    ensures !Less(s, p)
  {
    if |p| > 0 {
      PrefixFirst(p[1..], s[1..]);
    }
  }

  /** Whatever lies between p and a string that starts with p starts with p. */
  lemma {:induction false} PrefixConvex(p: string, b: string, c: string)
    requires p <= c && !Less(b, p) && Less(b, c)
    ensures p <= b
  {
    if |p| > 0 {
      PrefixConvex(p[1..], b[1..], c[1..]);
      assert p == [p[0]] + p[1..] && b == [b[0]] + b[1..];
    }
  }

  /** The strings strictly between m and m + "\\x01" are those that extend m by a NUL. */
  lemma {:induction false} GapAfter(m: string, x: string)
    ensures Less(m, x) && Less(x, m + ['\U{1}']) <==> m + ['\0'] <= x
  {
    if |m| == 0 {
      assert Less(x, ['\U{1}']) <==> |x| == 0 || x[0] < '\U{1}';
    } else if |x| > 0 && x[0] == m[0] {
      GapAfter(m[1..], x[1..]);
      assert (m + ['\U{1}'])[1..] == m[1..] + ['\U{1}'];
      assert (m + ['\0'])[1..] == m[1..] + ['\0'];
      assert m + ['\0'] <= x <==> m[1..] + ['\0'] <= x[1..] by {
        assert m + ['\0'] == [m[0]] + (m[1..] + ['\0']) && x == [x[0]] + x[1..];
        if m[1..] + ['\0'] <= x[1..] {
          var n := |m| + 1;
          assert x[..n] == [x[0]] + x[1..][..n - 1];
        }
        if m + ['\0'] <= x {
          var n := |m| + 1;
          assert x[1..][..n - 1] == x[..n][1..];
        }
      }
    }
  }

  lemma {:induction false} SuffixKeepsOrder(p: string, a: string, b: string)
    ensures Less(p + a, p + b) <==> Less(a, b)
  {
    if |p| == 0 {
      assert p + a == a && p + b == b;
    } else {
      SuffixKeepsOrder(p[1..], a, b);
      assert (p + a)[1..] == p[1..] + a && (p + b)[1..] == p[1..] + b;
    }
  }

  // ------------------------------------------------------------------ sorting

  ghost predicate Ascending(ss: seq<string>) {
    forall i, j :: 0 <= i < j < |ss| ==> !Less(ss[j], ss[i])
  }

  ghost predicate StrictlyAscending(ss: seq<string>) {
    forall i, j :: 0 <= i < j < |ss| ==> Less(ss[i], ss[j])
  }

  function Insert(ss: seq<string>, x: string): (r: seq<string>)
    ensures multiset(r) == multiset(ss) + multiset{x}
  {
    if |ss| == 0 || !Less(ss[0], x) then [x] + ss
    else
      assert ss == [ss[0]] + ss[1..];
      [ss[0]] + Insert(ss[1..], x)
  }

  /** Sorting as Go's sort.Strings orders; equal strings are indistinguishable. */
  function Sort(ss: seq<string>): (r: seq<string>)
    ensures multiset(r) == multiset(ss)
  {
    if |ss| == 0 then []
    else
      assert ss == [ss[0]] + ss[1..];
      Insert(Sort(ss[1..]), ss[0])
  }

  lemma {:induction false} InsertAscends(ss: seq<string>, x: string)
    requires Ascending(ss)
    ensures Ascending(Insert(ss, x))
  {
    var r := Insert(ss, x);
    if |ss| == 0 || !Less(ss[0], x) {
      forall j | 0 < j < |r| ensures !Less(r[j], x) {
        if Less(r[j], x) {
          if j > 1 {
            assert !Less(ss[j - 1], ss[0]);
          }
          Irreflexive(ss[0]);
          WeakTransitive(ss[0], r[j], x);
        }
      }
    } else {
      InsertAscends(ss[1..], x);
      forall j | 0 < j < |r| ensures !Less(r[j], ss[0]) {
        assert r[j] in multiset(Insert(ss[1..], x));
        if r[j] == x {
          Asymmetric(ss[0], x);
        } else {
          assert r[j] in ss[1..];
        }
      }
    }
  }

  lemma {:induction false} SortAscends(ss: seq<string>)
    ensures Ascending(Sort(ss))
  {
    if |ss| > 0 {
      SortAscends(ss[1..]);
      InsertAscends(Sort(ss[1..]), ss[0]);
    }
  }

  /** The first of an ascending list is below nothing in it. */
  lemma FirstIsLeast(a: seq<string>, x: string)
    requires Ascending(a) && x in multiset(a)
    ensures |a| > 0 && !Less(x, a[0])
  {
    var j :| 0 <= j < |a| && a[j] == x;
    Irreflexive(x);
  }

  lemma HeadsAgree(a: seq<string>, b: seq<string>)
    requires Ascending(a) && Ascending(b) && multiset(a) == multiset(b) && |a| > 0
    ensures |b| > 0 && a[0] == b[0]
  {
    assert a[0] in multiset(a);
    FirstIsLeast(b, a[0]);
    assert b[0] in multiset(b);
    FirstIsLeast(a, b[0]);
    Total(a[0], b[0]);
  }

  /** A sorted arrangement is determined by what it holds. */
  lemma {:induction false} SortedUnique(a: seq<string>, b: seq<string>)
    requires Ascending(a) && Ascending(b) && multiset(a) == multiset(b)
    ensures a == b
  {
    assert |a| == |multiset(a)| == |multiset(b)| == |b|;
    if |a| > 0 {
      HeadsAgree(a, b);
      var x := a[0];
      assert a == [x] + a[1..] && b == [x] + b[1..];
      assert multiset(a[1..]) == multiset(a) - multiset{x} == multiset(b[1..]);
      SortedUnique(a[1..], b[1..]);
    }
  }

  lemma {:induction false} SortIsSorted(ss: seq<string>, a: seq<string>)
    requires Ascending(a) && multiset(a) == multiset(ss)
    ensures a == Sort(ss)
  {
    SortAscends(ss);
    SortedUnique(a, Sort(ss));
  }

  // ------------------------------------------------------------ join and split

  function Join(parts: seq<string>, sep: char): string {
    if |parts| == 0 then ""
    else if |parts| == 1 then parts[0]
    else parts[0] + [sep] + Join(parts[1..], sep)
  }

  /** Like strings.Split: one part more than there are separators. */
  function Split(s: string, sep: char): (parts: seq<string>)
    ensures |parts| >= 1
    decreases |s|
  {
    var i := IndexOf(s, sep);
    if i == |s| then [s] else [s[..i]] + Split(s[i + 1..], sep)
  }

  /** The first position of c, or the length of s. */
  function IndexOf(s: string, c: char): (i: nat)
    ensures i <= |s|
    ensures i < |s| ==> s[i] == c
    ensures forall j :: 0 <= j < i ==> s[j] != c
  {
    if |s| == 0 || s[0] == c then 0 else 1 + IndexOf(s[1..], c)
  }

  lemma IndexIs(s: string, c: char, i: nat)
    requires i < |s| && s[i] == c && forall j :: 0 <= j < i ==> s[j] != c
    ensures IndexOf(s, c) == i
  {
  }

  /** Splitting undoes joining when no part holds the separator. */
  lemma {:induction false} SplitJoin(parts: seq<string>, sep: char)
    requires |parts| >= 1 && forall i :: 0 <= i < |parts| ==> sep !in parts[i]
    ensures Split(Join(parts, sep), sep) == parts
  {
    var s := Join(parts, sep);
    if |parts| > 1 {
      IndexIs(s, sep, |parts[0]|);
      assert s[..|parts[0]|] == parts[0] && s[|parts[0]| + 1..] == Join(parts[1..], sep);
      SplitJoin(parts[1..], sep);
    }
  }

  ghost predicate Separable(parts: seq<string>, sep: char) {
    forall i :: 0 <= i < |parts| ==> |parts[i]| > 0 && sep !in parts[i]
  }

  /** Lists of non-empty, separator-free parts are determined by their join. */
  lemma JoinInjective(a: seq<string>, b: seq<string>, sep: char)
    requires Separable(a, sep) && Separable(b, sep)
    requires Join(a, sep) == Join(b, sep)
    ensures a == b
  {
    if |a| > 0 && |b| > 0 {
      SplitJoin(a, sep);
      SplitJoin(b, sep);
    }
  }

  // ------------------------------------------------------------------ decimals

  function Digit(d: nat): (c: char)
    requires d < 10
    ensures '0' <= c <= '9' && c as int - '0' as int == d
  {
    (d + '0' as int) as char
  }

  predicate IsDigits(s: string) {
    forall i :: 0 <= i < |s| ==> '0' <= s[i] <= '9'
  }

  function Decimal(n: nat): (s: string)
    ensures |s| > 0 && IsDigits(s)
  {
    if n < 10 then [Digit(n)] else Decimal(n / 10) + [Digit(n % 10)]
  }

  /** The value of a string of digits. */
  function Value(s: string): nat
    requires IsDigits(s)
  {
    if |s| == 0 then 0 else 10 * Value(s[..|s| - 1]) + (s[|s| - 1] as int - '0' as int)
  }

  /** strconv.ParseInt on unsigned decimal text, without the 64-bit bound. */
  function ParseDecimal(s: string): (r: int) {
    if |s| > 0 && IsDigits(s) then Value(s) else -1
  }

  lemma {:induction false} DecimalValue(n: nat)
    ensures Value(Decimal(n)) == n
  {
    if n >= 10 {
      DecimalValue(n / 10);
      assert Decimal(n)[..|Decimal(n)| - 1] == Decimal(n / 10);
    }
  }

  function Zeros(n: nat): (s: string)
    ensures |s| == n && IsDigits(s)
  {
    seq(n, _ => '0')
  }

  /** The verb %05d for a non-negative number. */
  function Pad5(n: nat): (s: string)
    ensures |s| >= 5 && IsDigits(s)
  {
    var d := Decimal(n);
    if |d| < 5 then Zeros(5 - |d|) + d else d
  }

  lemma {:induction false} LeadingZeros(k: nat, s: string)
    requires IsDigits(s)
    ensures IsDigits(Zeros(k) + s) && Value(Zeros(k) + s) == Value(s)
    decreases |s|, k
  {
    var z := Zeros(k) + s;
    if |s| > 0 {
      assert z[..|z| - 1] == Zeros(k) + s[..|s| - 1];
      LeadingZeros(k, s[..|s| - 1]);
    } else if k > 0 {
      assert z[..|z| - 1] == Zeros(k - 1) + s;
      LeadingZeros(k - 1, s);
    }
  }

  /** Numbers below 100,000 are padded to five digits. */
  lemma Pad5Width(n: nat)
    ensures n < 100_000 ==> |Pad5(n)| == 5
    ensures Value(Pad5(n)) == n
  {
    DecimalValue(n);
    LeadingZeros(if |Decimal(n)| < 5 then 5 - |Decimal(n)| else 0, Decimal(n));
    assert n < 100_000 ==> n / 10 < 10_000 && n / 100 < 1_000 && n / 1_000 < 100 && n / 10_000 < 10;
    if n < 100_000 {
      ShortDecimal(n);
    }
  }

  lemma ShortDecimal(n: nat)
    requires n < 100_000
    ensures |Decimal(n)| <= 5
  {
    var a := n / 10;
    var b := a / 10;
    var c := b / 10;
    var d := c / 10;
    assert a < 10_000 && b < 1_000 && c < 100 && d < 10;
    assert |Decimal(d)| == 1;
    assert |Decimal(c)| <= 2;
    assert |Decimal(b)| <= 3;
    assert |Decimal(a)| <= 4;
  }

  /** Padded part numbers are distinct for distinct parts. */
  lemma Pad5Injective(m: nat, n: nat)
    requires Pad5(m) == Pad5(n)
    ensures m == n
  {
    DecimalValue(m);
    DecimalValue(n);
    LeadingZeros(if |Decimal(m)| < 5 then 5 - |Decimal(m)| else 0, Decimal(m));
    LeadingZeros(if |Decimal(n)| < 5 then 5 - |Decimal(n)| else 0, Decimal(n));
    assert Value(Pad5(m)) == m && Value(Pad5(n)) == n;
  }
}
