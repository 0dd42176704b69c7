/**
 Canonical requests of AWS Signature Version 4 (internal/auth/sigv4.go): the
 percent-encoding of section 2.1 of RFC 3986 over the unreserved set of section
 2.3, and the canonical query string and path. One char stands for one byte.
 */
module SigV4 {
  import opened Basics
  import opened Strings

  predicate Bytes(s: string) {
    forall i :: 0 <= i < |s| ==> s[i] as int < 256
  }

  predicate IsUnreserved(c: char) {
    'A' <= c <= 'Z' || 'a' <= c <= 'z' || '0' <= c <= '9' || c == '-' || c == '_' || c == '.' || c == '~'
  }

  predicate AllUnreserved(s: string) {
    forall i :: 0 <= i < |s| ==> IsUnreserved(s[i])
  }

  function UpperHex(d: nat): (c: char)
    requires d < 16
    ensures IsUnreserved(c) && FromHex(c) == d
  {
    if d < 10 then (d + '0' as int) as char else (d - 10 + 'A' as int) as char
  }

  /** The value of a hexadecimal digit, or 16. */
  function FromHex(c: char): (d: nat)
    ensures d <= 16
  {
    if '0' <= c <= '9' then c as int - '0' as int
    else if 'A' <= c <= 'F' then c as int - 'A' as int + 10
    else if 'a' <= c <= 'f' then c as int - 'a' as int + 10
    else 16
  }

  function EncodeByte(c: char, all: bool): string {
    if IsUnreserved(c) || (!all && c == '/') then [c]
    else ['%', UpperHex(c as int / 16 % 16), UpperHex(c as int % 16)]
  }

  function UriEncode(s: string, all: bool): string {
    if |s| == 0 then "" else EncodeByte(s[0], all) + UriEncode(s[1..], all)
  }

  /** Letters, digits and "-", ".", "_", "~", by their codes, and a slash unless all is encoded. */
  predicate Stays(n: nat, all: bool) {
    65 <= n <= 90 || 97 <= n <= 122 || 48 <= n <= 57 || n == 45 || n == 46 || n == 95 || n == 126 || (n == 47 && !all)
  }

  lemma HexDigit(d: nat)
    requires d < 16
    ensures UpperHex(d) == "0123456789ABCDEF"[d]
  {
  }

  lemma OneByteEncoded(c: char, all: bool)
    requires c as int < 256
    ensures var n := c as int;
      EncodeByte(c, all) ==
      if Stays(n, all) then [c] else ['%', "0123456789ABCDEF"[n / 16], "0123456789ABCDEF"[n % 16]]
  {
    HexDigit(c as int / 16);
    HexDigit(c as int % 16);
  }

  /** Byte by byte: what does not stay becomes a percent sign and two upper-case hexadecimal digits. */
  lemma EncodesByByte(c: char, rest: string, all: bool)
    requires c as int < 256
    ensures var n := c as int;
      UriEncode([c] + rest, all) ==
      (if Stays(n, all) then [c] else ['%', "0123456789ABCDEF"[n / 16], "0123456789ABCDEF"[n % 16]])
      + UriEncode(rest, all)
  {
    OneByteEncoded(c, all);
    assert ([c] + rest)[1..] == rest;
  }

  lemma {:induction false} EncodeConcat(a: string, b: string, all: bool)
    ensures UriEncode(a + b, all) == UriEncode(a, all) + UriEncode(b, all)
  {
    if |a| == 0 {
      assert a + b == b;
    } else {
      EncodeConcat(a[1..], b, all);
      assert (a + b)[1..] == a[1..] + b && (a + b)[0] == a[0];
    }
  }

  method EncodeLoop(s: string, all: bool) returns (r: string)
    ensures r == UriEncode(s, all)
  {
    r := "";
    for i := 0 to |s|
      invariant r == UriEncode(s[..i], all)
    {
      EncodeConcat(s[..i], s[i..i + 1], all);
      assert s[..i + 1] == s[..i] + s[i..i + 1];
      var c := s[i];
      assert UriEncode(s[i..i + 1], all) == EncodeByte(c, all);
      if IsUnreserved(c) || (!all && c == '/') {
        r := r + [c];
      } else {
        r := r + ['%', UpperHex(c as int / 16 % 16), UpperHex(c as int % 16)];
      }
    }
    assert s[..|s|] == s;
  }

  /**
   Percent-decoding as net/url does it: in a query a plus sign is a space; a percent
   sign that two hexadecimal digits do not follow is an error.
   */
  function Unescape(s: string, query: bool): Option<string> {
    if |s| == 0 then Some("")
    else if s[0] == '%' then
      if |s| < 3 || FromHex(s[1]) == 16 || FromHex(s[2]) == 16 then None
      else match Unescape(s[3..], query)
        case None => None
        case Some(rest) => Some([(16 * FromHex(s[1]) + FromHex(s[2])) as char] + rest)
    else match Unescape(s[1..], query)
      case None => None
      case Some(rest) => Some([if query && s[0] == '+' then ' ' else s[0]] + rest)
  }

  /** In a query a plus sign is a space; a percent sign needs two hexadecimal digits, of either case. */
  lemma UnescapesByByte(rest: string, query: bool)
    requires Unescape(rest, query).Some?
    ensures Unescape("+" + rest, query) == Some([if query then ' ' else '+'] + Unescape(rest, query).value)
    ensures Unescape("%2f" + rest, query) == Unescape("%2F" + rest, query) == Some("/" + Unescape(rest, query).value)
    ensures Unescape("%", query) == Unescape("%2", query) == Unescape("%2g" + rest, query) == None
  {
    assert ("+" + rest)[1..] == rest && ("%2f" + rest)[3..] == rest && ("%2F" + rest)[3..] == rest;
  }

  /** Decoding takes one encoded byte off the front. */
  lemma DecodeByte(c: char, all: bool, query: bool, e: string, rest: string)
    requires c as int < 256 && e == EncodeByte(c, all)
    ensures Unescape(e + rest, query) ==
            match Unescape(rest, query) case None => None case Some(r) => Some([c] + r)
  {
    var s := e + rest;
    var n := c as int;
    if |e| == 1 {
      assert s[1..] == rest;
    } else {
      assert s[3..] == rest && s[1] == UpperHex(n / 16 % 16) && s[2] == UpperHex(n % 16);
      assert 16 * (n / 16 % 16) + n % 16 == n;
    }
  }

  /** Decoding undoes encoding. */
  lemma {:induction false} EncodeRoundTrip(s: string, all: bool, query: bool)
    requires Bytes(s)
    ensures Unescape(UriEncode(s, all), query) == Some(s)
  {
    if |s| > 0 {
      var e := EncodeByte(s[0], all);
      EncodeRoundTrip(s[1..], all, query);
      DecodeByte(s[0], all, query, e, UriEncode(s[1..], all));
      assert s == [s[0]] + s[1..];
    }
  }

  /** Encoding loses nothing. */
  lemma {:induction false} EncodeInjective(a: string, b: string, all: bool)
    requires Bytes(a) && Bytes(b) && UriEncode(a, all) == UriEncode(b, all)
    ensures a == b
  {
    EncodeRoundTrip(a, all, true);
    EncodeRoundTrip(b, all, true);
  }

  /** A fully encoded string is made of unreserved characters and percent signs. */
  lemma {:induction false} EncodedAlphabet(s: string)
    ensures forall c :: c in UriEncode(s, true) ==> IsUnreserved(c) || c == '%'
  {
    if |s| > 0 {
      EncodedAlphabet(s[1..]);
    }
  }

  lemma {:induction false} UnreservedUnchanged(s: string, all: bool)
    requires AllUnreserved(s)
    ensures UriEncode(s, all) == s
  {
    if |s| > 0 {
      UnreservedUnchanged(s[1..], all);
    }
  }

  // -------------------------------------------------------------------- path

  function EncodeSegments(segs: seq<string>): (r: seq<string>)
    ensures |r| == |segs|
  {
    if |segs| == 0 then [] else [UriEncode(segs[0], false)] + EncodeSegments(segs[1..])
  }

  /** Each segment is encoded by itself and the slashes are put back. */
  function CanonicalURI(path: string): string {
    if path == "" then "/" else Join(EncodeSegments(Split(path, '/')), '/')
  }

  lemma SlashUnchanged(a: string, b: string)
    ensures UriEncode(a + ['/'] + b, false) == UriEncode(a, false) + ['/'] + UriEncode(b, false)
  {
    EncodeConcat(a + ['/'], b, false);
    EncodeConcat(a, ['/'], false);
    assert ['/'][1..] == "" && UriEncode("", false) == "";
    assert UriEncode(['/'], false) == ['/'] + "";
  }

  lemma {:induction false} SegmentsAreEncoding(path: string)
    ensures Join(EncodeSegments(Split(path, '/')), '/') == UriEncode(path, false)
    decreases |path|
  {
    var i := IndexOf(path, '/');
    if i == |path| {
      OneSegment(path);
    } else {
      SegmentsAreEncoding(path[i + 1..]);
      FirstSegment(path, i);
    }
  }

  lemma OneSegment(path: string)
    requires IndexOf(path, '/') == |path|
    ensures Join(EncodeSegments(Split(path, '/')), '/') == UriEncode(path, false)
  {
    assert Split(path, '/') == [path];
    assert EncodeSegments([path]) == [UriEncode(path, false)];
  }

  lemma FirstSegment(path: string, i: nat)
    requires i == IndexOf(path, '/') < |path|
    ensures var rest := path[i + 1..];
      Join(EncodeSegments(Split(rest, '/')), '/') == UriEncode(rest, false) ==>
      Join(EncodeSegments(Split(path, '/')), '/') == UriEncode(path, false)
  {
    var a, b := path[..i], path[i + 1..];
    JoinEncoded(a, Split(b, '/'));
    SlashUnchanged(a, b);
    assert path == a + ['/'] + b;
    assert Split(path, '/') == [a] + Split(b, '/');
  }

  lemma JoinEncoded(a: string, rest: seq<string>)
    requires |rest| >= 1
    ensures Join(EncodeSegments([a] + rest), '/') == UriEncode(a, false) + ['/'] + Join(EncodeSegments(rest), '/')
  {
    assert ([a] + rest)[1..] == rest;
    var es := EncodeSegments([a] + rest);
    assert es[0] == UriEncode(a, false) && es[1..] == EncodeSegments(rest);
  }

  /** The canonical path determines the path, except that no path counts as the root. */
  lemma CanonicalURIFaithful(p1: string, p2: string)
    requires Bytes(p1) && Bytes(p2)
    ensures CanonicalURI(p1) == CanonicalURI(p2) <==>
            (if p1 == "" then "/" else p1) == (if p2 == "" then "/" else p2)
  {
    SegmentsAreEncoding(p1);
    SegmentsAreEncoding(p2);
    assert UriEncode("/", false) == "/";
    var q1, q2 := if p1 == "" then "/" else p1, if p2 == "" then "/" else p2;
    if UriEncode(q1, false) == UriEncode(q2, false) {
      EncodeInjective(q1, q2, false);
    }
  }

  // ------------------------------------------------------------ query string

  type Params = map<string, seq<string>>

  type Pair = (string, string)

  function EncodePair(p: Pair): string {
    UriEncode(p.0, true) + "=" + UriEncode(p.1, true)
  }

  function EncodePairs(ps: seq<Pair>): (es: seq<string>)
    ensures |es| == |ps|
  {
    Mapped(p => EncodePair(p), ps)
  }

  function Mapped(f: Pair -> string, ps: seq<Pair>): (es: seq<string>)
    ensures |es| == |ps| && forall i :: 0 <= i < |ps| ==> es[i] == f(ps[i])
  {
    seq(|ps|, i requires 0 <= i < |ps| => f(ps[i]))
  }

  lemma CountStep<T>(s: seq<T>, x: T)
    requires |s| > 0
    ensures multiset(s)[x] == multiset(s[1..])[x] + if s[0] == x then 1 else 0
  {
    assert s == [s[0]] + s[1..];
  }

  /** Under a function that tells p from the others, images count as often as p. */
  lemma {:induction false} MappedCount(f: Pair -> string, ps: seq<Pair>, p: Pair)
    requires forall q :: q in ps && f(q) == f(p) ==> q == p
    ensures multiset(Mapped(f, ps))[f(p)] == multiset(ps)[p]
  {
    if |ps| > 0 {
      MappedCount(f, ps[1..], p);
      CountStep(ps, p);
      CountStep(Mapped(f, ps), f(p));
      assert Mapped(f, ps)[1..] == Mapped(f, ps[1..]);
    }
  }

  lemma MappedConcat(f: Pair -> string, a: seq<Pair>, b: seq<Pair>)
    ensures Mapped(f, a + b) == Mapped(f, a) + Mapped(f, b)
  {
  }

  /** One occurrence of x taken out of a list. */
  lemma TakeOut(f: Pair -> string, qs: seq<Pair>, x: Pair) returns (rest: seq<Pair>)
    requires x in multiset(qs)
    ensures multiset(rest) == multiset(qs) - multiset{x} && |rest| == |qs| - 1
    ensures multiset(Mapped(f, qs)) == multiset(Mapped(f, rest)) + multiset{f(x)}
  {
    var i :| 0 <= i < |qs| && qs[i] == x;
    var before, after := qs[..i], qs[i + 1..];
    rest := before + after;
    assert qs == before + [x] + after;
    MappedConcat(f, before, after);
    MappedConcat(f, before + [x], after);
    MappedConcat(f, before, [x]);
    assert Mapped(f, [x]) == [f(x)];
  }

  lemma {:induction false} MappedMultiset(f: Pair -> string, ps: seq<Pair>, qs: seq<Pair>)
    requires multiset(ps) == multiset(qs)
    ensures multiset(Mapped(f, ps)) == multiset(Mapped(f, qs))
    decreases |ps|
  {
    assert |ps| == |multiset(ps)| == |multiset(qs)| == |qs|;
    if |ps| > 0 {
      var p1 := TakeOut(f, ps, ps[0]);
      var q1 := TakeOut(f, qs, ps[0]);
      MappedMultiset(f, p1, q1);
    }
  }

  predicate PairBytes(p: Pair) {
    Bytes(p.0) && Bytes(p.1)
  }

  /** An encoded pair holds one equals sign, no ampersand and no semicolon. */
  lemma PairAlphabet(p: Pair)
    ensures '&' !in EncodePair(p) && ';' !in EncodePair(p)
    ensures IndexOf(EncodePair(p), '=') == |UriEncode(p.0, true)|
  {
    var a, b := UriEncode(p.0, true), UriEncode(p.1, true);
    EncodedAlphabet(p.0);
    EncodedAlphabet(p.1);
    forall j | 0 <= j < |a| ensures EncodePair(p)[j] != '=' {
      assert EncodePair(p)[j] == a[j] && a[j] in a;
    }
    IndexIs(EncodePair(p), '=', |a|);
  }

  lemma PairInjective(p: Pair, q: Pair)
    requires PairBytes(p) && PairBytes(q) && EncodePair(p) == EncodePair(q)
    ensures p == q
  {
    PairAlphabet(p);
    PairAlphabet(q);
    var n := |UriEncode(p.0, true)|;
    assert UriEncode(p.0, true) == EncodePair(p)[..n] == UriEncode(q.0, true);
    assert UriEncode(p.1, true) == EncodePair(p)[n + 1..] == UriEncode(q.1, true);
    EncodeInjective(p.0, q.0, true);
    EncodeInjective(p.1, q.1, true);
  }

  /** Encodings count as often as the pairs that they encode. */
  lemma EncodedCount(ps: seq<Pair>, p: Pair)
    requires PairBytes(p) && forall q :: q in ps ==> PairBytes(q)
    ensures multiset(EncodePairs(ps))[EncodePair(p)] == multiset(ps)[p]
  {
    var f := (q: Pair) => EncodePair(q);
    forall q | q in ps && f(q) == f(p) ensures q == p {
      PairInjective(q, p);
    }
    MappedCount(f, ps, p);
  }

  /** The canonical string of a list of pairs. */
  function CanonicalOf(ps: seq<Pair>): string {
    Join(Sort(EncodePairs(ps)), '&')
  }

  lemma CanonicalOfEqual(ps: seq<Pair>, qs: seq<Pair>)
    requires multiset(ps) == multiset(qs)
    ensures CanonicalOf(ps) == CanonicalOf(qs)
  {
    MappedMultiset(p => EncodePair(p), ps, qs);
    SortAscends(EncodePairs(qs));
    SortIsSorted(EncodePairs(ps), Sort(EncodePairs(qs)));
  }

  lemma CanonicalOfInjective(ps: seq<Pair>, qs: seq<Pair>)
    requires (forall p :: p in ps ==> PairBytes(p)) && (forall p :: p in qs ==> PairBytes(p))
    requires CanonicalOf(ps) == CanonicalOf(qs)
    ensures multiset(ps) == multiset(qs)
  {
    SortedParts(ps);
    SortedParts(qs);
    JoinInjective(Sort(EncodePairs(ps)), Sort(EncodePairs(qs)), '&');
    SameSorted(EncodePairs(ps), EncodePairs(qs));
    SameEncodings(ps, qs);
  }

  lemma SameSorted(es: seq<string>, fs: seq<string>)
    requires Sort(es) == Sort(fs)
    ensures multiset(es) == multiset(fs)
  {
    assert multiset(es) == multiset(Sort(es));
  }

  lemma SameEncodings(ps: seq<Pair>, qs: seq<Pair>)
    requires (forall p :: p in ps ==> PairBytes(p)) && (forall p :: p in qs ==> PairBytes(p))
    requires multiset(EncodePairs(ps)) == multiset(EncodePairs(qs))
    ensures multiset(ps) == multiset(qs)
  {
    forall p ensures multiset(ps)[p] == multiset(qs)[p] {
      if p in ps || p in qs {
        EncodedCount(ps, p);
        EncodedCount(qs, p);
      } else {
        assert p !in multiset(ps) && p !in multiset(qs);
      }
    }
  }

  lemma SortedParts(ps: seq<Pair>)
    ensures var es := Sort(EncodePairs(ps));
      Separable(es, '&')
  {
    var es := Sort(EncodePairs(ps));
    forall i | 0 <= i < |es| ensures |es[i]| > 0 && '&' !in es[i] {
      assert es[i] in multiset(EncodePairs(ps));
      var k :| 0 <= k < |ps| && EncodePairs(ps)[k] == es[i];
      PairAlphabet(ps[k]);
    }
  }

  /** How often the parameters hold a name with a value. */
  function Count(m: Params, p: Pair): nat {
    if p.0 in m then multiset(m[p.0])[p.1] else 0
  }

  /** The list holds the pairs of the parameters, each as often. */
  ghost predicate Lists(m: Params, ps: seq<Pair>) {
    forall p :: multiset(ps)[p] == Count(m, p)
  }

  ghost predicate ParamBytes(m: Params) {
    forall k :: k in m ==> Bytes(k) && forall v :: v in m[k] ==> Bytes(v)
  }

  /** What a canonical query string of the parameters is, in whatever order they were visited. */
  ghost predicate IsCanonical(m: Params, q: string) {
    exists ps :: Lists(m, ps) && q == CanonicalOf(ps)
  }

  /** The pairs gathered when the names in `todo` are still to be visited. */
  ghost predicate Gathered(m: Params, todo: set<string>, ps: seq<Pair>) {
    forall p: Pair :: multiset(ps)[p] == if p.0 in todo then 0 else Count(m, p)
  }

  function PairsOf(k: string, vals: seq<string>): (ps: seq<Pair>)
    ensures |ps| == |vals| && forall i :: 0 <= i < |vals| ==> ps[i] == (k, vals[i])
  {
    seq(|vals|, i requires 0 <= i < |vals| => (k, vals[i]))
  }

  lemma {:induction false} PairsCount(k: string, vals: seq<string>, p: Pair)
    ensures multiset(PairsOf(k, vals))[p] == if p.0 == k then multiset(vals)[p.1] else 0
  {
    if |vals| > 0 {
      PairsCount(k, vals[1..], p);
      CountStep(vals, p.1);
      CountStep(PairsOf(k, vals), p);
      assert PairsOf(k, vals)[1..] == PairsOf(k, vals[1..]);
    }
  }

  lemma GatherMore(m: Params, todo: set<string>, ps: seq<Pair>, k: string)
    requires Gathered(m, todo, ps) && k in todo && k in m
    ensures Gathered(m, todo - {k}, ps + PairsOf(k, m[k]))
  {
    forall p: Pair ensures multiset(ps + PairsOf(k, m[k]))[p] == if p.0 in todo - {k} then 0 else Count(m, p) {
      PairsCount(k, m[k], p);
    }
  }

  /** The loop over the map, whose order is arbitrary, then the sort. */
  method CanonicalQueryString(params: Params) returns (q: string)
    ensures IsCanonical(params, q)
  {
    if |params| == 0 {
      NoPairs(params);
      return "";
    }
    var pairs;
    ghost var ps;
    pairs, ps := EncodeParams(params);
    q := Join(Sort(pairs), '&');
    assert Lists(params, ps) && q == CanonicalOf(ps);
  }

  lemma NoPairs(params: Params)
    requires |params| == 0
    ensures IsCanonical(params, "")
  {
    var ps: seq<Pair> := [];
    assert Lists(params, ps) && CanonicalOf(ps) == "";
  }

  /** The outer loop, over the names in any order. */
  method EncodeParams(params: Params) returns (pairs: seq<string>, ghost ps: seq<Pair>)
    ensures Lists(params, ps) && pairs == EncodePairs(ps)
  {
    pairs, ps := [], [];
    var todo := params.Keys;
    while todo != {}
      invariant todo <= params.Keys && pairs == EncodePairs(ps) && Gathered(params, todo, ps)
      decreases todo
    {
      var k :| k in todo;
      var more := EncodeValues(k, params[k]);
      GatherMore(params, todo, ps, k);
      MappedConcat(p => EncodePair(p), ps, PairsOf(k, params[k]));
      pairs := pairs + more;
      ps := ps + PairsOf(k, params[k]);
      todo := todo - {k};
    }
  }

  /** The inner loop: one encoded pair for each value of the name. */
  method EncodeValues(k: string, vals: seq<string>) returns (es: seq<string>)
    ensures es == EncodePairs(PairsOf(k, vals))
  {
    es := [];
    for i := 0 to |vals|
      invariant |es| == i && forall j :: 0 <= j < i ==> es[j] == EncodePair((k, vals[j]))
    {
      es := es + [UriEncode(k, true) + "=" + UriEncode(vals[i], true)];
    }
  }

  /**
   Canonical query strings are faithful: two parameter maps have the same canonical
   string exactly when they hold the same (name, value) pairs, each as often.
   */
  lemma CanonicalQueryFaithful(m1: Params, q1: string, m2: Params, q2: string)
    requires IsCanonical(m1, q1) && IsCanonical(m2, q2) && ParamBytes(m1) && ParamBytes(m2)
    ensures q1 == q2 <==> forall p :: Count(m1, p) == Count(m2, p)
  {
    var ps :| Lists(m1, ps) && q1 == CanonicalOf(ps);
    var qs :| Lists(m2, qs) && q2 == CanonicalOf(qs);
    ListedBytes(m1, ps);
    ListedBytes(m2, qs);
    if q1 == q2 {
      CanonicalOfInjective(ps, qs);
    }
    if multiset(ps) == multiset(qs) {
      CanonicalOfEqual(ps, qs);
    }
    SameCounts(m1, ps, m2, qs);
  }

  lemma SameCounts(m1: Params, ps: seq<Pair>, m2: Params, qs: seq<Pair>)
    requires Lists(m1, ps) && Lists(m2, qs)
    ensures multiset(ps) == multiset(qs) <==> forall p :: Count(m1, p) == Count(m2, p)
  {
    forall p ensures multiset(ps)[p] == Count(m1, p) && multiset(qs)[p] == Count(m2, p) {
    }
  }

  lemma ListedBytes(m: Params, ps: seq<Pair>)
    requires Lists(m, ps) && ParamBytes(m)
    ensures forall p :: p in ps ==> PairBytes(p)
  {
    forall p | p in ps ensures PairBytes(p) {
      assert p in multiset(ps);
      assert Count(m, p) > 0;
    }
  }
}
