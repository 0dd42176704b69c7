/**
 What a presigned signature binds: the layout of the signed strings line by line, and, when
 hashes do not collide, that an accepted request with a generated signature is the request
 that the signature was generated for.
 */
module PresignBinding {
  import opened Basics
  import opened Strings
  import opened SigV4
  import opened Presign
  import opened PresignRoundTrip

  // ------------------------------------------------------------------- layout

  /** The header lines, without their ends. */
  function LinesOf(names: seq<string>, r: Request): (lines: seq<string>)
    ensures |lines| == |names|
    ensures forall i :: 0 <= i < |names| ==> lines[i] == Lower(names[i]) + ":" + HeaderValue(r, Lower(names[i]))
  {
    seq(|names|, i requires 0 <= i < |names| => Lower(names[i]) + ":" + HeaderValue(r, Lower(names[i])))
  }

  /** The lines of a canonical request: three, one for each header, and three. */
  function RequestLines(verb: string, uri: string, query: string, lines: seq<string>, signed: string): seq<string> {
    [verb, uri, query] + lines + ["", signed, "UNSIGNED-PAYLOAD"]
  }

  lemma TwoJoined(a: string, rest: seq<string>, sep: char)
    requires |rest| >= 1
    ensures Join([a] + rest, sep) == a + [sep] + Join(rest, sep)
  {
    assert ([a] + rest)[1..] == rest;
  }

  lemma Regrouped(line: string, headers: string, tail: string)
    ensures line + "\n" + (headers + tail) == line + "\n" + headers + tail
  {
  }

  lemma {:induction false} HeadersJoin(names: seq<string>, r: Request, rest: seq<string>)
    requires |rest| >= 1
    ensures Join(LinesOf(names, r) + rest, '\n') == CanonicalHeaders(names, r) + Join(rest, '\n')
  {
    var lines := LinesOf(names, r);
    if |names| == 0 {
      assert lines + rest == rest;
    } else {
      var more := LinesOf(names[1..], r);
      HeadersJoin(names[1..], r, rest);
      assert lines == [lines[0]] + more;
      assert lines + rest == [lines[0]] + (more + rest);
      TwoJoined(lines[0], more + rest, '\n');
      Regrouped(lines[0], CanonicalHeaders(names[1..], r), Join(rest, '\n'));
    }
  }

  /** The lines behind the headers. */
  lemma EndJoined(signed: string)
    ensures Join(["", signed, "UNSIGNED-PAYLOAD"], '\n') == "\n" + (signed + "\n" + "UNSIGNED-PAYLOAD")
  {
    TwoJoined("", [signed, "UNSIGNED-PAYLOAD"], '\n');
    TwoJoined(signed, ["UNSIGNED-PAYLOAD"], '\n');
    assert [""] + [signed, "UNSIGNED-PAYLOAD"] == ["", signed, "UNSIGNED-PAYLOAD"];
    assert [signed] + ["UNSIGNED-PAYLOAD"] == [signed, "UNSIGNED-PAYLOAD"];
    assert "" + ['\n'] == "\n";
  }

  /** Three lines and a tail. */
  lemma FrontJoined(verb: string, uri: string, query: string, tail: seq<string>)
    requires |tail| >= 1
    ensures Join([verb, uri, query] + tail, '\n') == verb + "\n" + (uri + "\n" + (query + "\n" + Join(tail, '\n')))
  {
    TwoJoined(query, tail, '\n');
    TwoJoined(uri, [query] + tail, '\n');
    TwoJoined(verb, [uri] + ([query] + tail), '\n');
    assert [verb, uri, query] + tail == [verb] + ([uri] + ([query] + tail));
  }

  lemma Flat(v: string, u: string, q: string, h: string, s: string, e: string)
    ensures v + "\n" + (u + "\n" + (q + "\n" + (h + ("\n" + (s + "\n" + e))))) ==
            v + "\n" + u + "\n" + q + "\n" + h + "\n" + s + "\n" + e
  {
  }

  /** The canonical request is its lines, joined by newlines. */
  lemma RequestIsLines(verb: string, path: string, query: string, names: seq<string>, r: Request, signed: string)
    ensures CanonicalRequest(verb, path, query, CanonicalHeaders(names, r), signed) ==
            Join(RequestLines(verb, CanonicalURI(path), query, LinesOf(names, r), signed), '\n')
  {
    var uri, end := CanonicalURI(path), ["", signed, "UNSIGNED-PAYLOAD"];
    var tail := LinesOf(names, r) + end;
    HeadersJoin(names, r, end);
    EndJoined(signed);
    FrontJoined(verb, uri, query, tail);
    assert RequestLines(verb, uri, query, LinesOf(names, r), signed) == [verb, uri, query] + tail;
    Flat(verb, uri, query, CanonicalHeaders(names, r), signed, "UNSIGNED-PAYLOAD");
  }

  lemma StringIsLines(c: Crypto, timestamp: string, scope: string, canonical: string)
    ensures StringToSign(c, timestamp, scope, canonical) ==
            Join(["AWS4-HMAC-SHA256", timestamp, scope, c.hash(canonical)], '\n')
  {
    FourJoined("AWS4-HMAC-SHA256", timestamp, scope, c.hash(canonical), '\n');
  }

  lemma FourJoined(a: string, b: string, d: string, e: string, sep: char)
    ensures Join([a, b, d, e], sep) == a + [sep] + (b + [sep] + (d + [sep] + e))
    ensures Join([a, b, d, e], sep) == a + [sep] + b + [sep] + d + [sep] + e
  {
    TwoJoined(d, [e], sep);
    TwoJoined(b, [d, e], sep);
    TwoJoined(a, [b, d, e], sep);
    assert [d] + [e] == [d, e] && [b] + [d, e] == [b, d, e] && [a] + [b, d, e] == [a, b, d, e];
  }

  /** Keyed hashes, each under the one before. */
  function Chained(c: Crypto, key: string, data: seq<string>): string {
    if |data| == 0 then key else c.hmac(Chained(c, key, data[..|data| - 1]), data[|data| - 1])
  }

  lemma ChainedMore(c: Crypto, key: string, data: seq<string>, x: string)
    ensures Chained(c, key, data + [x]) == c.hmac(Chained(c, key, data), x)
  {
    assert (data + [x])[..|data|] == data;
  }

  lemma KeyIsChained(c: Crypto, secret: string, date: string, region: string, service: string)
    ensures SigningKey(c, secret, date, region, service) ==
            Chained(c, "AWS4" + secret, [date, region, service, "aws4_request"])
  {
    var key := "AWS4" + secret;
    ChainedMore(c, key, [], date);
    ChainedMore(c, key, [date], region);
    ChainedMore(c, key, [date, region], service);
    ChainedMore(c, key, [date, region, service], "aws4_request");
    assert [] + [date] == [date] && [date] + [region] == [date, region];
    assert [date, region] + [service] == [date, region, service];
    assert [date, region, service] + ["aws4_request"] == [date, region, service, "aws4_request"];
  }

  lemma ScopeIs(date: string, region: string, service: string)
    ensures Scope(date, region, service) == Join([date, region, service, "aws4_request"], '/')
  {
    FourJoined(date, region, service, "aws4_request", '/');
    assert service + "/aws4_request" == service + ['/'] + "aws4_request";
    assert date + "/" + region + "/" + (service + "/aws4_request") == Scope(date, region, service);
  }

  /**
   What it takes to be signed, line by line: the signature is the hexadecimal keyed hash, under
   the chained key, of the four lines whose last is the hash of the canonical request's lines.
   */
  lemma SignedMeans(c: Crypto, r: Request, secret: string, canonQ: string)
    requires |Fields(r.query)| == 5
    ensures var (cred, signed) := (Fields(r.query), Param(r.query, "X-Amz-SignedHeaders"));
      var request := RequestLines(r.verb, CanonicalURI(r.path), canonQ, LinesOf(Sort(Split(signed, ';')), r), signed);
      var scope := [cred[1], cred[2], cred[3], "aws4_request"];
      var text := ["AWS4-HMAC-SHA256", Param(r.query, "X-Amz-Date"), Join(scope, '/'), c.hash(Join(request, '\n'))];
      Signed(c, r, secret, canonQ) <==>
      Param(r.query, "X-Amz-Signature") == LowerHex(c.hmac(Chained(c, "AWS4" + secret, scope), Join(text, '\n')))
  {
    var cred, signed := Fields(r.query), Param(r.query, "X-Amz-SignedHeaders");
    RequestIsLines(r.verb, r.path, canonQ, Sort(Split(signed, ';')), r, signed);
    ScopeIs(cred[1], cred[2], cred[3]);
    KeyIsChained(c, secret, cred[1], cred[2], cred[3]);
    StringIsLines(c, Param(r.query, "X-Amz-Date"), Scope(cred[1], cred[2], cred[3]),
      CanonicalRequest(r.verb, r.path, canonQ, CanonicalHeaders(Sort(Split(signed, ';')), r), signed));
  }

  // ------------------------------------------------------------- hexadecimals

  lemma HexDigitIs(d: nat)
    requires d < 16
    ensures FromHex("0123456789abcdef"[d]) == d
  {
  }

  /** Two lower-case hexadecimal digits for each byte, from which the bytes are read back. */
  lemma {:induction false} HexInjective(a: string, b: string)
    requires Bytes(a) && Bytes(b) && LowerHex(a) == LowerHex(b)
    ensures a == b
  {
    assert |a| == |b|;
    if |a| > 0 {
      HexHead(a);
      HexHead(b);
      HexInjective(a[1..], b[1..]);
      assert a == [a[0]] + a[1..] && b == [b[0]] + b[1..];
    }
  }

  lemma TwoDigits(n: nat)
    requires n < 256
    ensures 16 * FromHex("0123456789abcdef"[n / 16]) + FromHex("0123456789abcdef"[n % 16]) == n
  {
    HexDigitIs(n / 16);
    HexDigitIs(n % 16);
    assert n / 16 < 16;
  }

  /** Each byte becomes two lower-case hexadecimal digits, the high one first. */
  lemma {:induction false} HexMeans(s: string)
    requires |s| > 0 && Bytes(s)
    ensures var n := s[0] as int;
      LowerHex(s) == ["0123456789abcdef"[n / 16], "0123456789abcdef"[n % 16]] + LowerHex(s[1..])
  {
    HighDigit(s[0] as int);
  }

  lemma HighDigit(n: nat)
    requires n < 256
    ensures n / 16 < 16 && n / 16 % 16 == n / 16
  {
  }

  lemma {:induction false} HexHead(s: string)
    requires |s| > 0 && Bytes(s)
    ensures |LowerHex(s)| >= 2 && LowerHex(s)[2..] == LowerHex(s[1..])
    ensures 16 * FromHex(LowerHex(s)[0]) + FromHex(LowerHex(s)[1]) == s[0] as int
  {
    var n, rest := s[0] as int, LowerHex(s[1..]);
    var head := ["0123456789abcdef"[n / 16], "0123456789abcdef"[n % 16]];
    HexMeans(s);
    TwoDigits(n);
    assert (head + rest)[2..] == rest && (head + rest)[0] == head[0] && (head + rest)[1] == head[1];
  }

  // ------------------------------------------------------------------ newlines

  lemma {:induction false} PathAlphabet(s: string, all: bool)
    ensures '\n' !in UriEncode(s, all)
  {
    if |s| > 0 {
      PathAlphabet(s[1..], all);
    }
  }

  lemma {:induction false} JoinAvoids(parts: seq<string>, sep: char, c: char)
    requires c != sep && forall i :: 0 <= i < |parts| ==> c !in parts[i]
    ensures c !in Join(parts, sep)
  {
    if |parts| > 1 {
      JoinAvoids(parts[1..], sep, c);
    }
  }

  lemma PairHasNoNewline(p: Pair)
    ensures '\n' !in EncodePair(p)
  {
    PathAlphabet(p.0, true);
    PathAlphabet(p.1, true);
  }

  lemma SortMembers(ss: seq<string>, x: string)
    ensures x in Sort(ss) <==> x in ss
  {
    assert x in Sort(ss) <==> x in multiset(Sort(ss));
    assert x in ss <==> x in multiset(ss);
  }

  lemma QueryHasNoNewline(m: Params, q: string)
    requires IsCanonical(m, q)
    ensures '\n' !in q
  {
    var ps: seq<Pair> :| Lists(m, ps) && q == CanonicalOf(ps);
    var es := EncodePairs(ps);
    forall i | 0 <= i < |Sort(es)| ensures '\n' !in Sort(es)[i] {
      SortMembers(es, Sort(es)[i]);
      var k :| 0 <= k < |ps| && es[k] == Sort(es)[i];
      PairHasNoNewline(ps[k]);
    }
    JoinAvoids(Sort(es), '&', '\n');
  }

  lemma UriHasNoNewline(path: string)
    ensures '\n' !in CanonicalURI(path)
  {
    SegmentsAreEncoding(path);
    PathAlphabet(path, false);
  }

  lemma {:induction false} SplitAvoids(s: string, sep: char, c: char)
    requires c !in s
    ensures forall i :: 0 <= i < |Split(s, sep)| ==> c !in Split(s, sep)[i]
    decreases |s|
  {
    var i := IndexOf(s, sep);
    if i < |s| {
      SplitAvoids(s[i + 1..], sep, c);
    }
  }

  lemma CutOnce(a: string, x: string, b: string, y: string)
    requires '\n' !in a && '\n' !in b && a + "\n" + x == b + "\n" + y
    ensures a == b && x == y
  {
    var s := a + "\n" + x;
    IndexIs(s, '\n', |a|);
    IndexIs(b + "\n" + y, '\n', |b|);
    assert s[..|a|] == a && s[|a| + 1..] == x && (b + "\n" + y)[..|b|] == b && (b + "\n" + y)[|b| + 1..] == y;
  }

  // ------------------------------------------------------- what is bound

  /** Hashes do not collide; keyed hashes are bytes and do not collide under one key. */
  ghost predicate CollisionFree(c: Crypto) {
    && (forall a, b :: c.hash(a) == c.hash(b) ==> a == b)
    && (forall k, a, b :: c.hmac(k, a) == c.hmac(k, b) ==> a == b)
    && forall k, d :: Bytes(c.hmac(k, d))
  }

  /** The sorted names of the signed headers. */
  function SignedNames(r: Request): seq<string> {
    Sort(Split(Param(r.query, "X-Amz-SignedHeaders"), ';'))
  }

  /** No newline in the method, in the signing time, or in the names and values of the signed headers. */
  ghost predicate OneLine(r: Request) {
    && '\n' !in r.verb && '\n' !in Param(r.query, "X-Amz-Date") && '\n' !in Param(r.query, "X-Amz-SignedHeaders")
    && forall n :: n in SignedNames(r) ==> '\n' !in HeaderValue(r, Lower(n))
  }

  function LinesOfRequest(r: Request, q: string): seq<string> {
    RequestLines(r.verb, CanonicalURI(r.path), q, LinesOf(SignedNames(r), r), Param(r.query, "X-Amz-SignedHeaders"))
  }

  lemma HeaderLinesAvoid(names: seq<string>, r: Request)
    requires forall i :: 0 <= i < |names| ==> '\n' !in names[i] && '\n' !in HeaderValue(r, Lower(names[i]))
    ensures forall i :: 0 <= i < |names| ==> '\n' !in LinesOf(names, r)[i]
  {
  }

  lemma NamesHaveNoNewline(r: Request)
    requires OneLine(r)
    ensures forall i :: 0 <= i < |SignedNames(r)| ==>
              '\n' !in SignedNames(r)[i] && '\n' !in HeaderValue(r, Lower(SignedNames(r)[i]))
  {
    var parts, names := Split(Param(r.query, "X-Amz-SignedHeaders"), ';'), SignedNames(r);
    SplitAvoids(Param(r.query, "X-Amz-SignedHeaders"), ';', '\n');
    forall i | 0 <= i < |names| ensures '\n' !in names[i] && '\n' !in HeaderValue(r, Lower(names[i])) {
      assert names[i] in multiset(parts);
      assert names[i] in parts;
      assert names[i] in names;
    }
  }

  lemma LinesHaveNoNewline(r: Request, q: string)
    requires OneLine(r) && '\n' !in q
    ensures forall i :: 0 <= i < |LinesOfRequest(r, q)| ==> '\n' !in LinesOfRequest(r, q)[i]
  {
    NamesHaveNoNewline(r);
    HeaderLinesAvoid(SignedNames(r), r);
    UriHasNoNewline(r.path);
    LinesAvoid(r.verb, CanonicalURI(r.path), q, LinesOf(SignedNames(r), r), Param(r.query, "X-Amz-SignedHeaders"));
  }

  lemma LinesAvoid(verb: string, uri: string, query: string, lines: seq<string>, signed: string)
    requires '\n' !in verb && '\n' !in uri && '\n' !in query && '\n' !in signed
    requires forall i :: 0 <= i < |lines| ==> '\n' !in lines[i]
    ensures var all := RequestLines(verb, uri, query, lines, signed);
      forall i :: 0 <= i < |all| ==> '\n' !in all[i]
  {
  }

  lemma SameParts(v1: string, u1: string, q1: string, l1: seq<string>, s1: string,
                  v2: string, u2: string, q2: string, l2: seq<string>, s2: string)
    requires RequestLines(v1, u1, q1, l1, s1) == RequestLines(v2, u2, q2, l2, s2)
    ensures v1 == v2 && u1 == u2 && q1 == q2 && l1 == l2 && s1 == s2
  {
    var a, b := RequestLines(v1, u1, q1, l1, s1), RequestLines(v2, u2, q2, l2, s2);
    assert |a| == |l1| + 6 && |b| == |l2| + 6;
    assert a[0] == b[0] && a[1] == b[1] && a[2] == b[2] && a[|a| - 2] == b[|b| - 2];
    assert a[3..|a| - 3] == l1 && b[3..|b| - 3] == l2;
  }

  lemma SameValues(names: seq<string>, r1: Request, r2: Request)
    requires LinesOf(names, r1) == LinesOf(names, r2)
    ensures forall n :: n in names ==> HeaderValue(r1, Lower(n)) == HeaderValue(r2, Lower(n))
  {
    forall n | n in names ensures HeaderValue(r1, Lower(n)) == HeaderValue(r2, Lower(n)) {
      var i :| 0 <= i < |names| && names[i] == n;
      assert LinesOf(names, r1)[i] == LinesOf(names, r2)[i];
      SameTail(Lower(n) + ":", HeaderValue(r1, Lower(n)), HeaderValue(r2, Lower(n)));
    }
  }

  lemma SameTail(head: string, x: string, y: string)
    requires head + x == head + y
    ensures x == y
  {
    assert (head + x)[|head|..] == x && (head + y)[|head|..] == y;
  }

  /** Requests with the same lines agree in all that the lines tell. */
  lemma SameLines(r1: Request, q1: string, r2: Request, q2: string)
    requires LinesOfRequest(r1, q1) == LinesOfRequest(r2, q2)
    ensures r1.verb == r2.verb && CanonicalURI(r1.path) == CanonicalURI(r2.path) && q1 == q2
    ensures Param(r1.query, "X-Amz-SignedHeaders") == Param(r2.query, "X-Amz-SignedHeaders")
    ensures forall n :: n in SignedNames(r1) ==> HeaderValue(r1, Lower(n)) == HeaderValue(r2, Lower(n))
  {
    SameParts(r1.verb, CanonicalURI(r1.path), q1, LinesOf(SignedNames(r1), r1), Param(r1.query, "X-Amz-SignedHeaders"),
      r2.verb, CanonicalURI(r2.path), q2, LinesOf(SignedNames(r2), r2), Param(r2.query, "X-Amz-SignedHeaders"));
    SameValues(SignedNames(r1), r1, r2);
  }

  /** The text whose keyed hash a signature is. */
  function SignedText(c: Crypto, date: string, scope: seq<string>, lines: seq<string>): string {
    Join(["AWS4-HMAC-SHA256", date, Join(scope, '/'), c.hash(Join(lines, '\n'))], '\n')
  }

  function ScopeOf(r: Request): seq<string>
    requires |Fields(r.query)| == 5
  {
    Fields(r.query)[1..4] + ["aws4_request"]
  }

  lemma SignedHex(c: Crypto, r: Request, secret: string, q: string)
    requires |Fields(r.query)| == 5 && Signed(c, r, secret, q)
    ensures Param(r.query, "X-Amz-Signature") ==
            LowerHex(c.hmac(Chained(c, "AWS4" + secret, ScopeOf(r)),
                            SignedText(c, Param(r.query, "X-Amz-Date"), ScopeOf(r), LinesOfRequest(r, q))))
  {
    var f := Fields(r.query);
    SignedMeans(c, r, secret, q);
    assert ScopeOf(r) == [f[1], f[2], f[3], "aws4_request"];
  }

  /** Keyed hashes that agree are of texts that agree line by line. */
  lemma SameHashed(c: Crypto, key: string, d1: string, d2: string, scope: seq<string>, l1: seq<string>, l2: seq<string>)
    requires CollisionFree(c) && '\n' !in d1 && '\n' !in d2 && |l1| > 0 && |l2| > 0
    requires forall i :: 0 <= i < |l1| ==> '\n' !in l1[i]
    requires forall i :: 0 <= i < |l2| ==> '\n' !in l2[i]
    requires LowerHex(c.hmac(key, SignedText(c, d1, scope, l1))) == LowerHex(c.hmac(key, SignedText(c, d2, scope, l2)))
    ensures d1 == d2 && l1 == l2
  {
    HexInjective(c.hmac(key, SignedText(c, d1, scope, l1)), c.hmac(key, SignedText(c, d2, scope, l2)));
    SameFour(d1, Join(scope, '/'), c.hash(Join(l1, '\n')), d2, c.hash(Join(l2, '\n')));
    SplitJoin(l1, '\n');
    SplitJoin(l2, '\n');
  }

  /** Two signatures that agree, under one key, are of the same lines and the same signing time. */
  lemma SameText(c: Crypto, secret: string, r1: Request, q1: string, r2: Request, q2: string)
    requires CollisionFree(c) && OneLine(r1) && OneLine(r2) && '\n' !in q1 && '\n' !in q2
    requires |Fields(r1.query)| == 5 && |Fields(r2.query)| == 5 && ScopeOf(r1) == ScopeOf(r2)
    requires Signed(c, r1, secret, q1) && Signed(c, r2, secret, q2)
    requires Param(r1.query, "X-Amz-Signature") == Param(r2.query, "X-Amz-Signature")
    ensures Param(r1.query, "X-Amz-Date") == Param(r2.query, "X-Amz-Date")
    ensures LinesOfRequest(r1, q1) == LinesOfRequest(r2, q2)
  {
    SignedHex(c, r1, secret, q1);
    SignedHex(c, r2, secret, q2);
    LinesHaveNoNewline(r1, q1);
    LinesHaveNoNewline(r2, q2);
    var d1, d2 := Param(r1.query, "X-Amz-Date"), Param(r2.query, "X-Amz-Date");
    SameHashed(c, Chained(c, "AWS4" + secret, ScopeOf(r1)), d1, d2, ScopeOf(r1),
      LinesOfRequest(r1, q1), LinesOfRequest(r2, q2));
  }

  lemma SameFour(t1: string, scope: string, h1: string, t2: string, h2: string)
    requires '\n' !in t1 && '\n' !in t2
    requires Join(["AWS4-HMAC-SHA256", t1, scope, h1], '\n') == Join(["AWS4-HMAC-SHA256", t2, scope, h2], '\n')
    ensures t1 == t2 && h1 == h2
  {
    var head := "AWS4-HMAC-SHA256";
    FourJoined(head, t1, scope, h1, '\n');
    FourJoined(head, t2, scope, h2, '\n');
    SameTail(head + "\n", t1 + "\n" + (scope + "\n" + h1), t2 + "\n" + (scope + "\n" + h2));
    CutOnce(t1, scope + "\n" + h1, t2, scope + "\n" + h2);
    SameTail(scope + "\n", h1, h2);
  }

  /** A well-formed request that carries the right signature for its canonical query. */
  ghost predicate Carries(c: Crypto, secret: string, r: Request, q: string) {
    && OneLine(r) && Bytes(r.path) && ParamBytes(Unsigned(r.query)) && IsCanonical(Unsigned(r.query), q)
    && |Fields(r.query)| == 5 && Signed(c, r, secret, q)
  }

  /**
   What a signature binds: two signed requests with one signature, secret and key scope have
   the same method, path, parameters beside the signature, signing time, signed header names
   and values of these headers.
   */
  lemma SignatureBinds(c: Crypto, secret: string, r1: Request, q1: string, r2: Request, q2: string)
    requires CollisionFree(c) && Carries(c, secret, r1, q1) && Carries(c, secret, r2, q2)
    requires ScopeOf(r1) == ScopeOf(r2) && Param(r1.query, "X-Amz-Signature") == Param(r2.query, "X-Amz-Signature")
    ensures r1.verb == r2.verb
    ensures (if r1.path == "" then "/" else r1.path) == (if r2.path == "" then "/" else r2.path)
    ensures forall p :: Count(Unsigned(r1.query), p) == Count(Unsigned(r2.query), p)
    ensures Param(r1.query, "X-Amz-Date") == Param(r2.query, "X-Amz-Date")
    ensures Param(r1.query, "X-Amz-SignedHeaders") == Param(r2.query, "X-Amz-SignedHeaders")
    ensures forall n :: n in SignedNames(r1) ==> HeaderValue(r1, Lower(n)) == HeaderValue(r2, Lower(n))
  {
    QueryHasNoNewline(Unsigned(r1.query), q1);
    QueryHasNoNewline(Unsigned(r2.query), q2);
    SameText(c, secret, r1, q1, r2, q2);
    SameLines(r1, q1, r2, q2);
    CanonicalURIFaithful(r1.path, r2.path);
    CanonicalQueryFaithful(Unsigned(r1.query), q1, Unsigned(r2.query), q2);
  }

  // ------------------------------------------------------- the generated request

  /** A parameter that occurs once, and under no other value, is what is read. */
  lemma OnlyCounted(m: Params, k: string, v: string)
    requires v != "" && forall w :: Count(m, (k, w)) == if w == v then 1 else 0
    ensures Param(m, k) == v
  {
    assert Count(m, (k, v)) == 1;
    var vals := m[k];
    assert v in multiset(vals);
    assert |vals| > 0 && vals[0] in multiset(vals);
    assert Count(m, (k, vals[0])) > 0;
  }

  lemma OnceAmong(ps: seq<Pair>, i: nat, w: string)
    requires i < |ps| && forall j :: 0 <= j < |ps| && j != i ==> ps[j].0 != ps[i].0
    ensures multiset(ps)[(ps[i].0, w)] == if w == ps[i].1 then 1 else 0
  {
    var before, after := ps[..i], ps[i + 1..];
    assert ps == before + [ps[i]] + after;
    assert (ps[i].0, w) !in before && (ps[i].0, w) !in after;
  }

  lemma SignedPairOnce(g: Grant, i: nat, w: string)
    requires g.expires > 0 && i < 5
    ensures multiset(SignedPairs(g))[(SignedPairs(g)[i].0, w)] == if w == SignedPairs(g)[i].1 then 1 else 0
  {
    var ps, all := SignedPairs(g), AllPairs(g, "");
    NamesDiffer(g, "");
    assert all == ps + all[5..];
    forall j | 0 <= j < |ps| && j != i ensures ps[j].0 != ps[i].0 {
      assert all[j] == ps[j] && all[i] == ps[i];
      assert all[if i < j then i else j].0 != all[if i < j then j else i].0;
    }
    OnceAmong(ps, i, w);
  }

  lemma GeneratedIsOneLine(g: Grant, host: string, sig: string, headers: map<string, string>)
    requires Presignable(g, host) && sig != "" && '\n' !in g.verb
    ensures var r := Request(g.verb, host, UrlPath(g), AddPairs(map[], AllPairs(g, sig)), headers);
      OneLine(r) && SignedNames(r) == ["host"] && HeaderValue(r, Lower("host")) == host
  {
    var r := Request(g.verb, host, UrlPath(g), AddPairs(map[], AllPairs(g, sig)), headers);
    CredentialBytes(g);
    ParamsRead(g, sig);
    HostOneLine(host);
    assert IndexOf("host", ';') == 4;
    assert Split("host", ';') == ["host"];
    SortIsSorted(["host"], ["host"]);
    assert Lower("host") == "host";
  }

  lemma HostOneLine(host: string)
    requires IsHost(host)
    ensures '\n' !in host
  {
    var n := NameEnd(host);
    forall i | 0 <= i < |host| ensures host[i] != '\n' {
      if i > n {
        assert host[i] == host[n + 1..][i - n - 1];
      }
    }
  }

  lemma {:induction false} AddPairsBytes(m: Params, ps: seq<Pair>)
    requires ParamBytes(m) && forall p :: p in ps ==> PairBytes(p)
    ensures ParamBytes(AddPairs(m, ps))
    decreases |ps|
  {
    if |ps| > 0 {
      assert PairBytes(ps[0]);
      AddPairsBytes(m[ps[0].0 := (if ps[0].0 in m then m[ps[0].0] else []) + [ps[0].1]], ps[1..]);
    }
  }

  lemma GeneratedBytes(g: Grant, host: string, sig: string)
    requires Presignable(g, host) && sig != "" && AllUnreserved(sig)
    ensures ParamBytes(Unsigned(AddPairs(map[], AllPairs(g, sig)))) && Bytes(UrlPath(g))
  {
    PairsAreBytes(g, sig);
    AddPairsBytes(map[], AllPairs(g, sig));
  }

  /** The same signature under the same key scope: the parameters are those that were signed. */
  lemma SameParameters(g: Grant, sig: string, m: Params)
    requires g.expires > 0
    requires forall p :: Count(Unsigned(AddPairs(map[], AllPairs(g, sig))), p) == Count(m, p)
    ensures forall p :: Count(m, p) == multiset(SignedPairs(g))[p]
    ensures Param(m, "X-Amz-Expires") == Decimal(g.expires / 1_000_000_000)
  {
    UnsignedLists(g, sig);
    forall p ensures Count(m, p) == multiset(SignedPairs(g))[p] {
      assert Count(Unsigned(AddPairs(map[], AllPairs(g, sig))), p) == Count(m, p);
    }
    var v := Decimal(g.expires / 1_000_000_000);
    assert SignedPairs(g)[3] == ("X-Amz-Expires", v);
    forall w ensures Count(m, ("X-Amz-Expires", w)) == if w == v then 1 else 0 {
      SignedPairOnce(g, 3, w);
    }
    OnlyCounted(m, "X-Amz-Expires", v);
  }

  /** The generated request carries its signature. */
  lemma GeneratedCarries(c: Crypto, g: Grant, host: string, made: Request)
    requires Presignable(g, host) && Signature(c, g) != "" && '\n' !in g.verb
    requires made == Request(g.verb, host, UrlPath(g), AddPairs(map[], AllPairs(g, Signature(c, g))), map[])
    ensures Carries(c, g.secret, made, UnsignedQuery(g))
  {
    var sig := Signature(c, g);
    assert OneLine(made) by {
      GeneratedIsOneLine(g, host, sig, map[]);
    }
    assert ParamBytes(Unsigned(made.query)) && Bytes(made.path) by {
      GeneratedBytes(g, host, sig);
    }
    assert |Fields(made.query)| == 5 && Signed(c, made, g.secret, UnsignedQuery(g)) by {
      ReadsSigned(c, g, host, map[]);
    }
    assert IsCanonical(Unsigned(made.query), UnsignedQuery(g)) by {
      ReadsCanonical(g, sig);
    }
  }

  lemma MiddleThree(f: seq<string>, a: string, b: string, d: string, e: string, h: string)
    requires f == [a, b, d, e, h]
    ensures f[1..4] == [b, d, e]
  {
  }

  /** It names its key scope. */
  lemma GeneratedScope(c: Crypto, g: Grant, host: string, made: Request)
    requires Presignable(g, host) && Signature(c, g) != ""
    requires made == Request(g.verb, host, UrlPath(g), AddPairs(map[], AllPairs(g, Signature(c, g))), map[])
    ensures |Fields(made.query)| == 5 && Fields(made.query)[1..4] == [g.date, g.region, "s3"]
  {
    StringsAgree(c, g, host, Signature(c, g), map[]);
    MiddleThree(Fields(made.query), g.accessKey, g.date, g.region, "s3", "aws4_request");
  }

  /** And its signature, signing time and one signed header. */
  lemma GeneratedNames(c: Crypto, g: Grant, host: string, made: Request)
    requires Presignable(g, host) && Signature(c, g) != "" && '\n' !in g.verb
    requires made == Request(g.verb, host, UrlPath(g), AddPairs(map[], AllPairs(g, Signature(c, g))), map[])
    ensures Param(made.query, "X-Amz-Signature") == Signature(c, g) && Param(made.query, "X-Amz-Date") == g.timestamp
    ensures SignedNames(made) == ["host"] && |made.path| > 1
  {
    assert SignedNames(made) == ["host"] by {
      GeneratedIsOneLine(g, host, Signature(c, g), map[]);
    }
    CredentialBytes(g);
    ParamsRead(g, Signature(c, g));
  }

  /** What two requests with one signature share, when the first is one of a longer path that signs its host. */
  lemma SharedWith(c: Crypto, secret: string, made: Request, q0: string, r: Request, q: string)
    requires CollisionFree(c) && Carries(c, secret, made, q0) && Carries(c, secret, r, q)
    requires ScopeOf(made) == ScopeOf(r) && Param(made.query, "X-Amz-Signature") == Param(r.query, "X-Amz-Signature")
    requires SignedNames(made) == ["host"] && |made.path| > 1
    ensures r.verb == made.verb && r.path == made.path && r.host == made.host
    ensures Param(r.query, "X-Amz-Date") == Param(made.query, "X-Amz-Date")
    ensures forall p :: Count(Unsigned(made.query), p) == Count(Unsigned(r.query), p)
  {
    SignatureBinds(c, secret, made, q0, r, q);
    assert "host" in SignedNames(made);
    HostIsRead(r);
    HostIsRead(made);
  }

  /**
   An accepted request that carries a generated signature and its key scope is the generated
   request: same method, path, host and, each as often, parameters; so it expires with it.
   */
  lemma OnlyTheGeneratedRequest(c: Crypto, g: Grant, host: string, r: Request, q: string, now: int,
                                parse: string -> Option<int>)
    requires CollisionFree(c) && Presignable(g, host) && '\n' !in g.verb && Signature(c, g) != ""
    requires OneLine(r) && Bytes(r.path) && ParamBytes(Unsigned(r.query)) && IsCanonical(Unsigned(r.query), q)
    requires Judge(c, r, g.secret, now, parse, q) == Accepted
    requires Param(r.query, "X-Amz-Signature") == Signature(c, g)
    requires Fields(r.query)[1..4] == [g.date, g.region, "s3"]
    ensures r.verb == g.verb && r.path == UrlPath(g) && r.host == host
    ensures forall p :: Count(Unsigned(r.query), p) == multiset(SignedPairs(g))[p]
    ensures Param(r.query, "X-Amz-Date") == g.timestamp
    ensures Param(Unsigned(r.query), "X-Amz-Expires") == Decimal(g.expires / 1_000_000_000)
  {
    var made := Request(g.verb, host, UrlPath(g), AddPairs(map[], AllPairs(g, Signature(c, g))), map[]);
    GeneratedCarries(c, g, host, made);
    GeneratedScope(c, g, host, made);
    GeneratedNames(c, g, host, made);
    AcceptedCarries(c, r, g.secret, now, parse, q);
    SharedWith(c, g.secret, made, UnsignedQuery(g), r, q);
    SameParameters(g, Signature(c, g), Unsigned(r.query));
  }

  lemma AcceptedCarries(c: Crypto, r: Request, secret: string, now: int, parse: string -> Option<int>, q: string)
    requires OneLine(r) && Bytes(r.path) && ParamBytes(Unsigned(r.query)) && IsCanonical(Unsigned(r.query), q)
    requires Judge(c, r, secret, now, parse, q) == Accepted
    ensures Carries(c, secret, r, q)
  {
  }

  lemma HostIsRead(r: Request)
    ensures HeaderValue(r, Lower("host")) == r.host
  {
    assert Lower("host") == "host";
  }

  // ----------------------------------------------------------------- in plain terms

  /** The verdicts, in the order in which the tests are made. */
  lemma VerdictMeans(c: Crypto, r: Request, secret: string, now: int, parse: string -> Option<int>, q: string)
    ensures var (v, m) := (Judge(c, r, secret, now, parse, q), r.query);
      var missing := Param(m, "X-Amz-Algorithm") != "AWS4-HMAC-SHA256"
        || exists name :: name in {"X-Amz-Credential", "X-Amz-Date", "X-Amz-Expires", "X-Amz-SignedHeaders",
                                   "X-Amz-Signature"} && Param(m, name) == "";
      var (time, seconds) := (parse(Param(m, "X-Amz-Date")), ParseInt(Param(m, "X-Amz-Expires")));
      var undated := time.None? || seconds.None?;
      && (v == Malformed <==> missing)
      && (v == BadDate <==> !missing && undated)
      && (!missing && !undated ==>
            var late := now > time.value * 1_000_000_000 + Wrap64(seconds.value * 1_000_000_000);
            && (v == Expired <==> late)
            && (v == BadCredential <==> !late && |SplitN(Param(m, "X-Amz-Credential"), 5)| != 5)
            && (v == Accepted ==> !late && |Fields(m)| == 5)
            && (!late && |Fields(m)| == 5 ==> (v == Accepted <==> Signed(c, r, secret, q))))
  {
    var m := r.query;
    var names := {"X-Amz-Credential", "X-Amz-Date", "X-Amz-Expires", "X-Amz-SignedHeaders", "X-Amz-Signature"};
    assert "X-Amz-Credential" in names && "X-Amz-Date" in names && "X-Amz-Expires" in names
           && "X-Amz-SignedHeaders" in names && "X-Amz-Signature" in names;
  }

  /** Nanoseconds wrap around at 64 bits, which up to about 292 years does not happen. */
  lemma WrapMeans(x: int)
    ensures -0x8000_0000_0000_0000 <= Wrap64(x) < 0x8000_0000_0000_0000
    ensures (x - Wrap64(x)) % 0x1_0000_0000_0000_0000 == 0
    ensures -9_223_372_036 * 1_000_000_000 <= x <= 9_223_372_036 * 1_000_000_000 ==> Wrap64(x) == x
  {
    var y := x + 0x8000_0000_0000_0000;
    assert x - Wrap64(x) == y - y % 0x1_0000_0000_0000_0000;
    assert y == 0x1_0000_0000_0000_0000 * (y / 0x1_0000_0000_0000_0000) + y % 0x1_0000_0000_0000_0000;
  }

  /** Numbers are read with an optional sign, and only when 64 bits hold them; nothing else is a number. */
  lemma ParseIntMeans(n: nat, s: string)
    ensures ParseInt(Decimal(n)) == ParseInt("+" + Decimal(n)) == if n < 0x8000_0000_0000_0000 then Some(n) else None
    ensures var k: int := 0 - n; ParseInt("-" + Decimal(n)) == if n <= 0x8000_0000_0000_0000 then Some(k) else None
    ensures ParseInt("") == ParseInt("+") == ParseInt("-") == None
    ensures |s| > 0 && s[0] != '+' && s[0] != '-' && !IsDigits(s) ==> ParseInt(s) == None
  {
    DecimalValue(n);
    assert ("+" + Decimal(n))[1..] == Decimal(n) && ("-" + Decimal(n))[1..] == Decimal(n);
    assert '0' <= Decimal(n)[0] <= '9';
  }

  /** A generator's answer is a URL exactly for more than no time and at most seven days of 86,400 seconds. */
  lemma GeneratesIff(c: Crypto, g: Grant)
    ensures Generate(c, g).Some? <==> 0 < g.expires <= 604_800_000_000_000
  {
    assert SEVEN_DAYS == 604_800_000_000_000;
  }

  /** Without a host in the base address the bucket's own host is signed. */
  lemma NoHost(bucket: string)
    ensures ExtractHost("", bucket) == ExtractHost("http://", bucket) == ExtractHost("https://", bucket)
            == bucket + ".s3.amazonaws.com"
  {
    assert "http://"[7..] == "" && "https://"[8..] == "";
    assert !("http://" <= "https://") by {
      assert "http://"[4] == ':' && "https://"[4] == 's';
    }
    assert !("https://" <= "http://") && ""[..0] == "";
  }

  /** Byte by byte, capital letters become small. */
  lemma LowerMeans(s: string, i: nat)
    requires i < |s|
    ensures Lower(s)[i] == if 65 <= s[i] as int <= 90 then (s[i] as int + 32) as char else s[i]
  {
  }

  /** A parameter is the first value of its name or, if that is empty, of the name in small letters. */
  lemma ParamMeans(m: Params, k: string)
    ensures Param(m, k) ==
            if k in m && |m[k]| > 0 && m[k][0] != "" then m[k][0]
            else if Lower(k) in m && |m[Lower(k)]| > 0 then m[Lower(k)][0] else ""
  {
  }

  /** Both spellings of the signature, and nothing else, are left out of what is signed. */
  lemma UnsignedMeans(m: Params, p: Pair)
    ensures Count(Unsigned(m), p) ==
            if p.0 == "X-Amz-Signature" || p.0 == "x-amz-signature" then 0 else Count(m, p)
  {
  }

  /** A credential is cut at its first four slashes; the fifth field keeps all further ones. */
  lemma FieldsMean(a: string, s: string, n: nat)
    requires n >= 1
    ensures SplitN(s, 1) == [s]
    ensures '/' !in s ==> SplitN(s, n) == [s]
    ensures '/' !in a && n >= 2 ==> SplitN(a + "/" + s, n) == [a] + SplitN(s, n - 1)
  {
    if '/' !in a && n >= 2 {
      SplitNStep(a, s, n);
    }
  }

  /** A byte that trimming takes off: a tab, a line or page break, or a space. */
  predicate Blank(c: char) {
    9 <= c as int <= 13 || c as int == 32
  }

  lemma {:induction false} TrimsLeft(s: string) returns (a: string)
    ensures s == a + TrimLeft(s) && (forall i :: 0 <= i < |a| ==> Blank(a[i]))
    ensures |TrimLeft(s)| > 0 ==> !Blank(TrimLeft(s)[0])
  {
    a := "";
    if |s| > 0 && IsSpace(s[0]) {
      a := TrimsLeft(s[1..]);
      a := [s[0]] + a;
    }
  }

  lemma {:induction false} TrimsRight(s: string) returns (b: string)
    ensures s == TrimRight(s) + b && (forall i :: 0 <= i < |b| ==> Blank(b[i]))
    ensures |TrimRight(s)| > 0 ==> !Blank(TrimRight(s)[|TrimRight(s)| - 1]) && TrimRight(s)[0] == s[0]
  {
    b := "";
    if |s| > 0 && IsSpace(s[|s| - 1]) {
      b := TrimsRight(s[..|s| - 1]);
      b := b + [s[|s| - 1]];
    }
  }

  /** A header's value is signed without the blanks around it, and nothing else is taken off. */
  lemma TrimMeans(s: string) returns (a: string, b: string)
    ensures s == a + TrimSpace(s) + b
    ensures (forall i :: 0 <= i < |a| ==> Blank(a[i])) && (forall i :: 0 <= i < |b| ==> Blank(b[i]))
    ensures var t := TrimSpace(s); |t| > 0 ==> !Blank(t[0]) && !Blank(t[|t| - 1])
  {
    a := TrimsLeft(s);
    b := TrimsRight(TrimLeft(s));
  }

  /** The line of a signed header in lower case. */
  lemma HeaderLineMeans(r: Request, name: string)
    requires forall i :: 0 <= i < |name| ==> !(65 <= name[i] as int <= 90)
    ensures HeaderLine(name, r) ==
            name + ":" + (if name == "host" then r.host
                          else if name in r.headers then TrimSpace(r.headers[name]) else "") + "\n"
  {
    assert Lower(name) == name;
  }
}
