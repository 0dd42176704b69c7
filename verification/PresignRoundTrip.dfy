/** What a generated URL carries is what the verifier reads back. */
module PresignRoundTrip {
  import opened Basics
  import opened Strings
  import opened SigV4
  import opened Presign

  // ---------------------------------------------------- reading a query back

  /** Appends each value to its name's list. */
  function AddPairs(m: Params, ps: seq<Pair>): Params
    decreases |ps|
  {
    if |ps| == 0 then m
    else AddPairs(m[ps[0].0 := (if ps[0].0 in m then m[ps[0].0] else []) + [ps[0].1]], ps[1..])
  }

  /** A part whose two halves decode adds the value under the name. */
  lemma DecodedPart(m: Params, e: string, k: string, v: string)
    requires ';' !in e && IndexOf(e, '=') < |e|
    requires Unescape(e[..IndexOf(e, '=')], true) == Some(k) && Unescape(e[IndexOf(e, '=') + 1..], true) == Some(v)
    ensures AddPart(m, e) == m[k := (if k in m then m[k] else []) + [v]]
  {
  }

  lemma ReadPart(m: Params, p: Pair)
    requires PairBytes(p)
    ensures AddPart(m, EncodePair(p)) == m[p.0 := (if p.0 in m then m[p.0] else []) + [p.1]]
  {
    var e, n := EncodePair(p), |UriEncode(p.0, true)|;
    PairAlphabet(p);
    assert e[..n] == UriEncode(p.0, true) && e[n + 1..] == UriEncode(p.1, true);
    EncodeRoundTrip(p.0, true, true);
    EncodeRoundTrip(p.1, true, true);
    DecodedPart(m, e, p.0, p.1);
  }

  lemma {:induction false} ReadParts(m: Params, ps: seq<Pair>)
    requires forall p :: p in ps ==> PairBytes(p)
    ensures AddParts(m, EncodePairs(ps)) == AddPairs(m, ps)
    decreases |ps|
  {
    if |ps| > 0 {
      ReadPart(m, ps[0]);
      assert EncodePairs(ps)[1..] == EncodePairs(ps[1..]);
      ReadParts(AddPart(m, EncodePair(ps[0])), ps[1..]);
    }
  }

  /** Parsing a query that encodes a list of pairs reads back those pairs. */
  lemma {:induction false} QueryRoundTrip(ps: seq<Pair>)
    requires |ps| > 0 && forall p :: p in ps ==> PairBytes(p)
    ensures ParseQuery(Join(EncodePairs(ps), '&')) == AddPairs(map[], ps)
  {
    forall i | 0 <= i < |ps| ensures '&' !in EncodePairs(ps)[i] {
      PairAlphabet(ps[i]);
    }
    SplitJoin(EncodePairs(ps), '&');
    ReadParts(map[], ps);
  }

  lemma {:induction false} AddPairsCounts(m: Params, ps: seq<Pair>, p: Pair)
    ensures Count(AddPairs(m, ps), p) == Count(m, p) + multiset(ps)[p]
    decreases |ps|
  {
    if |ps| > 0 {
      var x := ps[0];
      AddPairsCounts(m[x.0 := (if x.0 in m then m[x.0] else []) + [x.1]], ps[1..], p);
      assert ps == [x] + ps[1..];
    }
  }

  /** The values of one name, in order. */
  function ValuesOf(ps: seq<Pair>, k: string): seq<string> {
    if |ps| == 0 then [] else (if ps[0].0 == k then [ps[0].1] else []) + ValuesOf(ps[1..], k)
  }

  lemma Reassociate(was: seq<string>, x: string, rest: seq<string>)
    ensures was + [x] + rest == was + ([x] + rest)
  {
  }

  lemma {:induction false} AddPairsValues(m: Params, ps: seq<Pair>, k: string)
    ensures var m' := AddPairs(m, ps);
      (if k in m' then m'[k] else []) == (if k in m then m[k] else []) + ValuesOf(ps, k)
    decreases |ps|
  {
    if |ps| > 0 {
      var x := ps[0];
      var next := m[x.0 := (if x.0 in m then m[x.0] else []) + [x.1]];
      AddPairsValues(next, ps[1..], k);
      assert AddPairs(m, ps) == AddPairs(next, ps[1..]);
      if x.0 == k {
        Reassociate(if k in m then m[k] else [], x.1, ValuesOf(ps[1..], k));
      }
    }
  }

  /** Without repeated names, each name's value is the first one. */
  lemma {:induction false} OnlyValue(ps: seq<Pair>, i: nat)
    requires i < |ps| && forall j, k :: 0 <= j < k < |ps| ==> ps[j].0 != ps[k].0
    ensures ValuesOf(ps, ps[i].0) == [ps[i].1]
  {
    if i > 0 {
      OnlyValue(ps[1..], i - 1);
    } else {
      NoValue(ps[1..], ps[0].0);
    }
  }

  lemma {:induction false} NoValue(ps: seq<Pair>, k: string)
    requires forall j :: 0 <= j < |ps| ==> ps[j].0 != k
    ensures ValuesOf(ps, k) == []
  {
    if |ps| > 0 {
      NoValue(ps[1..], k);
    }
  }

  lemma ParamIs(ps: seq<Pair>, i: nat)
    requires i < |ps| && forall j, k :: 0 <= j < k < |ps| ==> ps[j].0 != ps[k].0
    requires ps[i].1 != ""
    ensures Param(AddPairs(map[], ps), ps[i].0) == ps[i].1
  {
    AddPairsValues(map[], ps, ps[i].0);
    OnlyValue(ps, i);
  }

  // --------------------------------------------------- the six parameters

  /** The parameters that are signed, in the generator's order. */
  function SignedPairs(g: Grant): seq<Pair>
    requires g.expires > 0
  {
    [("X-Amz-Algorithm", ALGORITHM), ("X-Amz-Credential", Credential(g)), ("X-Amz-Date", g.timestamp),
     ("X-Amz-Expires", Decimal(ExpireSeconds(g))), ("X-Amz-SignedHeaders", "host")]
  }

  function AllPairs(g: Grant, sig: string): seq<Pair>
    requires g.expires > 0
  {
    SignedPairs(g) + [("X-Amz-Signature", sig)]
  }

  lemma NamesDiffer(g: Grant, sig: string)
    requires g.expires > 0
    ensures var ps := AllPairs(g, sig);
      forall j, k :: 0 <= j < k < |ps| ==> ps[j].0 != ps[k].0
  {
    var ps := AllPairs(g, sig);
    assert ps[0].0[6] == 'A' && ps[1].0[6] == 'C' && ps[2].0[6] == 'D' && ps[3].0[6] == 'E' && ps[4].0[6] == 'S'
           && ps[5].0[6] == 'S';
    assert |ps[4].0| == 19 && |ps[5].0| == 15;
  }

  lemma NamesUnreserved()
    ensures AllUnreserved("X-Amz-Algorithm") && AllUnreserved("X-Amz-Credential") && AllUnreserved("X-Amz-Date")
    ensures AllUnreserved("X-Amz-Expires") && AllUnreserved("X-Amz-SignedHeaders") && AllUnreserved("X-Amz-Signature")
    ensures AllUnreserved(ALGORITHM) && AllUnreserved("host")
  {
  }

  lemma DigitsUnreserved(s: string)
    requires IsDigits(s)
    ensures AllUnreserved(s)
  {
  }

  /** What a pair looks like in the query when its name needs no encoding. */
  lemma PieceIs(p: Pair)
    requires AllUnreserved(p.0)
    ensures EncodePair(p) == Piece(p.0, UriEncode(p.1, true))
    ensures AllUnreserved(p.1) ==> EncodePair(p) == Piece(p.0, p.1)
  {
    UnreservedUnchanged(p.0, true);
    if AllUnreserved(p.1) {
      UnreservedUnchanged(p.1, true);
    }
  }

  lemma SignedNames(g: Grant)
    requires g.expires > 0 && AllUnreserved(g.timestamp)
    ensures var ps := SignedPairs(g);
      && (forall i :: 0 <= i < 5 ==> AllUnreserved(ps[i].0))
      && (forall i :: 0 <= i < 5 && i != 1 ==> AllUnreserved(ps[i].1))
  {
    NamesUnreserved();
    DigitsUnreserved(Decimal(ExpireSeconds(g)));
  }

  /** The encoded form of the i-th signed parameter. */
  function PieceAt(g: Grant, i: nat): string
    requires g.expires > 0 && i < 5
  {
    var p := SignedPairs(g)[i];
    Piece(p.0, if i == 1 then UriEncode(p.1, true) else p.1)
  }

  /** The encoded signed pairs are the pieces that the generator writes. */
  lemma SignedPiece(g: Grant, i: nat)
    requires g.expires > 0 && AllUnreserved(g.timestamp) && i < 5
    ensures EncodePairs(SignedPairs(g))[i] == PieceAt(g, i)
  {
    SignedNames(g);
    PieceIs(SignedPairs(g)[i]);
  }

  lemma JoinFive(a: string, b: string, c: string, d: string, e: string)
    ensures Join([a, b, c, d, e], '&') == a + "&" + b + "&" + c + "&" + d + "&" + e
  {
    assert [a, b, c, d, e][1..] == [b, c, d, e] && [b, c, d, e][1..] == [c, d, e];
    assert [c, d, e][1..] == [d, e] && [d, e][1..] == [e];
    assert Join([d, e], '&') == d + "&" + e;
    assert Join([c, d, e], '&') == c + "&" + (d + "&" + e);
    assert Join([b, c, d, e], '&') == b + "&" + (c + "&" + (d + "&" + e));
  }

  /** Five strings with ampersands between them. */
  function Ampersands(es: seq<string>): string
    requires |es| == 5
  {
    es[0] + "&" + es[1] + "&" + es[2] + "&" + es[3] + "&" + es[4]
  }

  lemma JoinIsAmpersands(es: seq<string>)
    requires |es| == 5
    ensures Join(es, '&') == Ampersands(es)
  {
    assert es == [es[0], es[1], es[2], es[3], es[4]];
    JoinFive(es[0], es[1], es[2], es[3], es[4]);
  }

  function Pieces(g: Grant): (es: seq<string>)
    requires g.expires > 0
    ensures |es| == 5 && forall i :: 0 <= i < 5 ==> es[i] == PieceAt(g, i)
  {
    seq(5, i requires 0 <= i < 5 => PieceAt(g, i))
  }

  lemma ArePieces(g: Grant, es: seq<string>)
    requires g.expires > 0 && |es| == 5 && forall i :: 0 <= i < 5 ==> es[i] == PieceAt(g, i)
    ensures es == Pieces(g)
  {
  }

  lemma UnsignedPieces(g: Grant)
    requires g.expires > 0
    ensures UnsignedQuery(g) == Ampersands(Pieces(g))
  {
  }

  lemma EncodedPieces(g: Grant)
    requires g.expires > 0 && AllUnreserved(g.timestamp)
    ensures EncodePairs(SignedPairs(g)) == Pieces(g)
  {
    var es := EncodePairs(SignedPairs(g));
    forall i | 0 <= i < 5 ensures es[i] == PieceAt(g, i) {
      SignedPiece(g, i);
    }
    ArePieces(g, es);
  }

  lemma QueryIsJoin(g: Grant)
    requires g.expires > 0 && AllUnreserved(g.timestamp)
    ensures UnsignedQuery(g) == Join(EncodePairs(SignedPairs(g)), '&')
  {
    EncodedPieces(g);
    JoinIsAmpersands(Pieces(g));
    UnsignedPieces(g);
  }

  lemma {:induction false} JoinSnoc(parts: seq<string>, x: string)
    requires |parts| >= 1
    ensures Join(parts + [x], '&') == Join(parts, '&') + "&" + x
  {
    var all := parts + [x];
    if |parts| == 1 {
      assert all[1..] == [x];
    } else {
      JoinSnoc(parts[1..], x);
      assert all[1..] == parts[1..] + [x];
    }
  }

  /** The query of a generated URL. */
  function SignedQuery(g: Grant, sig: string): string
    requires g.expires > 0
  {
    UnsignedQuery(g) + "&" + Piece("X-Amz-Signature", sig)
  }

  lemma SignedQueryIsJoin(g: Grant, sig: string)
    requires g.expires > 0 && AllUnreserved(g.timestamp) && AllUnreserved(sig)
    ensures SignedQuery(g, sig) == Join(EncodePairs(AllPairs(g, sig)), '&')
  {
    QueryIsJoin(g);
    NamesUnreserved();
    OneMore(SignedPairs(g), ("X-Amz-Signature", sig));
  }

  lemma OneMore(ps: seq<Pair>, p: Pair)
    requires |ps| >= 1 && AllUnreserved(p.0) && AllUnreserved(p.1)
    ensures Join(EncodePairs(ps + [p]), '&') == Join(EncodePairs(ps), '&') + "&" + Piece(p.0, p.1)
  {
    PieceIs(p);
    MappedConcat(q => EncodePair(q), ps, [p]);
    assert EncodePairs([p]) == [EncodePair(p)];
    JoinSnoc(EncodePairs(ps), EncodePair(p));
  }

  /** Two parameters whose names part at the letter after the common beginning are in that order. */
  lemma OrderedByLetter(a: string, b: string)
    requires |a| > 6 && |b| > 6 && a[..6] == b[..6] && a[6] < b[6]
    ensures !Less(b, a)
  {
    assert a == a[..6] + a[6..] && b == b[..6] + b[6..];
    SuffixKeepsOrder(a[..6], b[6..], a[6..]);
  }

  lemma PieceLetter(g: Grant, i: nat)
    requires g.expires > 0 && i < 5
    ensures var e := PieceAt(g, i); |e| > 6 && e[..6] == "X-Amz-" && e[6] == "ACDES"[i]
  {
    var name := SignedPairs(g)[i].0;
    assert |name| > 6 && name[..6] == "X-Amz-" && name[6] == "ACDES"[i];
  }

  lemma PieceOrder(g: Grant, i: nat, j: nat)
    requires g.expires > 0 && i < j < 5
    ensures !Less(PieceAt(g, j), PieceAt(g, i))
  {
    PieceLetter(g, i);
    PieceLetter(g, j);
    var a, b := PieceAt(g, i), PieceAt(g, j);
    assert a[6] < b[6];
    OrderedByLetter(a, b);
  }

  lemma PiecesAscend(g: Grant)
    requires g.expires > 0 && AllUnreserved(g.timestamp)
    ensures Ascending(EncodePairs(SignedPairs(g)))
  {
    var es := EncodePairs(SignedPairs(g));
    forall i, j | 0 <= i < j < |es| ensures !Less(es[j], es[i]) {
      SignedPiece(g, i);
      SignedPiece(g, j);
      PieceOrder(g, i, j);
    }
  }

  /** The generator writes its parameters in canonical form. */
  lemma QueryIsCanonical(g: Grant)
    requires g.expires > 0 && AllUnreserved(g.timestamp)
    ensures UnsignedQuery(g) == CanonicalOf(SignedPairs(g))
  {
    QueryIsJoin(g);
    PiecesAscend(g);
    SortIsSorted(EncodePairs(SignedPairs(g)), EncodePairs(SignedPairs(g)));
  }

  /** Without the signature, the parameters read back are the signed ones. */
  lemma UnsignedLists(g: Grant, sig: string)
    requires g.expires > 0
    ensures Lists(Unsigned(AddPairs(map[], AllPairs(g, sig))), SignedPairs(g))
  {
    var ps, all := SignedPairs(g), AllPairs(g, sig);
    var m := AddPairs(map[], all);
    NamesDiffer(g, sig);
    forall p: Pair ensures multiset(ps)[p] == Count(Unsigned(m), p) {
      AddPairsCounts(map[], all, p);
      assert multiset(all) == multiset(ps) + multiset{all[5]};
      if p.0 == "X-Amz-Signature" || p.0 == "x-amz-signature" {
        NotSigned(g, sig, p);
      }
    }
  }

  lemma NotSigned(g: Grant, sig: string, p: Pair)
    requires g.expires > 0 && (p.0 == "X-Amz-Signature" || p.0 == "x-amz-signature")
    ensures p !in multiset(SignedPairs(g))
  {
    NamesDiffer(g, sig);
    var ps := SignedPairs(g);
    assert forall i :: 0 <= i < 5 ==> AllPairs(g, sig)[i] == ps[i];
    assert AllPairs(g, sig)[5].0 == "X-Amz-Signature";
    forall i | 0 <= i < 5 ensures ps[i].0 != p.0 {
      assert ps[i].0[0] == 'X' && "x-amz-signature"[0] == 'x';
    }
  }

  // ------------------------------------------------ credential, numbers, host

  lemma SplitNStep(a: string, rest: string, n: nat)
    requires '/' !in a && n >= 2
    ensures SplitN(a + "/" + rest, n) == [a] + SplitN(rest, n - 1)
  {
    var s := a + "/" + rest;
    IndexIs(s, '/', |a|);
    assert s[..|a|] == a && s[|a| + 1..] == rest;
  }

  lemma {:induction false} SplitNJoin(fields: seq<string>)
    requires |fields| >= 1 && forall i :: 0 <= i < |fields| ==> '/' !in fields[i]
    ensures SplitN(Join(fields, '/'), |fields|) == fields
  {
    if |fields| > 1 {
      var rest := Join(fields[1..], '/');
      SplitNStep(fields[0], rest, |fields|);
      SplitNJoin(fields[1..]);
      assert Join(fields, '/') == fields[0] + "/" + rest;
    }
  }

  lemma ScopeIsJoin(a: string, date: string, region: string, service: string, end: string)
    requires end == "aws4_request"
    ensures Join([a, date, region, service, end], '/') == a + "/" + Scope(date, region, service)
  {
    assert [a, date, region, service, end][1..] == [date, region, service, end];
    assert [date, region, service, end][1..] == [region, service, end];
    assert [region, service, end][1..] == [service, end] && [service, end][1..] == [end];
    assert Join([service, end], '/') == service + "/" + end;
    assert Join([region, service, end], '/') == region + "/" + (service + "/" + end);
    assert Scope(date, region, service) == date + "/" + (region + "/" + (service + "/" + end));
  }

  lemma CredentialSplits(a: string, date: string, region: string, service: string, end: string, n: nat)
    requires '/' !in a && '/' !in date && '/' !in region && '/' !in service && '/' !in end
    requires end == "aws4_request" && n == 5
    ensures SplitN(a + "/" + Scope(date, region, service), n) == [a, date, region, service, end]
  {
    ScopeIsJoin(a, date, region, service, end);
    SplitNJoin([a, date, region, service, end]);
  }

  lemma CredentialFields(a: string, date: string, region: string)
    requires '/' !in a && '/' !in date && '/' !in region
    ensures SplitN(a + "/" + Scope(date, region, "s3"), 5) == [a, date, region, "s3", "aws4_request"]
  {
    CredentialSplits(a, date, region, "s3", "aws4_request", 5);
  }

  lemma SmallDecimal(n: nat)
    requires n <= 604800
    ensures ParseInt(Decimal(n)) == Some(n) && Wrap64(n * 1_000_000_000) == n * 1_000_000_000
  {
    DecimalValue(n);
  }

  lemma HostHeader(r: Request)
    ensures CanonicalHeaders(Sort(Split("host", ';')), r) == "host:" + r.host + "\n"
  {
    assert IndexOf("host", ';') == 4;
    assert Split("host", ';') == ["host"];
    assert Sort(["host"]) == ["host"] by {
      SortIsSorted(["host"], ["host"]);
    }
    assert Lower("host") == "host";
    assert ["host"][1..] == [];
    assert "host" + ":" + r.host + "\n" + "" == "host:" + r.host + "\n";
  }

  // ---------------------------------------------------------------- the URL

  /** Unreserved characters and slashes. */
  predicate PlainPath(s: string) {
    forall i :: 0 <= i < |s| ==> IsUnreserved(s[i]) || s[i] == '/'
  }

  lemma {:induction false} PlainUnescapes(s: string)
    requires PlainPath(s)
    ensures Unescape(s, false) == Some(s)
  {
    if |s| > 0 {
      PlainUnescapes(s[1..]);
      assert s == [s[0]] + s[1..];
    }
  }

  predicate IsHostChar(c: char) {
    IsUnreserved(c) || c == ':'
  }

  /** The end of a host's name: after the bracket of a bracketed address, or at the first colon. */
  function NameEnd(s: string): (n: nat)
    ensures n <= |s| + 1
  {
    if |s| > 0 && s[0] == '[' then IndexOf(s, ']') + 1 else IndexOf(s, ':')
  }

  /** A name, or an address in brackets, with or without a numeric port. */
  predicate IsHost(s: string) {
    var n := NameEnd(s);
    && n <= |s|
    && (forall i :: 0 <= i < n ==> IsHostChar(s[i]) || (s[0] == '[' && (i == 0 || i == n - 1)))
    && (n < |s| ==> s[n] == ':' && IsDigits(s[n + 1..]))
  }

  lemma HostHasNoSlash(host: string)
    requires IsHost(host)
    ensures '/' !in host
  {
    var n := NameEnd(host);
    forall i | 0 <= i < |host| ensures host[i] != '/' {
      if i > n {
        assert host[i] == host[n + 1..][i - n - 1];
      }
    }
  }

  /** A server's base address: a scheme and a host without a path. */
  predicate BaseAddress(rawURL: string, host: string) {
    && (rawURL == "http://" + host || rawURL == "https://" + host)
    && host != "" && IsHost(host) && host != "http:"
  }

  lemma SchemeTrimmed(rawURL: string, host: string, tail: string)
    requires BaseAddress(rawURL, host) && |tail| > 0 && tail[0] == '/'
    ensures TrimPrefix(TrimPrefix(rawURL + tail, "https://"), "http://") == host + tail
  {
    var http, https := "http://", "https://";
    var u := rawURL + tail;
    HostHasNoSlash(host);
    if http <= host + tail {
      SchemeAgain(host, tail);
    }
    if rawURL == https + host {
      assert u[..8] == https && u[8..] == host + tail;
    } else {
      assert u[4] == ':' && https[4] == 's';
      assert u[..7] == http && u[7..] == host + tail;
    }
  }

  lemma SchemeAgain(host: string, tail: string)
    requires '/' !in host && |tail| > 0 && tail[0] == '/' && "http://" <= host + tail
    ensures host == "http:"
  {
    var s, http := host + tail, "http://";
    IndexIs(s, '/', |host|);
    assert forall i :: 0 <= i < 7 ==> s[i] == http[i];
    assert forall i :: 0 <= i < 5 ==> http[i] != '/';
    IndexIs(s, '/', 5);
    assert host == s[..5] == "http:";
  }

  lemma SchemeHasSlash(host: string)
    ensures "http://" <= host ==> '/' in host
  {
    var http := "http://";
    if http <= host {
      assert host[5] == http[5];
    }
  }

  /** The three parts of an address, once the scheme is gone. */
  lemma AddressReadBack(verb: string, host: string, path: string, raw: string, headers: map<string, string>)
    requires '/' !in host && PlainPath(path) && |path| > 0 && path[0] == '/'
    ensures ReadAddress(verb, host + (path + "?" + raw), headers) ==
            Some(Request(verb, host, path, ParseQuery(raw), headers))
  {
    var tail := path + "?" + raw;
    var u := host + tail;
    IndexIs(u, '/', |host|);
    assert u[|host|..] == tail && u[..|host|] == host;
    IndexIs(tail, '?', |path|);
    assert tail[..|path|] == path && tail[|path| + 1..] == raw;
    PlainUnescapes(path);
  }

  /** The server reads the generated URL back as the path and query that were written. */
  lemma UrlReadBack(verb: string, rawURL: string, host: string, path: string, raw: string, headers: map<string, string>)
    requires BaseAddress(rawURL, host) && PlainPath(path) && |path| > 0 && path[0] == '/'
    ensures Received(verb, rawURL + (path + "?" + raw), headers) ==
            Some(Request(verb, host, path, ParseQuery(raw), headers))
  {
    HostHasNoSlash(host);
    SchemeTrimmed(rawURL, host, path + "?" + raw);
    AddressReadBack(verb, host, path, raw, headers);
  }

  lemma HostRead(rawURL: string, host: string, bucket: string)
    requires BaseAddress(rawURL, host)
    ensures ExtractHost(rawURL, bucket) == host
  {
    var http, https := "http://", "https://";
    HostHasNoSlash(host);
    SchemeHasSlash(host);
    if rawURL == https + host {
      assert rawURL[..8] == https && rawURL[8..] == host;
    } else {
      assert rawURL[4] == ':' && https[4] == 's';
      assert rawURL[..7] == http && rawURL[7..] == host;
    }
    assert IndexOf(host, '/') == |host|;
    assert host[..|host|] == host;
  }

  // ------------------------------------------------------------- the theorem

  /** The conditions under which a generated URL is meant to be accepted. */
  predicate Presignable(g: Grant, host: string) {
    && 0 < g.expires <= SEVEN_DAYS && BaseAddress(g.rawURL, host)
    && PlainPath(g.bucket) && PlainPath(g.key)
    && '/' !in g.accessKey && '/' !in g.region && Bytes(g.accessKey) && Bytes(g.region)
    && IsDigits(g.date) && AllUnreserved(g.timestamp) && g.timestamp != ""
  }

  lemma CredentialBytes(g: Grant)
    requires Bytes(g.accessKey) && Bytes(g.region) && IsDigits(g.date)
    ensures Bytes(Credential(g)) && Credential(g) != ""
  {
    var rest := Scope(g.date, g.region, "s3");
    assert Bytes("/aws4_request") && Bytes("s3") && Bytes("/");
    assert Bytes(rest);
  }

  lemma PairsAreBytes(g: Grant, sig: string)
    requires g.expires > 0 && Bytes(g.accessKey) && Bytes(g.region) && IsDigits(g.date)
    requires AllUnreserved(g.timestamp) && AllUnreserved(sig)
    ensures forall p :: p in AllPairs(g, sig) ==> PairBytes(p)
  {
    CredentialBytes(g);
    NamesUnreserved();
    DigitsUnreserved(Decimal(ExpireSeconds(g)));
  }

  /** Each parameter is read back as it was written. */
  lemma ParamsRead(g: Grant, sig: string)
    requires g.expires > 0 && g.timestamp != "" && sig != "" && Credential(g) != ""
    ensures var m := AddPairs(map[], AllPairs(g, sig));
      && Param(m, "X-Amz-Algorithm") == ALGORITHM && Param(m, "X-Amz-Credential") == Credential(g)
      && Param(m, "X-Amz-Date") == g.timestamp && Param(m, "X-Amz-Expires") == Decimal(ExpireSeconds(g))
      && Param(m, "X-Amz-SignedHeaders") == "host" && Param(m, "X-Amz-Signature") == sig
  {
    var ps := AllPairs(g, sig);
    NamesDiffer(g, sig);
    ParamIs(ps, 0);
    ParamIs(ps, 1);
    ParamIs(ps, 2);
    ParamIs(ps, 3);
    ParamIs(ps, 4);
    ParamIs(ps, 5);
  }

  /** The request that the generated URL makes. */
  lemma GeneratedRequest(c: Crypto, g: Grant, host: string, headers: map<string, string>)
    requires Presignable(g, host)
    ensures Generate(c, g).Some?
    ensures Received(g.verb, Generate(c, g).value, headers) ==
            Some(Request(g.verb, host, UrlPath(g), AddPairs(map[], AllPairs(g, Signature(c, g))), headers))
  {
    var sig := Signature(c, g);
    GeneratedUrl(c, g);
    PathIsPlain(g);
    UrlReadBack(g.verb, g.rawURL, host, UrlPath(g), SignedQuery(g, sig), headers);
    SignedQueryParses(g, sig);
  }

  lemma Regroup(a: string, b: string, c: string, d: string, e: string, f: string)
    ensures a + b + c + d + e + f == a + (b + c + (d + e + f))
  {
  }

  lemma GeneratedUrl(c: Crypto, g: Grant)
    requires 0 < g.expires <= SEVEN_DAYS
    ensures Generate(c, g) == Some(g.rawURL + (UrlPath(g) + "?" + SignedQuery(g, Signature(c, g))))
  {
    Regroup(g.rawURL, UrlPath(g), "?", UnsignedQuery(g), "&", Piece("X-Amz-Signature", Signature(c, g)));
  }

  lemma SignedQueryParses(g: Grant, sig: string)
    requires g.expires > 0 && Bytes(g.accessKey) && Bytes(g.region) && IsDigits(g.date)
    requires AllUnreserved(g.timestamp) && AllUnreserved(sig)
    ensures ParseQuery(SignedQuery(g, sig)) == AddPairs(map[], AllPairs(g, sig))
  {
    SignedQueryIsJoin(g, sig);
    PairsAreBytes(g, sig);
    QueryRoundTrip(AllPairs(g, sig));
  }

  lemma PathIsPlain(g: Grant)
    requires PlainPath(g.bucket) && PlainPath(g.key)
    ensures PlainPath(UrlPath(g)) && |UrlPath(g)| > 0 && UrlPath(g)[0] == '/'
  {
  }

  /** The verifier rebuilds the very string that the generator signed. */
  lemma StringsAgree(c: Crypto, g: Grant, host: string, sig: string, headers: map<string, string>)
    requires Presignable(g, host) && sig != "" && AllUnreserved(sig)
    ensures var r := Request(g.verb, host, UrlPath(g), AddPairs(map[], AllPairs(g, sig)), headers);
      && Fields(r.query) == [g.accessKey, g.date, g.region, "s3", "aws4_request"]
      && VerifierString(c, r, UnsignedQuery(g)) == GeneratorString(c, g)
  {
    CredentialBytes(g);
    ParamsRead(g, sig);
    DigitsHaveNoSlash(g.date);
    CredentialFields(g.accessKey, g.date, g.region);
    HostHeader(Request(g.verb, host, UrlPath(g), AddPairs(map[], AllPairs(g, sig)), headers));
    HostRead(g.rawURL, host, g.bucket);
  }

  lemma DigitsHaveNoSlash(s: string)
    requires IsDigits(s)
    ensures '/' !in s
  {
  }

  lemma ReadsComplete(g: Grant, host: string, sig: string, signSecond: int, parse: string -> Option<int>)
    requires Presignable(g, host) && sig != "" && parse(g.timestamp) == Some(signSecond)
    ensures var m := AddPairs(map[], AllPairs(g, sig));
      Complete(m) && Dated(m, parse) && Deadline(m, parse) == (signSecond + ExpireSeconds(g)) * 1_000_000_000
  {
    CredentialBytes(g);
    ParamsRead(g, sig);
    SmallDecimal(ExpireSeconds(g));
  }

  lemma ReadsSigned(c: Crypto, g: Grant, host: string, headers: map<string, string>)
    requires Presignable(g, host) && Signature(c, g) != ""
    ensures var r := Request(g.verb, host, UrlPath(g), AddPairs(map[], AllPairs(g, Signature(c, g))), headers);
      |Fields(r.query)| == 5 && Signed(c, r, g.secret, UnsignedQuery(g))
  {
    CredentialBytes(g);
    ParamsRead(g, Signature(c, g));
    StringsAgree(c, g, host, Signature(c, g), headers);
  }

  lemma ReadsCanonical(g: Grant, sig: string)
    requires g.expires > 0 && AllUnreserved(g.timestamp)
    ensures IsCanonical(Unsigned(AddPairs(map[], AllPairs(g, sig))), UnsignedQuery(g))
  {
    UnsignedLists(g, sig);
    QueryIsCanonical(g);
  }

  /**
   Presign round trip: the request that a generated URL makes has the generator's query
   as its canonical query, and the verifier, with the generator's secret, accepts it at
   every instant up to the signing second plus the whole expiry seconds, and at none
   later.
   */
  lemma PresignedUrlAccepted(c: Crypto, g: Grant, host: string, signSecond: int, now: int, parse: string -> Option<int>,
                             headers: map<string, string>)
    requires Presignable(g, host) && parse(g.timestamp) == Some(signSecond)
    requires forall k, d :: |c.hmac(k, d)| > 0
    ensures Generate(c, g).Some?
    ensures var r := Received(g.verb, Generate(c, g).value, headers);
      && r.Some? && IsCanonical(Unsigned(r.value.query), UnsignedQuery(g))
      && Judge(c, r.value, g.secret, now, parse, UnsignedQuery(g)) ==
         if now <= (signSecond + g.expires / 1_000_000_000) * 1_000_000_000 then Accepted else Expired
  {
    var sig := Signature(c, g);
    GeneratedRequest(c, g, host, headers);
    ReadsComplete(g, host, sig, signSecond, parse);
    ReadsSigned(c, g, host, headers);
    ReadsCanonical(g, sig);
  }
}
