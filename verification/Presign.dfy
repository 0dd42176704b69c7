/**
 Presigned URLs (internal/auth/presign.go): the generator, the verifier, and the
 request that a server receives when the generated URL is requested. SHA-256, HMAC
 and the clock's text formats are parameters.
 */
module Presign {
  import opened Basics
  import opened Strings
  import opened SigV4

  /** The hash in hexadecimal, and the keyed hash of some bytes under some bytes. */
  datatype Crypto = Crypto(hash: string -> string, hmac: (string, string) -> string)

  const ALGORITHM := "AWS4-HMAC-SHA256"
  const SEVEN_DAYS: int := 7 * 24 * 3600 * 1_000_000_000

  function LowerHex(s: string): (h: string)
    ensures |h| == 2 * |s| && AllUnreserved(h)
  {
    if |s| == 0 then ""
    else
      var n := s[0] as int;
      ["0123456789abcdef"[n / 16 % 16], "0123456789abcdef"[n % 16]] + LowerHex(s[1..])
  }

  function SigningKey(c: Crypto, secret: string, date: string, region: string, service: string): string {
    c.hmac(c.hmac(c.hmac(c.hmac("AWS4" + secret, date), region), service), "aws4_request")
  }

  function TrimPrefix(s: string, p: string): string {
    if p <= s then s[|p|..] else s
  }

  function ExtractHost(rawURL: string, bucket: string): string {
    var u := TrimPrefix(TrimPrefix(rawURL, "https://"), "http://");
    var host := u[..IndexOf(u, '/')];
    if host == "" then bucket + ".s3.amazonaws.com" else host
  }

  /** What is signed: everything that the signature depends on besides the key. */
  function StringToSign(c: Crypto, timestamp: string, scope: string, canonicalRequest: string): string {
    ALGORITHM + "\n" + timestamp + "\n" + scope + "\n" + c.hash(canonicalRequest)
  }

  function CanonicalRequest(verb: string, path: string, query: string, headers: string, signedHeaders: string): string {
    verb + "\n" + CanonicalURI(path) + "\n" + query + "\n" + headers + "\n" + signedHeaders + "\n" + "UNSIGNED-PAYLOAD"
  }

  function Scope(date: string, region: string, service: string): string {
    date + "/" + region + "/" + service + "/aws4_request"
  }

  /** The inputs of the generator; `date` and `timestamp` are the clock's two text forms. */
  datatype Grant = Grant(verb: string, rawURL: string, bucket: string, key: string,
                         accessKey: string, secret: string, region: string, expires: int,
                         date: string, timestamp: string)

  function UrlPath(g: Grant): string {
    "/" + g.bucket + "/" + g.key
  }

  function Credential(g: Grant): string {
    g.accessKey + "/" + Scope(g.date, g.region, "s3")
  }

  function ExpireSeconds(g: Grant): nat
    requires g.expires > 0
  {
    g.expires / 1_000_000_000
  }

  function Piece(name: string, value: string): string {
    name + "=" + value
  }

  function UnsignedQuery(g: Grant): string
    requires g.expires > 0
  {
    Piece("X-Amz-Algorithm", ALGORITHM) + "&" + Piece("X-Amz-Credential", UriEncode(Credential(g), true)) + "&" +
    Piece("X-Amz-Date", g.timestamp) + "&" + Piece("X-Amz-Expires", Decimal(ExpireSeconds(g))) + "&" +
    Piece("X-Amz-SignedHeaders", "host")
  }

  function GeneratorString(c: Crypto, g: Grant): string
    requires g.expires > 0
  {
    StringToSign(c, g.timestamp, Scope(g.date, g.region, "s3"),
      CanonicalRequest(g.verb, UrlPath(g), UnsignedQuery(g), "host:" + ExtractHost(g.rawURL, g.bucket) + "\n", "host"))
  }

  function Signature(c: Crypto, g: Grant): string
    requires g.expires > 0
  {
    LowerHex(c.hmac(SigningKey(c, g.secret, g.date, g.region, "s3"), GeneratorString(c, g)))
  }

  function Generate(c: Crypto, g: Grant): Option<string> {
    if g.expires <= 0 || g.expires > SEVEN_DAYS then None
    else Some(g.rawURL + UrlPath(g) + "?" + UnsignedQuery(g) + "&" + Piece("X-Amz-Signature", Signature(c, g)))
  }

  // -------------------------------------------------------------- the request

  /**
   What the server's HTTP library hands to the verifier; `headers` has each header's first value under its
   lower-case name.
   */
  datatype Request = Request(verb: string, host: string, path: string, query: Params, headers: map<string, string>)

  /** One "name=value" part of a raw query; malformed parts are dropped. */
  function AddPart(m: Params, part: string): Params {
    if part == "" || ';' in part then m
    else
      var i := IndexOf(part, '=');
      match (Unescape(part[..i], true), Unescape(part[if i < |part| then i + 1 else i..], true))
      case (Some(k), Some(v)) => m[k := (if k in m then m[k] else []) + [v]]
      case _ => m
  }

  function AddParts(m: Params, parts: seq<string>): Params
    decreases |parts|
  {
    if |parts| == 0 then m else AddParts(AddPart(m, parts[0]), parts[1..])
  }

  function ParseQuery(raw: string): Params {
    AddParts(map[], Split(raw, '&'))
  }

  /** The request for an address without its scheme; None when the path's escapes are malformed. */
  function ReadAddress(verb: string, u: string, headers: map<string, string>): Option<Request> {
    var slash := IndexOf(u, '/');
    var tail := u[slash..];
    var q := IndexOf(tail, '?');
    match Unescape(tail[..q], false)
    case None => None
    case Some(path) =>
      Some(Request(verb, u[..slash], path, ParseQuery(if q < |tail| then tail[q + 1..] else ""), headers))
  }

  /** The request for an http or https URL, sent with the given headers beside the host. */
  function Received(verb: string, url: string, headers: map<string, string>): Option<Request> {
    ReadAddress(verb, TrimPrefix(TrimPrefix(url, "https://"), "http://"), headers)
  }

  // ------------------------------------------------------------- the verifier

  datatype Verdict = Accepted | Malformed | BadDate | Expired | BadCredential | Mismatch

  function First(m: Params, k: string): string {
    if k in m && |m[k]| > 0 then m[k][0] else ""
  }

  function Lower(s: string): (l: string)
    ensures |l| == |s|
  {
    seq(|s|, i requires 0 <= i < |s| => if 'A' <= s[i] <= 'Z' then (s[i] as int + 32) as char else s[i])
  }

  function Param(m: Params, k: string): string {
    if First(m, k) != "" then First(m, k) else First(m, Lower(k))
  }

  /** strconv.ParseInt in base 10 for 64 bits. */
  function ParseInt(s: string): Option<int> {
    var neg := |s| > 0 && s[0] == '-';
    var v := ParseDecimal(if |s| > 0 && (s[0] == '-' || s[0] == '+') then s[1..] else s);
    if v < 0 || (if neg then v > 0x8000_0000_0000_0000 else v >= 0x8000_0000_0000_0000) then None
    else Some(if neg then -v else v)
  }

  /** A product of int64 values wraps around. */
  function Wrap64(x: int): int {
    (x + 0x8000_0000_0000_0000) % 0x1_0000_0000_0000_0000 - 0x8000_0000_0000_0000
  }

  /** Cuts off the first n - 1 fields; the last keeps the remaining slashes. */
  function SplitN(s: string, n: nat): (parts: seq<string>)
    requires n >= 1
  {
    var i := IndexOf(s, '/');
    if n == 1 || i == |s| then [s] else [s[..i]] + SplitN(s[i + 1..], n - 1)
  }

  predicate IsSpace(c: char) {
    c == ' ' || '\t' <= c <= '\r'
  }

  function TrimLeft(s: string): string {
    if |s| > 0 && IsSpace(s[0]) then TrimLeft(s[1..]) else s
  }

  function TrimRight(s: string): string {
    if |s| > 0 && IsSpace(s[|s| - 1]) then TrimRight(s[..|s| - 1]) else s
  }

  function TrimSpace(s: string): string {
    TrimRight(TrimLeft(s))
  }

  /** A header's value as the verifier reads it: the host from the request line, any other trimmed, or nothing. */
  function HeaderValue(r: Request, name: string): string {
    if name == "host" then r.host else if name in r.headers then TrimSpace(r.headers[name]) else ""
  }

  function HeaderLine(name: string, r: Request): string {
    Lower(name) + ":" + HeaderValue(r, Lower(name)) + "\n"
  }

  /** One line for each signed header, in the given order. */
  function CanonicalHeaders(names: seq<string>, r: Request): string {
    if |names| == 0 then "" else HeaderLine(names[0], r) + CanonicalHeaders(names[1..], r)
  }

  /** The parameters are all there. */
  predicate Complete(m: Params) {
    && Param(m, "X-Amz-Algorithm") == ALGORITHM
    && Param(m, "X-Amz-Credential") != "" && Param(m, "X-Amz-Date") != "" && Param(m, "X-Amz-Expires") != ""
    && Param(m, "X-Amz-SignedHeaders") != "" && Param(m, "X-Amz-Signature") != ""
  }

  predicate Dated(m: Params, parse: string -> Option<int>) {
    parse(Param(m, "X-Amz-Date")).Some? && ParseInt(Param(m, "X-Amz-Expires")).Some?
  }

  /** The last instant, in nanoseconds, at which the URL is good. */
  function Deadline(m: Params, parse: string -> Option<int>): int
    requires Dated(m, parse)
  {
    parse(Param(m, "X-Amz-Date")).value * 1_000_000_000 +
    Wrap64(ParseInt(Param(m, "X-Amz-Expires")).value * 1_000_000_000)
  }

  function Unsigned(m: Params): Params {
    m - {"X-Amz-Signature", "x-amz-signature"}
  }

  function Fields(m: Params): seq<string> {
    SplitN(Param(m, "X-Amz-Credential"), 5)
  }

  /** The string that the verifier rebuilds from the request; `canonQ` is the canonical query. */
  function VerifierString(c: Crypto, r: Request, canonQ: string): string
    requires |Fields(r.query)| == 5
  {
    var cred := Fields(r.query);
    var signed := Param(r.query, "X-Amz-SignedHeaders");
    StringToSign(c, Param(r.query, "X-Amz-Date"), Scope(cred[1], cred[2], cred[3]),
      CanonicalRequest(r.verb, r.path, canonQ, CanonicalHeaders(Sort(Split(signed, ';')), r), signed))
  }

  predicate Signed(c: Crypto, r: Request, secret: string, canonQ: string)
    requires |Fields(r.query)| == 5
  {
    var cred := Fields(r.query);
    Param(r.query, "X-Amz-Signature") ==
    LowerHex(c.hmac(SigningKey(c, secret, cred[1], cred[2], cred[3]), VerifierString(c, r, canonQ)))
  }

  /** The verdict, given the canonical query of the unsigned parameters. */
  function Judge(c: Crypto, r: Request, secret: string, now: int, parse: string -> Option<int>,
                 canonQ: string): Verdict
  {
    if !Complete(r.query) then Malformed
    else if !Dated(r.query, parse) then BadDate
    else if now > Deadline(r.query, parse) then Expired
    else if |Fields(r.query)| != 5 then BadCredential
    else if Signed(c, r, secret, canonQ) then Accepted
    else Mismatch
  }

  /** A map's canonical query is one string, whatever the order of the visits. */
  lemma CanonicalUnique(m: Params, q1: string, q2: string)
    requires IsCanonical(m, q1) && IsCanonical(m, q2)
    ensures q1 == q2
  {
    var ps :| Lists(m, ps) && q1 == CanonicalOf(ps);
    var qs :| Lists(m, qs) && q2 == CanonicalOf(qs);
    SameCounts(m, ps, m, qs);
    CanonicalOfEqual(ps, qs);
  }

  /** `parse` reads the clock's timestamp form as seconds; `now` is in nanoseconds. */
  method Verify(c: Crypto, r: Request, secret: string, now: int, parse: string -> Option<int>) returns (v: Verdict)
    ensures forall q :: IsCanonical(Unsigned(r.query), q) ==> v == Judge(c, r, secret, now, parse, q)
  {
    var m := r.query;
    if Param(m, "X-Amz-Algorithm") != ALGORITHM {
      return Malformed;
    }
    if Param(m, "X-Amz-Credential") == "" || Param(m, "X-Amz-Date") == "" || Param(m, "X-Amz-Expires") == "" ||
       Param(m, "X-Amz-SignedHeaders") == "" || Param(m, "X-Amz-Signature") == "" {
      return Malformed;
    }
    var reqTime, expSec := parse(Param(m, "X-Amz-Date")), ParseInt(Param(m, "X-Amz-Expires"));
    if reqTime.None? || expSec.None? {
      return BadDate;
    }
    if now > reqTime.value * 1_000_000_000 + Wrap64(expSec.value * 1_000_000_000) {
      return Expired;
    }
    var cred := SplitN(Param(m, "X-Amz-Credential"), 5);
    if |cred| != 5 {
      return BadCredential;
    }
    var canonQ := CanonicalQueryString(m - {"X-Amz-Signature", "x-amz-signature"});
    v := Compare(c, r, secret, cred, canonQ);
    forall q | IsCanonical(Unsigned(m), q) ensures q == canonQ {
      CanonicalUnique(Unsigned(m), q, canonQ);
    }
  }

  /** One more line moves from the rest to what is written. */
  lemma LineWritten(lines: string, names: seq<string>, i: nat, r: Request)
    requires i < |names|
    ensures lines + CanonicalHeaders(names[i..], r) ==
            lines + HeaderLine(names[i], r) + CanonicalHeaders(names[i + 1..], r)
  {
    var line, rest := HeaderLine(names[i], r), CanonicalHeaders(names[i + 1..], r);
    assert names[i..][1..] == names[i + 1..];
    assert CanonicalHeaders(names[i..], r) == line + rest;
    assert lines + (line + rest) == lines + line + rest;
  }

  /** The loop over the sorted names of the signed headers. */
  method HeaderLines(signed: seq<string>, r: Request) returns (lines: string)
    ensures lines == CanonicalHeaders(Sort(signed), r)
  {
    var names := Sort(signed);
    lines := "";
    for i := 0 to |names|
      invariant lines + CanonicalHeaders(names[i..], r) == CanonicalHeaders(names, r)
    {
      LineWritten(lines, names, i, r);
      lines := lines + HeaderLine(names[i], r);
    }
    assert lines + "" == lines;
  }

  /** The signature comparison at the end of the verification. */
  method Compare(c: Crypto, r: Request, secret: string, cred: seq<string>, canonQ: string) returns (v: Verdict)
    requires |cred| == 5 && cred == Fields(r.query)
    ensures v == if Signed(c, r, secret, canonQ) then Accepted else Mismatch
  {
    var signed := Param(r.query, "X-Amz-SignedHeaders");
    var lines := HeaderLines(Split(signed, ';'), r);
    var canonReq := CanonicalRequest(r.verb, r.path, canonQ, lines, signed);
    var text := StringToSign(c, Param(r.query, "X-Amz-Date"), Scope(cred[1], cred[2], cred[3]), canonReq);
    var key := SigningKey(c, secret, cred[1], cred[2], cred[3]);
    if Param(r.query, "X-Amz-Signature") != LowerHex(c.hmac(key, text)) {
      return Mismatch;
    }
    v := Accepted;
  }
}
