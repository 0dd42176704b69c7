/**
 Bucket-policy evaluation (internal/auth/iam.go). Strings are byte strings: one
 char stands for one byte. Parsed JSON values stand for the program's interface{}.
 */
module Policy {

  // ------------------------------------------------------------ glob matching

  /**
   Case-insensitive equality of two one-byte strings: ASCII letters fold, and a byte
   of 0x80 or more is no valid UTF-8 by itself, so any two of those are equal.
   */
  predicate FoldEqual(a: char, b: char) {
    (a as int >= 0x80 && b as int >= 0x80) || Lower(a) == Lower(b)
  }

  function Lower(c: char): char {
    if 'A' <= c <= 'Z' then (c as int + 32) as char else c
  }

  /** The part of the target that one pattern byte may stand for. */
  predicate Fits(p: char, part: string) {
    p == '*' || (|part| == 1 && (p == '?' || FoldEqual(p, part[0])))
  }

  function Concat(parts: seq<string>): string {
    if |parts| == 0 then "" else parts[0] + Concat(parts[1..])
  }

  /** The parts line up with the pattern byte by byte. */
  ghost predicate Aligned(pattern: string, parts: seq<string>) {
    |parts| == |pattern| && forall i :: 0 <= i < |pattern| ==> Fits(pattern[i], parts[i])
  }

  /** The meaning of a glob: the target can be cut into parts that fit the pattern. */
  ghost predicate Matches(pattern: string, target: string) {
    exists parts :: Aligned(pattern, parts) && Concat(parts) == target
  }

  lemma MatchEmpty(target: string)
    ensures Matches("", target) <==> target == ""
  {
    if target == "" {
      var none: seq<string> := [];
      assert Aligned("", none) && Concat(none) == "";
    }
  }

  /** A glob that does not start with a star matches by its first byte and its rest. */
  lemma MatchOne(pattern: string, target: string)
    requires |pattern| > 0 && pattern[0] != '*'
    ensures Matches(pattern, target) <==>
            |target| > 0 && Fits(pattern[0], target[..1]) && Matches(pattern[1..], target[1..])
  {
    if Matches(pattern, target) {
      var parts :| Aligned(pattern, parts) && Concat(parts) == target;
      assert Fits(pattern[0], parts[0]);
      assert target[..1] == parts[0] && target[1..] == Concat(parts[1..]);
      assert Aligned(pattern[1..], parts[1..]);
    }
    if |target| > 0 && Fits(pattern[0], target[..1]) && Matches(pattern[1..], target[1..]) {
      var rest :| Aligned(pattern[1..], rest) && Concat(rest) == target[1..];
      var parts := [target[..1]] + rest;
      assert parts[1..] == rest;
      assert Aligned(pattern, parts) && Concat(parts) == target;
    }
  }

  /** A leading star stands for any beginning of the target. */
  lemma MatchStar(pattern: string, target: string)
    requires |pattern| > 0 && pattern[0] == '*'
    ensures Matches(pattern, target) <==> exists i :: 0 <= i <= |target| && Matches(pattern[1..], target[i..])
  {
    if Matches(pattern, target) {
      var parts :| Aligned(pattern, parts) && Concat(parts) == target;
      var i := |parts[0]|;
      assert target[i..] == Concat(parts[1..]) && Aligned(pattern[1..], parts[1..]);
      assert Matches(pattern[1..], target[i..]);
    }
    if i :| 0 <= i <= |target| && Matches(pattern[1..], target[i..]) {
      var rest :| Aligned(pattern[1..], rest) && Concat(rest) == target[i..];
      var parts := [target[..i]] + rest;
      assert parts[1..] == rest;
      assert Aligned(pattern, parts) && Concat(parts) == target;
    }
  }

  // ------------------------------------------------------- what patterns mean

  /** A question mark stands for exactly one byte. */
  lemma QuestionMark(rest: string, target: string)
    ensures Matches("?" + rest, target) <==> |target| > 0 && Matches(rest, target[1..])
  {
    assert ("?" + rest)[1..] == rest;
    MatchOne("?" + rest, target);
  }

  /** The bytes are equal, or one letter in both cases, or both outside ASCII. */
  predicate SameButCase(p: char, t: char) {
    || p == t || (p as int >= 128 && t as int >= 128)
    || (65 <= p as int <= 90 && t as int == p as int + 32)
    || (65 <= t as int <= 90 && p as int == t as int + 32)
  }

  /** Any other byte but a star stands for one byte that is the same but for its case. */
  lemma OneByte(p: char, rest: string, target: string)
    requires p != '*' && p != '?'
    ensures Matches([p] + rest, target) <==> |target| > 0 && SameButCase(p, target[0]) && Matches(rest, target[1..])
  {
    assert ([p] + rest)[1..] == rest;
    MatchOne([p] + rest, target);
    if |target| > 0 {
      assert FoldEqual(p, target[0]) <==> SameButCase(p, target[0]);
    }
  }

  /** A pattern without wildcards covers exactly the strings that are the same but for case. */
  lemma {:induction false} PlainPattern(pattern: string, target: string)
    requires '*' !in pattern && '?' !in pattern
    ensures Matches(pattern, target) <==>
            |target| == |pattern| && forall i :: 0 <= i < |pattern| ==> SameButCase(pattern[i], target[i])
  {
    if |pattern| == 0 {
      MatchEmpty(target);
    } else {
      assert pattern == [pattern[0]] + pattern[1..];
      OneByte(pattern[0], pattern[1..], target);
      if |target| > 0 {
        PlainPattern(pattern[1..], target[1..]);
        assert target == [target[0]] + target[1..];
      }
    }
  }

  /** Two stars in a row mean one. */
  lemma StarStar(pattern: string, target: string)
    requires |pattern| > 1 && pattern[0] == '*' && pattern[1] == '*'
    ensures Matches(pattern, target) <==> Matches(pattern[1..], target)
  {
    MatchStar(pattern, target);
    if i :| 0 <= i <= |target| && Matches(pattern[1..], target[i..]) {
      MatchStar(pattern[1..], target[i..]);
      var j :| 0 <= j <= |target[i..]| && Matches(pattern[1..][1..], target[i..][j..]);
      assert target[i..][j..] == target[i + j..];
      MatchStar(pattern[1..], target);
    }
    if Matches(pattern[1..], target) {
      assert target[0..] == target;
    }
  }

  lemma LoneStar(target: string)
    ensures Matches("*", target)
  {
    MatchStar("*", target);
    MatchEmpty("");
    assert "*"[1..] == "" && target[|target|..] == "";
  }

  method GlobMatch(pattern: string, target: string) returns (ok: bool)
    ensures ok <==> Matches(pattern, target)
  {
    if pattern == "*" {
      LoneStar(target);
      return true;
    }
    ok := GlobMatchRecursive(pattern, target);
  }

  method GlobMatchRecursive(pattern: string, target: string) returns (ok: bool)
    ensures ok <==> Matches(pattern, target)
    decreases |pattern|
  {
    var p, t := pattern, target;
    while |p| > 0
      invariant |p| <= |pattern|
      invariant Matches(pattern, target) <==> Matches(p, t)
      decreases |p|
    {
      if p[0] == '*' {
        assert "*" + p[1..] == p;
        StarStar("*" + p, t);
        assert ("*" + p)[1..] == p;
        while |p| > 0 && p[0] == '*'
          invariant |p| <= |pattern|
          invariant Matches(pattern, target) <==> Matches("*" + p, t)
          invariant |p| == |pattern| ==> p[0] == '*'
          decreases |p|
        {
          StarStar("*" + p, t);
          assert ("*" + p)[1..] == p == "*" + p[1..];
          p := p[1..];
        }
        MatchStar("*" + p, t);
        assert ("*" + p)[1..] == p;
        if |p| == 0 {
          MatchEmpty("");
          assert t[|t|..] == "" && p == "";
          return true;
        }
        var i := 0;
        while i <= |t|
          invariant i <= |t| + 1
          invariant forall j :: 0 <= j < i ==> !Matches(p, t[j..])
        {
          var hit := GlobMatchRecursive(p, t[i..]);
          if hit {
            return true;
          }
          i := i + 1;
        }
        return false;
      }
      MatchOne(p, t);
      if p[0] == '?' {
        if |t| == 0 {
          return false;
        }
      } else {
        if |t| == 0 || !FoldEqual(p[0], t[0]) {
          return false;
        }
      }
      p, t := p[1..], t[1..];
    }
    MatchEmpty(t);
    assert p == "";
    ok := |t| == 0;
  }

  // --------------------------------------------------------------- statements

  /** A decoded JSON value; `Other` is a number or a boolean. */
  datatype Json =
    | Null
    | Text(s: string)
    | List(items: seq<Json>)
    | Fields(fields: map<string, Json>)
    | Other

  /** The fields of a statement that evaluation looks at. */
  datatype Statement = Statement(effect: string, principal: Json, action: Json, resource: Json)

  /** A policy document as it was stored: none, not JSON, or a list of statements. */
  datatype Document = Absent | Malformed | Policy(statements: seq<Statement>)

  /** The principal field admits the name: by a star or by the name itself, alone or in a list. */
  ghost predicate Admits(p: Json, principal: string) {
    match p
    case Null => true
    case Text(s) => s == "*" || s == principal
    case List(items) => ListAdmits(items, principal)
    case Fields(fields) =>
      exists k :: k in fields &&
        (fields[k] == Text("*") || fields[k] == Text(principal)
         || (fields[k].List? && ListAdmits(fields[k].items, principal)))
    case Other => false
  }

  ghost predicate ListAdmits(items: seq<Json>, principal: string) {
    Text("*") in items || Text(principal) in items
  }

  ghost predicate Covers(v: Json, target: string) {
    match v
    case Text(s) => Matches(s, target)
    case List(items) => exists item :: item in items && item.Text? && Matches(item.s, target)
    case _ => false
  }

  datatype Request = Request(principal: string, action: string, resource: string)

  ghost predicate Applies(stmt: Statement, r: Request) {
    Admits(stmt.principal, r.principal) && Covers(stmt.action, r.action) && Covers(stmt.resource, r.resource)
  }

  ghost predicate SomeApplies(statements: seq<Statement>, effect: string, r: Request) {
    exists stmt :: stmt in statements && stmt.effect == effect && Applies(stmt, r)
  }

  /** The decision that a policy means: a matching Deny wins over every Allow. */
  ghost function Decision(statements: seq<Statement>, r: Request): (bool, bool) {
    var deny := SomeApplies(statements, "Deny", r);
    (!deny && SomeApplies(statements, "Allow", r), deny)
  }

  /** The order of statements, and repeating them, changes no decision. */
  lemma OrderIsIrrelevant(s1: seq<Statement>, s2: seq<Statement>, r: Request)
    requires forall stmt :: stmt in s1 <==> stmt in s2
    ensures Decision(s1, r) == Decision(s2, r)
  {
    assert SomeApplies(s1, "Deny", r) == SomeApplies(s2, "Deny", r);
    assert SomeApplies(s1, "Allow", r) == SomeApplies(s2, "Allow", r);
  }

  method MatchesPrincipalSlice(items: seq<Json>, principal: string) returns (ok: bool)
    ensures ok <==> ListAdmits(items, principal)
  {
    for i := 0 to |items|
      invariant Text("*") !in items[..i] && Text(principal) !in items[..i]
    {
      assert items[..i + 1] == items[..i] + [items[i]];
      if items[i].Text? && (items[i].s == "*" || items[i].s == principal) {
        return true;
      }
    }
    assert items[..|items|] == items;
    ok := false;
  }

  method MatchesPrincipal(p: Json, principal: string) returns (ok: bool)
    ensures ok == Admits(p, principal)
    ensures ok <==>
            || p.Null? || p == Text("*") || p == Text(principal)
            || (p.List? && (Text("*") in p.items || Text(principal) in p.items))
            || (p.Fields? &&
                exists k ::
                  && k in p.fields
                  && (|| p.fields[k] == Text("*") || p.fields[k] == Text(principal)
                      || (p.fields[k].List? && Text("*") in p.fields[k].items)
                      || (p.fields[k].List? && Text(principal) in p.fields[k].items)))
  {
    match p
    case Null => return true;
    case Text(s) => return s == "*" || s == principal;
    case List(items) => ok := MatchesPrincipalSlice(items, principal);
    case Other => return false;
    case Fields(fields) =>
      var todo := fields.Keys;
      while todo != {}
        invariant todo <= fields.Keys
        invariant forall k :: k in fields && k !in todo ==>
                    fields[k] != Text("*") && fields[k] != Text(principal)
                    && !(fields[k].List? && ListAdmits(fields[k].items, principal))
        decreases todo
      {
        var k :| k in todo;
        match fields[k] {
          case Text(s) =>
            if s == "*" || s == principal {
              return true;
            }
          case List(items) =>
            var hit := MatchesPrincipalSlice(items, principal);
            if hit {
              return true;
            }
          case _ =>
        }
        todo := todo - {k};
      }
      return false;
  }

  method MatchesStringOrSlice(v: Json, target: string) returns (ok: bool)
    ensures ok == Covers(v, target)
    ensures ok <==>
            || (v.Text? && Matches(v.s, target))
            || (v.List? && exists item :: item in v.items && item.Text? && Matches(item.s, target))
  {
    match v
    case Text(s) => ok := GlobMatch(s, target);
    case List(items) =>
      for i := 0 to |items|
        invariant forall j :: 0 <= j < i ==> !(items[j].Text? && Matches(items[j].s, target))
      {
        if items[i].Text? {
          var hit := GlobMatch(items[i].s, target);
          if hit {
            return true;
          }
        }
      }
      return false;
    case _ => return false;
  }

  method EvalPolicy(statements: seq<Statement>, r: Request) returns (allow: bool, deny: bool)
    ensures (allow, deny) == Decision(statements, r)
    ensures deny <==> exists stmt :: stmt in statements && stmt.effect == "Deny"
                        && Admits(stmt.principal, r.principal)
                        && Covers(stmt.action, r.action) && Covers(stmt.resource, r.resource)
    ensures allow <==> !deny && exists stmt :: stmt in statements && stmt.effect == "Allow"
                                  && Admits(stmt.principal, r.principal)
                                  && Covers(stmt.action, r.action) && Covers(stmt.resource, r.resource)
  {
    allow := false;
    for i := 0 to |statements|
      invariant allow <==> SomeApplies(statements[..i], "Allow", r)
      invariant !SomeApplies(statements[..i], "Deny", r)
    {
      var stmt := statements[i];
      assert statements[..i + 1] == statements[..i] + [stmt];
      assert stmt in statements[..i + 1];
      var principal := MatchesPrincipal(stmt.principal, r.principal);
      if !principal {
        continue;
      }
      var action := MatchesStringOrSlice(stmt.action, r.action);
      if !action {
        continue;
      }
      var resource := MatchesStringOrSlice(stmt.resource, r.resource);
      if !resource {
        continue;
      }
      if stmt.effect == "Deny" {
        return false, true;
      }
      if stmt.effect == "Allow" {
        allow := true;
      }
    }
    assert statements[..|statements|] == statements;
    deny := false;
  }

  /**
   Root may do anything; without a policy every authenticated caller may; otherwise
   the policy must allow the call on the object's resource name and not deny it.
   */
  method IsAllowed(isRoot: bool, action: string, principal: string, bucket: string, key: string, doc: Document)
    returns (ok: bool)
    ensures var r := Request(principal, action, "arn:aws:s3:::" + bucket + if key == "" then "" else "/" + key);
      ok <==>
      || isRoot || doc.Absent?
      || (doc.Policy? && (exists stmt :: stmt in doc.statements && stmt.effect == "Allow" && Applies(stmt, r))
          && !exists stmt :: stmt in doc.statements && stmt.effect == "Deny" && Applies(stmt, r))
  {
    if isRoot {
      return true;
    }
    match doc
    case Malformed => return false;
    case Absent => return true;
    case Policy(statements) =>
      var resource := "arn:aws:s3:::" + bucket;
      if key != "" {
        resource := resource + "/" + key;
      }
      assert key != "" ==> resource == "arn:aws:s3:::" + bucket + ("/" + key);
      assert key == "" ==> resource == "arn:aws:s3:::" + bucket + "";
      var allow, deny := EvalPolicy(statements, Request(principal, action, resource));
      if deny {
        return false;
      }
      ok := allow;
  }
}
