/** The event-bus address a route forwards to (`computeServiceId` in
    SwaggerRouter.java): the HTTP method's name followed by the path template,
    where `-` and `/` become `_` and the braces around parameter names are
    dropped. */
module ServiceAddress {

  /** The operation methods of a Swagger contract, in the order of their
      declaration in the Swagger models. */
  datatype HttpMethod = POST | GET | PUT | PATCH | DELETE | HEAD | OPTIONS

  /** `httpMethod.name()`: the constant's name, in capitals. */
  function Name(m: HttpMethod): (s: string)
    ensures 3 <= |s| && forall k :: 0 <= k < |s| ==> 'A' <= s[k] <= 'Z'
  {
    match m
    case POST => "POST"
    case GET => "GET"
    case PUT => "PUT"
    case PATCH => "PATCH"
    case DELETE => "DELETE"
    case HEAD => "HEAD"
    case OPTIONS => "OPTIONS"
  }

  predicate IsBrace(c: char) {
    c == '{' || c == '}'
  }

  /** `s.replaceAll(from, to)` for a pattern that is one literal character. */
  function ReplaceChar(s: string, from: char, to: char): (r: string)
    ensures |r| == |s|
    ensures forall k :: 0 <= k < |s| ==> r[k] == if s[k] == from then to else s[k]
  {
    if s == [] then []
    else [if s[0] == from then to else s[0]] + ReplaceChar(s[1..], from, to)
  }

  /** The number of `{` and `}` in `s`. */
  function CountBraces(s: string): (n: nat)
    ensures n <= |s|
  {
    if s == [] then 0 else (if IsBrace(s[0]) then 1 else 0) + CountBraces(s[1..])
  }

  /** `s.replaceAll("[{}]", "")`. */
  function RemoveBraces(s: string): (r: string)
    ensures |r| == |s| - CountBraces(s)
    ensures forall k :: 0 <= k < |r| ==> !IsBrace(r[k])
    ensures CountBraces(s) == 0 ==> r == s
  {
    if s == [] then []
    else if IsBrace(s[0]) then RemoveBraces(s[1..])
    else [s[0]] + RemoveBraces(s[1..])
  }

  /** `computeServiceId`: the three `replaceAll` calls in the order the
      source applies them. */
  function ComputeServiceId(m: HttpMethod, path: string): string {
    Name(m) + RemoveBraces(ReplaceChar(ReplaceChar(path, '-', '_'), '/', '_'))
  }

  /** One character of the path as it appears in the address. */
  function AddressChar(c: char): char {
    if c == '-' || c == '/' then '_' else c
  }

  /** Reference reading of the address: one pass over the path that drops
      each brace and folds every other character with `AddressChar`. */
  function AddressOf(path: string): string {
    if path == [] then []
    else (if IsBrace(path[0]) then [] else [AddressChar(path[0])]) + AddressOf(path[1..])
  }

  /** The chained `replaceAll` calls are the one-pass reading. */
  lemma {:induction false} ServiceIdIsOnePass(m: HttpMethod, path: string)
    ensures ComputeServiceId(m, path) == Name(m) + AddressOf(path)
  {
    PathPartIsOnePass(path);
  }

  lemma {:induction false} PathPartIsOnePass(path: string)
    ensures RemoveBraces(ReplaceChar(ReplaceChar(path, '-', '_'), '/', '_')) == AddressOf(path)
  {
    if path != [] {
      var once := ReplaceChar(path, '-', '_');
      var twice := ReplaceChar(once, '/', '_');
      assert once[1..] == ReplaceChar(path[1..], '-', '_');
      assert twice[1..] == ReplaceChar(once[1..], '/', '_');
      PathPartIsOnePass(path[1..]);
    }
  }

  /** The address starts with the method name, holds no `-`, `/`, `{` or `}`,
      and is as long as the method name and the path without its braces. */
  lemma ServiceIdShape(m: HttpMethod, path: string)
    ensures var id := ComputeServiceId(m, path);
      && |id| == |Name(m)| + |path| - CountBraces(path)
      && id[..|Name(m)|] == Name(m)
      && forall k :: 0 <= k < |id| ==> id[k] != '-' && id[k] != '/' && !IsBrace(id[k])
  {
    var id := ComputeServiceId(m, path);
    var folded := ReplaceChar(ReplaceChar(path, '-', '_'), '/', '_');
    assert CountBraces(folded) == CountBraces(path) by { FoldKeepsBraces(path); }
    forall k | 0 <= k < |id|
      ensures id[k] != '-' && id[k] != '/' && !IsBrace(id[k])
    {
      if k >= |Name(m)| {
        NoFoldedCharSurvives(folded, path, k - |Name(m)|);
      }
    }
  }

  lemma {:induction false} FoldKeepsBraces(path: string)
    ensures CountBraces(ReplaceChar(ReplaceChar(path, '-', '_'), '/', '_')) == CountBraces(path)
  {
    if path != [] {
      var once := ReplaceChar(path, '-', '_');
      var twice := ReplaceChar(once, '/', '_');
      assert once[1..] == ReplaceChar(path[1..], '-', '_');
      assert twice[1..] == ReplaceChar(once[1..], '/', '_');
      FoldKeepsBraces(path[1..]);
    }
  }

  /** A character of `RemoveBraces(s)` is a character of `s`. */
  lemma {:induction false} RemoveBracesFrom(s: string, k: nat)
    requires k < |RemoveBraces(s)|
    ensures exists j :: 0 <= j < |s| && s[j] == RemoveBraces(s)[k]
  {
    if IsBrace(s[0]) {
      RemoveBracesFrom(s[1..], k);
      var j :| 0 <= j < |s[1..]| && s[1..][j] == RemoveBraces(s[1..])[k];
      assert s[j + 1] == RemoveBraces(s)[k];
    } else if k > 0 {
      RemoveBracesFrom(s[1..], k - 1);
      var j :| 0 <= j < |s[1..]| && s[1..][j] == RemoveBraces(s[1..])[k - 1];
      assert s[j + 1] == RemoveBraces(s)[k];
    } else {
      assert s[0] == RemoveBraces(s)[0];
    }
  }

  lemma NoFoldedCharSurvives(folded: string, path: string, k: nat)
    requires folded == ReplaceChar(ReplaceChar(path, '-', '_'), '/', '_')
    requires k < |RemoveBraces(folded)|
    ensures RemoveBraces(folded)[k] != '-' && RemoveBraces(folded)[k] != '/'
  {
    RemoveBracesFrom(folded, k);
  }

  /** For a path without `-`, `_` and braces the address loses nothing: turning
      every `_` after the method name back into `/` gives the path again. */
  lemma ServiceIdRecoversPlainPath(m: HttpMethod, path: string)
    requires forall k :: 0 <= k < |path| ==> path[k] != '-' && path[k] != '_' && !IsBrace(path[k])
    ensures ReplaceChar(ComputeServiceId(m, path)[|Name(m)|..], '_', '/') == path
  {
    var once := ReplaceChar(path, '-', '_');
    assert once == path;
    var twice := ReplaceChar(once, '/', '_');
    assert CountBraces(twice) == 0 by { FoldKeepsBraces(path); NoBracesCountZero(path); }
    assert ComputeServiceId(m, path)[|Name(m)|..] == twice;
  }

  lemma {:induction false} NoBracesCountZero(s: string)
    requires forall k :: 0 <= k < |s| ==> !IsBrace(s[k])
    ensures CountBraces(s) == 0
  {
    if s != [] {
      NoBracesCountZero(s[1..]);
    }
  }

  /** Hence two plain paths under one method never share an address. */
  lemma ServiceIdInjectiveOnPlainPaths(m: HttpMethod, p1: string, p2: string)
    requires forall k :: 0 <= k < |p1| ==> p1[k] != '-' && p1[k] != '_' && !IsBrace(p1[k])
    requires forall k :: 0 <= k < |p2| ==> p2[k] != '-' && p2[k] != '_' && !IsBrace(p2[k])
    requires ComputeServiceId(m, p1) == ComputeServiceId(m, p2)
    ensures p1 == p2
  {
    ServiceIdRecoversPlainPath(m, p1);
    ServiceIdRecoversPlainPath(m, p2);
  }

  /** The seven method names already differ in their first two letters. */
  lemma NamePrefixesDiffer(m1: HttpMethod, m2: HttpMethod)
    requires m1 != m2
    ensures Name(m1)[0] != Name(m2)[0] || Name(m1)[1] != Name(m2)[1]
  {
  }

  /** Two different methods never share an address, whatever the paths. */
  lemma ServiceIdSeparatesMethods(m1: HttpMethod, m2: HttpMethod, p1: string, p2: string)
    requires m1 != m2
    ensures ComputeServiceId(m1, p1) != ComputeServiceId(m2, p2)
  {
    ServiceIdIsOnePass(m1, p1);
    ServiceIdIsOnePass(m2, p2);
    var id1, id2 := ComputeServiceId(m1, p1), ComputeServiceId(m2, p2);
    NamePrefixesDiffer(m1, m2);
    assert id1[0] == Name(m1)[0] && id1[1] == Name(m1)[1];
    assert id2[0] == Name(m2)[0] && id2[1] == Name(m2)[1];
  }

  /** A path without braces keeps its length; each character is folded. */
  lemma {:induction false} AddressOfBraceFree(path: string)
    requires forall k :: 0 <= k < |path| ==> !IsBrace(path[k])
    ensures |AddressOf(path)| == |path|
    ensures forall k :: 0 <= k < |path| ==> AddressOf(path)[k] == AddressChar(path[k])
  {
    if path != [] {
      AddressOfBraceFree(path[1..]);
    }
  }

  /** The address is not injective: a `-`, a `/` and a literal `_` fold to the
      same character, and braces vanish. */
  lemma ServiceIdCollisions()
    ensures ComputeServiceId(GET, "/a-b") == "GET_a_b"
    ensures ComputeServiceId(GET, "/a/b") == "GET_a_b"
    ensures ComputeServiceId(GET, "/a_b") == "GET_a_b"
  {
    FoldedExample("/a-b");
    FoldedExample("/a/b");
    FoldedExample("/a_b");
  }

  lemma FoldedExample(path: string)
    requires path == "/a-b" || path == "/a/b" || path == "/a_b"
    ensures ComputeServiceId(GET, path) == "GET_a_b"
  {
    ServiceIdIsOnePass(GET, path);
    AddressOfBraceFree(path);
    assert AddressOf(path) == "_a_b";
  }

  /** Braces vanish, so a parameter and a literal segment of the same name
      share an address. */
  lemma ServiceIdIgnoresBraces()
    ensures ComputeServiceId(GET, "/{id}") == ComputeServiceId(GET, "/id") == "GET_id"
  {
    IdExample("/{id}");
    IdExample("/id");
  }

  lemma IdExample(path: string)
    requires path == "/{id}" || path == "/id"
    ensures ComputeServiceId(GET, path) == "GET_id"
  {
    ServiceIdIsOnePass(GET, path);
    if path == "/id" {
      AddressOfBraceFree(path);
      assert AddressOf(path) == "_id";
    } else {
      AddressOfCons('}', []);
      AddressOfCons('d', "}");
      AddressOfCons('i', "d}");
      AddressOfCons('{', "id}");
      AddressOfCons('/', "{id}");
    }
  }

  lemma AddressOfCons(c: char, rest: string)
    ensures AddressOf([c] + rest) == (if IsBrace(c) then [] else [AddressChar(c)]) + AddressOf(rest)
  {
    assert ([c] + rest)[1..] == rest;
  }
}
