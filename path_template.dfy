/** Translation of a Swagger path template into a Vert.x route path
    (`convertParametersToVertx` in SwaggerRouter.java): one `replaceAll` of the
    Java regular expression `\{(.*)\}` with `:$1`. The `.*` is greedy, so a
    match runs from a `{` to the LAST `}` that `.` can reach, and `.` stops at
    line terminators. */
module PathTemplate {
  import opened Wrappers

  /** The characters `.` does not match in a Java pattern compiled without
      flags. */
  predicate IsLineTerminator(c: char) {
    c == '\n' || c == '\r' || c == '\U{0085}' || c == '\U{2028}' || c == '\U{2029}'
  }

  predicate NoLineTerminators(s: string) {
    forall k :: 0 <= k < |s| ==> !IsLineTerminator(s[k])
  }

  /** How many leading characters of `s` the pattern `.*` can consume. */
  function DotRun(s: string): (n: nat)
    ensures n <= |s|
    ensures forall k :: 0 <= k < n ==> !IsLineTerminator(s[k])
    ensures n < |s| ==> IsLineTerminator(s[n])
  {
    if s == [] || IsLineTerminator(s[0]) then 0 else 1 + DotRun(s[1..])
  }

  function FirstIndexOf(s: string, c: char): (r: Option<nat>)
    ensures r.Some? ==> r.value < |s| && s[r.value] == c
    ensures r.Some? ==> forall k :: 0 <= k < r.value ==> s[k] != c
    ensures r.None? ==> forall k :: 0 <= k < |s| ==> s[k] != c
  {
    if s == [] then None
    else if s[0] == c then Some(0)
    else match FirstIndexOf(s[1..], c)
      case Some(i) => Some(i + 1)
      case None => None
  }

  function LastIndexOf(s: string, c: char): (r: Option<nat>)
    ensures r.Some? ==> r.value < |s| && s[r.value] == c
    ensures r.Some? ==> forall k :: r.value < k < |s| ==> s[k] != c
    ensures r.None? ==> forall k :: 0 <= k < |s| ==> s[k] != c
  {
    if s == [] then None
    else if s[|s| - 1] == c then Some(|s| - 1)
    else LastIndexOf(s[..|s| - 1], c)
  }

  /** Where the match of `\{(.*)\}` that starts with the `{` at `s[0]` ends:
      the greedy `.*` takes every character up to the first line terminator,
      then gives them back until a `}` follows. */
  function MatchEnd(s: string): (r: Option<nat>)
    requires |s| > 0
    ensures r.Some? ==> 0 < r.value <= DotRun(s[1..]) && s[r.value] == '}'
    ensures r.Some? ==> forall k :: r.value < k <= DotRun(s[1..]) ==> s[k] != '}'
    ensures r.None? ==> forall k :: 0 < k <= DotRun(s[1..]) ==> s[k] != '}'
  {
    var reach := s[1..1 + DotRun(s[1..])];
    assert forall k :: 0 < k <= |reach| ==> s[k] == reach[k - 1];
    match LastIndexOf(reach, '}')
    case Some(j) => Some(j + 1)
    case None => None
  }

  /** `PATH_PARAMETERS.matcher(path).replaceAll(":$1")`: scanning left to
      right, each match is replaced by `:` and its group, and the scan goes on
      after the match. */
  function ConvertParametersToVertx(path: string): (r: string)
    ensures |r| <= |path|
    decreases |path|
  {
    if path == [] then []
    else if path[0] == '{' && MatchEnd(path).Some? then
      var j := MatchEnd(path).value;
      ":" + path[1..j] + ConvertParametersToVertx(path[j + 1..])
    else [path[0]] + ConvertParametersToVertx(path[1..])
  }

  /** Reference reading for a path on one line: the first `{` becomes `:` and
      the last `}` is dropped, provided that `}` comes after that `{`. */
  function GreedyRewrite(path: string): string {
    var first := FirstIndexOf(path, '{');
    var last := LastIndexOf(path, '}');
    if first.Some? && last.Some? && first.value < last.value then RewriteAt(path, first.value, last.value)
    else path
  }

  /** `path` with its `{` at `i` turned into `:` and its `}` at `j` dropped. */
  function RewriteAt(path: string, i: nat, j: nat): string
    requires i < j < |path|
  {
    path[..i] + ":" + path[i + 1..j] + path[j + 1..]
  }

  /** A path in which no `{` is followed by a `}` comes back unchanged. */
  lemma {:induction false} ConvertWithoutMatch(path: string)
    requires forall i, j :: 0 <= i < j < |path| && path[i] == '{' ==> path[j] != '}'
    ensures ConvertParametersToVertx(path) == path
  {
    if path != [] {
      if path[0] == '{' {
        assert MatchEnd(path).None?;
      }
      ConvertWithoutMatch(path[1..]);
    }
  }

  /** On a path without line terminators there is at most one match, from the
      first `{` to the last `}`. */
  lemma {:induction false} ConvertIsGreedyRewrite(path: string)
    requires NoLineTerminators(path)
    ensures ConvertParametersToVertx(path) == GreedyRewrite(path)
  {
    if path == [] {
    } else if path[0] == '{' {
      ConvertAtBrace(path);
    } else {
      ConvertIsGreedyRewrite(path[1..]);
      GreedyRewriteCons(path);
    }
  }

  /** On one line, the match of a leading `{` ends at the last `}` of the
      path, if that is not the `{` itself. */
  lemma MatchEndOneLine(s: string)
    requires |s| > 0 && NoLineTerminators(s)
    ensures MatchEnd(s).Some? ==> LastIndexOf(s, '}') == MatchEnd(s)
    ensures MatchEnd(s).None? ==> forall k :: 0 < k < |s| ==> s[k] != '}'
  {
    DotRunAll(s[1..]);
    if MatchEnd(s).Some? {
      LastIndexOfIs(s, '}', MatchEnd(s).value);
    }
  }

  lemma {:induction false} DotRunAll(s: string)
    requires NoLineTerminators(s)
    ensures DotRun(s) == |s|
  {
    if s != [] {
      DotRunAll(s[1..]);
    }
  }

  lemma ConvertAtBrace(path: string)
    requires |path| > 0 && path[0] == '{' && NoLineTerminators(path)
    ensures ConvertParametersToVertx(path) == GreedyRewrite(path)
  {
    MatchEndOneLine(path);
    FirstIndexOfIs(path, '{', 0);
    if MatchEnd(path).None? {
      UnmatchedBrace(path);
    } else {
      MatchedBrace(path, MatchEnd(path).value);
    }
  }

  lemma UnmatchedBrace(path: string)
    requires |path| > 0 && path[0] == '{' && FirstIndexOf(path, '{') == Some(0)
    requires forall k :: 0 < k < |path| ==> path[k] != '}'
    ensures ConvertParametersToVertx(path) == path == GreedyRewrite(path)
  {
    ConvertWithoutMatch(path);
    LastIndexOfNone(path, '}');
  }

  lemma MatchedBrace(path: string, j: nat)
    requires |path| > 0 && path[0] == '{' && FirstIndexOf(path, '{') == Some(0)
    requires MatchEnd(path) == Some(j) && LastIndexOf(path, '}') == Some(j)
    ensures ConvertParametersToVertx(path) == GreedyRewrite(path)
  {
    var rest := path[j + 1..];
    assert forall k :: 0 <= k < |rest| ==> rest[k] != '}' by {
      forall k | 0 <= k < |rest| ensures rest[k] != '}' {
        assert rest[k] == path[j + 1 + k];
      }
    }
    ConvertWithoutMatch(rest);
    ConvertMatched(path, j);
    GreedyRewriteLeadingBrace(path, j);
  }

  lemma ConvertMatched(path: string, j: nat)
    requires |path| > 0 && path[0] == '{' && MatchEnd(path) == Some(j)
    requires ConvertParametersToVertx(path[j + 1..]) == path[j + 1..]
    ensures ConvertParametersToVertx(path) == ":" + path[1..j] + path[j + 1..]
  {
  }

  lemma GreedyRewriteLeadingBrace(path: string, j: nat)
    requires |path| > 0 && FirstIndexOf(path, '{') == Some(0)
    requires LastIndexOf(path, '}') == Some(j) && 0 < j
    ensures GreedyRewrite(path) == ":" + path[1..j] + path[j + 1..]
  {
    assert path[..0] == [];
  }

  lemma FirstIndexOfCons(s: string, c: char)
    requires |s| > 0 && s[0] != c
    ensures FirstIndexOf(s, c).None? <==> FirstIndexOf(s[1..], c).None?
    ensures FirstIndexOf(s, c).Some? ==> FirstIndexOf(s, c).value == FirstIndexOf(s[1..], c).value + 1
  {
  }

  lemma LastIndexOfCons(s: string, c: char)
    requires |s| > 0
    ensures LastIndexOf(s[1..], c).Some? ==> LastIndexOf(s, c) == Some(LastIndexOf(s[1..], c).value + 1)
    ensures LastIndexOf(s[1..], c).None? ==> LastIndexOf(s, c).None? || LastIndexOf(s, c) == Some(0)
  {
    var tail := s[1..];
    match LastIndexOf(tail, c)
    case Some(j) =>
      assert forall k :: j + 1 < k < |s| ==> s[k] == tail[k - 1];
      LastIndexOfIs(s, c, j + 1);
    case None =>
      assert forall k :: 0 < k < |s| ==> s[k] == tail[k - 1];
      if s[0] == c {
        LastIndexOfIs(s, c, 0);
      } else {
        LastIndexOfNone(s, c);
      }
  }

  lemma {:induction false} LastIndexOfNone(s: string, c: char)
    requires forall k :: 0 <= k < |s| ==> s[k] != c
    ensures LastIndexOf(s, c).None?
  {
    if s != [] {
      LastIndexOfNone(s[..|s| - 1], c);
    }
  }

  /** A leading character other than `{` passes through `GreedyRewrite`. */
  lemma GreedyRewriteCons(path: string)
    requires |path| > 0 && path[0] != '{'
    ensures GreedyRewrite(path) == [path[0]] + GreedyRewrite(path[1..])
  {
    var tail := path[1..];
    FirstIndexOfCons(path, '{');
    LastIndexOfCons(path, '}');
    var first, last := FirstIndexOf(tail, '{'), LastIndexOf(tail, '}');
    if first.Some? && last.Some? && first.value < last.value {
      GreedyRewriteConsMatched(path, first.value, last.value);
    } else {
      GreedyRewriteConsUnmatched(path);
    }
  }

  lemma GreedyRewriteConsMatched(path: string, i: nat, j: nat)
    requires |path| > 0 && i < j
    requires FirstIndexOf(path[1..], '{') == Some(i) && LastIndexOf(path[1..], '}') == Some(j)
    requires FirstIndexOf(path, '{').Some? && FirstIndexOf(path, '{').value == i + 1
    requires LastIndexOf(path, '}').Some? && LastIndexOf(path, '}').value == j + 1
    ensures GreedyRewrite(path) == [path[0]] + GreedyRewrite(path[1..])
  {
    GreedyRewriteIs(path, i + 1, j + 1);
    GreedyRewriteIs(path[1..], i, j);
    RewriteShift(path, i, j);
  }

  lemma GreedyRewriteIs(path: string, i: nat, j: nat)
    requires i < j
    requires FirstIndexOf(path, '{').Some? && FirstIndexOf(path, '{').value == i
    requires LastIndexOf(path, '}').Some? && LastIndexOf(path, '}').value == j
    ensures GreedyRewrite(path) == RewriteAt(path, i, j)
  {
  }

  lemma GreedyRewriteConsUnmatched(path: string)
    requires |path| > 0 && path[0] != '{'
    requires FirstIndexOf(path, '{').None? <==> FirstIndexOf(path[1..], '{').None?
    requires FirstIndexOf(path, '{').Some? ==> FirstIndexOf(path, '{').value == FirstIndexOf(path[1..], '{').value + 1
    requires LastIndexOf(path[1..], '}').Some? ==> LastIndexOf(path, '}') == Some(LastIndexOf(path[1..], '}').value + 1)
    requires LastIndexOf(path[1..], '}').None? ==> LastIndexOf(path, '}').None? || LastIndexOf(path, '}') == Some(0)
    requires var first, last := FirstIndexOf(path[1..], '{'), LastIndexOf(path[1..], '}');
      !(first.Some? && last.Some? && first.value < last.value)
    ensures GreedyRewrite(path) == [path[0]] + GreedyRewrite(path[1..])
  {
    var first', last' := FirstIndexOf(path, '{'), LastIndexOf(path, '}');
    assert !(first'.Some? && last'.Some? && first'.value < last'.value);
    assert path == [path[0]] + path[1..];
  }

  /** Rewriting around positions `i < j` commutes with putting a character in
      front. */
  lemma RewriteShift(path: string, i: nat, j: nat)
    requires i < j < |path| - 1
    ensures RewriteAt(path, i + 1, j + 1) == [path[0]] + RewriteAt(path[1..], i, j)
  {
    var tail := path[1..];
    assert path[..i + 1] == [path[0]] + tail[..i];
    assert path[i + 2..j + 1] == tail[i + 1..j];
    assert path[j + 2..] == tail[j + 1..];
  }

  lemma {:induction false} LastIndexOfIs(s: string, c: char, j: nat)
    requires j < |s| && s[j] == c
    requires forall k :: j < k < |s| ==> s[k] != c
    ensures LastIndexOf(s, c) == Some(j)
  {
    if j < |s| - 1 {
      LastIndexOfIs(s[..|s| - 1], c, j);
    }
  }

  lemma {:induction false} FirstIndexOfIs(s: string, c: char, i: nat)
    requires i < |s| && s[i] == c
    requires forall k :: 0 <= k < i ==> s[k] != c
    ensures FirstIndexOf(s, c) == Some(i)
  {
    if i > 0 {
      FirstIndexOfIs(s[1..], c, i - 1);
    }
  }

  /** The translation never lengthens a path, and on one line it removes a
      character exactly when some `{` has a `}` after it. */
  lemma ConvertLength(path: string)
    requires NoLineTerminators(path)
    ensures |ConvertParametersToVertx(path)| ==
      if exists i, j :: 0 <= i < j < |path| && path[i] == '{' && path[j] == '}' then |path| - 1 else |path|
  {
    ConvertIsGreedyRewrite(path);
    if exists i, j :: 0 <= i < j < |path| && path[i] == '{' && path[j] == '}' {
      var i, j :| 0 <= i < j < |path| && path[i] == '{' && path[j] == '}';
      var fi := FirstIndexOf(path, '{').value;
      var lj := LastIndexOf(path, '}').value;
      assert fi <= i < j <= lj;
    } else {
      ConvertWithoutMatch(path);
    }
  }

  /** The usual one-parameter template becomes a Vert.x parameter. */
  lemma ConvertOneParameter()
    ensures ConvertParametersToVertx("/pets/{petId}") == "/pets/:petId"
  {
    OneParameterExample("/pets/{petId}");
  }

  lemma OneParameterExample(path: string)
    requires path == "/pets/{petId}"
    ensures ConvertParametersToVertx(path) == "/pets/:petId"
  {
    ConvertIsGreedyRewrite(path);
    FirstIndexOfIs(path, '{', 6);
    LastIndexOfIs(path, '}', 12);
    GreedyRewriteIs(path, 6, 12);
    assert RewriteAt(path, 6, 12) == "/pets/:petId" by {
      assert path[..6] == "/pets/" && path[7..12] == "petId" && path[13..] == [];
    }
  }

  /** With two parameters only the first `{` and the last `}` are rewritten,
      so the second parameter is not translated. */
  lemma ConvertTwoParameters()
    ensures ConvertParametersToVertx("/a/{x}/b/{y}") == "/a/:x}/b/{y"
    ensures ConvertParametersToVertx("/a/{x}/b/{y}") != "/a/:x/b/:y"
  {
    TwoParameterExample("/a/{x}/b/{y}");
  }

  lemma TwoParameterExample(path: string)
    requires path == "/a/{x}/b/{y}"
    ensures ConvertParametersToVertx(path) == "/a/:x}/b/{y"
  {
    ConvertIsGreedyRewrite(path);
    FirstIndexOfIs(path, '{', 3);
    LastIndexOfIs(path, '}', 11);
    GreedyRewriteIs(path, 3, 11);
    assert RewriteAt(path, 3, 11) == "/a/:x}/b/{y" by {
      assert path[..3] == "/a/" && path[4..11] == "x}/b/{y" && path[12..] == [];
    }
  }
}
