/**
 * A minimal stand-in for the `glob` crate's `Pattern::matches_path` under
 * its default options: `?` matches any one character, `*` any sequence of
 * characters, `/` included, and every other character itself. Character
 * classes and `**` are not part of it.
 */
module Glob {

  /** `pattern` matches the whole of `path`. */
  predicate Matches(pattern: string, path: string)
    decreases |pattern| + |path|
  {
    if pattern == [] then path == []
    else if pattern[0] == '*' then
      Matches(pattern[1..], path) || (path != [] && Matches(pattern, path[1..]))
    else
      path != [] && (pattern[0] == '?' || pattern[0] == path[0]) && Matches(pattern[1..], path[1..])
  }

  /** `pattern` holds neither `*` nor `?`. */
  predicate IsLiteral(pattern: string) {
    forall k :: 0 <= k < |pattern| ==> pattern[k] != '*' && pattern[k] != '?'
  }

  /** `*` matches every path, separators included. */
  lemma {:induction false} StarMatchesEverything(path: string)
    ensures Matches("*", path)
  {
    if path != [] {
      StarMatchesEverything(path[1..]);
    } else {
      assert "*"[1..] == [];
    }
  }

  /** A pattern without wildcards matches exactly the path spelled the same. */
  lemma {:induction false} LiteralMatchesItself(pattern: string, path: string)
    requires IsLiteral(pattern)
    ensures Matches(pattern, path) <==> path == pattern
  {
    if pattern != [] && path != [] {
      LiteralMatchesItself(pattern[1..], path[1..]);
      if path == pattern {
        assert path[1..] == pattern[1..];
      }
      if Matches(pattern, path) {
        assert path == [path[0]] + path[1..];
        assert pattern == [pattern[0]] + pattern[1..];
      }
    }
  }

  /** A literal followed by `*` matches exactly the paths that start with the literal. */
  lemma {:induction false} LiteralThenStar(lit: string, path: string)
    requires IsLiteral(lit)
    ensures Matches(lit + "*", path) <==> |lit| <= |path| && path[..|lit|] == lit
  {
    var p := lit + "*";
    if lit == [] {
      assert p == "*";
      StarMatchesEverything(path);
    } else {
      assert p[1..] == lit[1..] + "*";
      assert IsLiteral(lit[1..]) by {
        forall k | 0 <= k < |lit[1..]| ensures lit[1..][k] != '*' && lit[1..][k] != '?' {
          assert lit[1..][k] == lit[k + 1];
        }
      }
      if path != [] {
        LiteralThenStar(lit[1..], path[1..]);
        if |lit| <= |path| && path[..|lit|] == lit {
          assert path[1..][..|lit| - 1] == path[..|lit|][1..];
        }
        if |lit| <= |path| && path[1..][..|lit| - 1] == lit[1..] && path[0] == lit[0] {
          assert path[..|lit|] == [path[0]] + path[1..][..|lit| - 1];
          assert lit == [lit[0]] + lit[1..];
        }
      }
    }
  }

  /** `*` followed by a literal matches exactly the paths that end with the literal. */
  lemma {:induction false} StarThenLiteral(lit: string, path: string)
    requires IsLiteral(lit)
    ensures Matches("*" + lit, path) <==> |lit| <= |path| && path[|path| - |lit|..] == lit
    decreases |path|
  {
    var p := "*" + lit;
    assert p[1..] == lit;
    LiteralMatchesItself(lit, path);
    if path != [] {
      StarThenLiteral(lit, path[1..]);
      if |lit| < |path| {
        assert path[1..][|path| - 1 - |lit|..] == path[|path| - |lit|..];
      }
      if path == lit {
        assert path[|path| - |lit|..] == path;
      }
    }
    if |lit| == |path| {
      assert path[|path| - |lit|..] == path;
    }
  }
}
