/**
 * The rule table (`Owners`): building it from the lines of a CODEOWNERS text
 * (`Owners::from_reader`) and resolving a path against it (`Owners::owners`).
 *
 * Glob matching belongs to the `glob` crate; resolution takes it as the
 * parameter `matches(pattern, path)`, and a rule keeps its pattern as the
 * token it was written as.
 */
module RuleTable {
  import opened Wrappers
  import opened Whitespace
  import opened CodeOwner

  /** One `(Pattern, Vec<Owner>)` entry of the table. */
  datatype Rule = Rule(pattern: string, owners: seq<Owner>)

  /** `Owners`: the rules, the one declared last in the text first. */
  datatype Owners = Owners(paths: seq<Rule>)

  /** The line filter: neither empty nor starting with `#`. */
  predicate Kept(line: string) {
    line != [] && line[0] != '#'
  }

  /** A line that yields a rule: kept by the filter and holding a token. */
  predicate IsRuleLine(line: string) {
    Kept(line) && Tokens(line) != []
  }

  /**
   * The owner tokens that classify, classified, in their order; the ones
   * `Parse` refuses are dropped.
   */
  function ClassifiedOwners(ts: seq<string>): (r: seq<Owner>)
    ensures |r| <= |ts|
    ensures forall k :: 0 <= k < |r| ==> r[k].text in ts && Parse(r[k].text) == Ok(r[k])
  {
    if ts == [] then []
    else
      var rest := ClassifiedOwners(ts[1..]);
      match Parse(ts[0])
      case Ok(o) => [o] + rest
      case Err(_) => rest
  }

  /** The rule a rule line declares: its first token and its classified owners. */
  function RuleOf(line: string): Rule
    requires IsRuleLine(line)
  {
    var ts := Tokens(line);
    Rule(ts[0], ClassifiedOwners(ts[1..]))
  }

  /** The rules of `lines` in declaration order, one per rule line. */
  function Declared(lines: seq<string>): (r: seq<Rule>)
    ensures |r| <= |lines|
  {
    if lines == [] then []
    else (if IsRuleLine(lines[0]) then [RuleOf(lines[0])] else []) + Declared(lines[1..])
  }

  /** `s` back to front. */
  function Reversed<T>(s: seq<T>): (r: seq<T>)
    ensures |r| == |s|
  {
    if s == [] then [] else Reversed(s[1..]) + [s[0]]
  }

  /** Index `k` of the reversal is index `|s| - 1 - k` of the original. */
  lemma {:induction false} ReversedAt<T>(s: seq<T>, k: nat)
    requires k < |s|
    ensures Reversed(s)[k] == s[|s| - 1 - k]
  {
    if k < |s| - 1 {
      ReversedAt(s[1..], k);
    }
  }

  /** Classifying a concatenation classifies each part in turn. */
  lemma {:induction false} ClassifiedOwnersAppend(a: seq<string>, b: seq<string>)
    ensures ClassifiedOwners(a + b) == ClassifiedOwners(a) + ClassifiedOwners(b)
  {
    if a != [] {
      assert (a + b)[1..] == a[1..] + b;
      ClassifiedOwnersAppend(a[1..], b);
    } else {
      assert a + b == b;
    }
  }

  /** No classifiable token is lost: each appears, classified, in the owner list. */
  lemma {:induction false} ClassifiedOwnersComplete(ts: seq<string>, k: nat)
    requires k < |ts| && Parse(ts[k]).Ok?
    ensures Parse(ts[k]).value in ClassifiedOwners(ts)
  {
    if k > 0 {
      ClassifiedOwnersComplete(ts[1..], k - 1);
    }
  }

  /** Reading lines one after another appends their rules in order. */
  lemma {:induction false} DeclaredAppend(a: seq<string>, b: seq<string>)
    ensures Declared(a + b) == Declared(a) + Declared(b)
  {
    if a != [] {
      assert (a + b)[1..] == a[1..] + b;
      DeclaredAppend(a[1..], b);
    } else {
      assert a + b == b;
    }
  }

  /** Every rule line contributes its rule. */
  lemma {:induction false} DeclaredComplete(lines: seq<string>, j: nat)
    requires j < |lines| && IsRuleLine(lines[j])
    ensures RuleOf(lines[j]) in Declared(lines)
  {
    if j > 0 {
      DeclaredComplete(lines[1..], j - 1);
    }
  }

  /** Every rule comes from a rule line. */
  lemma {:induction false} DeclaredSound(lines: seq<string>, r: Rule)
    requires r in Declared(lines)
    ensures exists j :: 0 <= j < |lines| && IsRuleLine(lines[j]) && r == RuleOf(lines[j])
  {
    if !(IsRuleLine(lines[0]) && r == RuleOf(lines[0])) {
      DeclaredSound(lines[1..], r);
      var j :| 0 <= j < |lines[1..]| && IsRuleLine(lines[1..][j]) && r == RuleOf(lines[1..][j]);
      assert lines[1..][j] == lines[j + 1];
    }
  }

  /** Lines the filter drops (empty lines and `#` comments) declare nothing. */
  lemma {:induction false} DroppedLinesDeclareNothing(lines: seq<string>)
    requires forall k :: 0 <= k < |lines| ==> !Kept(lines[k])
    ensures Declared(lines) == []
  {
    if lines != [] {
      DroppedLinesDeclareNothing(lines[1..]);
    }
  }

  /** A line the filter drops declares nothing. */
  lemma DroppedLineDeclaresNothing(line: string)
    requires !Kept(line)
    ensures Declared([line]) == []
  {
    assert [line][1..] == [];
  }

  /** A single token yields its owner when it classifies, and nothing otherwise. */
  lemma ClassifiedOwnersSingle(t: string)
    ensures ClassifiedOwners([t]) == if Parse(t).Ok? then [Parse(t).value] else []
  {
    assert [t][1..] == [];
  }

  /**
   * A line written as a pattern, whitespace, and anything after it declares
   * the rule of that pattern, owned by what the words after it classify as.
   */
  lemma RuleLineDeclares(line: string, pattern: string, gap: string, rest: string)
    requires line == pattern + gap + rest
    requires IsWord(pattern) && pattern[0] != '#'
    requires gap != [] && forall k :: 0 <= k < |gap| ==> IsWhitespace(gap[k])
    ensures Declared([line]) == [Rule(pattern, ClassifiedOwners(Tokens(rest)))]
  {
    TokensOfWordThen(pattern, gap, rest);
    assert Tokens(line)[1..] == Tokens(rest);
    assert [line][1..] == [];
  }

  /**
   * Only a `#` in the first column makes a comment: after leading
   * whitespace, a `#` word passes the filter and becomes a pattern.
   */
  lemma IndentedHashDeclaresRule(gap: string, word: string)
    requires gap != [] && forall k :: 0 <= k < |gap| ==> IsWhitespace(gap[k])
    requires IsWord(word) && word[0] == '#'
    ensures Kept(gap + word)
    ensures Declared([gap + word]) == [Rule(word, [])]
  {
    TokensSkipWhitespace(gap, word);
    TokensOfJoin([word]);
    assert Tokens(gap + word)[1..] == [];
    assert [gap + word][1..] == [];
  }

  /** A line holding a pattern and nothing else declares a rule with no owners. */
  lemma PatternOnlyLineDeclares(line: string)
    requires IsWord(line) && line[0] != '#'
    ensures Declared([line]) == [Rule(line, [])]
  {
    TokensOfJoin([line]);
    assert Tokens(line)[1..] == [];
    assert [line][1..] == [];
  }

  /**
   * A line of whitespace only passes the filter yet declares nothing; an
   * empty line or a `#` comment does not pass it.
   */
  lemma BlankLineDeclaresNothing(line: string)
    requires line != [] && forall k :: 0 <= k < |line| ==> IsWhitespace(line[k])
    ensures Kept(line)
    ensures Declared([line]) == []
  {
    TokensEmptyIff(line);
  }

  /** `Owners::from_reader`, over the lines of the text. */
  method FromLines(lines: seq<string>, compiles: string -> bool) returns (table: Owners)
    requires forall k :: 0 <= k < |lines| && IsRuleLine(lines[k]) ==> compiles(Tokens(lines[k])[0])
    ensures table.paths == Reversed(Declared(lines))
  {
    var paths: seq<Rule> := [];
    for i := 0 to |lines|
      invariant paths == Declared(lines[..i])
    {
      var line := lines[i];
      if line != [] && line[0] != '#' {
        var elements := Tokens(line);
        if elements != [] {
          var path := elements[0];
          var owners: seq<Owner> := [];
          for j := 1 to |elements|
            invariant owners == ClassifiedOwners(elements[1..j])
          {
            var parsed := Parse(elements[j]);
            if parsed.Ok? {
              owners := owners + [parsed.value];
            }
            ClassifiedOwnersAppend(elements[1..j], [elements[j]]);
            assert elements[1..j + 1] == elements[1..j] + [elements[j]];
          }
          assert elements[1..|elements|] == elements[1..];
          assert Rule(path, owners) == RuleOf(line);
          paths := paths + [Rule(path, owners)];
        }
      }
      assert [line][1..] == [];
      assert Declared([line]) == if IsRuleLine(line) then [RuleOf(line)] else [];
      DeclaredAppend(lines[..i], [line]);
      assert lines[..i + 1] == lines[..i] + [line];
    }
    assert lines[..|lines|] == lines;
    // the rule declared last is tried first
    paths := Reversed(paths);
    table := Owners(paths);
  }

  /** Rule `i` matches `path` and no rule before it does. */
  predicate FirstMatchAt(paths: seq<Rule>, path: string, matches: (string, string) -> bool, i: int) {
    0 <= i < |paths| && matches(paths[i].pattern, path) &&
    forall j :: 0 <= j < i ==> !matches(paths[j].pattern, path)
  }

  /**
   * `Owners::owners`: the owners of the first rule whose pattern matches
   * `path`, or `None` when none does. A matching rule without owners gives
   * `Some([])`.
   */
  function OwnersOf(table: Owners, path: string, matches: (string, string) -> bool): (r: Option<seq<Owner>>)
    ensures r.None? <==> forall i :: 0 <= i < |table.paths| ==> !matches(table.paths[i].pattern, path)
    ensures forall i :: FirstMatchAt(table.paths, path, matches, i) ==> r == Some(table.paths[i].owners)
    decreases |table.paths|
  {
    if table.paths == [] then None
    else if matches(table.paths[0].pattern, path) then Some(table.paths[0].owners)
    else
      var r := OwnersOf(Owners(table.paths[1..]), path, matches);
      assert forall i :: FirstMatchAt(table.paths, path, matches, i) ==> FirstMatchAt(table.paths[1..], path, matches, i - 1);
      r
  }

  /**
   * Last match wins: over rules in declaration order, the stored (reversed)
   * table answers with the rule declared last among those that match, and
   * with `None` exactly when none matches.
   */
  lemma {:induction false} LastMatchWins(decl: seq<Rule>, path: string, matches: (string, string) -> bool, k: nat)
    requires k < |decl| && matches(decl[k].pattern, path)
    requires forall j :: k < j < |decl| ==> !matches(decl[j].pattern, path)
    ensures OwnersOf(Owners(Reversed(decl)), path, matches) == Some(decl[k].owners)
  {
    var rev, m := Reversed(decl), |decl| - 1 - k;
    ReversedAt(decl, m);
    forall i | 0 <= i < m ensures !matches(rev[i].pattern, path) {
      ReversedAt(decl, i);
    }
    assert FirstMatchAt(rev, path, matches, m);
  }

  /** The stored table matches nothing exactly when no declared rule matches. */
  lemma {:induction false} UnownedIff(decl: seq<Rule>, path: string, matches: (string, string) -> bool)
    ensures OwnersOf(Owners(Reversed(decl)), path, matches).None? <==>
      forall j :: 0 <= j < |decl| ==> !matches(decl[j].pattern, path)
  {
    var rev := Reversed(decl);
    forall i | 0 <= i < |decl| ensures rev[i] == decl[|decl| - 1 - i] {
      ReversedAt(decl, i);
    }
    forall j | 0 <= j < |decl| ensures decl[j] == rev[|decl| - 1 - j] {
      ReversedAt(decl, |decl| - 1 - j);
    }
  }
}
