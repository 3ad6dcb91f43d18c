/**
 * The library's own examples: the sample CODEOWNERS text, the table it is
 * read into, and two lookups in it, with the minimal glob as the matcher.
 */
module Example {
  import opened Wrappers
  import opened Whitespace
  import opened CodeOwner
  import opened RuleTable
  import Glob

  /**
   * The sample text, line by line: thirteen lines, seven of them comments.
   * The comment lines are left as parameters: whatever they say, they start
   * with `#`.
   */
  function Sample(comments: seq<string>): seq<string>
    requires |comments| == 7
  {
    [comments[0], comments[1], "", comments[2],
     "*       @defunkt",
     "", comments[3], comments[4], comments[5],
     "*.js    @octocat @github/js",
     "", comments[6],
     "docs/*  docs@example.com"]
  }

  /** The table the sample is read into: the rule declared last comes first. */
  const SampleTable: seq<Rule> := [
    Rule("docs/*", [Email("docs@example.com")]),
    Rule("*.js", [Username("@octocat"), Team("@github/js")]),
    Rule("*", [Username("@defunkt")])
  ]

  lemma ParsesDefunkt()
    ensures Parse("@defunkt") == Ok(Username("@defunkt"))
  {
    ClassifyWord("@defunkt");
  }

  lemma ParsesOctocat()
    ensures Parse("@octocat") == Ok(Username("@octocat"))
  {
    ClassifyWord("@octocat");
  }

  lemma ParsesGithubJs()
    ensures Parse("@github/js") == Ok(Team("@github/js"))
  {
    ClassifyWord("@github/js");
    assert "@github/js"[7] == '/';
  }

  lemma ParsesDocsEmail()
    ensures Parse("docs@example.com") == Ok(Email("docs@example.com"))
  {
    ClassifyWord("docs@example.com");
    assert "docs@example.com"[4] == '@';
  }

  lemma RefusesBogus()
    ensures Parse("bogus") == Err(NotAnOwner())
  {
    ClassifyWord("bogus");
  }

  lemma RefusesLoneAt()
    ensures Parse("@") == Err(NotAnOwner())
  {
    ClassifyWord("@");
  }

  /** A trailing `/` is not a team: there is nothing after it. */
  lemma TrailingSlashIsUsername()
    ensures Parse("@org/") == Ok(Username("@org/"))
  {
    ClassifyWord("@org/");
  }

  /** A rule line whose owner words are separated by single spaces. */
  lemma JoinedRuleLineDeclares(line: string, pattern: string, gap: string, owners: seq<string>)
    requires line == pattern + gap + Join(owners)
    requires IsWord(pattern) && pattern[0] != '#'
    requires gap != [] && forall k :: 0 <= k < |gap| ==> IsWhitespace(gap[k])
    requires forall k :: 0 <= k < |owners| ==> IsWord(owners[k])
    ensures Declared([line]) == [Rule(pattern, ClassifiedOwners(owners))]
  {
    RuleLineDeclares(line, pattern, gap, Join(owners));
    TokensOfJoin(owners);
  }

  lemma DefunktLine()
    ensures Declared(["*       @defunkt"]) == [Rule("*", [Username("@defunkt")])]
  {
    JoinedRuleLineDeclares("*       @defunkt", "*", "       ", ["@defunkt"]);
    ClassifiedOwnersSingle("@defunkt");
    ParsesDefunkt();
  }

  lemma JsOwners()
    ensures ClassifiedOwners(["@octocat", "@github/js"]) == [Username("@octocat"), Team("@github/js")]
  {
    ClassifiedOwnersAppend(["@octocat"], ["@github/js"]);
    assert ["@octocat", "@github/js"] == ["@octocat"] + ["@github/js"];
    ClassifiedOwnersSingle("@octocat");
    ClassifiedOwnersSingle("@github/js");
    ParsesOctocat();
    ParsesGithubJs();
  }

  lemma JsLine()
    ensures Declared(["*.js    @octocat @github/js"]) == [Rule("*.js", [Username("@octocat"), Team("@github/js")])]
  {
    JoinedRuleLineDeclares("*.js    @octocat @github/js", "*.js", "    ", ["@octocat", "@github/js"]);
    JsOwners();
  }

  lemma DocsLine()
    ensures Declared(["docs/*  docs@example.com"]) == [Rule("docs/*", [Email("docs@example.com")])]
  {
    JoinedRuleLineDeclares("docs/*  docs@example.com", "docs/*", "  ", ["docs@example.com"]);
    ClassifiedOwnersSingle("docs@example.com");
    ParsesDocsEmail();
  }

  /**
   * Three comment blocks and three rule lines, interleaved, declare the
   * three rules in order.
   */
  lemma DeclaredInterleaved(a: seq<string>, b: seq<string>, c: seq<string>, d: seq<string>, e: seq<string>, f: seq<string>, r1: Rule, r2: Rule, r3: Rule)
    requires Declared(a) == [] && Declared(c) == [] && Declared(e) == []
    requires Declared(b) == [r1] && Declared(d) == [r2] && Declared(f) == [r3]
    ensures Declared(a + b + c + d + e + f) == [r1, r2, r3]
  {
    DeclaredAppend(a + b + c + d + e, f);
    DeclaredAppend(a + b + c + d, e);
    DeclaredAppend(a + b + c, d);
    DeclaredAppend(a + b, c);
    DeclaredAppend(a, b);
  }

  /** The sample's rule lines declare, in order, its three rules. */
  lemma SampleDeclared(comments: seq<string>)
    requires |comments| == 7
    requires forall k :: 0 <= k < 7 ==> comments[k] != [] && comments[k][0] == '#'
    ensures Declared(Sample(comments)) == [SampleTable[2], SampleTable[1], SampleTable[0]]
  {
    var a := [comments[0], comments[1], "", comments[2]];
    var b := ["*       @defunkt"];
    var c := ["", comments[3], comments[4], comments[5]];
    var d := ["*.js    @octocat @github/js"];
    var e := ["", comments[6]];
    var f := ["docs/*  docs@example.com"];
    assert Sample(comments) == a + b + c + d + e + f;
    DroppedLinesDeclareNothing(a);
    DroppedLinesDeclareNothing(c);
    DroppedLinesDeclareNothing(e);
    DefunktLine();
    JsLine();
    DocsLine();
    DeclaredInterleaved(a, b, c, d, e, f, SampleTable[2], SampleTable[1], SampleTable[0]);
  }

  /** The sample is read into its three rules, in reverse order of declaration. */
  lemma SampleParses(comments: seq<string>)
    requires |comments| == 7
    requires forall k :: 0 <= k < 7 ==> comments[k] != [] && comments[k][0] == '#'
    ensures Reversed(Declared(Sample(comments))) == SampleTable
  {
    SampleDeclared(comments);
    var decl := Declared(Sample(comments));
    ReversedAt(decl, 0);
    ReversedAt(decl, 1);
    ReversedAt(decl, 2);
  }

  /** A path only the catch-all `*` matches goes to `@defunkt`; `*` crosses `/`. */
  lemma SampleWildcard()
    ensures OwnersOf(Owners(SampleTable), "foo/bar.txt", Glob.Matches) == Some([Username("@defunkt")])
  {
    var path := "foo/bar.txt";
    assert "docs/*" == "docs/" + "*";
    Glob.LiteralThenStar("docs/", path);
    assert path[..5] != "docs/" by { assert path[..5][0] == 'f'; }
    assert "*.js" == "*" + ".js";
    Glob.StarThenLiteral(".js", path);
    assert path[8..] == "txt";
    Glob.StarMatchesEverything(path);
    assert FirstMatchAt(SampleTable, path, Glob.Matches, 2);
  }

  lemma DocsPatternMatchesDocsFile()
    ensures Glob.Matches("docs/*", "docs/foo.js")
  {
    assert "docs/*" == "docs/" + "*";
    Glob.LiteralThenStar("docs/", "docs/foo.js");
    assert "docs/foo.js"[..5] == "docs/";
  }

  lemma JsPatternMatchesDocsFile()
    ensures Glob.Matches("*.js", "docs/foo.js")
  {
    assert "*.js" == "*" + ".js";
    Glob.StarThenLiteral(".js", "docs/foo.js");
    assert "docs/foo.js"[8..] == ".js";
  }

  /**
   * `docs/foo.js` is matched by all three rules; the rule for the `docs`
   * directory, declared last, wins over `*.js` and `*`.
   */
  lemma SampleLastMatchWins()
    ensures Glob.Matches("*.js", "docs/foo.js") && Glob.Matches("*", "docs/foo.js")
    ensures OwnersOf(Owners(SampleTable), "docs/foo.js", Glob.Matches) == Some([Email("docs@example.com")])
  {
    JsPatternMatchesDocsFile();
    Glob.StarMatchesEverything("docs/foo.js");
    DocsPatternMatchesDocsFile();
    assert FirstMatchAt(SampleTable, "docs/foo.js", Glob.Matches, 0);
  }

  /** Without the catch-all, `foo/bar.txt` is unowned: `None`, not an empty list. */
  lemma UnmatchedPathIsUnowned()
    ensures OwnersOf(Owners(SampleTable[..2]), "foo/bar.txt", Glob.Matches) == None
  {
    var path := "foo/bar.txt";
    assert "docs/*" == "docs/" + "*";
    Glob.LiteralThenStar("docs/", path);
    assert path[..5] != "docs/" by { assert path[..5][0] == 'f'; }
    assert "*.js" == "*" + ".js";
    Glob.StarThenLiteral(".js", path);
    assert path[8..] == "txt";
  }

  /** A rule line without owners still owns what it matches, with no owners: `Some([])`. */
  lemma OwnerlessRuleStillMatches(path: string)
    ensures OwnersOf(Owners(Reversed(Declared(["*"]))), path, Glob.Matches) == Some([])
  {
    PatternOnlyLineDeclares("*");
    Glob.StarMatchesEverything(path);
    assert Reversed([Rule("*", [])]) == [Rule("*", [])];
    assert FirstMatchAt([Rule("*", [])], path, Glob.Matches, 0);
  }

  /** Read from the sample text, the table gives `foo/bar.txt` to `@defunkt`. */
  lemma SampleTextWildcard(comments: seq<string>)
    requires |comments| == 7
    requires forall k :: 0 <= k < 7 ==> comments[k] != [] && comments[k][0] == '#'
    ensures OwnersOf(Owners(Reversed(Declared(Sample(comments)))), "foo/bar.txt", Glob.Matches) == Some([Username("@defunkt")])
  {
    SampleParses(comments);
    SampleWildcard();
  }

  /** Read from the sample text, the table gives `docs/foo.js` to the `docs` rule's email. */
  lemma SampleTextLastMatchWins(comments: seq<string>)
    requires |comments| == 7
    requires forall k :: 0 <= k < 7 ==> comments[k] != [] && comments[k][0] == '#'
    ensures OwnersOf(Owners(Reversed(Declared(Sample(comments)))), "docs/foo.js", Glob.Matches) == Some([Email("docs@example.com")])
  {
    SampleParses(comments);
    SampleLastMatchWins();
  }
}
