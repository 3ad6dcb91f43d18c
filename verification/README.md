# codeowners — ownership resolution, modelled in Dafny

This project models the core of the `codeowners` Rust library
(`src/lib.rs`): it reads a CODEOWNERS file into a table of
`(pattern, owners)` entries, and given a path it answers which owners are
responsible for it.

- **Owner classification** (`CodeOwner`). `Owner::from_str` tries three
  anchored regular expressions in order: TEAM `^@\S+/\S+`, USERNAME
  `^@\S+`, EMAIL `^\S+@\S+`. The first that matches decides, and the owner
  keeps the whole input text. Otherwise the result is the error
  `"not an owner"`. Each regular expression is written out as a predicate
  over characters, with `\S` read as "not Unicode White_Space"
  (`Whitespace.IsWhitespace`).
- **Whitespace tokenising** (`Whitespace`). `str::split_whitespace` is
  `Tokens`: it drops leading, trailing and repeated whitespace and returns
  the maximal non-whitespace words.
- **Reading the file** (`RuleTable`).
  - `Owners::from_reader` is the method `FromLines`, which works over the
    file's lines.
  - It keeps a line only if it is non-empty and does not start with `#`.
  - A kept line with at least one word declares an entry. The first word
    is the pattern. The remaining words that classify as owners, in
    order, are the owners. Words that fail to classify are dropped.
  - At the end the table is reversed, so that the last declaration comes
    first.
  - `Declared` is the specification function that `FromLines` is proved
    against.
- **Lookup** (`RuleTable.OwnersOf`). `Owners::owners` returns the owners of
  the first entry whose pattern matches the path, or nothing. Pattern
  matching belongs to the `glob` crate, so it is a parameter `matches`.
  `Glob.Matches` is a small glob matcher used for the library's own
  examples: `*` matches any run of characters, `/` included, as with the
  crate's default options; `?` matches any one character; every other
  character matches itself.
- **The library's examples** (`Example`). The thirteen-line CODEOWNERS text
  from the library's tests is modelled, and the three test expectations are
  proved about the table read from it.

`string` is `seq<char>`, and a Rust `String` is the sequence of its
Unicode scalar values.

## Model

| member | source | states |
|---|---|---|
| CodeOwner.TeamMatch | src/lib.rs:27 | TEAM `^@\S+/\S+`: `@`, one or more non-whitespace characters, `/`, then a non-whitespace character (the rest of the text is unconstrained, as the expression is anchored only at the start) |
| CodeOwner.UsernameMatch | src/lib.rs:28 | USERNAME `^@\S+`: `@` followed by a non-whitespace character |
| CodeOwner.EmailMatch | src/lib.rs:29 | EMAIL `^\S+@\S+`: a non-empty whitespace-free prefix, `@`, then a non-whitespace character |
| CodeOwner.Parse | src/lib.rs:25-40 | an `Ok` owner always carries the input text unchanged; the result is an error exactly when none of TEAM, USERNAME, EMAIL matches, and the error message is then "not an owner" |
| CodeOwner.TeamShadowsUsername | src/lib.rs:27-34 | every text TEAM matches is also matched by USERNAME, and it is still classified as a team: TEAM is tried first |
| CodeOwner.ParseTeamIff | src/lib.rs:27-32 | a text is a team exactly when it is `@`, then at least one non-whitespace character, then `/`, then a non-whitespace character |
| CodeOwner.ClassifyWord | src/lib.rs:25-40 | for one whitespace-free word, all four outcomes: team iff it starts with `@` and has a `/` after position 1 that is not last; username iff it starts with `@`, has length at least 2 and has no such `/`; email iff it does not start with `@` and has an `@` that is neither first nor last; "not an owner" iff it is a lone `@` or a non-`@` word without such an inner `@` |
| CodeOwner.SliceOfWord | src/lib.rs:27-29 | every slice of a whitespace-free text is whitespace-free: `\S+` can match any part of a word |
| Whitespace.WordLength | src/lib.rs:82 | the word at the front is whitespace-free, and it ends at the end of the text or just before a whitespace character |
| Whitespace.Tokens | src/lib.rs:82 | every token `split_whitespace` yields is non-empty and contains no whitespace |
| Whitespace.TokensEmptyIff | src/lib.rs:82-83 | a line yields no token (so `elements.next()` is `None`) exactly when every character of it is whitespace |
| Whitespace.WordLengthOfWord | src/lib.rs:82 | a word followed by whitespace or by nothing is read whole |
| Whitespace.TokensOfJoin | src/lib.rs:82 | splitting words joined by single spaces gives back exactly those words, in order |
| Whitespace.TokensSkipWhitespace | src/lib.rs:82 | leading whitespace never changes the tokens |
| Whitespace.TokensOfWordThen | src/lib.rs:82-83 | a word followed by whitespace is the first token, and the rest of the line supplies the others |
| RuleTable.Kept | src/lib.rs:80 | the line filter: a line is kept when it is non-empty and does not start with `#` |
| RuleTable.RuleOf | src/lib.rs:82-90 | the entry a kept line with words declares: its first word as pattern, its remaining words' owners as owners |
| RuleTable.ClassifiedOwners | src/lib.rs:84-89 | the owner fold keeps at most one owner per word; each kept owner comes from one of the words and is what that word classifies as |
| RuleTable.ClassifiedOwnersAppend | src/lib.rs:84-89 | the fold works word by word: the owners of `a + b` are the owners of `a` followed by the owners of `b` |
| RuleTable.ClassifiedOwnersComplete | src/lib.rs:85-86 | every word that classifies as an owner is kept |
| RuleTable.ClassifiedOwnersSingle | src/lib.rs:85-88 | one word adds its owner when it classifies, and nothing when it does not |
| RuleTable.Declared | src/lib.rs:80-93 | reading declares at most one entry per line |
| RuleTable.DeclaredAppend | src/lib.rs:80-93 | entries are declared line by line, in file order: the entries of `a + b` are those of `a` followed by those of `b` |
| RuleTable.DeclaredComplete | src/lib.rs:80-91 | every kept line with a word declares its entry: its first word as pattern, its classified remaining words as owners |
| RuleTable.DeclaredSound | src/lib.rs:80-91 | every declared entry comes from some kept line with a word, and is the entry built from that line |
| RuleTable.DroppedLinesDeclareNothing | src/lib.rs:80 | a file of empty lines and `#` comments declares no entry |
| RuleTable.DroppedLineDeclaresNothing | src/lib.rs:80 | an empty line or a line starting with `#` declares nothing |
| RuleTable.BlankLineDeclaresNothing | src/lib.rs:80-83 | a non-empty line of only whitespace passes the filter but declares nothing, since it has no first word |
| RuleTable.IndentedHashDeclaresRule | src/lib.rs:80-90 | only a `#` in the first column makes a comment: an indented `#word` passes the filter and becomes a pattern with no owners |
| RuleTable.RuleLineDeclares | src/lib.rs:82-90 | a line `pattern<whitespace>rest` declares exactly one entry: that pattern, owned by whatever the words of `rest` classify as, however they are spaced |
| RuleTable.PatternOnlyLineDeclares | src/lib.rs:83-90 | a line holding only a pattern still declares an entry, with an empty owner list |
| RuleTable.Reversed | src/lib.rs:95 | `paths.reverse()`: the reversal has the length of its input |
| RuleTable.ReversedAt | src/lib.rs:94-95 | after `reverse`, position `k` holds the element that was at position `len - 1 - k` |
| RuleTable.FromLines | src/lib.rs:73-97 | provided every pattern the file declares is accepted by the glob compiler, reading the lines gives exactly the declared entries in reverse order of declaration |
| RuleTable.OwnersOf | src/lib.rs:49-64 | the result is `None` exactly when no pattern in the table matches the path; otherwise it is the owner list of the first matching entry |
| RuleTable.LastMatchWins | src/lib.rs:94-95 | on a table read from a file, a path gets the owners of the last declared entry that matches it |
| RuleTable.UnownedIff | src/lib.rs:49-64 | on a table read from a file, a path has no owners exactly when no declared pattern matches it |
| Glob.Matches | src/lib.rs:57 | the stand-in for `Pattern::matches_path`: `*` matches any run of characters including `/`, `?` any one character, every other character itself |
| Glob.StarMatchesEverything | src/lib.rs:57 | the pattern `*` matches every path, including paths with `/` |
| Glob.LiteralMatchesItself | src/lib.rs:57 | a pattern without wildcards matches exactly the path equal to it |
| Glob.LiteralThenStar | src/lib.rs:57 | `lit*` matches exactly the paths that start with `lit` |
| Glob.StarThenLiteral | src/lib.rs:57 | `*lit` matches exactly the paths that end with `lit` |
| Example.Sample | src/lib.rs:104-117 | the thirteen lines of the sample text, its seven comment lines as parameters |
| Example.SampleTable | src/lib.rs:121-142 | the table the test expects: `docs/*`, `*.js`, `*`, with their owners |
| Example.ParsesDefunkt | src/lib.rs:138 | `@defunkt` is a username |
| Example.ParsesOctocat | src/lib.rs:132 | `@octocat` is a username |
| Example.ParsesGithubJs | src/lib.rs:133 | `@github/js` is a team |
| Example.ParsesDocsEmail | src/lib.rs:127 | `docs@example.com` is an email |
| Example.RefusesBogus | src/lib.rs:37-38 | a word without `@` is not an owner |
| Example.RefusesLoneAt | src/lib.rs:28-38 | `@` alone matches none of the three expressions |
| Example.TrailingSlashIsUsername | src/lib.rs:27-34 | `@org/` is not a team (nothing follows the `/`) and falls through to username |
| Example.JoinedRuleLineDeclares | src/lib.rs:82-90 | a line `pattern<whitespace>word word ...` declares the pattern owned by those words' owners |
| Example.DefunktLine | src/lib.rs:108 | the line `*       @defunkt` declares `*` owned by `@defunkt` |
| Example.JsOwners | src/lib.rs:131-134 | `@octocat @github/js` gives a username and then a team, in that order |
| Example.JsLine | src/lib.rs:113 | the line `*.js    @octocat @github/js` declares its entry |
| Example.DocsLine | src/lib.rs:116 | the `docs` line declares its pattern, owned by one email |
| Example.DeclaredInterleaved | src/lib.rs:104-117 | comment and blank stretches between three rule lines add no entries |
| Example.SampleDeclared | src/lib.rs:104-117 | the example file declares its three entries in file order |
| Example.SampleParses | src/lib.rs:118-143 | reading the example file gives the table of the test, with the `docs` entry first and `*` last |
| Example.DocsPatternMatchesDocsFile | src/lib.rs:158 | `docs/*` matches `docs/foo.js` |
| Example.JsPatternMatchesDocsFile | src/lib.rs:158 | `*.js` matches `docs/foo.js` |
| Example.SampleWildcard | src/lib.rs:145-152 | `foo/bar.txt` is owned by `@defunkt` through `*` |
| Example.SampleLastMatchWins | src/lib.rs:154-161 | `docs/foo.js` is matched by `*.js` and by `*` as well as by the `docs` entry, and gets the owners of the `docs` entry, declared last |
| Example.SampleTextWildcard | src/lib.rs:145-152 | reading the sample text and looking up `foo/bar.txt` gives `@defunkt` |
| Example.SampleTextLastMatchWins | src/lib.rs:154-161 | reading the sample text and looking up `docs/foo.js` gives the `docs` entry's email |
| Example.UnmatchedPathIsUnowned | src/lib.rs:49-64 | without the `*` entry, `foo/bar.txt` has no owners |
| Example.OwnerlessRuleStillMatches | src/lib.rs:83-90 | an entry with no owners still matches: `*` with no owners gives every path an empty owner list, not `None` |

## Left out

- `Owners::from_path` (src/lib.rs:66-71) opens a file and panics if it cannot. Files are I/O, so the model starts from the file's lines.
- Reading lines (src/lib.rs:77-79) is not modelled. `BufRead::lines` strips `\n` or `\r\n`, and `filter_map(Result::ok)` drops lines that are not valid UTF-8. `FromLines` takes the lines as they come out of that step.
- FromLines: `Pattern::new(path).unwrap()` panics on a pattern the glob crate rejects. The model does not capture the panic. Its place is taken by the precondition that a parameter `compiles` (standing for the crate's pattern compiler) accepts every declared pattern.
- The `glob` crate's pattern language and `Pattern::matches_path` are not part of this model. Lookup takes the matcher as a parameter. `Glob.Matches` covers only `*`, `?` and literal characters. It does not cover character classes, `**` or escapes.
- An entry keeps its pattern as source text, not as a compiled `glob::Pattern`.
- Regex compilation and `lazy_static` are not modelled. The three expressions are written directly as predicates.
- `OwnersOf` returns the owner list by value, where the source returns a reference into the table. The table is never changed after it is built, so the two agree.
- The command-line front end under `cli/` is not part of this model.
- `Owner`'s derived `Debug` is not modelled, and its derived `PartialEq` is Dafny's datatype equality.
- The example file's comment lines are parameters of `Example.Sample`. The only requirement on them is that they start with `#`. The proofs show that such lines add nothing.
- Some features are often described for CODEOWNERS but are absent from this revision of the code: path normalisation, implied ownership of a directory's contents, line numbers, and a "location" label for an entry. The model follows the code.
- The model follows the code's behaviour where an owners description would differ:
  - `@org/` and `@/team` classify as usernames, not teams, because TEAM needs a character on both sides of the `/`.
  - A `#` preceded by whitespace does not start a comment (`RuleTable.IndentedHashDeclaresRule`).
