/**
 * Owner classification (`Owner::from_str`): a token is a team, a username or
 * an email address, decided by three start-anchored regular expressions tried
 * in a fixed order. Each expression is written here as a predicate over the
 * characters of the token.
 */
module CodeOwner {
  import opened Wrappers
  import opened Whitespace

  /** An owner keeps the token it was classified from, unchanged. */
  datatype Owner = Username(text: string) | Team(text: string) | Email(text: string)

  /** The message `from_str` fails with. */
  function NotAnOwner(): string { "not an owner" }

  /**
   * `^@\S+/\S+`: `@`, at least one non-whitespace character, `/`, and one
   * more non-whitespace character; whatever follows is not looked at.
   */
  predicate TeamMatch(s: string) {
    |s| >= 1 && s[0] == '@' &&
    exists i :: 2 <= i < |s| - 1 && s[i] == '/' && NoWhitespace(s[1..i]) && !IsWhitespace(s[i + 1])
  }

  /** `^@\S+`: `@` followed by one non-whitespace character. */
  predicate UsernameMatch(s: string) {
    |s| >= 2 && s[0] == '@' && !IsWhitespace(s[1])
  }

  /**
   * `^\S+@\S+`: a non-empty whitespace-free prefix, `@`, and one
   * non-whitespace character.
   */
  predicate EmailMatch(s: string) {
    exists i :: 1 <= i < |s| - 1 && s[i] == '@' && NoWhitespace(s[..i]) && !IsWhitespace(s[i + 1])
  }

  /**
   * `Owner::from_str`: first match wins, in the order team, username, email;
   * any other token is refused with "not an owner".
   */
  function Parse(s: string): (r: Result<Owner>)
    ensures r.Ok? ==> r.value.text == s
    ensures r.Err? <==> !TeamMatch(s) && !UsernameMatch(s) && !EmailMatch(s)
    ensures r.Err? ==> r.error == NotAnOwner()
  {
    if TeamMatch(s) then Ok(Team(s))
    else if UsernameMatch(s) then Ok(Username(s))
    else if EmailMatch(s) then Ok(Email(s))
    else Err(NotAnOwner())
  }

  /** Some `c` lies strictly inside `s`, at index `from` or later and before the last character. */
  predicate HasInner(s: string, c: char, from: nat) {
    exists i :: from <= i < |s| - 1 && s[i] == c
  }

  /**
   * Every token the team test accepts is accepted by the username test too,
   * so the order of the tests is what makes such a token a team and never a
   * username.
   */
  lemma TeamShadowsUsername(s: string)
    requires TeamMatch(s)
    ensures UsernameMatch(s)
    ensures Parse(s) == Ok(Team(s))
  {
    var i :| 2 <= i < |s| - 1 && s[i] == '/' && NoWhitespace(s[1..i]) && !IsWhitespace(s[i + 1]);
    assert s[1] == s[1..i][0];
  }

  /** No character of `s` at an index in `[from, to)` is whitespace. */
  predicate NoWhitespaceBetween(s: string, from: nat, to: nat)
    requires from <= to <= |s|
  {
    forall k :: from <= k < to ==> !IsWhitespace(s[k])
  }

  /**
   * The team test read index by index: `s` starts with `@` and has a `/` at
   * some index `i >= 2` such that `s[1..i]` has no whitespace and `s[i + 1]`
   * is not whitespace.
   */
  lemma {:induction false} ParseTeamIff(s: string)
    ensures Parse(s) == Ok(Team(s)) <==>
      (|s| >= 1 && s[0] == '@' &&
       exists i :: 2 <= i < |s| - 1 && s[i] == '/' && !IsWhitespace(s[i + 1]) && NoWhitespaceBetween(s, 1, i))
  {
    if |s| >= 1 && s[0] == '@' {
      if i :| 2 <= i < |s| - 1 && s[i] == '/' && !IsWhitespace(s[i + 1]) && NoWhitespaceBetween(s, 1, i) {
        assert NoWhitespace(s[1..i]) by {
          forall k | 0 <= k < |s[1..i]| ensures !IsWhitespace(s[1..i][k]) {
            assert s[1..i][k] == s[k + 1];
          }
        }
      }
      if TeamMatch(s) {
        var i :| 2 <= i < |s| - 1 && s[i] == '/' && NoWhitespace(s[1..i]) && !IsWhitespace(s[i + 1]);
        forall k | 1 <= k < i ensures !IsWhitespace(s[k]) {
          assert s[k] == s[1..i][k - 1];
        }
        assert NoWhitespaceBetween(s, 1, i);
      }
    }
  }

  /** A slice of a whitespace-free token is whitespace-free. */
  lemma SliceOfWord(s: string, a: nat, b: nat)
    requires NoWhitespace(s)
    requires a <= b <= |s|
    ensures NoWhitespace(s[a..b])
  {
    forall k | 0 <= k < b - a ensures !IsWhitespace(s[a..b][k]) {
      assert s[a..b][k] == s[a + k];
    }
  }

  /**
   * The total case split on the tokens a rule line is split into (non-empty,
   * no whitespace): team when it starts with `@` and has a `/` at index 2 or
   * later that is not its last character; otherwise username when it starts
   * with `@` and is longer than one character; otherwise email when it has an
   * `@` that is neither its first nor its last character; otherwise refused.
   */
  lemma {:induction false} ClassifyWord(s: string)
    requires IsWord(s)
    ensures Parse(s) == Ok(Team(s)) <==> s[0] == '@' && HasInner(s, '/', 2)
    ensures Parse(s) == Ok(Username(s)) <==> s[0] == '@' && |s| >= 2 && !HasInner(s, '/', 2)
    ensures Parse(s) == Ok(Email(s)) <==> s[0] != '@' && HasInner(s, '@', 1)
    ensures Parse(s) == Err(NotAnOwner()) <==>
      ((|s| == 1 && s[0] == '@') || (s[0] != '@' && !HasInner(s, '@', 1)))
  {
    if s[0] == '@' && HasInner(s, '/', 2) {
      var i :| 2 <= i < |s| - 1 && s[i] == '/';
      SliceOfWord(s, 1, i);
      assert !IsWhitespace(s[i + 1]);
      assert TeamMatch(s);
    }
    if s[0] != '@' && HasInner(s, '@', 1) {
      var i :| 1 <= i < |s| - 1 && s[i] == '@';
      SliceOfWord(s, 0, i);
      assert !IsWhitespace(s[i + 1]);
      assert EmailMatch(s);
    }
    if s[0] == '@' {
      assert !EmailMatch(s) || UsernameMatch(s);
    }
  }
}
