/** The email check that enables the unlock button (src/App.tsx:246): the unanchored regular
    expression `/\S+@\S+\.\S+/`, whose `\S` is any character outside the whitespace set of
    `JsStrings`. */
module Email {
  import opened JsStrings

  /** One way for the expression to match: `e[a..at]` is the first `\S+`, `e[at]` the `@`,
      `e[at + 1..dot]` the second `\S+`, `e[dot]` the `.` and `e[dot + 1..z]` the third `\S+`. */
  predicate MatchesAt(e: string, a: int, at: int, dot: int, z: int)
  {
    && 0 <= a < at && at + 1 < dot && dot + 1 < z <= |e|
    && NoSpace(e[a..at]) && e[at] == '@'
    && NoSpace(e[at + 1..dot]) && e[dot] == '.'
    && NoSpace(e[dot + 1..z])
  }

  /** `/\S+@\S+\.\S+/.test(e)`, read off the expression: a match exists somewhere in `e`. */
  ghost predicate RegexMatches(e: string)
  {
    exists a, at, dot, z :: MatchesAt(e, a, at, dot, z)
  }

  /** The shortest match around a given `@` and `.`: one non-space character before the `@`,
      only non-space characters between them, one non-space character after the `.`. */
  predicate ShapedAround(e: string, at: int, dot: int)
  {
    && 0 < at && at + 1 < dot && dot + 1 < |e|
    && !IsSpace(e[at - 1]) && e[at] == '@'
    && NoSpace(e[at + 1..dot]) && e[dot] == '.'
    && !IsSpace(e[dot + 1])
  }

  /** The test the button runs, as a search over the positions of `@` and `.`. An accepted
      address has at least five characters, among them an `@` and a `.`. */
  predicate EmailShaped(e: string): (ok: bool)
    ensures ok ==> |e| >= 5 && '@' in e && '.' in e
  {
    exists at, dot | 0 < at < dot < |e| :: ShapedAround(e, at, dot)
  }

  /** The search accepts exactly the strings the regular expression matches. */
  lemma EmailShapedIffRegex(e: string)
    ensures EmailShaped(e) <==> RegexMatches(e)
  {
    if EmailShaped(e) {
      var at, dot :| 0 < at < dot < |e| && ShapedAround(e, at, dot);
      assert MatchesAt(e, at - 1, at, dot, dot + 2);
    }
    if RegexMatches(e) {
      var a, at, dot, z :| MatchesAt(e, a, at, dot, z);
      assert e[at - 1] == e[a..at][at - 1 - a];
      assert e[dot + 1] == e[dot + 1..z][0];
      assert ShapedAround(e, at, dot);
    }
  }

  /** A string without an `@` is never accepted. */
  lemma NoAtRejected(e: string)
    requires '@' !in e
    ensures !EmailShaped(e)
  {
    forall at, dot | 0 < at < dot < |e| ensures !ShapedAround(e, at, dot) {
      assert e[at] in e;
    }
  }

  lemma SampleAddresses()
    ensures EmailShaped("a@b.co")
    ensures !EmailShaped("not-an-email")
    ensures !EmailShaped("a @b.co")
  {
    assert ShapedAround("a@b.co", 1, 3);
    NoAtRejected("not-an-email");
    var e := "a @b.co";
    forall at, dot | 0 < at < dot < |e| ensures !ShapedAround(e, at, dot) {
      if at != 2 { assert e[at] != '@'; }
    }
  }
}
