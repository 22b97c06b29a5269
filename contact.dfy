/** The checks the portfolio's contact form makes before it reports a
    message as sent: every field filled in, and an email address of the
    shape `local@domain.tld`. */
module Contact {
  import opened Text

  // ----- the regular expression -----

  /** `[^\s@]+`: one or more characters, none of them white space or `@`. */
  predicate Plain(s: string) {
    |s| > 0 && forall i :: 0 <= i < |s| ==> !IsWhitespace(s[i]) && s[i] != '@'
  }

  /** `/^[^\s@]+@[^\s@]+\.[^\s@]+$/.test(e)`: the whole text is a plain run,
      an `@`, a plain run, a `.` and a plain run. Plain runs may contain `.`,
      so any `.` after the `@` can be the one the pattern matches. */
  ghost predicate EmailPattern(e: string)
    ensures EmailPattern(e) ==> |e| >= 5 && '@' in e
  {
    exists i, j :: 0 <= i < j < |e| && e[i] == '@' && e[j] == '.'
      && Plain(e[..i]) && Plain(e[i + 1..j]) && Plain(e[j + 1..])
  }

  // ----- the check, character by character -----

  /** The position of the first `c` in `s`, `|s|` when there is none. */
  function IndexOf(s: string, c: char): (k: nat)
    ensures k <= |s| && c !in s[..k]
    ensures k < |s| ==> s[k] == c
  {
    if s == [] || s[0] == c then 0 else 1 + IndexOf(s[1..], c)
  }

  predicate NoWhitespace(s: string) {
    forall i :: 0 <= i < |s| ==> !IsWhitespace(s[i])
  }

  /** A `.` that is neither the first nor the last character. */
  predicate InnerDot(d: string) {
    |d| >= 3 && '.' in d[1..|d| - 1]
  }

  /** The address test: no white space, exactly one `@`, something before
      it, and after it a `.` that is neither first nor last. */
  function IsValidEmail(e: string): (ok: bool)
    ensures ok ==> 0 < IndexOf(e, '@') && IndexOf(e, '@') + 4 <= |e|
    ensures ok ==> |e| >= 5
  {
    && NoWhitespace(e)
    && Count(e, '@') == 1
    && var at := IndexOf(e, '@');
       0 < at < |e| && InnerDot(e[at + 1..])
  }

  lemma {:induction false} CountAppend(a: string, b: string, c: char)
    ensures Count(a + b, c) == Count(a, c) + Count(b, c)
  {
    if a != [] {
      assert (a + b)[1..] == a[1..] + b;
      CountAppend(a[1..], b, c);
    } else {
      assert a + b == b;
    }
  }

  lemma {:induction false} CountAbsent(s: string, c: char)
    ensures Count(s, c) == 0 <==> c !in s
  {
    if s != [] {
      CountAbsent(s[1..], c);
      assert s == [s[0]] + s[1..];
    }
  }

  /** The address test accepts exactly the texts the regular expression
      matches. */
  lemma EmailSpec(e: string)
    ensures IsValidEmail(e) <==> EmailPattern(e)
  {
    if IsValidEmail(e) {
      ValidMatches(e);
    }
    if EmailPattern(e) {
      var i, j :| 0 <= i < j < |e| && e[i] == '@' && e[j] == '.'
        && Plain(e[..i]) && Plain(e[i + 1..j]) && Plain(e[j + 1..]);
      MatchesValid(e, i, j);
    }
  }

  /** With exactly one `@`, nothing after the first `@` is an `@`. */
  lemma OnlyAt(e: string, i: nat)
    requires i < |e| && e[i] == '@' && '@' !in e[..i] && Count(e, '@') == 1
    ensures '@' !in e[i + 1..]
  {
    assert e == e[..i] + [e[i]] + e[i + 1..];
    CountAppend(e[..i] + [e[i]], e[i + 1..], '@');
    CountAppend(e[..i], [e[i]], '@');
    CountAbsent(e[..i], '@');
    CountAbsent(e[i + 1..], '@');
  }

  /** A slice of a text without white space has none either. */
  lemma PlainSlice(e: string, lo: nat, hi: nat)
    requires lo < hi <= |e| && NoWhitespace(e) && '@' !in e[lo..hi]
    ensures Plain(e[lo..hi])
  {
    forall m | 0 <= m < hi - lo ensures !IsWhitespace(e[lo..hi][m]) && e[lo..hi][m] != '@' {
      assert e[lo..hi][m] == e[lo + m];
      assert e[lo..hi][m] in e[lo..hi];
    }
  }

  lemma ValidMatches(e: string)
    requires IsValidEmail(e)
    ensures EmailPattern(e)
  {
    var i := IndexOf(e, '@');
    var d := e[i + 1..];
    var k :| 1 <= k < |d| - 1 && d[k] == '.' by {
      var m :| 0 <= m < |d[1..|d| - 1]| && d[1..|d| - 1][m] == '.';
      assert d[m + 1] == '.';
    }
    var j := i + 1 + k;
    OnlyAt(e, i);
    assert e[i + 1..j] == d[..k];
    assert e[j + 1..] == d[k + 1..];
    assert '@' !in e[i + 1..j] && '@' !in e[j + 1..] by {
      assert forall x :: x in d[..k] ==> x in d;
      assert forall x :: x in d[k + 1..] ==> x in d;
    }
    PlainSlice(e, 0, i);
    assert e[0..i] == e[..i];
    PlainSlice(e, i + 1, j);
    PlainSlice(e, j + 1, |e|);
    assert e[j + 1..|e|] == e[j + 1..];
  }

  lemma MatchesValid(e: string, i: int, j: int)
    requires 0 <= i < j < |e| && e[i] == '@' && e[j] == '.'
    requires Plain(e[..i]) && Plain(e[i + 1..j]) && Plain(e[j + 1..])
    ensures IsValidEmail(e)
  {
    var a, b, c := e[..i], e[i + 1..j], e[j + 1..];
    assert e == a + ['@'] + b + ['.'] + c;
    forall m | 0 <= m < |e| ensures !IsWhitespace(e[m]) {
      if m < i { assert e[m] == a[m]; }
      else if i < m < j { assert e[m] == b[m - i - 1]; }
      else if j < m { assert e[m] == c[m - j - 1]; }
    }
    CountAbsent(a, '@');
    CountAbsent(b, '@');
    CountAbsent(c, '@');
    CountAppend(a + ['@'] + b + ['.'], c, '@');
    CountAppend(a + ['@'] + b, ['.'], '@');
    CountAppend(a + ['@'], b, '@');
    CountAppend(a, ['@'], '@');
    var at := IndexOf(e, '@');
    assert e[..i + 1] == a + ['@'];
    assert at == i;
    var d := e[i + 1..];
    assert d == b + ['.'] + c;
    assert d[|b|] == '.';
    assert d[1..|d| - 1][|b| - 1] == '.';
  }

  // ----- the submit handler -----

  datatype Outcome = MissingField | InvalidEmail | Sent

  /** What submitting the form does with the four field values: a missing
      field is reported first, then a malformed address; otherwise the
      message counts as sent. */
  function Submit(name: string, email: string, subject: string, message: string): (o: Outcome)
    ensures o == MissingField <==> name == "" || email == "" || subject == "" || message == ""
    ensures o == InvalidEmail <==>
      name != "" && email != "" && subject != "" && message != "" && !EmailPattern(email)
    ensures o == Sent <==>
      name != "" && email != "" && subject != "" && message != "" && EmailPattern(email)
  {
    EmailSpec(email);
    if name == "" || email == "" || subject == "" || message == "" then MissingField
    else if !IsValidEmail(email) then InvalidEmail
    else Sent
  }

  /** The shortest kind of address the pattern allows is accepted. */
  lemma EmailAccepted()
    ensures IsValidEmail("a@b.c")
  {
    var e := "a@b.c";
    assert Plain(e[..1]) && Plain(e[2..3]) && Plain(e[4..]);
    MatchesValid(e, 1, 3);
  }

  /** An address with nothing before the `@`, with a space, or without a
      `.` after the `@` is refused. */
  lemma EmailRefused()
    ensures !IsValidEmail("@b.c")
    ensures !IsValidEmail("a @b.c")
    ensures !IsValidEmail("a@bc")
  {
    assert "a @b.c"[1] == ' ';
    assert IndexOf("a@bc", '@') == 1;
    assert "a@bc"[2..] == "bc";
  }
}
