/**
 * The client-side guard of the contact form's submit handler (script.js):
 * every field must be filled in, and the email must match
 * `^[^\s@]+@[^\s@]+\.[^\s@]+$`; only then is the POST to `/contact` made.
 */
module ContactForm {

  /** The four fields read from the form. */
  datatype Submission = Submission(name: string, email: string, subject: string, message: string)

  /** What the guard decides: one of the two error messages, or go ahead and send. */
  datatype Verdict = MissingField | InvalidEmail | Send

  /**
   * The characters of ECMAScript's `\s` class: WhiteSpace (tab, vertical tab,
   * form feed, space, no-break space, zero width no-break space and the
   * Unicode space separators) and LineTerminator (LF, CR, U+2028, U+2029).
   */
  predicate IsSpace(c: char)
    ensures IsSpace(c) ==> c == ' ' || c < '!' || c >= '\U{00A0}'
  {
    c == '\t' || c == '\n' || c == '\U{000B}' || c == '\U{000C}' || c == '\r' || c == ' '
    || c == '\U{00A0}' || c == '\U{1680}' || ('\U{2000}' <= c <= '\U{200A}')
    || c == '\U{2028}' || c == '\U{2029}' || c == '\U{202F}' || c == '\U{205F}'
    || c == '\U{3000}' || c == '\U{FEFF}'
  }

  /** A character of the class `[^\s@]`. */
  predicate IsAtomChar(c: char)
  {
    !IsSpace(c) && c != '@'
  }

  /** A string matched by `[^\s@]+`. */
  predicate IsAtom(s: string)
  {
    |s| > 0 && forall k :: 0 <= k < |s| ==> IsAtomChar(s[k])
  }

  /** The regular expression matches `s` with its `@` at `i` and its `\.` at `j`. */
  ghost predicate SplitsAt(s: string, i: int, j: int)
  {
    0 <= i < j < |s| && s[i] == '@' && s[j] == '.'
    && IsAtom(s[..i]) && IsAtom(s[i + 1..j]) && IsAtom(s[j + 1..])
  }

  /** `emailRegex.test(s)`: some choice of the two separators matches the whole string. */
  ghost predicate MatchesEmailPattern(s: string)
  {
    exists i, j :: SplitsAt(s, i, j)
  }

  /** The first position at or after `from` holding `c`, or `|s|` if there is none. */
  function Find(s: string, c: char, from: nat): (r: nat)
    ensures r <= |s|
    ensures r < |s| ==> from <= r && s[r] == c
    ensures forall k :: from <= k < r ==> s[k] != c
    decreases |s| - from
  {
    if from >= |s| then |s|
    else if s[from] == c then from
    else Find(s, c, from + 1)
  }

  /**
   * A direct test of the email pattern: the first `@` has a non-empty local
   * part before it, everything after it is free of `@` and white space, and
   * some `.` after it leaves at least one character on either side.
   */
  function IsValidEmail(s: string): (r: bool)
    ensures r ==> SplitsAt(s, Find(s, '@', 0), Find(s, '.', Find(s, '@', 0) + 2))
  {
    var at := Find(s, '@', 0);
    if 0 < at < |s| && IsAtom(s[..at]) && IsAtom(s[at + 1..]) && Find(s, '.', at + 2) + 1 < |s| then
      var dot := Find(s, '.', at + 2);
      assert s[at + 1..dot] == s[at + 1..][..dot - at - 1];
      assert s[dot + 1..] == s[at + 1..][dot - at..];
      true
    else
      false
  }

  /** The direct test accepts exactly the strings the regular expression matches. */
  lemma ValidEmailIffPattern(s: string)
    ensures IsValidEmail(s) <==> MatchesEmailPattern(s)
  {
    if MatchesEmailPattern(s) {
      var i, j :| SplitsAt(s, i, j);
      var at := Find(s, '@', 0);
      assert at == i;
      forall k | i + 1 <= k < |s|
        ensures IsAtomChar(s[k])
      {
        if k < j {
          assert s[k] == s[i + 1..j][k - i - 1];
        } else if k > j {
          assert s[k] == s[j + 1..][k - j - 1];
        }
      }
      assert IsAtom(s[at + 1..]);
      assert Find(s, '.', at + 2) <= j;
    }
  }

  /**
   * A matched address is local@domain.tld with all three parts non-empty,
   * exactly one `@` and no white space anywhere.
   */
  lemma MatchedEmailShape(s: string, i: int, j: int)
    requires SplitsAt(s, i, j)
    ensures 0 < i && i + 1 < j && j + 1 < |s|
    ensures forall k :: 0 <= k < |s| && s[k] == '@' ==> k == i
    ensures forall k :: 0 <= k < |s| ==> !IsSpace(s[k])
  {
  }

  /** All four fields are non-empty (the `!data.x` tests all fail). */
  predicate AllFilled(f: Submission)
  {
    f.name != "" && f.email != "" && f.subject != "" && f.message != ""
  }

  /**
   * The guard: a missing field is reported first; otherwise a malformed
   * email; otherwise the form goes on to the network call.
   */
  function Validate(f: Submission): (v: Verdict)
    ensures v == MissingField <==> !AllFilled(f)
    ensures v == InvalidEmail <==> AllFilled(f) && !MatchesEmailPattern(f.email)
    ensures v == Send <==> AllFilled(f) && MatchesEmailPattern(f.email)
  {
    ValidEmailIffPattern(f.email);
    if f.name == "" || f.email == "" || f.subject == "" || f.message == "" then MissingField
    else if !IsValidEmail(f.email) then InvalidEmail
    else Send
  }

  /** A plain address passes the guard. */
  lemma AcceptsPlainAddress()
    ensures IsValidEmail("a@b.c")
  {
  }

  /** An address with a second `@` fails it. */
  lemma RejectsTwoAts()
    ensures !IsValidEmail("a@@b.c")
  {
    assert Find("a@@b.c", '@', 0) == 1;
    assert "a@@b.c"[2..][0] == '@';
  }
}
