/**
 * The sign-up and sign-in form checks that run in the browser before a form
 * is sent: app/static/js/validation.js (trimmed values, a minimum password
 * length), frontend/auth/validation.js and validation.js (raw values, the
 * simple email pattern). Each check is an ordered chain of guards; the first
 * that fails decides the message shown.
 */
module Validation {
  import opened Common

  /** What a submit handler does: stop with a message, or let the form go on. */
  datatype Verdict = Blocked(message: string) | Passed

  const FillAllFields: string := "Пожалуйста, заполните все поля"
  const BadEmailAddress: string := "Пожалуйста, введите корректный адрес электронной почты"
  const BadEmail: string := "Пожалуйста, введите корректный email"
  const PasswordsDiffer: string := "Пароли не совпадают"
  const PasswordTooShort: string := "Пароль должен содержать не менее 6 символов"

  /** The shortest password app/static/js/validation.js accepts. */
  const MinPasswordLength: nat := 6

  // ---------------------------------------------------------------------
  // app/static/js/validation.js

  /** Letters A-Z lowered; other characters are kept. */
  function Lower(s: string): (r: string)
    ensures |r| == |s|
    ensures forall i :: 0 <= i < |s| ==> r[i] == (if 'A' <= s[i] <= 'Z' then (s[i] as int + 32) as char else s[i])
  {
    seq(|s|, i requires 0 <= i < |s| => if 'A' <= s[i] <= 'Z' then (s[i] as int + 32) as char else s[i])
  }

  /** `validateEmail`: the address pattern is matched against the lowered text. */
  function ValidateEmail(pattern: string -> bool, email: string): (ok: bool)
  {
    pattern(Lower(email))
  }

  /** Lowering is idempotent, so the email check ignores the case of letters A-Z. */
  lemma ValidateEmailIgnoresCase(pattern: string -> bool, email: string)
    ensures ValidateEmail(pattern, Lower(email)) == ValidateEmail(pattern, email)
    ensures Lower(Lower(email)) == Lower(email)
  {
    assert Lower(Lower(email)) == Lower(email);
  }

  /** The sign-in check: the trimmed username and password must both be non-empty. */
  function TrimmedLoginCheck(username: string, password: string): (v: Verdict)
    ensures v == Passed <==> Trim(username) != "" && Trim(password) != ""
    ensures v.Blocked? ==> v.message == FillAllFields
  {
    if Trim(username) == "" || Trim(password) == "" then Blocked(FillAllFields) else Passed
  }

  /**
   * The guards of the sign-up check on values already trimmed, in order: an
   * empty field, the email, the two passwords, the password length.
   */
  function RegistrationGuards(pattern: string -> bool, u: string, e: string, p: string, c: string): (v: Verdict)
    ensures u == "" || e == "" || p == "" || c == "" ==> v == Blocked(FillAllFields)
    ensures u != "" && e != "" && p != "" && c != "" && !ValidateEmail(pattern, e) ==> v == Blocked(BadEmailAddress)
    ensures u != "" && e != "" && p != "" && c != "" && ValidateEmail(pattern, e) && p != c ==> v == Blocked(PasswordsDiffer)
    ensures u != "" && e != "" && p != "" && c != "" && ValidateEmail(pattern, e) && p == c && |p| < MinPasswordLength ==>
      v == Blocked(PasswordTooShort)
    ensures v == Passed <==> u != "" && e != "" && ValidateEmail(pattern, e) && p == c && |p| >= MinPasswordLength
  {
    if u == "" || e == "" || p == "" || c == "" then Blocked(FillAllFields)
    else if !ValidateEmail(pattern, e) then Blocked(BadEmailAddress)
    else if p != c then Blocked(PasswordsDiffer)
    else if |p| < MinPasswordLength then Blocked(PasswordTooShort)
    else Passed
  }

  /** The sign-up check: every value is trimmed before the guards run. */
  function TrimmedRegistrationCheck(pattern: string -> bool, username: string, email: string, password: string,
                                    confirm: string): Verdict
  {
    RegistrationGuards(pattern, Trim(username), Trim(email), Trim(password), Trim(confirm))
  }

  /**
   * The sign-up check depends on the trimmed values only: surrounding
   * whitespace never changes its verdict, so a short password padded with
   * spaces is still too short, and a passed form has a trimmed password of at
   * least six characters.
   */
  lemma TrimmedCheckSeesTrimmedValues(pattern: string -> bool, username: string, email: string, password: string,
                                      confirm: string)
    ensures TrimmedRegistrationCheck(pattern, username, email, password, confirm) ==
      TrimmedRegistrationCheck(pattern, Trim(username), Trim(email), Trim(password), Trim(confirm))
    ensures TrimmedLoginCheck(username, password) == TrimmedLoginCheck(Trim(username), Trim(password))
    ensures TrimmedRegistrationCheck(pattern, username, email, password, confirm) == Passed ==>
      |Trim(password)| >= MinPasswordLength && Trim(password) == Trim(confirm)
  {
    TrimIdempotent(username);
    TrimIdempotent(email);
    TrimIdempotent(password);
    TrimIdempotent(confirm);
  }

  // ---------------------------------------------------------------------
  // The simple email pattern ^[^\s@]+@[^\s@]+\.[^\s@]+$

  /** A character `\s` matches in a JavaScript regular expression (white space and line terminators). */
  predicate JsSpace(c: char)
  {
    c == '\t' || c == '\n' || c == '\U{B}' || c == '\U{C}' || c == '\r' || c == ' ' || c == '\U{A0}' ||
    c == '\U{1680}' || ('\U{2000}' <= c <= '\U{200A}') || c == '\U{2028}' || c == '\U{2029}' ||
    c == '\U{202F}' || c == '\U{205F}' || c == '\U{3000}' || c == '\U{FEFF}'
  }

  /** Every character of `s` is matched by `[^\s@]`. */
  predicate Plain(s: string)
  {
    forall i :: 0 <= i < |s| ==> !JsSpace(s[i]) && s[i] != '@'
  }

  /**
   * What the pattern describes: a non-empty local part, one '@', and a domain
   * part with a '.' that has at least one character on each side, neither
   * part holding white space or another '@'.
   */
  predicate SimpleEmail(s: string)
  {
    exists i, j :: 0 < i < j - 1 && j < |s| - 1 && s[i] == '@' && s[j] == '.' &&
      Plain(s[..i]) && Plain(s[i + 1..])
  }

  /** The test the pattern makes, computed: split at the first '@', then look for an inner '.'. */
  function MatchesSimpleEmail(s: string): (ok: bool)
  {
    if '@' !in s then false
    else
      var i := FindChar(s, '@');
      var domain := s[i + 1..];
      i > 0 && Plain(s[..i]) && Plain(domain) && |domain| >= 3 && '.' in domain[1..|domain| - 1]
  }

  /** What the computed test accepts, the pattern describes. */
  lemma MatchedIsSimpleEmail(s: string)
    requires MatchesSimpleEmail(s)
    ensures SimpleEmail(s)
  {
    var i := FindChar(s, '@');
    var domain := s[i + 1..];
    var inner := domain[1..|domain| - 1];
    var p :| 0 <= p < |inner| && inner[p] == '.';
    var j := i + 2 + p;
    assert s[j] == '.';
  }

  /** What the pattern describes, the computed test accepts: the '@' it names is the first one. */
  lemma SimpleEmailIsMatched(s: string)
    requires SimpleEmail(s)
    ensures MatchesSimpleEmail(s)
  {
    var i, j :| 0 < i < j - 1 && j < |s| - 1 && s[i] == '@' && s[j] == '.' && Plain(s[..i]) && Plain(s[i + 1..]);
    assert FindChar(s, '@') == i by {
      PlainPrefixHasNoAt(s, i);
    }
    DotInsideDomain(s, i, j);
    assert '@' in s;
  }

  /** A '.' with at least one character after the '@' and one after itself lies strictly inside the domain part. */
  lemma DotInsideDomain(s: string, i: nat, j: nat)
    requires i < j - 1 && j < |s| - 1 && s[j] == '.'
    ensures var domain := s[i + 1..]; |domain| >= 3 && '.' in domain[1..|domain| - 1]
  {
    var domain := s[i + 1..];
    var inner := domain[1..|domain| - 1];
    assert inner[j - i - 2] == s[j];
  }

  /** Before a plain prefix ends, the first '@' cannot come: it is the character right after the prefix. */
  lemma PlainPrefixHasNoAt(s: string, i: nat)
    requires i < |s| && s[i] == '@' && Plain(s[..i])
    ensures FindChar(s, '@') == i
  {
    var f := FindChar(s, '@');
    forall x | 0 <= x < i ensures s[x] != '@' {
      assert s[..i][x] == s[x];
    }
    forall x | 0 <= x < f ensures s[x] != '@' {
      assert s[..f][x] == s[x];
    }
  }

  /** The computed test accepts exactly the strings the pattern describes. */
  lemma MatchesSimpleEmailIsThePattern(s: string)
    ensures MatchesSimpleEmail(s) <==> SimpleEmail(s)
  {
    if MatchesSimpleEmail(s) {
      MatchedIsSimpleEmail(s);
    }
    if SimpleEmail(s) {
      SimpleEmailIsMatched(s);
    }
  }

  /**
   * The sign-up check of frontend/auth/validation.js and validation.js on the
   * raw values, in order: an empty field, the email pattern, the two
   * passwords. There is no trimming and no minimum length.
   */
  function RawRegistrationCheck(username: string, email: string, password: string, confirm: string): (v: Verdict)
    ensures username == "" || email == "" || password == "" || confirm == "" ==> v == Blocked(FillAllFields)
    ensures username != "" && email != "" && password != "" && confirm != "" && !SimpleEmail(email) ==>
      v == Blocked(BadEmail)
    ensures username != "" && email != "" && password != "" && confirm != "" && SimpleEmail(email) && password != confirm ==>
      v == Blocked(PasswordsDiffer)
    ensures v == Passed <==> username != "" && SimpleEmail(email) && password != "" && password == confirm
  {
    MatchesSimpleEmailIsThePattern(email);
    if username == "" || email == "" || password == "" || confirm == "" then Blocked(FillAllFields)
    else if !MatchesSimpleEmail(email) then Blocked(BadEmail)
    else if password != confirm then Blocked(PasswordsDiffer)
    else Passed
  }

  /** The sign-in check of both files: an empty username or password stops the submit. */
  function RawLoginCheck(username: string, password: string): (v: Verdict)
    ensures v == Passed <==> username != "" && password != ""
    ensures v.Blocked? ==> v.message == FillAllFields
  {
    if username == "" || password == "" then Blocked(FillAllFields) else Passed
  }

  /**
   * Unlike the trimmed check, the raw check passes a blank username and a
   * one-character password, and the two checks disagree on such a form.
   */
  lemma RawCheckNeitherTrimsNorCounts(pattern: string -> bool)
    ensures RawRegistrationCheck(" ", "a@b.cd", "x", "x") == Passed
    ensures TrimmedRegistrationCheck(pattern, " ", "a@b.cd", "x", "x") == Blocked(FillAllFields)
    ensures RawLoginCheck(" ", " ") == Passed && TrimmedLoginCheck(" ", " ") == Blocked(FillAllFields)
  {
    RawPassesBlankForm();
    TrimmedRefusesBlankForm(pattern);
  }

  /** The raw checks pass a blank username, a one-character password and a blank login. */
  lemma RawPassesBlankForm()
    ensures RawRegistrationCheck(" ", "a@b.cd", "x", "x") == Passed
    ensures RawLoginCheck(" ", " ") == Passed
  {
    var s := "a@b.cd";
    assert s[1] == '@' && s[3] == '.' && Plain(s[..1]) && Plain(s[2..]);
    assert SimpleEmail(s);
  }

  /** The trimmed checks see a blank username or login as an empty field. */
  lemma TrimmedRefusesBlankForm(pattern: string -> bool)
    ensures TrimmedRegistrationCheck(pattern, " ", "a@b.cd", "x", "x") == Blocked(FillAllFields)
    ensures TrimmedLoginCheck(" ", " ") == Blocked(FillAllFields)
  {
    assert Trim(" ") == "" by {
      assert AllSpace(" ");
    }
  }
}
