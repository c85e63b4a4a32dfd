/** The two form validators of the login screen. Each returns the key of the
    message shown under its field, or NoError for the empty string the source
    returns when the field is acceptable. The e-mail rule is the regular
    expression ^[^\s@]+@[^\s@]+\.[^\s@]+$, stated here as a split of the
    string and decided by a left-to-right scan. */
module Validation {

  /** The message keys the validators pass to the translation lookup; NoError
      stands for the empty string. */
  datatype ErrorText =
    | NoError
    | EmailRequired
    | InvalidEmail
    | PasswordRequired
    | PasswordMinLength

  /** The class \s of ECMAScript regular expressions: the WhiteSpace and
      LineTerminator code points (tab, line feed, vertical tab, form feed,
      carriage return, the space separators, line and paragraph separator,
      and the byte order mark). Neither literal of the pattern, '@' or '.', is
      whitespace. */
  predicate IsWhitespace(c: char): (r: bool)
    ensures r ==> c != '@' && c != '.'
  {
    c == '\t' || c == '\n' || c == '\U{000B}' || c == '\U{000C}' || c == '\r'
    || c == ' ' || c == '\U{00A0}' || c == '\U{1680}'
    || ('\U{2000}' <= c <= '\U{200A}')
    || c == '\U{2028}' || c == '\U{2029}' || c == '\U{202F}' || c == '\U{205F}'
    || c == '\U{3000}' || c == '\U{FEFF}'
  }

  /** The character class [^\s@]. The '.' that separates domain and tld is
      itself in the class, so a domain may hold further dots. */
  predicate IsAddressChar(c: char): (r: bool)
    ensures c == '.' ==> r
    ensures r ==> c != '@'
  {
    !IsWhitespace(c) && c != '@'
  }

  predicate AllAddressChars(s: string) {
    forall i :: 0 <= i < |s| ==> IsAddressChar(s[i])
  }

  /** The repetition [^\s@]+. */
  predicate IsRun(s: string) {
    |s| > 0 && AllAddressChars(s)
  }

  /** The whole regular expression, anchored at both ends: the string splits as
      local "@" domain "." tld with three non-empty runs of [^\s@]. */
  ghost predicate EmailPattern(s: string): (r: bool)
    ensures r ==> |s| >= 5
  {
    exists local: string, domain: string, tld: string ::
      IsRun(local) && IsRun(domain) && IsRun(tld) && s == local + "@" + domain + "." + tld
  }

  /** The same language described without a split: no whitespace, exactly one
      '@', not at the front, and a '.' after it that is neither the first nor
      the last character of what follows the '@'. */
  ghost predicate SingleAtDottedDomain(s: string) {
    (forall i :: 0 <= i < |s| ==> !IsWhitespace(s[i]))
    && exists at :: 0 < at < |s| && s[at] == '@'
         && (forall j :: 0 <= j < |s| && s[j] == '@' ==> j == at)
         && exists k :: at + 1 < k < |s| - 1 && s[k] == '.'
  }

  /** In a matching string, the first character outside [^\s@] is the '@' that
      ends the local part, and the local part is not empty. */
  lemma {:induction false} FirstStop(s: string, i: nat)
    requires i <= |s| && AllAddressChars(s[..i])
    requires i == |s| || !IsAddressChar(s[i])
    ensures EmailPattern(s) ==> 0 < i < |s| && s[i] == '@'
  {
    if EmailPattern(s) {
      var local: string, domain: string, tld: string :|
        IsRun(local) && IsRun(domain) && IsRun(tld) && s == local + "@" + domain + "." + tld;
      assert s[|local|] == '@';
      assert forall j :: 0 <= j < |local| ==> s[j] == local[j];
      assert forall j :: 0 <= j < i ==> s[j] == s[..i][j];
    }
  }

  /** Once the '@' that ends a run of [^\s@] is found, the rest of the pattern
      is a condition on what follows it: only [^\s@] characters, with a '.'
      strictly inside them. */
  lemma {:induction false} EmailPatternAt(s: string, at: nat)
    requires at < |s| && s[at] == '@' && AllAddressChars(s[..at])
    ensures EmailPattern(s) <==>
      at > 0 && AllAddressChars(s[at + 1..])
      && exists k :: at + 1 < k < |s| - 1 && s[k] == '.'
  {
    if EmailPattern(s) {
      var local: string, domain: string, tld: string :|
        IsRun(local) && IsRun(domain) && IsRun(tld) && s == local + "@" + domain + "." + tld;
      FirstStop(s, at);
      assert s[|local|] == '@';
      assert forall j :: 0 <= j < |local| ==> s[j] == local[j];
      assert forall j :: 0 <= j < at ==> s[j] == s[..at][j];
      assert s[at + 1..] == domain + "." + tld;
      var k := at + 1 + |domain|;
      assert s[k] == '.';
    }
    if at > 0 && AllAddressChars(s[at + 1..]) && exists k :: at + 1 < k < |s| - 1 && s[k] == '.' {
      var k :| at + 1 < k < |s| - 1 && s[k] == '.';
      var local, domain, tld := s[..at], s[at + 1..k], s[k + 1..];
      assert forall i :: 0 <= i < |domain| ==> domain[i] == s[at + 1..][i];
      assert forall i :: 0 <= i < |tld| ==> tld[i] == s[at + 1..][k - at + i];
      assert s == local + "@" + domain + "." + tld;
      assert IsRun(local) && IsRun(domain) && IsRun(tld);
    }
  }

  /** The split description and the split-free description agree. */
  lemma {:induction false} EmailPatternCharacterization(s: string)
    ensures EmailPattern(s) <==> SingleAtDottedDomain(s)
  {
    if EmailPattern(s) {
      var local: string, domain: string, tld: string :|
        IsRun(local) && IsRun(domain) && IsRun(tld) && s == local + "@" + domain + "." + tld;
      var at := |local|;
      assert s[at] == '@';
      assert s[..at] == local;
      EmailPatternAt(s, at);
      forall i | 0 <= i < |s| ensures !IsWhitespace(s[i]) && (s[i] == '@' ==> i == at) {
        if i < at {
          assert s[i] == s[..at][i];
        } else if i > at {
          assert s[i] == s[at + 1..][i - at - 1];
        }
      }
    }
    if SingleAtDottedDomain(s) {
      var at :| 0 < at < |s| && s[at] == '@'
        && (forall j :: 0 <= j < |s| && s[j] == '@' ==> j == at)
        && exists k :: at + 1 < k < |s| - 1 && s[k] == '.';
      assert AllAddressChars(s[..at]) by {
        forall i | 0 <= i < at ensures IsAddressChar(s[..at][i]) {
          assert s[..at][i] == s[i];
        }
      }
      assert AllAddressChars(s[at + 1..]) by {
        forall i | at + 1 <= i < |s| ensures IsAddressChar(s[i]) {
        }
      }
      EmailPatternAt(s, at);
    }
  }

  /** emailRegex.test: a scan for the run of [^\s@] that must end in the single
      '@', then a scan of the rest for [^\s@] characters and a '.' that is
      neither the first nor the last of them. */
  method MatchEmailPattern(s: string) returns (matched: bool)
    ensures matched == EmailPattern(s)
  {
    var i := 0;
    while i < |s| && IsAddressChar(s[i])
      invariant 0 <= i <= |s|
      invariant AllAddressChars(s[..i])
    {
      i := i + 1;
    }
    FirstStop(s, i);
    if i == 0 || i == |s| || s[i] != '@' {
      return false;
    }
    var at := i;
    var dot := false;
    i := at + 1;
    while i < |s| && IsAddressChar(s[i])
      invariant at + 1 <= i <= |s|
      invariant forall j :: at + 1 <= j < i ==> IsAddressChar(s[j])
      invariant dot <==> exists k :: at + 1 < k < i && k < |s| - 1 && s[k] == '.'
    {
      if s[i] == '.' && at + 1 < i < |s| - 1 {
        dot := true;
      }
      i := i + 1;
    }
    EmailPatternAt(s, at);
    if i < |s| {
      assert s[at + 1..][i - at - 1] == s[i];
      return false;
    }
    matched := dot;
  }

  /** validateEmail, as a specification: emptiness is tested before the
      pattern, so the empty string is "required" and never "invalid". */
  ghost function EmailError(email: string): (r: ErrorText)
    ensures r == EmailRequired <==> email == ""
    ensures r == NoError <==> SingleAtDottedDomain(email)
    ensures r == InvalidEmail <==> email != "" && !SingleAtDottedDomain(email)
  {
    EmailPatternCharacterization(email);
    if email == "" then EmailRequired
    else if !EmailPattern(email) then InvalidEmail
    else NoError
  }

  /** validateEmail, as the screen runs it. */
  method ValidateEmail(email: string) returns (r: ErrorText)
    ensures r == EmailError(email)
  {
    if email == "" {
      return EmailRequired;
    }
    var matched := MatchEmailPattern(email);
    r := if matched then NoError else InvalidEmail;
  }

  /** validatePassword: the checks are ordered and cover every length. */
  function ValidatePassword(password: string): (r: ErrorText)
    ensures r == PasswordRequired <==> |password| == 0
    ensures r == PasswordMinLength <==> 1 <= |password| <= 5
    ensures r == NoError <==> |password| >= 6
  {
    if password == "" then PasswordRequired
    else if |password| < 6 then PasswordMinLength
    else NoError
  }

  /** A string without '@' is invalid. */
  lemma NoAtIsInvalid()
    ensures EmailError("not-an-email") == InvalidEmail
  {
    var s := "not-an-email";
    assert AllAddressChars(s[..|s|]);
    FirstStop(s, |s|);
  }

  /** A plain address is accepted, and so is one whose domain holds more than
      one '.'. */
  lemma DottedDomainsAreValid()
    ensures EmailError("a@b.co") == NoError
    ensures EmailError("a@b.c.d") == NoError
  {
    var s, t := "a@b.co", "a@b.c.d";
    assert AllAddressChars(s[..1]) && AllAddressChars(s[2..]) && s[3] == '.';
    EmailPatternAt(s, 1);
    assert AllAddressChars(t[..1]) && AllAddressChars(t[2..]) && t[3] == '.';
    EmailPatternAt(t, 1);
  }

  /** A domain that starts or ends with its only '.' is rejected. */
  lemma EdgeDotsAreInvalid()
    ensures EmailError("a@.bc") == InvalidEmail
    ensures EmailError("a@bc.") == InvalidEmail
  {
    var s, t := "a@.bc", "a@bc.";
    assert AllAddressChars(s[..1]);
    EmailPatternAt(s, 1);
    assert AllAddressChars(t[..1]);
    EmailPatternAt(t, 1);
  }

  /** Whitespace and a second '@' are rejected. */
  lemma ForbiddenCharsAreInvalid()
    ensures EmailError("a b@c.d") == InvalidEmail
    ensures EmailError("a@b@c.d") == InvalidEmail
  {
    var s, t := "a b@c.d", "a@b@c.d";
    assert AllAddressChars(s[..1]) && IsWhitespace(s[1]);
    FirstStop(s, 1);
    assert AllAddressChars(t[..1]) && t[3] == '@';
    EmailPatternAt(t, 1);
  }

}
