/** The two pattern checks of `EmailValidator`: `validate_basic_regex` and
    `validate_rfc5322`. Each regular expression is given as a declarative
    language over strings, together with a deterministic scanner proved to
    accept exactly that language. Both patterns are applied with `re.match`
    and end in `$`, which in Python also matches just before one final
    newline; that is part of the model. */
module Syntax {
  import opened Text
  import opened Outcomes

  // ---------------------------------------------------------------------
  // Character classes of the two patterns (ASCII ranges, as in `re`)

  predicate IsAsciiLetter(c: char) { 'a' <= c <= 'z' || 'A' <= c <= 'Z' }

  predicate IsAlnum(c: char) { IsAsciiLetter(c) || '0' <= c <= '9' }

  /** `[a-zA-Z0-9._%+-]`, the local part of the basic pattern. */
  predicate IsBasicLocalChar(c: char) {
    IsAlnum(c) || c == '.' || c == '_' || c == '%' || c == '+' || c == '-'
  }

  /** `[a-zA-Z0-9.-]`, the domain body of the basic pattern. */
  predicate IsBasicDomainChar(c: char) { IsAlnum(c) || c == '.' || c == '-' }

  /** ``[a-zA-Z0-9.!#$%&'*+/=?^_`{|}~-]``, the local part of the RFC 5322 pattern. */
  predicate IsRfcLocalChar(c: char) {
    || IsAlnum(c) || c == '.' || c == '!' || c == '#' || c == '$' || c == '%' || c == '&'
    || c == '\'' || c == '*' || c == '+' || c == '/' || c == '=' || c == '?' || c == '^'
    || c == '_' || c == '`' || c == '{' || c == '|' || c == '}' || c == '~' || c == '-'
  }

  /** `[a-zA-Z0-9-]`, the inside of a domain label. */
  predicate IsLabelChar(c: char) { IsAlnum(c) || c == '-' }

  /** A character that may appear in an RFC 5322 domain: a label character or a dot. */
  predicate IsRfcDomainChar(c: char) { IsLabelChar(c) || c == '.' }

  // ---------------------------------------------------------------------
  // The `$` anchor

  /** The string the pattern body has to match under `re.match(... $)`:
      a final newline, if there is one, is left to `$`. */
  function StripFinalNewline(s: string): (t: string)
    ensures t == s || (s == t + "\n")
  {
    if |s| > 0 && s[|s| - 1] == '\n' then s[..|s| - 1] else s
  }

  /** `$` leaves the count of any other character alone. */
  lemma NewlineKeepsCount(s: string, c: char)
    requires c != '\n'
    ensures Count(StripFinalNewline(s), c) == Count(s, c)
  {
    var t := StripFinalNewline(s);
    if t != s {
      assert s == t + "\n";
      CountAppend(t, "\n", c);
      assert Count("\n", c) == 0;
    }
  }

  // ---------------------------------------------------------------------
  // Basic pattern: ^[a-zA-Z0-9._%+-]+@[a-zA-Z0-9.-]+\.[a-zA-Z]{2,}$

  /** `t` matches the basic pattern body with its `@` at index `at` and the
      dot before the top-level label at index `dot`. */
  ghost predicate BasicSplitAt(t: string, at: nat, dot: nat) {
    && 0 < at && at + 1 < dot && dot + 2 < |t|
    && t[at] == '@' && t[dot] == '.'
    && All(t[..at], IsBasicLocalChar)
    && All(t[at + 1..dot], IsBasicDomainChar)
    && All(t[dot + 1..], IsAsciiLetter)
  }

  /** The language of the basic pattern body (without anchors). */
  ghost predicate InBasicLanguage(t: string) {
    exists at: nat, dot: nat :: BasicSplitAt(t, at, dot)
  }

  /** `re.match` of the whole basic pattern: the body matches all of `s`, or
      all of `s` but one final newline. */
  ghost predicate BasicRegexMatches(s: string) {
    || InBasicLanguage(s)
    || (|s| > 0 && s[|s| - 1] == '\n' && InBasicLanguage(s[..|s| - 1]))
  }

  /** Deterministic recogniser of the basic body: the `@` must be the first
      one and the dot the last one. */
  function ScanBasic(t: string): bool {
    var at := Find(t, '@');
    var dot := FindLast(t, '.');
    && 0 < at && at + 1 < dot && dot + 2 < |t|
    && All(t[..at], IsBasicLocalChar)
    && All(t[at + 1..dot], IsBasicDomainChar)
    && All(t[dot + 1..], IsAsciiLetter)
  }

  /** The scanner accepts exactly the basic language. */
  lemma ScanBasicCorrect(t: string)
    ensures ScanBasic(t) <==> InBasicLanguage(t)
  {
    if ScanBasic(t) {
      assert BasicSplitAt(t, Find(t, '@'), FindLast(t, '.'));
    }
    if InBasicLanguage(t) {
      var at: nat, dot: nat :| BasicSplitAt(t, at, dot);
      assert forall k :: 0 <= k < at ==> t[k] == t[..at][k];
      assert Find(t, '@') == at;
      assert forall k :: dot < k < |t| ==> t[k] == t[dot + 1..][k - dot - 1];
      assert FindLast(t, '.') == dot;
    }
  }

  /** No string of the basic language holds a newline. */
  lemma BasicLanguageNoNewline(t: string)
    requires InBasicLanguage(t)
    ensures |t| > 0 && t[|t| - 1] != '\n'
  {
    var at: nat, dot: nat :| BasicSplitAt(t, at, dot);
    assert t[|t| - 1] == t[dot + 1..][|t| - 1 - dot - 1];
  }

  /** The full `re.match` is decided by scanning the string without its final newline. */
  lemma BasicRegexByScan(s: string)
    ensures BasicRegexMatches(s) <==> ScanBasic(StripFinalNewline(s))
  {
    ScanBasicCorrect(StripFinalNewline(s));
    if InBasicLanguage(s) {
      BasicLanguageNoNewline(s);
    }
  }

  /** `validate_basic_regex`. */
  function ValidateBasicRegex(email: string): (r: Outcome)
    ensures r.valid != Skip
    ensures r.valid == Pass <==> BasicRegexMatches(email)
    ensures r.message == if r.valid == Pass then "Valid format" else "Invalid format"
  {
    BasicRegexByScan(email);
    if ScanBasic(StripFinalNewline(email)) then Outcome(Pass, "Valid format")
    else Outcome(Fail, "Invalid format")
  }

  /** What an accepted address looks like: exactly one `@`, a non-empty local
      part over the local class, at least one domain character before the
      last dot, and at least two ASCII letters after it; at most a final
      newline follows. */
  lemma BasicAcceptedShape(email: string)
    requires ValidateBasicRegex(email).valid == Pass
    ensures var t := StripFinalNewline(email);
      var at := Find(t, '@');
      var dot := FindLast(t, '.');
      && Count(email, '@') == 1
      && 0 < at && All(t[..at], IsBasicLocalChar)
      && at + 1 < dot < |t| && All(t[at + 1..dot], IsBasicDomainChar)
      && |t| - (dot + 1) >= 2 && All(t[dot + 1..], IsAsciiLetter)
  {
    var t := StripFinalNewline(email);
    BasicRegexByScan(email);
    assert ScanBasic(t);
    var at := Find(t, '@');
    var dot := FindLast(t, '.');
    BasicSingleAt(t, at, dot);
    CountSingle(t, '@', at);
    NewlineKeepsCount(email, '@');
  }

  /** In a scanned basic address the `@` found is the only one. */
  lemma BasicSingleAt(t: string, at: nat, dot: nat)
    requires 0 < at && at + 1 < dot < |t| && t[at] == '@' && t[dot] == '.'
    requires All(t[..at], IsBasicLocalChar)
    requires All(t[at + 1..dot], IsBasicDomainChar)
    requires All(t[dot + 1..], IsAsciiLetter)
    ensures forall k :: 0 <= k < |t| && k != at ==> t[k] != '@'
  {
    forall k | 0 <= k < |t| && k != at ensures t[k] != '@' {
      if k < at {
        assert t[k] == t[..at][k];
        assert IsBasicLocalChar(t[k]);
      } else if k < dot {
        assert t[k] == t[at + 1..dot][k - at - 1];
        assert IsBasicDomainChar(t[k]);
      } else if k > dot {
        assert t[k] == t[dot + 1..][k - dot - 1];
        assert IsAsciiLetter(t[k]);
      }
    }
  }

  // ---------------------------------------------------------------------
  // RFC 5322 pattern:
  // ^[local-class]+@[a-zA-Z0-9](?:[a-zA-Z0-9-]{0,61}[a-zA-Z0-9])?
  //   (?:\.[a-zA-Z0-9](?:[a-zA-Z0-9-]{0,61}[a-zA-Z0-9])?)*$

  /** One domain label: 1 to 63 characters, alphanumeric at both ends,
      alphanumeric or `-` inside. */
  predicate IsRfcLabel(l: string) {
    && 1 <= |l| <= 63
    && IsAlnum(l[0]) && IsAlnum(l[|l| - 1])
    && All(l, IsLabelChar)
  }

  predicate AllLabels(labels: seq<string>) {
    forall i :: 0 <= i < |labels| ==> IsRfcLabel(labels[i])
  }

  /** The domain part of the RFC 5322 pattern: one or more labels joined by dots. */
  ghost predicate IsRfcDomain(d: string) {
    exists labels: seq<string> :: |labels| >= 1 && AllLabels(labels) && Join(labels, ".") == d
  }

  /** `t` matches the RFC 5322 body with its `@` at index `at`. */
  ghost predicate RfcSplitAt(t: string, at: nat) {
    && 0 < at < |t| && t[at] == '@'
    && All(t[..at], IsRfcLocalChar)
    && IsRfcDomain(t[at + 1..])
  }

  ghost predicate InRfcLanguage(t: string) {
    exists at: nat :: RfcSplitAt(t, at)
  }

  /** `re.match` of the whole RFC 5322 pattern, `$` included. */
  ghost predicate RfcRegexMatches(s: string) {
    || InRfcLanguage(s)
    || (|s| > 0 && s[|s| - 1] == '\n' && InRfcLanguage(s[..|s| - 1]))
  }

  /** Deterministic recogniser of the RFC 5322 body: split at the first `@`,
      split the rest at every dot, check each label. */
  function ScanRfc(t: string): bool {
    var at := Find(t, '@');
    && 0 < at < |t|
    && All(t[..at], IsRfcLocalChar)
    && AllLabels(Split(t[at + 1..], '.'))
  }

  /** Dot-splitting decides the domain language. */
  lemma RfcDomainBySplit(d: string)
    ensures IsRfcDomain(d) <==> AllLabels(Split(d, '.'))
  {
    if IsRfcDomain(d) {
      var labels :| |labels| >= 1 && AllLabels(labels) && Join(labels, ".") == d;
      forall i | 0 <= i < |labels| ensures '.' !in labels[i] {
        var l := labels[i];
        assert IsRfcLabel(l);
        assert forall k :: 0 <= k < |l| ==> l[k] != '.';
      }
      SplitJoin(labels, '.');
    }
    if AllLabels(Split(d, '.')) {
      JoinSplit(d, '.');
    }
  }

  /** A dot-join of labels holds only label characters and dots. */
  lemma {:induction false} JoinedLabelChars(labels: seq<string>)
    requires AllLabels(labels)
    ensures All(Join(labels, "."), IsRfcDomainChar)
  {
    if |labels| > 1 {
      JoinedLabelChars(labels[1..]);
      var j := Join(labels, ".");
      var l := labels[0];
      var rest := Join(labels[1..], ".");
      assert j == l + "." + rest;
      forall k | 0 <= k < |j| ensures IsRfcDomainChar(j[k]) {
        if k < |l| {
          assert j[k] == l[k];
        } else if k > |l| {
          assert j[k] == rest[k - |l| - 1];
        }
      }
    } else if |labels| == 1 {
      assert IsRfcLabel(labels[0]);
    }
  }

  /** A dot-join of labels starts and ends with an alphanumeric character. */
  lemma {:induction false} JoinedLabelsEnds(labels: seq<string>)
    requires |labels| >= 1 && AllLabels(labels)
    ensures var j := Join(labels, ".");
      |j| >= 1 && IsAlnum(j[0]) && IsAlnum(j[|j| - 1])
  {
    var l := labels[0];
    assert IsRfcLabel(l);
    if |labels| > 1 {
      var rest := Join(labels[1..], ".");
      JoinedLabelsEnds(labels[1..]);
      var j := Join(labels, ".");
      assert j == l + "." + rest;
      assert j[0] == l[0];
      assert j[|j| - 1] == rest[|rest| - 1];
    }
  }

  /** The RFC 5322 scanner accepts exactly the RFC 5322 language. */
  lemma ScanRfcCorrect(t: string)
    ensures ScanRfc(t) <==> InRfcLanguage(t)
  {
    if ScanRfc(t) {
      var at := Find(t, '@');
      RfcDomainBySplit(t[at + 1..]);
      assert RfcSplitAt(t, at);
    }
    if InRfcLanguage(t) {
      var at: nat :| RfcSplitAt(t, at);
      assert forall k :: 0 <= k < at ==> t[k] == t[..at][k];
      assert Find(t, '@') == at;
      RfcDomainBySplit(t[at + 1..]);
    }
  }

  lemma RfcLanguageNoNewline(t: string)
    requires InRfcLanguage(t)
    ensures |t| > 0 && t[|t| - 1] != '\n'
  {
    var at: nat :| RfcSplitAt(t, at);
    var d := t[at + 1..];
    var labels :| |labels| >= 1 && AllLabels(labels) && Join(labels, ".") == d;
    JoinedLabelsEnds(labels);
    assert t[|t| - 1] == d[|d| - 1];
  }

  lemma RfcRegexByScan(s: string)
    ensures RfcRegexMatches(s) <==> ScanRfc(StripFinalNewline(s))
  {
    ScanRfcCorrect(StripFinalNewline(s));
    if InRfcLanguage(s) {
      RfcLanguageNoNewline(s);
    }
  }

  /** `validate_rfc5322`. */
  function ValidateRfc5322(email: string): (r: Outcome)
    ensures r.valid != Skip
    ensures r.valid == Pass <==> RfcRegexMatches(email)
    ensures r.message == if r.valid == Pass then "RFC 5322 compliant" else "Not RFC 5322 compliant"
  {
    RfcRegexByScan(email);
    if ScanRfc(StripFinalNewline(email)) then Outcome(Pass, "RFC 5322 compliant")
    else Outcome(Fail, "Not RFC 5322 compliant")
  }

  /** What an RFC 5322-accepted address looks like: exactly one `@`, a
      non-empty local part over the RFC token class, and a domain that is the
      dot-join of its labels, each label valid, so that no label is empty and
      the domain neither starts nor ends with a dot. */
  lemma RfcAcceptedShape(email: string)
    requires ValidateRfc5322(email).valid == Pass
    ensures var t := StripFinalNewline(email);
      var at := Find(t, '@');
      var domain := t[at + 1..];
      var labels := Split(domain, '.');
      && Count(email, '@') == 1
      && 0 < at < |t| && All(t[..at], IsRfcLocalChar)
      && AllLabels(labels) && Join(labels, ".") == domain
      && |domain| >= 1 && IsAlnum(domain[0]) && IsAlnum(domain[|domain| - 1])
  {
    RfcRegexByScan(email);
    RfcScannedShape(StripFinalNewline(email));
    NewlineKeepsCount(email, '@');
  }

  lemma RfcScannedShape(t: string)
    requires ScanRfc(t)
    ensures var at := Find(t, '@');
      var domain := t[at + 1..];
      && Count(t, '@') == 1
      && Join(Split(domain, '.'), ".") == domain
      && |domain| >= 1 && IsAlnum(domain[0]) && IsAlnum(domain[|domain| - 1])
  {
    var at := Find(t, '@');
    var domain := t[at + 1..];
    RfcDomainShape(domain);
    RfcSingleAt(t, at);
    CountSingle(t, '@', at);
  }

  /** A domain whose dot-split pieces are all labels is their join, has only
      domain characters and starts and ends alphanumeric. */
  lemma RfcDomainShape(domain: string)
    requires AllLabels(Split(domain, '.'))
    ensures Join(Split(domain, '.'), ".") == domain
    ensures All(domain, IsRfcDomainChar)
    ensures |domain| >= 1 && IsAlnum(domain[0]) && IsAlnum(domain[|domain| - 1])
  {
    JoinSplit(domain, '.');
    JoinedDomainShape(Split(domain, '.'), domain);
  }

  lemma JoinedDomainShape(labels: seq<string>, domain: string)
    requires |labels| >= 1 && AllLabels(labels) && Join(labels, ".") == domain
    ensures All(domain, IsRfcDomainChar)
    ensures |domain| >= 1 && IsAlnum(domain[0]) && IsAlnum(domain[|domain| - 1])
  {
    JoinedLabelsEnds(labels);
    JoinedLabelChars(labels);
  }

  /** In a scanned RFC 5322 address the `@` found is the only one. */
  lemma RfcSingleAt(t: string, at: nat)
    requires 0 < at < |t| && t[at] == '@'
    requires All(t[..at], IsRfcLocalChar)
    requires All(t[at + 1..], IsRfcDomainChar)
    ensures forall k :: 0 <= k < |t| && k != at ==> t[k] != '@'
  {
    forall k | 0 <= k < |t| && k != at ensures t[k] != '@' {
      if k < at {
        assert t[k] == t[..at][k];
        assert IsRfcLocalChar(t[k]);
      } else {
        assert t[k] == t[at + 1..][k - at - 1];
        assert IsRfcDomainChar(t[k]);
      }
    }
  }

  // ---------------------------------------------------------------------
  // Addresses the program is documented against

  /** "user@example.com" passes both pattern checks. */
  lemma ExampleUserAtExampleCom()
    ensures ValidateBasicRegex("user@example.com") == Outcome(Pass, "Valid format")
    ensures ValidateRfc5322("user@example.com") == Outcome(Pass, "RFC 5322 compliant")
  {
    ExampleBasicLanguage();
    ExampleRfcLanguage();
  }

  lemma ExampleBasicLanguage()
    ensures InBasicLanguage("user@example.com")
  {
    var e := "user@example.com";
    assert e[..4] == "user" && e[5..12] == "example" && e[13..] == "com";
    assert BasicSplitAt(e, 4, 12);
  }

  lemma ExampleRfcLanguage()
    ensures InRfcLanguage("user@example.com")
  {
    var e := "user@example.com";
    assert e[..4] == "user" && e[5..] == "example.com";
    var labels := ["example", "com"];
    assert IsRfcLabel("example") && IsRfcLabel("com");
    assert Join(labels, ".") == e[5..];
    assert RfcSplitAt(e, 4);
  }

  /** `$` lets one final newline through: "user@example.com\n" passes both checks. */
  lemma ExampleTrailingNewline()
    ensures ValidateBasicRegex("user@example.com" + "\n").valid == Pass
    ensures ValidateRfc5322("user@example.com" + "\n").valid == Pass
  {
    var e := "user@example.com";
    var s := e + "\n";
    ExampleUserAtExampleCom();
    assert InBasicLanguage(e) && InRfcLanguage(e);
    assert s[..|s| - 1] == e;
    assert BasicRegexMatches(s) && RfcRegexMatches(s);
  }

  /** An address without `@` fails both pattern checks. */
  lemma NoAtFailsBoth(email: string)
    requires '@' !in email
    ensures ValidateBasicRegex(email) == Outcome(Fail, "Invalid format")
    ensures ValidateRfc5322(email) == Outcome(Fail, "Not RFC 5322 compliant")
  {
    var t := StripFinalNewline(email);
    assert '@' !in t by {
      if t != email {
        assert forall k :: 0 <= k < |t| ==> t[k] == email[k];
      }
    }
    assert Find(t, '@') == |t|;
    assert !ScanBasic(t) && !ScanRfc(t);
  }

  /** "not-an-email" has no `@` and fails both checks. */
  lemma ExampleNotAnEmail()
    ensures ValidateBasicRegex("not-an-email") == Outcome(Fail, "Invalid format")
    ensures ValidateRfc5322("not-an-email") == Outcome(Fail, "Not RFC 5322 compliant")
  {
    assert '@' !in "not-an-email";
    NoAtFailsBoth("not-an-email");
  }
}
