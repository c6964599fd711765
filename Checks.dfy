/** The checks of `EmailValidator` that depend on optional capabilities and
    on the outside world: `validate_with_library`, `check_dns_mx`,
    `check_dns_a` and `verify_smtp`. The `email_validator` library, the DNS
    resolver and the SMTP session are parameters: each is a function from
    what the check asks to what comes back (a value or a classified error). */
module Checks {
  import opened Text
  import opened Outcomes

  /** `HAS_EMAIL_VALIDATOR` and `HAS_DNS`, fixed when the program starts. */
  datatype Capabilities = Capabilities(hasEmailValidator: bool, hasDns: bool)

  /** What `validate_email(email, check_deliverability=False)` does: return a
      normalized address, raise `EmailNotValidError`, or raise anything else. */
  datatype LibraryAnswer =
    | Normalized(normalized: string)
    | NotValid(reason: string)
    | Crashed(description: string)

  datatype RecordType = MX | A

  /** The `str()` of each record of an answer, in the order the resolver
      returned them. `dns.resolver.resolve` raises `NoAnswer` rather than
      return an empty answer, so an answer holds at least one record. */
  type RecordList = s: seq<string> | |s| > 0 witness [""]

  /** The exception classes that `check_dns_mx` tells apart. */
  datatype DnsErrorKind = NxDomain | NoAnswer | NoNameservers | OtherDnsError

  /** What `dns.resolver.resolve(domain, type)` does: answer, or raise. */
  datatype DnsAnswer =
    | Answer(records: RecordList)
    | DnsFailure(kind: DnsErrorKind, description: string)

  /** The SMTP session with the mail exchanger (connect, HELO, MAIL FROM,
      RCPT TO, QUIT): the RCPT reply code and its decoded text, or the
      `str()` of an exception raised anywhere in the exchange. */
  datatype SmtpExchange =
    | Replied(code: int, text: string)
    | Broken(description: string)

  /** `str()` of the `IndexError` raised by `email.split('@')[1]` when the
      address has no `@`. */
  const IndexErrorText: string := "list index out of range"

  const NoAtMessage: string := "Invalid email format (no @ symbol)"

  /** `email.split('@')[1]`: the text between the first and the second `@`
      (or the end), or nothing when `email` has no `@`. */
  function DomainOf(email: string): (r: Option<string>)
    ensures r.None? <==> '@' !in email
    ensures r.Some? ==>
      var i := Find(email, '@');
      var j := i + 1 + |r.value|;
      && j <= |email| && r.value == email[i + 1..j]
      && '@' !in r.value && (j == |email| || email[j] == '@')
  {
    var i := Find(email, '@');
    if i == |email| then None
    else
      var rest := email[i + 1..];
      var k := Find(rest, '@');
      assert k < |rest| ==> email[i + 1 + k] == rest[k];
      Some(rest[..k])
  }

  /** The first piece of a split runs up to the first separator. */
  lemma SplitHead(s: string, c: char)
    ensures Split(s, c)[0] == s[..Find(s, c)]
  {
  }

  /** `DomainOf` is the second piece of Python's `email.split('@')`. */
  lemma DomainIsSecondPiece(email: string)
    ensures var parts := Split(email, '@');
      DomainOf(email) == if |parts| >= 2 then Some(parts[1]) else None
  {
    var i := Find(email, '@');
    var parts := Split(email, '@');
    if i < |email| {
      var rest := email[i + 1..];
      var tail := Split(rest, '@');
      assert parts == [email[..i]] + tail;
      assert |parts| >= 2 && parts[1] == tail[0];
      SplitHead(rest, '@');
      assert DomainOf(email) == Some(rest[..Find(rest, '@')]);
    } else {
      assert parts == [email];
    }
  }

  // ---------------------------------------------------------------------
  // validate_with_library

  /** `validate_with_library`: skipped without the library; an answer from
      the library becomes a pass or a fail; any other exception escapes. */
  function ValidateWithLibrary(caps: Capabilities, answer: LibraryAnswer): (r: Attempt)
    ensures r.Returned? && r.outcome.valid == Skip <==> !caps.hasEmailValidator
    ensures r.Raised? <==> caps.hasEmailValidator && answer.Crashed?
    ensures r.Returned? && r.outcome.valid == Pass <==> caps.hasEmailValidator && answer.Normalized?
  {
    if !caps.hasEmailValidator then Returned(Outcome(Skip, "email-validator library not installed"))
    else match answer
      case Normalized(normalized) => Returned(Outcome(Pass, "Valid (normalized: " + normalized + ")"))
      case NotValid(reason) => Returned(Outcome(Fail, "Invalid: " + reason))
      case Crashed(description) => Raised(description)
  }

  // ---------------------------------------------------------------------
  // Success message shared by the two DNS checks

  function Min(a: nat, b: nat): nat { if a <= b then a else b }

  /** The values listed in a success message: `values[:3]`. */
  function FirstThree(values: seq<string>): (r: seq<string>)
    ensures |r| == Min(3, |values|)
    ensures forall k :: 0 <= k < |r| ==> r[k] == values[k]
  {
    values[..Min(3, |values|)]
  }

  /** `f"Found {len(records)} {kind} record(s): {', '.join(values[:3])}"`. */
  function FoundMessage(count: nat, kind: string, listed: seq<string>): string {
    "Found " + NatToDecimal(count) + " " + kind + " record(s): " + Join(listed, ", ")
  }

  /** The success message of a DNS check reports the full number of records
      and lists the first three of them (at most) in resolver order. */
  ghost predicate ReportsRecords(message: string, kind: string, records: RecordList) {
    exists listed: seq<string> ::
      && message == FoundMessage(|records|, kind, listed)
      && |listed| == Min(3, |records|)
      && listed == records[..|listed|]
  }

  // ---------------------------------------------------------------------
  // check_dns_mx

  /** The fixed message for each resolver error class in `check_dns_mx`. */
  function MxErrorMessage(kind: DnsErrorKind, description: string): string {
    match kind
    case NxDomain => "Domain does not exist"
    case NoAnswer => "No MX records found"
    case NoNameservers => "No nameservers available"
    case OtherDnsError => "DNS error: " + description
  }

  /** `check_dns_mx`: query the MX records of the text after the first `@`. */
  function CheckDnsMx(caps: Capabilities, email: string, resolve: (string, RecordType) -> DnsAnswer): (r: Outcome)
    ensures r.valid == Skip <==> !caps.hasDns
    ensures caps.hasDns && '@' !in email ==> r == Outcome(Fail, NoAtMessage)
    ensures caps.hasDns && '@' in email ==>
      match resolve(DomainOf(email).value, MX)
      case Answer(records) => r.valid == Pass && ReportsRecords(r.message, "MX", records)
      case DnsFailure(kind, description) => r == Outcome(Fail, MxErrorMessage(kind, description))
  {
    if !caps.hasDns then Outcome(Skip, "dnspython library not installed")
    else match DomainOf(email)
      case None => Outcome(Fail, NoAtMessage)
      case Some(domain) =>
        match resolve(domain, MX)
        case Answer(records) =>
          var listed := FirstThree(records);
          assert listed == records[..|listed|];
          Outcome(Pass, FoundMessage(|records|, "MX", listed))
        case DnsFailure(kind, description) => Outcome(Fail, MxErrorMessage(kind, description))
  }

  /** Why an MX check that ran could fail: no `@`, or an error class. */
  datatype MxCause = NoDomain | Resolver(kind: DnsErrorKind)

  function MxFailureMessage(cause: MxCause, description: string): string {
    match cause
    case NoDomain => NoAtMessage
    case Resolver(kind) => MxErrorMessage(kind, description)
  }

  /** Characters 0, 1 and 3 of the failure message for each cause. They
      come before any error text, and they already differ between every two
      causes, which is how the messages are told apart whatever the text. */
  function CauseTag(cause: MxCause): string {
    match cause
    case NoDomain => "Ina"
    case Resolver(NxDomain) => "Doa"
    case Resolver(NoAnswer) => "NoM"
    case Resolver(NoNameservers) => "Non"
    case Resolver(OtherDnsError) => "DN "
  }

  lemma MessageTag(cause: MxCause, description: string)
    ensures var m := MxFailureMessage(cause, description);
      |m| >= 4 && [m[0], m[1], m[3]] == CauseTag(cause)
  {
  }

  /** Each failure cause of the MX check has its own message: two different
      causes never produce the same text, whatever the error descriptions. */
  lemma MxFailureMessagesDistinct(c1: MxCause, d1: string, c2: MxCause, d2: string)
    requires c1 != c2
    ensures MxFailureMessage(c1, d1) != MxFailureMessage(c2, d2)
  {
    MessageTag(c1, d1);
    MessageTag(c2, d2);
  }

  /** No failure message of the MX check reads like its success message. */
  lemma MxFailureIsNotSuccess(cause: MxCause, description: string, count: nat, listed: seq<string>)
    ensures MxFailureMessage(cause, description) != FoundMessage(count, "MX", listed)
  {
    MessageTag(cause, description);
    assert FoundMessage(count, "MX", listed)[0] == 'F';
  }

  // ---------------------------------------------------------------------
  // check_dns_a

  /** `check_dns_a`: every failure, a missing `@` included, reads
      "No A records found: " followed by the error's text. */
  function CheckDnsA(caps: Capabilities, email: string, resolve: (string, RecordType) -> DnsAnswer): (r: Outcome)
    ensures r.valid == Skip <==> !caps.hasDns
    ensures caps.hasDns && '@' !in email ==> r == Outcome(Fail, "No A records found: " + IndexErrorText)
    ensures caps.hasDns && '@' in email ==>
      match resolve(DomainOf(email).value, A)
      case Answer(records) => r.valid == Pass && ReportsRecords(r.message, "A", records)
      case DnsFailure(_, description) => r == Outcome(Fail, "No A records found: " + description)
  {
    if !caps.hasDns then Outcome(Skip, "dnspython library not installed")
    else match DomainOf(email)
      case None => Outcome(Fail, "No A records found: " + IndexErrorText)
      case Some(domain) =>
        match resolve(domain, A)
        case Answer(records) =>
          var listed := FirstThree(records);
          assert listed == records[..|listed|];
          Outcome(Pass, FoundMessage(|records|, "A", listed))
        case DnsFailure(_, description) => Outcome(Fail, "No A records found: " + description)
  }

  // ---------------------------------------------------------------------
  // verify_smtp

  /** The reply-code classification at the end of `verify_smtp`. */
  function ClassifyReply(code: int, text: string): (r: Outcome)
    ensures r.valid != Skip
    ensures r.valid == Pass <==> code == 250 || code == 251
    ensures code == 250 ==> r.message == "Mailbox verified (code 250)"
    ensures code == 251 ==> r.message == "User not local, will forward (code 251)"
    ensures r.valid == Fail ==> r.message == "Verification failed (code " + IntToDecimal(code) + "): " + text
  {
    if code == 250 then Outcome(Pass, "Mailbox verified (code " + IntToDecimal(code) + ")")
    else if code == 251 then Outcome(Pass, "User not local, will forward (code " + IntToDecimal(code) + ")")
    else Outcome(Fail, "Verification failed (code " + IntToDecimal(code) + "): " + text)
  }

  function SmtpFailed(description: string): Outcome {
    Outcome(Fail, "SMTP verification failed: " + description)
  }

  /** `verify_smtp`: resolve MX again, open a session to the first exchanger
      in resolver order, propose the whole address as recipient. */
  function VerifySmtp(caps: Capabilities, email: string, resolve: (string, RecordType) -> DnsAnswer,
                      probe: (string, string) -> SmtpExchange): (r: Outcome)
    ensures r.valid == Skip <==> !caps.hasDns
    ensures caps.hasDns && '@' !in email ==> r == SmtpFailed(IndexErrorText)
    ensures caps.hasDns && '@' in email ==>
      match resolve(DomainOf(email).value, MX)
      case DnsFailure(_, description) => r == SmtpFailed(description)
      case Answer(records) =>
        match probe(records[0], email)
        case Broken(description) => r == SmtpFailed(description)
        case Replied(code, text) => r == ClassifyReply(code, text)
  {
    if !caps.hasDns then Outcome(Skip, "dnspython library required for SMTP check")
    else match DomainOf(email)
      case None => SmtpFailed(IndexErrorText)
      case Some(domain) =>
        match resolve(domain, MX)
        case DnsFailure(_, description) => SmtpFailed(description)
        case Answer(records) =>
          match probe(records[0], email)
          case Broken(description) => SmtpFailed(description)
          case Replied(code, text) => ClassifyReply(code, text)
  }

  /** The SMTP check passes exactly when the DNS capability is there, the
      address has an `@`, the domain has MX records and the first exchanger
      answers RCPT with 250 or 251. */
  lemma SmtpPassesIff(caps: Capabilities, email: string, resolve: (string, RecordType) -> DnsAnswer,
                      probe: (string, string) -> SmtpExchange)
    ensures VerifySmtp(caps, email, resolve, probe).valid == Pass <==>
      && caps.hasDns && DomainOf(email).Some?
      && var answer := resolve(DomainOf(email).value, MX);
      && answer.Answer?
      && var exchange := probe(answer.records[0], email);
      && exchange.Replied? && (exchange.code == 250 || exchange.code == 251)
  {
  }

  /** The three domain checks look at the outside world only through the
      domain `email.split('@')[1]`, and the SMTP check only through the
      first MX host and the full address: resolvers and sessions that agree
      there give the same outcomes. */
  lemma ChecksQueryDomainOnly(caps: Capabilities, email: string,
                              resolve1: (string, RecordType) -> DnsAnswer, resolve2: (string, RecordType) -> DnsAnswer,
                              probe1: (string, string) -> SmtpExchange, probe2: (string, string) -> SmtpExchange)
    requires DomainOf(email).Some? ==>
      var d := DomainOf(email).value;
      && resolve1(d, MX) == resolve2(d, MX) && resolve1(d, A) == resolve2(d, A)
      && (resolve1(d, MX).Answer? ==>
            var host := resolve1(d, MX).records[0];
            probe1(host, email) == probe2(host, email))
    ensures CheckDnsMx(caps, email, resolve1) == CheckDnsMx(caps, email, resolve2)
    ensures CheckDnsA(caps, email, resolve1) == CheckDnsA(caps, email, resolve2)
    ensures VerifySmtp(caps, email, resolve1, probe1) == VerifySmtp(caps, email, resolve2, probe2)
  {
  }

  /** Without the DNS capability all three domain checks are skipped; the
      library check is skipped exactly when the library is missing. */
  lemma SkipRules(caps: Capabilities, email: string, answer: LibraryAnswer,
                  resolve: (string, RecordType) -> DnsAnswer, probe: (string, string) -> SmtpExchange)
    ensures !caps.hasDns ==>
      && CheckDnsMx(caps, email, resolve) == Outcome(Skip, "dnspython library not installed")
      && CheckDnsA(caps, email, resolve) == Outcome(Skip, "dnspython library not installed")
      && VerifySmtp(caps, email, resolve, probe) == Outcome(Skip, "dnspython library required for SMTP check")
    ensures !caps.hasEmailValidator ==>
      ValidateWithLibrary(caps, answer) == Returned(Outcome(Skip, "email-validator library not installed"))
  {
  }

  /** For `local@domain` with a single `@`, the domain checks query `domain`. */
  lemma DomainOfSingleAt(local: string, domain: string)
    requires '@' !in local && '@' !in domain
    ensures DomainOf(local + "@" + domain) == Some(domain)
  {
    var e := local + "@" + domain;
    assert e[|local|] == '@';
    assert forall k :: 0 <= k < |local| ==> e[k] == local[k];
    assert Find(e, '@') == |local|;
    assert e[|local| + 1..] == domain;
    assert Find(domain, '@') == |domain|;
    assert domain[..|domain|] == domain;
    assert DomainOf(e) == Some(e[|local| + 1..][..Find(e[|local| + 1..], '@')]);
  }

  /** A domain with no such name: the MX check reports it as such. */
  lemma ExampleNonexistentDomain(caps: Capabilities, resolve: (string, RecordType) -> DnsAnswer, description: string)
    requires caps.hasDns
    requires resolve("nonexistent-domain-xyz123.invalid", MX) == DnsFailure(NxDomain, description)
    ensures CheckDnsMx(caps, "user" + "@" + "nonexistent-domain-xyz123.invalid", resolve)
         == Outcome(Fail, "Domain does not exist")
  {
    assert '@' !in "user";
    assert '@' !in "nonexistent-domain-xyz123.invalid";
    DomainOfSingleAt("user", "nonexistent-domain-xyz123.invalid");
  }
}
