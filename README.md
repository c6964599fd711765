# Email validator — a Dafny model

`email_checker.py` defines one class, `EmailValidator`. It holds one email
address and runs six checks on it in a fixed order:

1. a basic regular expression;
2. an RFC 5322-style regular expression;
3. the optional `email_validator` library;
4. an MX lookup of the domain;
5. an A lookup of the domain;
6. an SMTP `RCPT TO` probe of the first mail exchanger.

Every check yields a tri-state verdict (`True`, `False`, or `None` for
"skipped because a library is missing") and a message. The pipeline stores
each pair in the ordered dict `self.results` under the check's name. A
check that raises is stored as a failure whose message is `"Error: "`
followed by the exception text. Finally the summary counts passes, failures
and skips and chooses one of three verdicts.

The model has six modules, one file each:

- `Text.dfy`: the string tools the checks rely on. It has a first and last
  occurrence of a character, Python's `str.split` and `str.join` with their
  round trip, and the decimal rendering used by `str(len(...))` and
  `str(code)`, proved injective.
- `Outcomes.dfy`: the tri-state verdict, the `(valid, message)` pair and
  "returned or raised".
- `Syntax.dfy`: the two regex checks. Each pattern's language is a
  declarative ghost predicate. It takes the split points as existential
  witnesses, and for RFC 5322 a list of domain labels. `re.match` with
  `^...$` accepts a string when the body matches all of it, or all of it
  minus one final `"\n"`, because Python's `$` also matches before a final
  newline. The model follows that. A deterministic scanner is proved equal
  to each language, and the checks are written with the scanner.
- `Checks.dfy`: the library, DNS and SMTP checks. The outside world enters
  as function parameters:
  - the library is a `LibraryAnswer`;
  - the resolver is `(domain, record type) -> answer or classified error`;
  - the SMTP session is `(host, address) -> reply code and text, or error`.
- `Aggregate.dfy`: the counts and the verdict of `print_summary`.
- `Pipeline.dfy`: the class `EmailValidator`. Its field `results` is the
  ordered dict, and `RunAllValidations` is the loop over the six tests.

The code takes the domain from `email.split('@')[1]`. That is the text
between the first and the second `@`, not everything after the first `@`.
The model follows the code (`Checks.DomainOf`, `Checks.DomainIsSecondPiece`).
A missing `@` raises `IndexError`, and the checks handle it differently:

- `check_dns_mx` catches it explicitly and reports "Invalid email format (no @ symbol)".
- `check_dns_a` has no branch of its own for it and reports "No A records found: " followed by the error text.
- `verify_smtp` has no branch of its own for it and reports "SMTP verification failed: " followed by the error text.

## Model

| member | source | states |
|---|---|---|
| Syntax.ValidateBasicRegex | email_checker.py:40-45 | never skips; passes exactly when the address is in the basic pattern's language, whole or before one final newline; message "Valid format" on a pass, "Invalid format" otherwise |
| Syntax.ScanBasicCorrect | email_checker.py:42-43 | the scanner (first `@`, last `.`) accepts exactly the strings of the basic pattern's language |
| Syntax.BasicRegexByScan | email_checker.py:42-43 | `^…$` under `re.match` accepts exactly when the scanner accepts the string with at most one final newline removed |
| Syntax.BasicAcceptedShape | email_checker.py:42-45 | an accepted address has exactly one `@`; a non-empty local part of `[a-zA-Z0-9._%+-]`; a dot after at least one domain character; at least two letters after the last dot |
| Syntax.ValidateRfc5322 | email_checker.py:47-52 | never skips; passes exactly when the address is in the RFC pattern's language, whole or before one final newline; message "RFC 5322 compliant" or "Not RFC 5322 compliant" |
| Syntax.RfcDomainBySplit | email_checker.py:49 | a string is a dot-separated sequence of labels (1 to 63 characters, letters/digits/hyphens, letter or digit at both ends) exactly when every piece of its split on `.` is such a label |
| Syntax.ScanRfcCorrect | email_checker.py:49-50 | the scanner accepts exactly the strings of the RFC pattern's language |
| Syntax.RfcRegexByScan | email_checker.py:49-50 | `re.match` with the RFC pattern accepts exactly when the scanner accepts the string with at most one final newline removed |
| Syntax.RfcAcceptedShape | email_checker.py:49-52 | an accepted address has exactly one `@` and a non-empty local part of RFC token characters; its domain is the join, with `.`, of valid labels, and starts and ends with a letter or digit |
| Syntax.NoAtFailsBoth | email_checker.py:40-52 | an address without `@` fails both pattern checks, with their fail messages |
| Syntax.ExampleUserAtExampleCom | email_checker.py:40-52 | `user@example.com` passes both patterns with their pass messages |
| Syntax.ExampleTrailingNewline | email_checker.py:40-52 | `user@example.com` followed by a newline also passes both patterns |
| Syntax.ExampleNotAnEmail | email_checker.py:40-52 | `not-an-email` fails both patterns with their fail messages |
| Checks.DomainOf | email_checker.py:71 | absent exactly when the address has no `@`; otherwise the text after the first `@`, up to the next `@` or the end, which holds no `@` |
| Checks.DomainIsSecondPiece | email_checker.py:71 | the domain is piece 1 of `email.split('@')` when there are at least two pieces, and absent otherwise |
| Checks.DomainOfSingleAt | email_checker.py:71 | for `local@domain` with no other `@`, the queried domain is `domain` |
| Checks.ValidateWithLibrary | email_checker.py:54-63 | skipped exactly when the library is missing; passes exactly when the library normalizes the address; raises exactly when the library throws something other than a validation error |
| Checks.FirstThree | email_checker.py:73-74 | the listed values are the first `min(3, n)` records, in resolver order |
| Checks.CheckDnsMx | email_checker.py:65-84 | skipped exactly without DNS; no `@` fails with the "no @ symbol" message; records pass with the full record count and the first three hosts; NXDOMAIN, NoAnswer, NoNameservers and other errors fail with their own messages |
| Checks.MxFailureMessagesDistinct | email_checker.py:75-84 | two different failure causes of the MX check never produce the same message |
| Checks.MxFailureIsNotSuccess | email_checker.py:74-84 | no failure message of the MX check equals a success message |
| Checks.CheckDnsA | email_checker.py:86-97 | skipped exactly without DNS; records pass with count and first three addresses; every failure, a missing `@` included, is "No A records found: " plus the error text |
| Checks.ClassifyReply | email_checker.py:118-123 | never skips; passes exactly for reply codes 250 and 251; 250 reads "Mailbox verified (code 250)"; 251 reads "User not local, will forward (code 251)"; any other code reads "Verification failed (code N): " followed by the server's text |
| Checks.VerifySmtp | email_checker.py:99-126 | skipped exactly without DNS; a missing `@`, a resolver error or a broken session fails with "SMTP verification failed: " plus the error text; otherwise the reply code of the first MX host decides |
| Checks.SmtpPassesIff | email_checker.py:99-126 | the SMTP check passes exactly when DNS is present, the address has an `@`, MX records exist and the first host answers 250 or 251 |
| Checks.ChecksQueryDomainOnly | email_checker.py:71-115 | the domain checks depend on the outside world only through the domain's MX and A answers, and the SMTP check only through the session with the first MX host |
| Checks.SkipRules | email_checker.py:54-102 | without DNS all three domain checks are skipped with their messages; without the library its check is skipped |
| Checks.ExampleNonexistentDomain | email_checker.py:65-76 | if the resolver reports NXDOMAIN for `nonexistent-domain-xyz123.invalid`, the MX check of `user@nonexistent-domain-xyz123.invalid` fails with "Domain does not exist" |
| Text.DecimalRoundTrip | email_checker.py:74 | the decimal rendering of a record count reads back as that count |
| Text.IntToDecimalInjective | email_checker.py:119-123 | different reply codes render to different texts |
| Text.JoinSplit | email_checker.py:71 | joining the pieces of a split with the separator gives back the string |
| Text.SplitJoin | email_checker.py:74 | splitting a join of separator-free pieces gives back the pieces |
| Aggregate.CountsPartition | email_checker.py:195-197 | passed + failed + skipped is the number of stored results |
| Aggregate.CountZeroIff | email_checker.py:196 | a count is zero exactly when no stored result is in that state |
| Aggregate.CountFullIff | email_checker.py:195-197 | a count equals the number of results exactly when every result is in that state |
| Aggregate.VerdictOf | email_checker.py:207-212 | the verdict is "valid and secure" if and only if passed >= 4 and failed == 0; "mixed" if and only if passed >= 2 and failed <= 2 without the first tier; "likely invalid" if and only if passed < 2 or failed > 2 |
| Aggregate.Summarize | email_checker.py:195-212 | passed, failed and skipped are the numbers of Pass, Fail and Skip entries, and they add up to the total; the verdict is "valid and secure" if and only if there are at least four passes and no entry fails; it is "likely invalid" if and only if there are fewer than two passes or more than two failures |
| Aggregate.VerdictBoundaries | email_checker.py:207-212 | (4,0) is valid and secure; (4,1), (3,0) and (2,2) are mixed; (2,3), (1,0) and (1,5) are likely invalid |
| Aggregate.VerdictMonotone | email_checker.py:207-212 | more passes or fewer failures never make the verdict worse |
| Aggregate.VerdictOverSix | email_checker.py:207-212 | over six results, "valid and secure" allows at most two skips, and "mixed" has at least two passes and at most two failures |
| Pipeline.TestNamesDistinct | email_checker.py:136-143 | the six test names are pairwise distinct, so each check gets its own entry |
| Pipeline.CheckAttempts | email_checker.py:136-143 | one attempt per test name; every attempt except the library check's (index 2) returns rather than raises |
| Pipeline.Recorded | email_checker.py:149-182 | a returned pair is stored as it is; a raised exception is stored as a failure whose message is "Error: " followed by the exception text |
| Pipeline.Store | email_checker.py:169-182 | assigning to a dict key: the key then maps to the new value, other keys keep theirs, an existing key keeps its position, a new key goes at the end |
| Pipeline.StoreAllFresh | email_checker.py:145-182 | storing distinct keys into an empty dict puts the pairs side by side in order |
| Pipeline.EmailValidator.constructor | email_checker.py:36-38 | the validator holds the address and an empty results dict |
| Pipeline.EmailValidator.Summary | email_checker.py:189-212 | passed, failed and skipped are the numbers of stored results whose state is Pass, Fail and Skip; the total is the number of stored results, and the three counts add up to it; the verdict is the three-tier verdict of those counts |
| Pipeline.EmailValidator.RunAllValidations | email_checker.py:128-187 | every test runs and its outcome, or its "Error: " failure, is stored under its name; on a fresh validator the results are exactly the six pairs in test order; the returned dict is `results`, and the summary is computed from it |
| Pipeline.FreshReportShape | email_checker.py:136-187 | a fresh run's keys are the six names in order, and its values are the recorded attempts of the six checks |
| Pipeline.FreshRunStates | email_checker.py:54-102 | in a fresh run the two pattern checks never skip; without DNS the last three skip; without the library the third skips |
| Pipeline.FreshRunCounts | email_checker.py:189-212 | a fresh run counts six results, at most four skipped; without DNS at least three are skipped, at most three pass and the verdict is never "valid and secure"; with neither library, exactly four are skipped |
| Pipeline.FreshRunWithoutAt | email_checker.py:65-126 | an address without `@` under DNS yields the three no-`@` failure messages of the domain checks, and all six entries are stored |

## Left out

- DNS, SMTP and the `email_validator` library become function parameters. Their behaviour, timeouts and sockets are not modelled.
- `socket.getfqdn()`, the sender `verify@example.com` and `server.quit()` have no effect on the outcome in the model: the whole SMTP session is one `SmtpExchange`.
- `verify_smtp` resolves MX a second time. The model uses one function for both lookups, so both answers are the same.
- Checks.VerifySmtp: the model takes the reply text as already decoded. A `message.decode()` failure counts as a `Broken` session, which Python reports in the same way.
- The text of every exception is an opaque string. The `IndexError` text is taken to be "list index out of range".
- Checks.RecordList: an empty answer is excluded, because `dns.resolver.resolve` raises `NoAnswer` in that case.
- The elapsed time stored with each result is not modelled, and neither are `time.time()` and the time lines of the report.
- Printing is not modelled: the report banner, the per-test status lines and the summary text. `Summary` returns the counts and the verdict instead.
- Pipeline.Recorded: the model stores a returned pair as it is, so it assumes printing succeeds. The status, result and time prints sit inside the `try` (lines 165-167). If one of them raised, for example when "✓" cannot be encoded on stdout, Python would store an "Error: " failure for a check that had returned normally. The print at line 176 could then also raise and end the run. The model captures neither case.
- Not modelled: `main`, the command line, `strip()` of the argument and the exit code.
- `HAS_REQUESTS` and the unused `requests` and `hashlib` imports are not modelled.
- `BaseException`s that are not `Exception`s (for example `KeyboardInterrupt`) are not modelled: they would abort the run.
- Only the library check can raise out of its test function. The other five catch everything or cannot fail, as `Pipeline.CheckAttempts` states.
