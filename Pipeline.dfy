/** `EmailValidator.run_all_validations`: the six named checks run in a fixed
    order, each result is stored in `self.results` under its name, a check
    that raises is stored as a failure whose message starts with "Error: ",
    and then the summary is computed. `self.results` is a Python dict, which
    keeps insertion order; it is modelled as a sequence of name/outcome pairs
    with distinct names. */
module Pipeline {
  import opened Text
  import opened Outcomes
  import opened Syntax
  import opened Checks
  import opened Aggregate

  /** The `tests` list, in order. */
  const TestNames: seq<string> := [
    "Basic Regex", "RFC 5322", "Email Validator Library",
    "DNS MX Records", "DNS A Records", "SMTP Verification"
  ]

  /** Characters 0 and 4 of a name: the first pair of positions at which
      the six test names all differ, so comparing tags is enough to tell
      them apart. */
  function NameTag(name: string): string
    requires |name| >= 5
  {
    [name[0], name[4]]
  }

  lemma TestNamesDistinct()
    ensures forall i, j :: 0 <= i < j < |TestNames| ==> TestNames[i] != TestNames[j]
  {
    // characters 0 and 4 already tell the names apart
    var tags := ["Bc", "R5", "El", "DM", "DA", "S "];
    assert NameTag(TestNames[0]) == tags[0];
    assert NameTag(TestNames[1]) == tags[1];
    assert NameTag(TestNames[2]) == tags[2];
    assert NameTag(TestNames[3]) == tags[3];
    assert NameTag(TestNames[4]) == tags[4];
    assert NameTag(TestNames[5]) == tags[5];
    assert forall i, j :: 0 <= i < j < |tags| ==> tags[i] != tags[j];
  }

  /** Everything outside the program that the checks consult. */
  datatype World = World(
    caps: Capabilities,
    library: string -> LibraryAnswer,
    resolve: (string, RecordType) -> DnsAnswer,
    probe: (string, string) -> SmtpExchange)

  /** What calling each entry of `tests` amounts to, in order. Only the
      library check can raise out of its test function; the others catch
      everything or cannot fail. */
  function CheckAttempts(world: World, email: string): (r: seq<Attempt>)
    ensures |r| == |TestNames|
    ensures forall i :: 0 <= i < |r| && i != 2 ==> r[i].Returned?
  {
    [ Returned(ValidateBasicRegex(email)),
      Returned(ValidateRfc5322(email)),
      ValidateWithLibrary(world.caps, world.library(email)),
      Returned(CheckDnsMx(world.caps, email, world.resolve)),
      Returned(CheckDnsA(world.caps, email, world.resolve)),
      Returned(VerifySmtp(world.caps, email, world.resolve, world.probe)) ]
  }

  /** The entry stored for one attempt: the returned pair, or, when the
      test raised, a failure carrying "Error: " and the exception's text. */
  function Recorded(a: Attempt): (o: Outcome)
    ensures a.Returned? ==> o == a.outcome
    ensures a.Raised? ==> o.valid == Fail && |o.message| >= 7 && o.message[..7] == "Error: "
    ensures a.Raised? ==> o.message[7..] == a.description
  {
    match a
    case Returned(outcome) => outcome
    case Raised(description) => Outcome(Fail, "Error: " + description)
  }

  function RecordedAll(attempts: seq<Attempt>): (r: seq<Outcome>)
    ensures |r| == |attempts|
    ensures forall i :: 0 <= i < |attempts| ==> r[i] == Recorded(attempts[i])
  {
    seq(|attempts|, i requires 0 <= i < |attempts| => Recorded(attempts[i]))
  }

  // ---------------------------------------------------------------------
  // The results dict

  type Results = seq<(string, Outcome)>

  function Keys(d: Results): (r: seq<string>)
    ensures |r| == |d| && forall i :: 0 <= i < |d| ==> r[i] == d[i].0
  {
    seq(|d|, i requires 0 <= i < |d| => d[i].0)
  }

  /** `results.values()`, in insertion order. */
  function Values(d: Results): (r: seq<Outcome>)
    ensures |r| == |d| && forall i :: 0 <= i < |d| ==> r[i] == d[i].1
  {
    seq(|d|, i requires 0 <= i < |d| => d[i].1)
  }

  predicate DistinctKeys(d: Results) {
    forall i, j :: 0 <= i < j < |d| ==> d[i].0 != d[j].0
  }

  /** Position of key `k`, or `|d|` when it is absent. */
  function KeyIndex(d: Results, k: string): (r: nat)
    ensures r <= |d|
    ensures r < |d| ==> d[r].0 == k
    ensures forall i :: 0 <= i < r ==> d[i].0 != k
  {
    if |d| == 0 then 0 else if d[0].0 == k then 0 else 1 + KeyIndex(d[1..], k)
  }

  /** `results[k]`, when present. */
  function Lookup(d: Results, k: string): Option<Outcome> {
    var i := KeyIndex(d, k);
    if i < |d| then Some(d[i].1) else None
  }

  /** `results[k] = v`: replace the value in place when `k` is present,
      otherwise append the pair at the end. */
  function Store(d: Results, k: string, v: Outcome): (r: Results)
    requires DistinctKeys(d)
    ensures DistinctKeys(r)
    ensures Lookup(r, k) == Some(v)
    ensures forall k' :: k' != k ==> Lookup(r, k') == Lookup(d, k')
    ensures KeyIndex(d, k) < |d| ==> Keys(r) == Keys(d)
    ensures KeyIndex(d, k) == |d| ==> r == d + [(k, v)]
  {
    var i := KeyIndex(d, k);
    if i < |d| then
      var r := d[i := (k, v)];
      assert forall k' :: k' != k ==> KeyIndex(r, k') == KeyIndex(d, k') by {
        forall k' | k' != k ensures KeyIndex(r, k') == KeyIndex(d, k') {
          KeyIndexUpdate(d, i, v, k');
        }
      }
      assert KeyIndex(r, k) == i by { KeyIndexUpdate(d, i, v, k); }
      r
    else
      var r := d + [(k, v)];
      assert forall k' :: k' != k ==> Lookup(r, k') == Lookup(d, k') by {
        forall k' | k' != k ensures Lookup(r, k') == Lookup(d, k') {
          KeyIndexAppend(d, k, v, k');
        }
      }
      assert KeyIndex(r, k) == |d| by { KeyIndexAppend(d, k, v, k); }
      r
  }

  lemma KeyIndexUpdate(d: Results, i: nat, v: Outcome, k': string)
    requires DistinctKeys(d) && i < |d|
    ensures KeyIndex(d[i := (d[i].0, v)], k') == KeyIndex(d, k')
  {
    var r := d[i := (d[i].0, v)];
    assert Keys(r) == Keys(d);
  }

  lemma KeyIndexAppend(d: Results, k: string, v: Outcome, k': string)
    requires KeyIndex(d, k) == |d|
    ensures k' == k ==> KeyIndex(d + [(k, v)], k') == |d|
    ensures k' != k ==> Lookup(d + [(k, v)], k') == Lookup(d, k')
  {
    var r := d + [(k, v)];
    var a, b := KeyIndex(r, k'), KeyIndex(d, k');
    assert forall i :: 0 <= i < |d| ==> r[i] == d[i];
    if k' != k {
      if b < |d| {
        assert a == b;
        assert Lookup(r, k') == Some(r[a].1) && Lookup(d, k') == Some(d[b].1);
      } else {
        assert r[|d|].0 != k';
        assert a == |r|;
        assert Lookup(r, k') == None && Lookup(d, k') == None;
      }
    } else {
      assert r[|d|].0 == k;
      assert forall i :: 0 <= i < |d| ==> r[i].0 != k;
    }
  }

  /** Storing the pairs `ks[i]: vs[i]` one after the other, in order. */
  function StoreAll(d: Results, ks: seq<string>, vs: seq<Outcome>): (r: Results)
    requires DistinctKeys(d) && |ks| == |vs|
    ensures DistinctKeys(r)
    decreases |ks|
  {
    if |ks| == 0 then d
    else Store(StoreAll(d, ks[..|ks| - 1], vs[..|vs| - 1]), ks[|ks| - 1], vs[|vs| - 1])
  }

  /** Into an empty dict, distinct keys are stored side by side, in order. */
  lemma {:induction false} StoreAllFresh(ks: seq<string>, vs: seq<Outcome>)
    requires |ks| == |vs|
    requires forall i, j :: 0 <= i < j < |ks| ==> ks[i] != ks[j]
    ensures var r := StoreAll([], ks, vs);
      |r| == |ks| && forall i :: 0 <= i < |ks| ==> r[i] == (ks[i], vs[i])
  {
    if |ks| > 0 {
      var n := |ks| - 1;
      StoreAllFresh(ks[..n], vs[..n]);
      var d := StoreAll([], ks[..n], vs[..n]);
      assert KeyIndex(d, ks[n]) == |d|;
      assert StoreAll([], ks, vs) == d + [(ks[n], vs[n])];
    }
  }

  // ---------------------------------------------------------------------
  // The validator object

  class EmailValidator {
    const email: string
    var results: Results

    ghost predicate Valid()
      reads this
    {
      DistinctKeys(results)
    }

    constructor (email: string)
      ensures Valid()
      ensures this.email == email && results == []
    {
      this.email := email;
      results := [];
    }

    /** `print_summary` without the printing: the counts and the verdict. */
    function Summary(): (s: Tally)
      reads this
      ensures s.passed == CountOf(Values(results), Pass)
      ensures s.failed == CountOf(Values(results), Fail)
      ensures s.skipped == CountOf(Values(results), Skip)
      ensures s.total == |results|
      ensures s.passed + s.failed + s.skipped == |results|
      ensures s.verdict == VerdictOf(s.passed, s.failed)
    {
      Summarize(Values(results))
    }

    /** `run_all_validations`. `oracle[i]` is what calling the i-th test
        function amounts to; `CheckAttempts(world, email)` is the oracle of a
        real run. Every test runs, whatever the earlier ones did. */
    method RunAllValidations(oracle: seq<Attempt>) returns (report: Results, summary: Tally)
      requires Valid()
      requires |oracle| == |TestNames|
      modifies this
      ensures Valid()
      ensures results == StoreAll(old(results), TestNames, RecordedAll(oracle))
      ensures old(results) == [] ==>
        && |results| == |TestNames|
        && forall i :: 0 <= i < |TestNames| ==> results[i] == (TestNames[i], Recorded(oracle[i]))
      ensures report == results
      ensures summary == Summarize(Values(results))
    {
      ghost var start := results;
      ghost var entries := RecordedAll(oracle);
      var i := 0;
      while i < |TestNames|
        invariant 0 <= i <= |TestNames|
        invariant DistinctKeys(results)
        invariant results == StoreAll(start, TestNames[..i], entries[..i])
        decreases |TestNames| - i
      {
        var name := TestNames[i];
        var entry: Outcome;
        match oracle[i] {
          case Returned(outcome) =>
            entry := outcome;
          case Raised(description) =>
            entry := Outcome(Fail, "Error: " + description);
        }
        StoreAllStep(start, TestNames, entries, i);
        results := Store(results, name, entry);
        i := i + 1;
      }
      assert TestNames[..i] == TestNames && entries[..i] == entries;
      if start == [] {
        TestNamesDistinct();
        StoreAllFresh(TestNames, entries);
      }
      report := results;
      summary := Summary();
    }
  }

  /** One more step of the loop stores one more pair. */
  lemma StoreAllStep(d: Results, ks: seq<string>, vs: seq<Outcome>, i: nat)
    requires DistinctKeys(d) && |ks| == |vs| && i < |ks|
    ensures StoreAll(d, ks[..i + 1], vs[..i + 1]) == Store(StoreAll(d, ks[..i], vs[..i]), ks[i], vs[i])
  {
    assert ks[..i + 1][..i] == ks[..i];
    assert vs[..i + 1][..i] == vs[..i];
  }

  // ---------------------------------------------------------------------
  // What a run on a fresh validator produces

  /** The results of `EmailValidator(email).run_all_validations()`. */
  function FreshReport(world: World, email: string): Results {
    StoreAll([], TestNames, RecordedAll(CheckAttempts(world, email)))
  }

  /** One entry per test name, in the order of `tests`. */
  lemma FreshReportShape(world: World, email: string)
    ensures var r := FreshReport(world, email);
      && Keys(r) == TestNames
      && Values(r) == RecordedAll(CheckAttempts(world, email))
  {
    TestNamesDistinct();
    StoreAllFresh(TestNames, RecordedAll(CheckAttempts(world, email)));
  }

  /** Which entries of a fresh run can be skipped. */
  lemma FreshRunStates(world: World, email: string)
    ensures var vs := Values(FreshReport(world, email));
      && |vs| == 6
      && vs[0].valid != Skip && vs[1].valid != Skip
      && (!world.caps.hasDns ==> vs[3].valid == Skip && vs[4].valid == Skip && vs[5].valid == Skip)
      && (!world.caps.hasEmailValidator ==> vs[2].valid == Skip)
  {
    FreshReportShape(world, email);
  }

  /** Counting six entries whose skips are known. */
  lemma SixEntryCounts(vs: seq<Outcome>, noDns: bool, noLibrary: bool)
    requires |vs| == 6
    requires vs[0].valid != Skip && vs[1].valid != Skip
    requires noDns ==> vs[3].valid == Skip && vs[4].valid == Skip && vs[5].valid == Skip
    requires noLibrary ==> vs[2].valid == Skip
    ensures var s := Summarize(vs);
      && s.passed + s.failed + s.skipped == 6
      && s.skipped <= 4
      && (noDns ==> s.skipped >= 3 && s.passed <= 3 && s.verdict != ValidAndSecure)
      && (noDns && noLibrary ==> s.skipped == 4 && s.passed + s.failed == 2)
  {
    var front, back := vs[..2], vs[2..];
    assert vs == front + back;
    CountConcat(front, back, Skip);
    CountConcat(front, back, Pass);
    CountZeroIff(front, Skip);
    if noDns {
      var lib, dns := back[..1], back[1..];
      assert back == lib + dns;
      CountConcat(lib, dns, Skip);
      CountConcat(lib, dns, Pass);
      CountFullIff(dns, Skip);
      CountZeroIff(dns, Pass);
      if noLibrary {
        CountFullIff(lib, Skip);
      }
    }
  }

  /** The counts of a run add up to six, the two pattern checks are never
      skipped, and without the DNS capability all three domain checks are
      skipped, so at most three checks can pass and the verdict is never
      "valid and secure". */
  lemma FreshRunCounts(world: World, email: string)
    ensures var s := Summarize(Values(FreshReport(world, email)));
      && s.passed + s.failed + s.skipped == 6
      && s.skipped <= 4
      && (!world.caps.hasDns ==> s.skipped >= 3 && s.passed <= 3 && s.verdict != ValidAndSecure)
      && (!world.caps.hasDns && !world.caps.hasEmailValidator ==> s.skipped == 4 && s.passed + s.failed == 2)
  {
    FreshRunStates(world, email);
    SixEntryCounts(Values(FreshReport(world, email)), !world.caps.hasDns, !world.caps.hasEmailValidator);
  }

  /** An address without `@` and with the DNS capability: the three domain
      checks fail with their no-`@` messages, and the run still stores all
      six entries. */
  lemma FreshRunWithoutAt(world: World, email: string)
    requires world.caps.hasDns && '@' !in email
    ensures var r := FreshReport(world, email);
      && Keys(r) == TestNames
      && r[3].1 == Outcome(Fail, NoAtMessage)
      && r[4].1 == Outcome(Fail, "No A records found: " + IndexErrorText)
      && r[5].1 == Outcome(Fail, "SMTP verification failed: " + IndexErrorText)
  {
    FreshReportShape(world, email);
  }
}
