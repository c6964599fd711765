/** The counting and the verdict of `print_summary`: passed, failed and
    skipped are the numbers of stored outcomes whose `valid` is `True`,
    `False` and `None`, and a fixed three-tier verdict is read off the
    first two. */
module Aggregate {
  import opened Outcomes

  /** `sum(1 for r in results.values() if r['valid'] is t)`. */
  function CountOf(entries: seq<Outcome>, t: TriState): (n: nat)
    ensures n <= |entries|
  {
    if |entries| == 0 then 0
    else (if entries[0].valid == t then 1 else 0) + CountOf(entries[1..], t)
  }

  /** A count is zero exactly when no entry is in that state. */
  lemma {:induction false} CountZeroIff(entries: seq<Outcome>, t: TriState)
    ensures CountOf(entries, t) == 0 <==> forall i :: 0 <= i < |entries| ==> entries[i].valid != t
  {
    if |entries| > 0 {
      CountZeroIff(entries[1..], t);
      assert forall i :: 1 <= i < |entries| ==> entries[i] == entries[1..][i - 1];
    }
  }

  /** A count is the full length exactly when every entry is in that state. */
  lemma {:induction false} CountFullIff(entries: seq<Outcome>, t: TriState)
    ensures CountOf(entries, t) == |entries| <==> forall i :: 0 <= i < |entries| ==> entries[i].valid == t
  {
    if |entries| > 0 {
      CountFullIff(entries[1..], t);
      assert forall i :: 1 <= i < |entries| ==> entries[i] == entries[1..][i - 1];
    }
  }

  lemma {:induction false} CountConcat(a: seq<Outcome>, b: seq<Outcome>, t: TriState)
    ensures CountOf(a + b, t) == CountOf(a, t) + CountOf(b, t)
  {
    if |a| == 0 {
      assert a + b == b;
    } else {
      assert (a + b)[1..] == a[1..] + b;
      CountConcat(a[1..], b, t);
    }
  }

  /** Every entry is in exactly one of the three states. */
  lemma {:induction false} CountsPartition(entries: seq<Outcome>)
    ensures CountOf(entries, Pass) + CountOf(entries, Fail) + CountOf(entries, Skip) == |entries|
  {
    if |entries| > 0 {
      CountsPartition(entries[1..]);
    }
  }

  /** The overall verdict printed at the end of the summary. */
  datatype Verdict = ValidAndSecure | MayBeValid | LikelyInvalid

  /** The three tiers: at least four passes and no failure; else at least
      two passes and at most two failures; else likely invalid. */
  function VerdictOf(passed: nat, failed: nat): (v: Verdict)
    ensures v == ValidAndSecure <==> passed >= 4 && failed == 0
    ensures v == MayBeValid <==> passed >= 2 && failed <= 2 && !(passed >= 4 && failed == 0)
    ensures v == LikelyInvalid <==> passed < 2 || failed > 2
  {
    if passed >= 4 && failed == 0 then ValidAndSecure
    else if passed >= 2 && failed <= 2 then MayBeValid
    else LikelyInvalid
  }

  /** How good a verdict is, best highest. */
  function Rank(v: Verdict): nat {
    match v
    case ValidAndSecure => 2
    case MayBeValid => 1
    case LikelyInvalid => 0
  }

  /** The counts and verdict of `print_summary`. */
  datatype Tally = Tally(passed: nat, failed: nat, skipped: nat, total: nat, verdict: Verdict)

  function Summarize(entries: seq<Outcome>): (s: Tally)
    ensures s.passed == CountOf(entries, Pass) && s.failed == CountOf(entries, Fail) && s.skipped == CountOf(entries, Skip)
    ensures s.passed + s.failed + s.skipped == s.total == |entries|
    ensures s.verdict == ValidAndSecure <==>
      s.passed >= 4 && forall i :: 0 <= i < |entries| ==> entries[i].valid != Fail
    ensures s.verdict == LikelyInvalid <==> s.passed < 2 || s.failed > 2
  {
    CountsPartition(entries);
    CountZeroIff(entries, Fail);
    var passed := CountOf(entries, Pass);
    var failed := CountOf(entries, Fail);
    Tally(passed, failed, CountOf(entries, Skip), |entries|, VerdictOf(passed, failed))
  }

  /** The boundary cases of the thresholds. */
  lemma VerdictBoundaries()
    ensures VerdictOf(4, 0) == ValidAndSecure
    ensures VerdictOf(4, 1) == MayBeValid
    ensures VerdictOf(3, 0) == MayBeValid
    ensures VerdictOf(2, 2) == MayBeValid
    ensures VerdictOf(2, 3) == LikelyInvalid
    ensures VerdictOf(1, 0) == LikelyInvalid
    ensures VerdictOf(1, 5) == LikelyInvalid
  {
  }

  /** More passes, or fewer failures, never make the verdict worse. */
  lemma VerdictMonotone(passed1: nat, failed1: nat, passed2: nat, failed2: nat)
    requires passed1 <= passed2 && failed2 <= failed1
    ensures Rank(VerdictOf(passed1, failed1)) <= Rank(VerdictOf(passed2, failed2))
  {
  }

  /** Over a report of six checks, "valid and secure" leaves room for at most
      two skipped checks, and "mixed results" needs at least two passes. */
  lemma VerdictOverSix(entries: seq<Outcome>)
    requires |entries| == 6
    ensures var s := Summarize(entries);
      && (s.verdict == ValidAndSecure ==> s.skipped <= 2)
      && (s.verdict == MayBeValid ==> s.passed >= 2 && s.failed <= 2 && s.skipped <= 4)
  {
  }
}
