/** Advisory check of a day's entries for gaps and overlaps between
    consecutive entries in start-slot order. */
module EntryValidator {
  import opened Text
  import opened LogTypes
  import opened EntryOrder

  /** A gap or an overlap, in minutes, between one entry's end and the next one's start. */
  datatype Issue =
    | Gap(minutes: nat, from: string, to: string)
    | Overlap(minutes: nat, from: string, to: string)

  /** The issue as the log sheet words it. */
  function IssueMessage(issue: Issue): string {
    match issue
    case Gap(m, from, to) => "Gap of " + NatToString(m) + " minutes between " + from + " and " + to
    case Overlap(m, from, to) => "Overlap of " + NatToString(m) + " minutes between " + from + " and " + to
  }

  /** The wording reads back: it opens with "Gap of " or "Overlap of " after
      the kind of issue, the number that follows is the issue's minutes, and
      it closes with the next entry's start time. */
  lemma IssueMessageReadsBack(issue: Issue)
    ensures var text := IssueMessage(issue);
            var opening := if issue.Gap? then "Gap of " else "Overlap of ";
            |opening| < |text| && text[..|opening|] == opening &&
            DecimalValue(LeadingDigits(text[|opening|..])) == issue.minutes &&
            |issue.to| <= |text| && text[|text| - |issue.to|..] == issue.to
  {
    var text := IssueMessage(issue);
    var opening := if issue.Gap? then "Gap of " else "Overlap of ";
    var digits := NatToString(issue.minutes);
    var rest := " minutes between " + issue.from + " and " + issue.to;
    assert text == opening + digits + rest;
    assert text[|opening|..] == digits + rest;
    LeadingDigitsOf(digits, rest);
    NatToStringRoundTrip(issue.minutes);
  }

  /** The issue between an entry and the one after it, if any. */
  function PairIssue(current: LogEntry, next: LogEntry): seq<Issue> {
    var currentEndSlot := EndSlot(current);
    var nextStartSlot := StartSlot(next);
    if currentEndSlot < nextStartSlot then
      [Gap((nextStartSlot - currentEndSlot) * 15, current.endTime, next.startTime)]
    else if currentEndSlot > nextStartSlot then
      [Overlap((currentEndSlot - nextStartSlot) * 15, current.endTime, next.startTime)]
    else []
  }

  /** The issues of all consecutive pairs of `s`, pair by pair. */
  function PairIssues(s: seq<LogEntry>): seq<Issue> {
    if |s| < 2 then []
    else PairIssues(s[..|s| - 1]) + PairIssue(s[|s| - 2], s[|s| - 1])
  }

  /** Each entry ends in the slot the next one starts in. */
  predicate Contiguous(s: seq<LogEntry>) {
    forall i :: 0 <= i < |s| - 1 ==> EndSlot(s[i]) == StartSlot(s[i + 1])
  }

  /** At most one issue per consecutive pair. */
  lemma {:induction false} PairIssuesBound(s: seq<LogEntry>)
    ensures |s| <= 1 ==> PairIssues(s) == []
    ensures |s| >= 1 ==> |PairIssues(s)| <= |s| - 1
  {
    if |s| >= 2 {
      PairIssuesBound(s[..|s| - 1]);
    }
  }

  /** There are no issues exactly when the entries are contiguous. */
  lemma {:induction false} NoIssuesIffContiguous(s: seq<LogEntry>)
    ensures PairIssues(s) == [] <==> Contiguous(s)
  {
    if |s| >= 2 {
      var p := s[..|s| - 1];
      NoIssuesIffContiguous(p);
      assert forall i :: 0 <= i < |p| ==> p[i] == s[i];
    }
  }

  /** Every reported gap or overlap is a positive whole number of slots. */
  lemma {:induction false} IssueMinutesAreWholeSlots(s: seq<LogEntry>)
    ensures forall k :: 0 <= k < |PairIssues(s)| ==>
              PairIssues(s)[k].minutes > 0 && PairIssues(s)[k].minutes % 15 == 0
  {
    if |s| >= 2 {
      IssueMinutesAreWholeSlots(s[..|s| - 1]);
    }
  }

  /** Reports, pair by pair, a gap when an entry ends before the next starts
      and an overlap when it ends after. */
  method CheckPairs(sorted: seq<LogEntry>) returns (issues: seq<Issue>)
    ensures issues == PairIssues(sorted)
  {
    issues := [];
    var i := 0;
    while i < |sorted| - 1
      invariant 0 <= i <= |sorted|
      invariant |sorted| >= 1 ==> i < |sorted|
      invariant |sorted| == 0 ==> issues == []
      invariant |sorted| >= 1 ==> issues == PairIssues(sorted[..i + 1])
    {
      var current := sorted[i];
      var next := sorted[i + 1];
      ghost var before := issues;
      var currentEndSlot := EndSlot(current);
      var nextStartSlot := StartSlot(next);
      if currentEndSlot < nextStartSlot {
        issues := issues + [Gap((nextStartSlot - currentEndSlot) * 15, current.endTime, next.startTime)];
      }
      if currentEndSlot > nextStartSlot {
        issues := issues + [Overlap((currentEndSlot - nextStartSlot) * 15, current.endTime, next.startTime)];
      }
      assert issues == before + PairIssue(current, next);
      ghost var p := sorted[..i + 2];
      assert p[..i + 1] == sorted[..i + 1] && p[i] == current && p[i + 1] == next;
      i := i + 1;
    }
    if |sorted| >= 1 {
      assert sorted[..i + 1] == sorted;
    }
  }

  /** Sorts the entries by start slot and checks each consecutive pair. */
  method ValidateEntries(entries: seq<LogEntry>) returns (issues: seq<Issue>)
    ensures issues == PairIssues(SortByStart(entries))
    ensures |entries| <= 1 ==> issues == []
    ensures |entries| >= 1 ==> |issues| < |entries|
    ensures issues == [] <==> Contiguous(SortByStart(entries))
  {
    var sorted := SortByStart(entries);
    issues := CheckPairs(sorted);
    SortByStartPermutes(entries);
    assert |multiset(sorted)| == |multiset(entries)|;
    PairIssuesBound(sorted);
    NoIssuesIffContiguous(sorted);
  }
}
