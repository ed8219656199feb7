/** The order in which a day's entries are processed: ascending start slot,
    entries with the same start slot keeping their input order. */
module EntryOrder {
  import opened LogTypes
  import opened SlotCodec

  function StartSlot(e: LogEntry): nat {
    TimeToSlotIndex(e.startTime)
  }

  function EndSlot(e: LogEntry): nat {
    TimeToSlotIndex(e.endTime)
  }

  predicate SortedByStart(s: seq<LogEntry>) {
    forall i, j :: 0 <= i < j < |s| ==> StartSlot(s[i]) <= StartSlot(s[j])
  }

  /** Places `e` before the first entry that starts no earlier than it does. */
  function InsertByStart(e: LogEntry, s: seq<LogEntry>): (r: seq<LogEntry>)
    ensures |r| == |s| + 1
  {
    if s == [] || StartSlot(e) <= StartSlot(s[0]) then [e] + s
    else [s[0]] + InsertByStart(e, s[1..])
  }

  /** A stable sort of the entries by start slot. */
  function SortByStart(entries: seq<LogEntry>): (sorted: seq<LogEntry>)
    ensures |sorted| == |entries|
  {
    if entries == [] then [] else InsertByStart(entries[0], SortByStart(entries[1..]))
  }

  /** The entries that start in slot `k`, in their order in `s`. */
  function WithStartSlot(s: seq<LogEntry>, k: nat): seq<LogEntry> {
    if s == [] then []
    else (if StartSlot(s[0]) == k then [s[0]] else []) + WithStartSlot(s[1..], k)
  }

  lemma {:induction false} InsertLowerBound(e: LogEntry, s: seq<LogEntry>, b: nat)
    requires StartSlot(e) >= b
    requires forall i :: 0 <= i < |s| ==> StartSlot(s[i]) >= b
    ensures forall i :: 0 <= i < |s| + 1 ==> StartSlot(InsertByStart(e, s)[i]) >= b
  {
    if s != [] && StartSlot(e) > StartSlot(s[0]) {
      InsertLowerBound(e, s[1..], b);
    }
  }

  lemma {:induction false} InsertKeepsSorted(e: LogEntry, s: seq<LogEntry>)
    requires SortedByStart(s)
    ensures SortedByStart(InsertByStart(e, s))
  {
    if s != [] && StartSlot(e) > StartSlot(s[0]) {
      InsertKeepsSorted(e, s[1..]);
      InsertLowerBound(e, s[1..], StartSlot(s[0]));
    }
  }

  lemma {:induction false} InsertMultiset(e: LogEntry, s: seq<LogEntry>)
    ensures multiset(InsertByStart(e, s)) == multiset(s) + multiset{e}
  {
    if s != [] && StartSlot(e) > StartSlot(s[0]) {
      InsertMultiset(e, s[1..]);
      assert s == [s[0]] + s[1..];
    }
  }

  /** The sorted entries are in ascending start-slot order. */
  lemma {:induction false} SortByStartIsSorted(entries: seq<LogEntry>)
    ensures SortedByStart(SortByStart(entries))
  {
    if entries != [] {
      SortByStartIsSorted(entries[1..]);
      InsertKeepsSorted(entries[0], SortByStart(entries[1..]));
    }
  }

  /** Sorting neither drops nor adds entries. */
  lemma {:induction false} SortByStartPermutes(entries: seq<LogEntry>)
    ensures multiset(SortByStart(entries)) == multiset(entries)
  {
    if entries != [] {
      SortByStartPermutes(entries[1..]);
      InsertMultiset(entries[0], SortByStart(entries[1..]));
      assert entries == [entries[0]] + entries[1..];
    }
  }

  lemma {:induction false} InsertWithStartSlot(e: LogEntry, s: seq<LogEntry>, k: nat)
    ensures WithStartSlot(InsertByStart(e, s), k)
         == (if StartSlot(e) == k then [e] else []) + WithStartSlot(s, k)
  {
    if s == [] || StartSlot(e) <= StartSlot(s[0]) {
      assert ([e] + s)[1..] == s;
    } else {
      InsertWithStartSlot(e, s[1..], k);
      assert ([s[0]] + InsertByStart(e, s[1..]))[1..] == InsertByStart(e, s[1..]);
    }
  }

  /** Stability: the entries of any one start slot keep their input order. */
  lemma {:induction false} SortByStartIsStable(entries: seq<LogEntry>, k: nat)
    ensures WithStartSlot(SortByStart(entries), k) == WithStartSlot(entries, k)
  {
    if entries != [] {
      SortByStartIsStable(entries[1..], k);
      InsertWithStartSlot(entries[0], SortByStart(entries[1..]), k);
    }
  }
}
