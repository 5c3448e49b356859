/** The bounded heads-up log (`addLog` in App.tsx): newest entry first,
    at most `Capacity` entries. */
module Logbook {
  import opened Types
  import opened Seqs

  const Capacity := 20

  /** The new entry, followed by the (at most) 19 newest previous ones. */
  function AddLog(log: seq<LogEntry>, entry: LogEntry): (r: seq<LogEntry>)
    ensures |r| == if |log| < Capacity then |log| + 1 else Capacity
    ensures r[0] == entry
    ensures r[1..] <= log
  {
    [entry] + Take(log, Capacity - 1)
  }

  /** The log after adding `entries` to `log`, one after another. */
  function AddAll(log: seq<LogEntry>, entries: seq<LogEntry>): seq<LogEntry>
  {
    if entries == [] then log
    else AddLog(AddAll(log, entries[..|entries| - 1]), entries[|entries| - 1])
  }

  /** The log always shows the `Capacity` most recent entries, newest
      first: the added entries in reverse order, then the older log. */
  lemma {:induction false} AddAllKeepsNewest(log: seq<LogEntry>, entries: seq<LogEntry>)
    requires |log| <= Capacity
    ensures AddAll(log, entries) == Take(Reversed(entries) + log, Capacity)
  {
    if entries != [] {
      var init, e := entries[..|entries| - 1], entries[|entries| - 1];
      AddAllKeepsNewest(log, init);
      assert Reversed(entries) == [e] + Reversed(init);
      var older := Reversed(init) + log;
      assert Reversed(entries) + log == [e] + older;
      assert Take(Take(older, Capacity), Capacity - 1) == Take(older, Capacity - 1);
      assert Take([e] + older, Capacity) == [e] + Take(older, Capacity - 1);
    }
  }
}
