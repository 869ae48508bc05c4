/** The telemetry retention rule, and the sequence of samples evaluated when one arrives. */
module Retention {
  import opened Sorting
  import opened Anomalies
  import opened RuleEngine
  import opened RuleProperties

  const RETENTION_WINDOW := 300 * SECOND
  const RETENTION_CAP := 100

  predicate SampledBy(a: Sample, b: Sample) {
    a.sampledAt <= b.sampledAt
  }

  function LastOf<T>(s: seq<T>, n: nat): seq<T> {
    if |s| > n then s[|s| - n..] else s
  }

  function Since(s: seq<Sample>, cutoff: int): seq<Sample> {
    if s == [] then []
    else
      var front, last := Since(s[..|s| - 1], cutoff), s[|s| - 1];
      if last.sampledAt >= cutoff then front + [last] else front
  }

  // The repository

  /** Stores a sample: order by time, drop what is older than the window before the newest, keep the
      last hundred. The arrival order breaks ties, which is what a stable sort of a table kept in
      that order does. */
  function Save(rows: seq<Sample>, s: Sample): seq<Sample> {
    var sorted := Sort(SampledBy, rows + [s]);
    if sorted == [] then []
    else LastOf(Since(sorted, sorted[|sorted| - 1].sampledAt - RETENTION_WINDOW), RETENTION_CAP)
  }

  // The evaluation sequence

  datatype Entry = Entry(sample: Sample, isCurrent: bool)

  predicate EntryBy(a: Entry, b: Entry) {
    a.sample.sampledAt <= b.sample.sampledAt
  }

  function Historical(history: seq<Sample>): (r: seq<Entry>)
    ensures |r| == |history| && forall i | 0 <= i < |r| :: r[i] == Entry(history[i], false)
  {
    seq(|history|, i requires 0 <= i < |history| => Entry(history[i], false))
  }

  /** The samples of the entries that are neither later than the current sample nor its own entry. */
  function UpTo(entries: seq<Entry>, at: int): seq<Sample> {
    if entries == [] then []
    else
      var front, last := UpTo(entries[..|entries| - 1], at), entries[|entries| - 1];
      if last.sample.sampledAt <= at && !last.isCurrent then front + [last.sample] else front
  }

  function EvaluationSequence(history: seq<Sample>, current: Sample): seq<Sample> {
    var sorted := Sort(EntryBy, Historical(history) + [Entry(current, true)]);
    UpTo(LastOf(sorted, RETENTION_CAP), current.sampledAt) + [current]
  }

  /** `_build_evaluation_sequence`: tag, sort, cap, filter, append. */
  method BuildEvaluationSequence(history: seq<Sample>, current: Sample) returns (evaluation: seq<Sample>)
    ensures evaluation == EvaluationSequence(history, current)
  {
    var entries: seq<Entry> := [];
    for i := 0 to |history|
      invariant entries == Historical(history[..i])
    {
      entries := entries + [Entry(history[i], false)];
    }
    assert history[..|history|] == history;
    entries := entries + [Entry(current, true)];
    entries := Sort(EntryBy, entries);
    if |entries| > RETENTION_CAP {
      entries := entries[|entries| - RETENTION_CAP..];
    }
    evaluation := [];
    for i := 0 to |entries|
      invariant evaluation == UpTo(entries[..i], current.sampledAt)
    {
      assert entries[..i + 1][..i] == entries[..i];
      if entries[i].sample.sampledAt <= current.sampledAt && !entries[i].isCurrent {
        evaluation := evaluation + [entries[i].sample];
      }
    }
    assert entries[..|entries|] == entries;
    evaluation := evaluation + [current];
  }

  // Closed form

  lemma TimeOrders()
    ensures TotalPreorder(SampledBy) && TotalPreorder(EntryBy)
  {
  }

  lemma {:induction false} InsertTags(s: Sample, sorted: seq<Sample>)
    ensures Insert(EntryBy, Entry(s, false), Historical(sorted)) == Historical(Insert(SampledBy, s, sorted))
  {
    if sorted != [] && !SampledBy(s, sorted[0]) {
      InsertTags(s, sorted[1..]);
      assert Historical(sorted)[1..] == Historical(sorted[1..]);
    }
  }

  lemma {:induction false} SortTags(history: seq<Sample>)
    ensures Sort(EntryBy, Historical(history)) == Historical(Sort(SampledBy, history))
  {
    if history != [] {
      assert Historical(history)[1..] == Historical(history[1..]);
      SortTags(history[1..]);
      InsertTags(history[0], Sort(SampledBy, history[1..]));
    }
  }

  /** How many leading samples of a sorted sequence are at or before an instant. */
  function AtOrBefore(s: seq<Sample>, at: int): (n: nat)
    ensures n <= |s|
  {
    if s == [] || s[0].sampledAt > at then 0 else 1 + AtOrBefore(s[1..], at)
  }

  lemma {:induction false} AtOrBeforeCuts(s: seq<Sample>, at: int)
    ensures var n := AtOrBefore(s, at);
            && (forall i | 0 <= i < n :: s[i].sampledAt <= at)
            && (n < |s| ==> s[n].sampledAt > at)
  {
    if s != [] && s[0].sampledAt <= at {
      AtOrBeforeCuts(s[1..], at);
    }
  }

  lemma {:induction false} LaterAreLater(s: seq<Sample>, at: int)
    requires InTimeOrder(s)
    ensures forall i | 0 <= i < AtOrBefore(s, at) :: s[i].sampledAt <= at
    ensures forall i | AtOrBefore(s, at) <= i < |s| :: s[i].sampledAt > at
  {
    AtOrBeforeCuts(s, at);
  }

  lemma {:induction false} UpToHistorical(s: seq<Sample>, at: int)
    requires forall i | 0 <= i < |s| :: s[i].sampledAt <= at
    ensures UpTo(Historical(s), at) == s
  {
    if s != [] {
      var n := |s| - 1;
      assert Historical(s)[..n] == Historical(s[..n]);
      UpToHistorical(s[..n], at);
    }
  }

  lemma {:induction false} UpToSkips(entries: seq<Entry>, skipped: seq<Entry>, at: int)
    requires forall i | 0 <= i < |skipped| :: skipped[i].sample.sampledAt > at || skipped[i].isCurrent
    ensures UpTo(entries + skipped, at) == UpTo(entries, at)
  {
    if skipped == [] {
      assert entries + skipped == entries;
    } else {
      var n := |skipped| - 1;
      assert (entries + skipped)[..|entries| + n] == entries + skipped[..n];
      UpToSkips(entries, skipped[..n], at);
    }
  }

  /** The samples before the current one that are evaluated with it. */
  function Survivors(history: seq<Sample>, at: int): seq<Sample> {
    var sorted := Sort(SampledBy, history);
    var n := AtOrBefore(sorted, at);
    var later := |sorted| - n;
    LastOf(sorted[..n], if later < 99 then 99 - later else 0)
  }

  lemma {:induction false} SortedInTime(history: seq<Sample>)
    ensures InTimeOrder(Sort(SampledBy, history))
    ensures multiset(Sort(SampledBy, history)) == multiset(history)
  {
    TimeOrders();
    SortSorted(SampledBy, history);
    SortPermutes(SampledBy, history);
    var sorted := Sort(SampledBy, history);
    forall i, j | 0 <= i < j < |sorted| ensures sorted[i].sampledAt <= sorted[j].sampledAt {
      assert SampledBy(sorted[i], sorted[j]);
    }
  }

  /** The tagged sort puts the current entry after everything at or before it. */
  lemma {:induction false} TaggedSort(history: seq<Sample>, current: Sample)
    ensures var sorted := Sort(SampledBy, history);
            var n := AtOrBefore(sorted, current.sampledAt);
            Sort(EntryBy, Historical(history) + [Entry(current, true)]) ==
            Historical(sorted[..n]) + [Entry(current, true)] + Historical(sorted[n..])
  {
    hide Sort, AtOrBefore, InsertAfter;
    var sorted := Sort(SampledBy, history);
    var n := AtOrBefore(sorted, current.sampledAt);
    var now := Entry(current, true);
    TimeOrders();
    SortSnoc(EntryBy, Historical(history), now);
    SortTags(history);
    AtOrBeforeCuts(sorted, current.sampledAt);
    InsertAfterSplits(EntryBy, Historical(sorted), now, n);
    assert Historical(sorted[..n]) == Historical(sorted)[..n];
    assert Historical(sorted[n..]) == Historical(sorted)[n..];
  }

  /** With P the sorted history at or before the current sample and F the rest, the evaluation
      sequence is the last max(0, 99 - |F|) of P, followed by the current sample. */
  lemma EvaluationSequenceClosedForm(history: seq<Sample>, current: Sample)
    ensures EvaluationSequence(history, current) == Survivors(history, current.sampledAt) + [current]
  {
    hide Sort, AtOrBefore, UpTo, LastOf, InsertAfter;
    var at := current.sampledAt;
    var sorted := Sort(SampledBy, history);
    var n := AtOrBefore(sorted, at);
    TaggedSort(history, current);
    SortedInTime(history);
    LaterAreLater(sorted, at);
    CappedTail(sorted[..n], Entry(current, true), Historical(sorted[n..]), at);
  }

  lemma {:induction false} CappedTail(p: seq<Sample>, now: Entry, later: seq<Entry>, at: int)
    requires now.isCurrent && forall i | 0 <= i < |later| :: later[i].sample.sampledAt > at
    requires forall i | 0 <= i < |p| :: p[i].sampledAt <= at
    ensures UpTo(LastOf(Historical(p) + [now] + later, RETENTION_CAP), at) ==
            LastOf(p, if |later| < 99 then 99 - |later| else 0)
  {
    var all := Historical(p) + [now] + later;
    var keep := if |later| < 99 then 99 - |later| else 0;
    var kept := LastOf(p, keep);
    var capped := LastOf(all, RETENTION_CAP);
    if |later| >= 100 {
      assert capped == later[|later| - 100..];
      UpToSkips([], capped, at);
      assert [] + capped == capped;
    } else {
      var rest := [now] + later;
      assert capped == Historical(kept) + rest;
      UpToSkips(Historical(kept), rest, at);
      UpToHistorical(kept, at);
    }
  }

  lemma MiddleOf(s: seq<Sample>, i: nat, j: nat)
    requires i <= j <= |s|
    ensures multiset(s[i..j]) <= multiset(s)
    ensures InTimeOrder(s) ==> InTimeOrder(s[i..j])
  {
    assert s == s[..i] + s[i..j] + s[j..];
  }

  lemma SurvivorsAreHistory(history: seq<Sample>, at: int)
    ensures var kept := Survivors(history, at);
            && |kept| <= 99 && InTimeOrder(kept) && multiset(kept) <= multiset(history)
            && forall i | 0 <= i < |kept| :: kept[i].sampledAt <= at
  {
    hide Sort, AtOrBefore, InTimeOrder;
    SortedInTime(history);
    var sorted := Sort(SampledBy, history);
    var n := AtOrBefore(sorted, at);
    var kept := Survivors(history, at);
    var skip := n - |kept|;
    AtOrBeforeCuts(sorted, at);
    assert kept == sorted[skip..n];
    MiddleOf(sorted, skip, n);
    forall i | 0 <= i < |kept| ensures kept[i].sampledAt <= at {
      assert kept[i] == sorted[skip + i];
    }
  }

  /** Whatever the history, the evaluation sequence has 1 to 100 samples in time order, ends with the
      current sample, and repeats no stored sample. */
  lemma EvaluationSequenceShape(history: seq<Sample>, current: Sample)
    ensures var e := EvaluationSequence(history, current);
            && 1 <= |e| <= 100 && e[|e| - 1] == current && InTimeOrder(e)
            && multiset(e) <= multiset(history) + multiset{current}
  {
    EvaluationSequenceClosedForm(history, current);
    SurvivorsAreHistory(history, current.sampledAt);
    var kept := Survivors(history, current.sampledAt);
    assert multiset(kept + [current]) == multiset(kept) + multiset{current};
  }

  // Agreement with the retained state

  /** How many leading samples of a time-ordered table are before a cutoff. */
  function Before(s: seq<Sample>, cutoff: int): nat {
    AtOrBefore(s, cutoff - 1)
  }

  lemma {:induction false} SinceSplit(s: seq<Sample>, t: seq<Sample>, cutoff: int)
    requires forall i | 0 <= i < |s| :: s[i].sampledAt < cutoff
    requires forall i | 0 <= i < |t| :: t[i].sampledAt >= cutoff
    ensures Since(s + t, cutoff) == t
  {
    hide Since;
    if t == [] {
      NoneSince(s, cutoff);
      assert s + t == s;
    } else {
      var n := |t| - 1;
      SinceSplit(s, t[..n], cutoff);
      SinceSnoc(s + t[..n], t[n], cutoff);
      Regroup(s, t);
    }
  }

  lemma Regroup(s: seq<Sample>, t: seq<Sample>)
    requires t != []
    ensures s + t == (s + t[..|t| - 1]) + [t[|t| - 1]] && t == t[..|t| - 1] + [t[|t| - 1]]
  {
  }

  lemma {:induction false} NoneSince(s: seq<Sample>, cutoff: int)
    requires forall i | 0 <= i < |s| :: s[i].sampledAt < cutoff
    ensures Since(s, cutoff) == []
  {
    if s != [] { NoneSince(s[..|s| - 1], cutoff); }
  }

  lemma {:induction false} SinceSnoc(s: seq<Sample>, x: Sample, cutoff: int)
    ensures Since(s + [x], cutoff) == if x.sampledAt >= cutoff then Since(s, cutoff) + [x] else Since(s, cutoff)
  {
    assert (s + [x])[..|s|] == s;
  }

  lemma {:induction false} SinceDrops(s: seq<Sample>, cutoff: int)
    requires InTimeOrder(s)
    ensures Since(s, cutoff) == s[Before(s, cutoff)..]
  {
    var k := Before(s, cutoff);
    LaterAreLater(s, cutoff - 1);
    assert s == s[..k] + s[k..];
    SinceSplit(s[..k], s[k..], cutoff);
  }

  lemma {:induction false} InsertedIntoOrdered(rows: seq<Sample>, s: Sample)
    requires InTimeOrder(rows)
    ensures Sort(SampledBy, rows) == rows
    ensures var n := AtOrBefore(rows, s.sampledAt);
            Sort(SampledBy, rows + [s]) == rows[..n] + [s] + rows[n..]
    ensures InTimeOrder(Sort(SampledBy, rows + [s]))
  {
    hide Sort, AtOrBefore, InsertAfter;
    TimeOrders();
    assert SortedBy(SampledBy, rows);
    SortOfSorted(SampledBy, rows);
    SortSnoc(SampledBy, rows, s);
    AtOrBeforeCuts(rows, s.sampledAt);
    InsertAfterSplits(SampledBy, rows, s, AtOrBefore(rows, s.sampledAt));
    SortedInTime(rows + [s]);
  }

  /** The newest time after the save, as the service computes it from the stored watermark. */
  function Watermark(rows: seq<Sample>, s: Sample): int {
    if rows != [] && rows[|rows| - 1].sampledAt > s.sampledAt then rows[|rows| - 1].sampledAt else s.sampledAt
  }

  /** What the service reads: every stored row inside the window before that watermark. */
  function Recent(rows: seq<Sample>, s: Sample): seq<Sample> {
    Since(rows, Watermark(rows, s) - RETENTION_WINDOW)
  }

  lemma {:induction false} LastOfInserted(rows: seq<Sample>, s: Sample, n: nat)
    requires n == AtOrBefore(rows, s.sampledAt)
    requires n < |rows| ==> rows[|rows| - 1].sampledAt > s.sampledAt
    ensures (rows[..n] + [s] + rows[n..])[|rows|].sampledAt == Watermark(rows, s)
  {
    AtOrBeforeCuts(rows, s.sampledAt);
    var inserted := rows[..n] + [s] + rows[n..];
    if n == |rows| {
      assert inserted[|rows|] == s;
    } else {
      assert inserted[|rows|] == rows[|rows| - 1];
    }
  }

  /** The rows with the new one where the sort puts it. */
  function Inserted(rows: seq<Sample>, s: Sample): seq<Sample> {
    var n := AtOrBefore(rows, s.sampledAt);
    rows[..n] + [s] + rows[n..]
  }

  lemma {:induction false} SaveUnfolds(rows: seq<Sample>, s: Sample)
    requires InTimeOrder(rows)
    ensures Save(rows, s) == LastOf(Since(Inserted(rows, s), Watermark(rows, s) - RETENTION_WINDOW), RETENTION_CAP)
  {
    hide Sort, AtOrBefore, Since, InTimeOrder, LastOf, Watermark;
    InsertedIntoOrdered(rows, s);
    LaterAreLater(rows, s.sampledAt);
    LastOfInserted(rows, s, AtOrBefore(rows, s.sampledAt));
  }

  lemma TailOf(s: seq<Sample>, k: nat, n: nat)
    requires k <= |s|
    ensures LastOf(s[k..], n) == s[|s| - |LastOf(s[k..], n)|..]
  {
  }

  lemma {:induction false} RetainedOf(sorted: seq<Sample>, cutoff: int)
    requires InTimeOrder(sorted)
    ensures var kept := LastOf(Since(sorted, cutoff), RETENTION_CAP);
            InTimeOrder(kept) && |kept| <= RETENTION_CAP && forall r | r in kept :: r in sorted
  {
    SinceDrops(sorted, cutoff);
    var kept := LastOf(Since(sorted, cutoff), RETENTION_CAP);
    var lo := |sorted| - |kept|;
    TailOf(sorted, Before(sorted, cutoff), RETENTION_CAP);
    assert kept == sorted[lo..];
  }

  lemma SavedFrom(rows: seq<Sample>, s: Sample) returns (sorted: seq<Sample>, cutoff: int)
    ensures InTimeOrder(sorted) && Save(rows, s) == LastOf(Since(sorted, cutoff), RETENTION_CAP)
    ensures forall r | r in sorted :: r in rows || r == s
  {
    sorted := Sort(SampledBy, rows + [s]);
    SortedInTime(rows + [s]);
    SameMembers(sorted, rows + [s]);
    cutoff := sorted[|sorted| - 1].sampledAt - RETENTION_WINDOW;
  }

  /** The repository's table stays ordered and within the cap, and holds only saved samples. */
  lemma SaveKeepsOrder(rows: seq<Sample>, s: Sample)
    requires InTimeOrder(rows)
    ensures InTimeOrder(Save(rows, s)) && |Save(rows, s)| <= RETENTION_CAP
    ensures forall r | r in Save(rows, s) :: r in rows || r == s
  {
    var sorted, cutoff := SavedFrom(rows, s);
    RetainedOf(sorted, cutoff);
  }

  lemma {:induction false} CutIs(s: seq<Sample>, at: int, n: nat)
    requires n <= |s| && forall i | 0 <= i < n :: s[i].sampledAt <= at
    requires n < |s| ==> s[n].sampledAt > at
    ensures AtOrBefore(s, at) == n
  {
    AtOrBeforeCuts(s, at);
  }

  /** With the current sample inside the window: `low` before it, `high` after it. */
  lemma KeptInWindow(low: seq<Sample>, s: Sample, high: seq<Sample>)
    requires forall i | 0 <= i < |low| :: low[i].sampledAt <= s.sampledAt
    requires forall i | 0 <= i < |high| :: high[i].sampledAt > s.sampledAt
    ensures var kept := LastOf(low + [s] + high, RETENTION_CAP);
            var m := AtOrBefore(kept, s.sampledAt);
            LastOf(low, if |high| < 99 then 99 - |high| else 0) + [s] == if m == 0 then [s] else kept[..m]
  {
    var kept := LastOf(low + [s] + high, RETENTION_CAP);
    if |high| >= 100 {
      assert kept == high[|high| - 100..];
      CutIs(kept, s.sampledAt, 0);
    } else {
      var survivors := LastOf(low, 99 - |high|);
      assert kept == survivors + [s] + high;
      CutIs(kept, s.sampledAt, |survivors| + 1);
      assert kept[..|survivors| + 1] == survivors + [s];
    }
  }

  /** The rows around the current sample, cut by the window. */
  lemma {:induction false} Windowed(rows: seq<Sample>, s: Sample, cutoff: int)
    requires InTimeOrder(rows)
    ensures var n, k := AtOrBefore(rows, s.sampledAt), Before(rows, cutoff);
            && (if s.sampledAt >= cutoff then k <= n else n <= k)
            && (forall i | 0 <= i < n :: rows[i].sampledAt <= s.sampledAt)
            && (forall i | n <= i < |rows| :: rows[i].sampledAt > s.sampledAt)
            && (forall i | 0 <= i < k :: rows[i].sampledAt < cutoff)
            && (forall i | k <= i < |rows| :: rows[i].sampledAt >= cutoff)
  {
    LaterAreLater(rows, s.sampledAt);
    LaterAreLater(rows, cutoff - 1);
    var n, k := AtOrBefore(rows, s.sampledAt), Before(rows, cutoff);
    assert n < k ==> s.sampledAt < rows[n].sampledAt < cutoff;
    assert k < n ==> cutoff <= rows[k].sampledAt <= s.sampledAt;
  }

  lemma {:induction false} SinceInserted(rows: seq<Sample>, s: Sample, cutoff: int)
    requires InTimeOrder(rows)
    ensures var n, k := AtOrBefore(rows, s.sampledAt), Before(rows, cutoff);
            Since(Inserted(rows, s), cutoff) ==
            if s.sampledAt >= cutoff && k <= n then rows[k..n] + [s] + rows[n..] else rows[k..]
  {
    hide Since, AtOrBefore, InTimeOrder;
    var n, k := AtOrBefore(rows, s.sampledAt), Before(rows, cutoff);
    Windowed(rows, s, cutoff);
    if s.sampledAt >= cutoff {
      CutBefore(rows, s, k, n);
      SinceSplit(rows[..k], rows[k..n] + [s] + rows[n..], cutoff);
    } else {
      CutAfter(rows, s, k, n);
      SinceSplit(rows[..n] + [s] + rows[n..k], rows[k..], cutoff);
    }
  }

  lemma CutBefore(rows: seq<Sample>, s: Sample, k: nat, n: nat)
    requires k <= n <= |rows|
    ensures rows[..n] + [s] + rows[n..] == rows[..k] + (rows[k..n] + [s] + rows[n..])
  {
  }

  lemma CutAfter(rows: seq<Sample>, s: Sample, k: nat, n: nat)
    requires n <= k <= |rows|
    ensures rows[..n] + [s] + rows[n..] == (rows[..n] + [s] + rows[n..k]) + rows[k..]
  {
  }

  lemma {:induction false} SurvivorsOfOrdered(history: seq<Sample>, at: int)
    requires InTimeOrder(history)
    ensures var n := AtOrBefore(history, at);
            var later := |history| - n;
            Survivors(history, at) == LastOf(history[..n], if later < 99 then 99 - later else 0)
  {
    assert SortedBy(SampledBy, history);
    SortOfSorted(SampledBy, history);
  }

  lemma EvaluatedInWindow(low: seq<Sample>, s: Sample, high: seq<Sample>)
    requires InTimeOrder(low + high)
    requires forall i | 0 <= i < |low| :: low[i].sampledAt <= s.sampledAt
    requires forall i | 0 <= i < |high| :: high[i].sampledAt > s.sampledAt
    ensures EvaluationSequence(low + high, s) == LastOf(low, if |high| < 99 then 99 - |high| else 0) + [s]
  {
    EvaluationSequenceClosedForm(low + high, s);
    SurvivorsOfOrdered(low + high, s.sampledAt);
    CutIs(low + high, s.sampledAt, |low|);
    assert (low + high)[..|low|] == low;
  }

  lemma SplitInWindow(rows: seq<Sample>, s: Sample, cutoff: int) returns (low: seq<Sample>, high: seq<Sample>)
    requires InTimeOrder(rows) && cutoff <= s.sampledAt
    ensures Since(rows, cutoff) == low + high
    ensures forall i | 0 <= i < |low| :: low[i].sampledAt <= s.sampledAt
    ensures forall i | 0 <= i < |high| :: high[i].sampledAt > s.sampledAt
    ensures Since(Inserted(rows, s), cutoff) == low + [s] + high
  {
    var n, k := AtOrBefore(rows, s.sampledAt), Before(rows, cutoff);
    Windowed(rows, s, cutoff);
    SinceDrops(rows, cutoff);
    SinceInserted(rows, s, cutoff);
    low, high := rows[k..n], rows[n..];
    RowsMeet(rows, k, n);
  }

  lemma RowsMeet(rows: seq<Sample>, k: nat, n: nat)
    requires k <= n <= |rows|
    ensures rows[k..] == rows[k..n] + rows[n..]
  {
  }

  lemma {:induction false} SplitPastWindow(rows: seq<Sample>, s: Sample, cutoff: int)
    requires InTimeOrder(rows) && s.sampledAt < cutoff
    ensures Since(Inserted(rows, s), cutoff) == Since(rows, cutoff)
    ensures forall i | 0 <= i < |Since(rows, cutoff)| :: Since(rows, cutoff)[i].sampledAt > s.sampledAt
  {
    Windowed(rows, s, cutoff);
    SinceDrops(rows, cutoff);
    SinceInserted(rows, s, cutoff);
  }

  lemma SplitWindow(rows: seq<Sample>, s: Sample, cutoff: int) returns (low: seq<Sample>, high: seq<Sample>)
    requires InTimeOrder(rows)
    ensures Since(rows, cutoff) == low + high
    ensures forall i | 0 <= i < |low| :: low[i].sampledAt <= s.sampledAt
    ensures forall i | 0 <= i < |high| :: high[i].sampledAt > s.sampledAt
    ensures Since(Inserted(rows, s), cutoff) == if s.sampledAt < cutoff then high else low + [s] + high
    ensures s.sampledAt < cutoff ==> low == []
  {
    if s.sampledAt < cutoff {
      SplitPastWindow(rows, s, cutoff);
      low, high := [], Since(rows, cutoff);
      assert low + high == high;
    } else {
      low, high := SplitInWindow(rows, s, cutoff);
    }
  }

  lemma {:induction false} SinceInOrder(rows: seq<Sample>, cutoff: int)
    requires InTimeOrder(rows)
    ensures InTimeOrder(Since(rows, cutoff))
  {
    SinceDrops(rows, cutoff);
    MiddleOf(rows, Before(rows, cutoff), |rows|);
  }

  lemma SplitAround(rows: seq<Sample>, s: Sample) returns (low: seq<Sample>, high: seq<Sample>)
    requires InTimeOrder(rows)
    ensures InTimeOrder(low + high) && Recent(rows, s) == low + high
    ensures forall i | 0 <= i < |low| :: low[i].sampledAt <= s.sampledAt
    ensures forall i | 0 <= i < |high| :: high[i].sampledAt > s.sampledAt
    ensures s.sampledAt < Watermark(rows, s) - RETENTION_WINDOW ==> low == []
    ensures Save(rows, s) ==
            LastOf(if s.sampledAt < Watermark(rows, s) - RETENTION_WINDOW then high else low + [s] + high,
                   RETENTION_CAP)
  {
    var cutoff := Watermark(rows, s) - RETENTION_WINDOW;
    low, high := SplitWindow(rows, s, cutoff);
    SinceInOrder(rows, cutoff);
    SaveUnfolds(rows, s);
  }

  /** The evaluation sequence is the state the repository retains after the save, cut just after the
      current sample; when the save itself prunes or evicts the current sample, it is that sample
      alone. */
  lemma EvaluatesTheRetainedState(rows: seq<Sample>, s: Sample)
    requires InTimeOrder(rows)
    ensures var kept := Save(rows, s);
            var m := AtOrBefore(kept, s.sampledAt);
            EvaluationSequence(Recent(rows, s), s) == if m == 0 then [s] else kept[..m]
  {
    var low, high := SplitAround(rows, s);
    EvaluatedInWindow(low, s, high);
    if s.sampledAt < Watermark(rows, s) - RETENTION_WINDOW {
      CutIs(LastOf(high, RETENTION_CAP), s.sampledAt, 0);
    } else {
      KeptInWindow(low, s, high);
    }
  }

  // What is retained, exactly

  /** `all` is the table with the new sample after those that are not later, and `k` the first place from which
      the rest is both within 300 seconds of the latest sample and at most 100 long. */
  ghost predicate RetainsFrom(rows: seq<Sample>, s: Sample, all: seq<Sample>, n: nat, k: nat) {
    && n <= |rows| && all == rows[..n] + [s] + rows[n..]
    && (forall i | 0 <= i < n :: rows[i].sampledAt <= s.sampledAt)
    && (forall i | n <= i < |rows| :: rows[i].sampledAt > s.sampledAt)
    && k < |all| && |all| - k <= 100
    && (forall i | k <= i < |all| :: all[i].sampledAt >= all[|all| - 1].sampledAt - 300_000_000)
    && (k > 0 ==> |all| - k == 100 || all[k - 1].sampledAt < all[|all| - 1].sampledAt - 300_000_000)
  }

  /** Saving keeps exactly that rest. */
  lemma {:induction false} SaveIsExact(rows: seq<Sample>, s: Sample) returns (all: seq<Sample>, n: nat, k: nat)
    requires InTimeOrder(rows)
    ensures RetainsFrom(rows, s, all, n, k) && Save(rows, s) == all[k..]
  {
    hide Sort, AtOrBefore, Since, Save, InTimeOrder;
    SaveUnfolds(rows, s);
    LaterAreLater(rows, s.sampledAt);
    n := AtOrBefore(rows, s.sampledAt);
    all := Inserted(rows, s);
    var last := LatestOf(rows, s, all, n);
    var m := SinceOrdered(all, last - 300_000_000);
    k := if |all| - m > 100 then |all| - 100 else m;
    assert all[m..][|all| - m - (|all| - k)..] == all[k..];
  }

  lemma {:induction false} LatestOf(rows: seq<Sample>, s: Sample, all: seq<Sample>, n: nat) returns (last: int)
    requires InTimeOrder(rows) && n == AtOrBefore(rows, s.sampledAt) && all == Inserted(rows, s)
    ensures InTimeOrder(all) && all != [] && last == all[|all| - 1].sampledAt == Watermark(rows, s)
  {
    hide Sort;
    InsertedIntoOrdered(rows, s);
    LaterAreLater(rows, s.sampledAt);
    LastOfInserted(rows, s, n);
    last := all[|all| - 1].sampledAt;
  }

  lemma {:induction false} SinceOrdered(s: seq<Sample>, cutoff: int) returns (m: nat)
    requires InTimeOrder(s) && s != [] && s[|s| - 1].sampledAt >= cutoff
    ensures m < |s| && Since(s, cutoff) == s[m..]
    ensures forall i | m <= i < |s| :: s[i].sampledAt >= cutoff
    ensures m > 0 ==> s[m - 1].sampledAt < cutoff
  {
    hide Since, AtOrBefore;
    m := AtOrBefore(s, cutoff - 1);
    LaterAreLater(s, cutoff - 1);
    SinceSplit(s[..m], s[m..], cutoff);
    assert s[..m] + s[m..] == s;
  }
}
