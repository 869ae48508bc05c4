/** The two ways the adapters number ACL entries that carry no sequence, and how they compare. */
module AclNumbering {
  import opened Wrappers
  import opened Config
  import opened Sorting

  datatype Pending = Pending(sequence: Option<nat>, rule: Rule)

  function Explicit(pending: seq<Pending>): set<nat> {
    if pending == [] then {}
    else
      var before, last := Explicit(pending[..|pending| - 1]), pending[|pending| - 1];
      if last.sequence.Some? then before + {last.sequence.value} else before
  }

  function Elements(s: seq<nat>): set<nat> {
    set n | n in s
  }

  function Greatest(s: seq<nat>): nat {
    if s == [] then 0 else Larger(Greatest(s[..|s| - 1]), s[|s| - 1])
  }

  function Larger(a: nat, b: nat): nat {
    if a < b then b else a
  }

  /** The first of `c`, `c + 10`, `c + 20` and so on that is not used. */
  function FirstFree(used: set<nat>, c: nat): (r: nat)
    ensures c <= r && r !in used && (r - c) % 10 == 0
    decreases |used|
  {
    if c in used then FirstFree(used - {c}, c + 10) else c
  }

  lemma {:induction false} SkippedAreUsed(used: set<nat>, c: nat, m: nat)
    requires c <= m < FirstFree(used, c) && (m - c) % 10 == 0
    ensures m in used
    decreases |used|
  {
    if c < m {
      SkippedAreUsed(used - {c}, c + 10, m);
    }
  }

  /** Where the search for a free sequence starts: EOS always at 10, IOS-XE past everything so far. */
  function Start(vendor: Vendor, before: seq<nat>): nat {
    if vendor.Arista? then 10 else (Greatest(before) / 10 + 1) * 10
  }

  /** The sequences given to the entries, in encounter order; `explicit` is taken from the whole list. */
  function Numbers(vendor: Vendor, explicit: set<nat>, pending: seq<Pending>): seq<nat> {
    if pending == [] then []
    else
      var before, last := Numbers(vendor, explicit, pending[..|pending| - 1]), pending[|pending| - 1];
      before + [Number(vendor, explicit, before, last)]
  }

  function Number(vendor: Vendor, explicit: set<nat>, before: seq<nat>, entry: Pending): nat {
    if entry.sequence.Some? then entry.sequence.value
    else FirstFree(explicit + Elements(before), Start(vendor, before))
  }

  function Numbered(vendor: Vendor, explicit: set<nat>, pending: seq<Pending>): seq<AclEntry> {
    if pending == [] then []
    else
      var n := |pending| - 1;
      Numbered(vendor, explicit, pending[..n])
      + [AclEntry(Number(vendor, explicit, Numbers(vendor, explicit, pending[..n]), pending[n]), pending[n].rule)]
  }

  predicate SequenceLe(a: AclEntry, b: AclEntry) {
    a.sequence <= b.sequence
  }

  /** `_finalize_acl_entries` */
  function Finalize(vendor: Vendor, pending: seq<Pending>): seq<AclEntry> {
    var entries := Numbered(vendor, Explicit(pending), pending);
    if vendor.Arista? then entries else Sort(SequenceLe, entries)
  }

  // The loops

  lemma {:induction false} OneMoreEntry(
    vendor: Vendor, explicit: set<nat>, pending: seq<Pending>, i: nat, numbers: seq<nat>)
    requires i < |pending| && numbers == Numbers(vendor, explicit, pending[..i])
    ensures var number := Number(vendor, explicit, numbers, pending[i]);
            && Numbers(vendor, explicit, pending[..i + 1]) == numbers + [number]
            && Numbered(vendor, explicit, pending[..i + 1])
               == Numbered(vendor, explicit, pending[..i]) + [AclEntry(number, pending[i].rule)]
            && Greatest(numbers + [number]) == Larger(Greatest(numbers), number)
            && Elements(numbers + [number]) == Elements(numbers) + {number}
  {
    assert pending[..i + 1][..i] == pending[..i];
    var number := Number(vendor, explicit, numbers, pending[i]);
    assert (numbers + [number])[..|numbers|] == numbers;
  }

  lemma {:induction false} NothingNumbered(vendor: Vendor, explicit: set<nat>)
    ensures Numbers(vendor, explicit, []) == [] && Numbered(vendor, explicit, []) == []
    ensures Greatest([]) == 0 && Elements([]) == {}
  {
  }

  method CollectExplicit(pending: seq<Pending>) returns (explicit: set<nat>)
    ensures explicit == Explicit(pending)
  {
    explicit := {};
    for i := 0 to |pending|
      invariant explicit == Explicit(pending[..i])
    {
      assert pending[..i + 1][..i] == pending[..i];
      if pending[i].sequence.Some? {
        explicit := explicit + {pending[i].sequence.value};
      }
    }
    assert pending[..|pending|] == pending;
  }

  /** The inner search: it ends because every step passes one more used sequence. */
  method SearchFree(used: set<nat>, start: nat) returns (candidate: nat)
    ensures candidate == FirstFree(used, start)
  {
    candidate := start;
    ghost var ahead := used;
    while candidate in used
      invariant ahead <= used && forall n | n in used && n !in ahead :: n < candidate
      invariant FirstFree(used, start) == FirstFree(ahead, candidate)
      decreases |ahead|
    {
      ahead := ahead - {candidate};
      candidate := candidate + 10;
    }
  }

  method FinalizeCisco(pending: seq<Pending>) returns (finalized: seq<AclEntry>)
    ensures finalized == Finalize(Cisco, pending)
  {
    hide Explicit, Numbers, Numbered, Greatest, Elements, FirstFree, Sort;
    var explicit := CollectExplicit(pending);
    var used, greatest := explicit, 0;
    finalized := [];
    ghost var numbers: seq<nat> := [];
    NothingNumbered(Cisco, explicit);
    assert pending[..0] == [];
    for i := 0 to |pending|
      invariant numbers == Numbers(Cisco, explicit, pending[..i])
      invariant finalized == Numbered(Cisco, explicit, pending[..i])
      invariant used == explicit + Elements(numbers) && greatest == Greatest(numbers)
    {
      OneMoreEntry(Cisco, explicit, pending, i, numbers);
      var entry := pending[i];
      var sequence;
      if entry.sequence.Some? {
        sequence := entry.sequence.value;
        ExplicitHas(pending, i);
      } else {
        sequence := SearchFree(used, (greatest / 10 + 1) * 10);
        used := used + {sequence};
      }
      greatest := if greatest < sequence then sequence else greatest;
      finalized := finalized + [AclEntry(sequence, entry.rule)];
      numbers := numbers + [sequence];
    }
    assert pending[..|pending|] == pending;
    finalized := Sort(SequenceLe, finalized);
  }

  method FinalizeArista(pending: seq<Pending>) returns (finalized: seq<AclEntry>)
    ensures finalized == Finalize(Arista, pending)
  {
    hide Explicit, Numbers, Numbered, Elements, FirstFree;
    var explicit := CollectExplicit(pending);
    var used := explicit;
    finalized := [];
    ghost var numbers: seq<nat> := [];
    NothingNumbered(Arista, explicit);
    assert pending[..0] == [];
    for i := 0 to |pending|
      invariant numbers == Numbers(Arista, explicit, pending[..i])
      invariant finalized == Numbered(Arista, explicit, pending[..i])
      invariant used == explicit + Elements(numbers)
    {
      OneMoreEntry(Arista, explicit, pending, i, numbers);
      var entry := pending[i];
      var sequence;
      if entry.sequence.Some? {
        sequence := entry.sequence.value;
        ExplicitHas(pending, i);
      } else {
        sequence := SearchFree(used, 10);
        used := used + {sequence};
      }
      finalized := finalized + [AclEntry(sequence, entry.rule)];
      numbers := numbers + [sequence];
    }
    assert pending[..|pending|] == pending;
  }

  lemma {:induction false} ExplicitHas(pending: seq<Pending>, i: nat)
    requires i < |pending| && pending[i].sequence.Some?
    ensures pending[i].sequence.value in Explicit(pending)
  {
    if i < |pending| - 1 {
      ExplicitHas(pending[..|pending| - 1], i);
    }
  }

  // What the sequences are

  lemma {:induction false} NumbersAt(vendor: Vendor, explicit: set<nat>, pending: seq<Pending>, i: nat)
    requires i < |pending|
    ensures |Numbers(vendor, explicit, pending)| == |pending|
    ensures Numbers(vendor, explicit, pending)[..i] == Numbers(vendor, explicit, pending[..i])
    ensures Numbers(vendor, explicit, pending)[i]
            == Number(vendor, explicit, Numbers(vendor, explicit, pending[..i]), pending[i])
  {
    var n := |pending| - 1;
    NumbersLength(vendor, explicit, pending);
    NumbersLength(vendor, explicit, pending[..n]);
    if i < n {
      NumbersAt(vendor, explicit, pending[..n], i);
      assert pending[..n][..i] == pending[..i];
    }
  }

  lemma {:induction false} NumbersLength(vendor: Vendor, explicit: set<nat>, pending: seq<Pending>)
    ensures |Numbers(vendor, explicit, pending)| == |pending|
  {
    if pending != [] {
      NumbersLength(vendor, explicit, pending[..|pending| - 1]);
    }
  }

  lemma {:induction false} NumberedAt(vendor: Vendor, explicit: set<nat>, pending: seq<Pending>, i: nat)
    requires i < |pending|
    ensures |Numbered(vendor, explicit, pending)| == |pending| == |Numbers(vendor, explicit, pending)|
    ensures Numbered(vendor, explicit, pending)[i]
            == AclEntry(Numbers(vendor, explicit, pending)[i], pending[i].rule)
  {
    var n := |pending| - 1;
    NumbersLength(vendor, explicit, pending);
    NumbersLength(vendor, explicit, pending[..n]);
    if n == 0 {
      assert pending[..n] == [];
    } else {
      NumberedAt(vendor, explicit, pending[..n], if i < n then i else 0);
    }
  }

  lemma {:induction false} LaterImplicitIsNew(vendor: Vendor, explicit: set<nat>, pending: seq<Pending>, i: nat, j: nat)
    requires i < j < |pending| && pending[j].sequence.None?
    ensures |Numbers(vendor, explicit, pending)| == |pending|
    ensures Numbers(vendor, explicit, pending)[i] != Numbers(vendor, explicit, pending)[j]
  {
    NumbersAt(vendor, explicit, pending, j);
    assert Numbers(vendor, explicit, pending)[..j][i] == Numbers(vendor, explicit, pending)[i];
  }

  /** Any implicit entry, either vendor: a positive multiple of ten that nobody named. */
  lemma ImplicitIsFree(vendor: Vendor, explicit: set<nat>, pending: seq<Pending>, i: nat) returns (m: nat)
    requires i < |pending| && pending[i].sequence.None?
    ensures |Numbers(vendor, explicit, pending)| == |pending|
    ensures Numbers(vendor, explicit, pending)[i] == 10 * m && 1 <= m && 10 * m !in explicit
  {
    NumbersAt(vendor, explicit, pending, i);
    m := Numbers(vendor, explicit, pending)[i] / 10;
  }

  /** An entry without a sequence gets a positive multiple of ten that no other entry has, even one
      that names its sequence later. */
  lemma {:induction false} ImplicitNeverCollides(vendor: Vendor, pending: seq<Pending>, i: nat, j: nat)
    requires i < |pending| && j < |pending| && i != j && pending[i].sequence.None?
    ensures |Numbers(vendor, Explicit(pending), pending)| == |pending|
    ensures var numbers := Numbers(vendor, Explicit(pending), pending);
            numbers[i] != numbers[j] && numbers[i] >= 10 && numbers[i] % 10 == 0
  {
    var m := ImplicitIsFree(vendor, Explicit(pending), pending, i);
    if pending[j].sequence.Some? {
      NumbersAt(vendor, Explicit(pending), pending, j);
      ExplicitHas(pending, j);
    } else if i < j {
      LaterImplicitIsNew(vendor, Explicit(pending), pending, i, j);
    } else {
      LaterImplicitIsNew(vendor, Explicit(pending), pending, j, i);
    }
  }

  lemma {:induction false} GreatestIsAbove(s: seq<nat>, i: nat)
    requires i < |s|
    ensures s[i] <= Greatest(s)
  {
    if i < |s| - 1 {
      GreatestIsAbove(s[..|s| - 1], i);
    }
  }

  /** IOS-XE puts an entry without a sequence above everything before it. */
  lemma {:induction false} CiscoGoesUp(explicit: set<nat>, pending: seq<Pending>, i: nat, j: nat)
    requires i < j < |pending| && pending[j].sequence.None?
    ensures |Numbers(Cisco, explicit, pending)| == |pending|
    ensures Numbers(Cisco, explicit, pending)[i] < Numbers(Cisco, explicit, pending)[j]
  {
    NumbersAt(Cisco, explicit, pending, j);
    var before := Numbers(Cisco, explicit, pending[..j]);
    NumbersLength(Cisco, explicit, pending[..j]);
    GreatestIsAbove(before, i);
    assert before[i] == Numbers(Cisco, explicit, pending)[i];
  }

  lemma {:induction false} GreatestIsOne(s: seq<nat>)
    ensures s == [] ==> Greatest(s) == 0
    ensures s != [] ==> Greatest(s) in s
  {
    if s != [] {
      GreatestIsOne(s[..|s| - 1]);
      if |s| == 1 { assert s[..0] == []; }
    }
  }

  lemma {:induction false} NamedBySome(pending: seq<Pending>, x: nat)
    requires x in Explicit(pending)
    ensures exists j :: 0 <= j < |pending| && pending[j].sequence == Some(x)
  {
    var n := |pending| - 1;
    if pending[n].sequence != Some(x) {
      NamedBySome(pending[..n], x);
      var j :| 0 <= j < n && pending[..n][j].sequence == Some(x);
      assert pending[j].sequence == Some(x);
    }
  }

  /** IOS-XE gives an entry without a sequence the least positive multiple of ten that is above every number
      given before it and that no entry of the list names. */
  lemma {:induction false} CiscoGivesLeastFree(pending: seq<Pending>, i: nat)
    requires i < |pending| && pending[i].sequence.None?
    ensures |Numbers(Cisco, Explicit(pending), pending)| == |pending|
    ensures var numbers := Numbers(Cisco, Explicit(pending), pending);
            && numbers[i] > 0 && numbers[i] % 10 == 0
            && (forall j | 0 <= j < i :: numbers[j] < numbers[i])
            && (forall j | 0 <= j < |pending| :: pending[j].sequence != Some(numbers[i]))
            && (forall x: nat | 0 < x < numbers[i] && x % 10 == 0 && (forall j | 0 <= j < i :: numbers[j] < x) ::
                  exists j :: 0 <= j < |pending| && pending[j].sequence == Some(x))
  {
    hide Explicit, Numbers, Greatest, FirstFree;
    var explicit := Explicit(pending);
    var numbers := Numbers(Cisco, explicit, pending);
    var m := ImplicitIsFree(Cisco, explicit, pending, i);
    NumbersAt(Cisco, explicit, pending, i);
    forall j | 0 <= j < i ensures numbers[j] < numbers[i] { CiscoGoesUp(explicit, pending, j, i); }
    forall j | 0 <= j < |pending| ensures pending[j].sequence != Some(numbers[i]) {
      if pending[j].sequence.Some? { ExplicitHas(pending, j); }
    }
    var before := numbers[..i];
    forall x: nat | 0 < x < numbers[i] && x % 10 == 0 && (forall j | 0 <= j < i :: numbers[j] < x)
      ensures exists j :: 0 <= j < |pending| && pending[j].sequence == Some(x)
    {
      assert forall y | y in before :: y < x;
      FreeAboveIsLeast(explicit, before, x);
      NamedBySome(pending, x);
    }
  }

  /** A multiple of ten above all earlier numbers that the search passes over was named explicitly. */
  lemma FreeAboveIsLeast(explicit: set<nat>, before: seq<nat>, x: nat)
    requires 0 < x < FirstFree(explicit + Elements(before), (Greatest(before) / 10 + 1) * 10) && x % 10 == 0
    requires forall y | y in before :: y < x
    ensures x in explicit
  {
    hide Greatest, FirstFree;
    var start := (Greatest(before) / 10 + 1) * 10;
    GreatestIsOne(before);
    assert start <= x;
    SkippedAreUsed(explicit + Elements(before), start, x);
  }

  /** What a list ends up as: every entry keeps its rule and, if it has one, its sequence; EOS leaves the
      entries in order, IOS-XE sorts the same entries by sequence. */
  lemma {:induction false} FinalizeIsExact(pending: seq<Pending>, vendor: Vendor)
    ensures var numbers := Numbers(vendor, Explicit(pending), pending);
            var entries := Numbered(vendor, Explicit(pending), pending);
            && |numbers| == |entries| == |pending|
            && (forall i | 0 <= i < |pending| :: entries[i] == AclEntry(numbers[i], pending[i].rule))
            && (forall i | 0 <= i < |pending| && pending[i].sequence.Some? :: numbers[i] == pending[i].sequence.value)
            && (vendor.Arista? ==> Finalize(vendor, pending) == entries)
            && (vendor.Cisco? ==>
                  && multiset(Finalize(vendor, pending)) == multiset(entries)
                  && forall i, j | 0 <= i < j < |Finalize(vendor, pending)| ::
                       Finalize(vendor, pending)[i].sequence <= Finalize(vendor, pending)[j].sequence)
  {
    hide Explicit, Numbers, Numbered, Sort, FirstFree;
    var explicit := Explicit(pending);
    var entries := Numbered(vendor, explicit, pending);
    NumbersLength(vendor, explicit, pending);
    forall i | 0 <= i < |pending|
      ensures |entries| == |pending| && entries[i] == AclEntry(Numbers(vendor, explicit, pending)[i], pending[i].rule)
      ensures pending[i].sequence.Some? ==> Numbers(vendor, explicit, pending)[i] == pending[i].sequence.value
    {
      NumberedAt(vendor, explicit, pending, i);
      NumbersAt(vendor, explicit, pending, i);
    }
    if pending == [] { NothingNumbered(vendor, explicit); } else { NumberedAt(vendor, explicit, pending, 0); }
    SortPermutes(SequenceLe, entries);
    SortSorted(SequenceLe, entries);
    var sorted := Sort(SequenceLe, entries);
    forall i, j | 0 <= i < j < |sorted| ensures sorted[i].sequence <= sorted[j].sequence {
      assert SequenceLe(sorted[i], sorted[j]);
    }
  }

  /** So its final sort keeps them in encounter order. */
  lemma CiscoKeepsImplicitOrder(pending: seq<Pending>, i: nat, j: nat) returns (p: nat, q: nat)
    requires i < j < |pending| && pending[j].sequence.None?
    ensures p < q < |Finalize(Cisco, pending)|
    ensures |Numbers(Cisco, Explicit(pending), pending)| == |pending|
    ensures Finalize(Cisco, pending)[p] == AclEntry(Numbers(Cisco, Explicit(pending), pending)[i], pending[i].rule)
    ensures Finalize(Cisco, pending)[q] == AclEntry(Numbers(Cisco, Explicit(pending), pending)[j], pending[j].rule)
  {
    hide Explicit, Numbers, Numbered, Sort;
    var explicit := Explicit(pending);
    var entries := Numbered(Cisco, explicit, pending);
    NumberedAt(Cisco, explicit, pending, i);
    NumberedAt(Cisco, explicit, pending, j);
    CiscoGoesUp(explicit, pending, i, j);
    SortPermutes(SequenceLe, entries);
    SameMembers(entries, Finalize(Cisco, pending));
    assert entries[i] in entries && entries[j] in entries;
    p :| 0 <= p < |Finalize(Cisco, pending)| && Finalize(Cisco, pending)[p] == entries[i];
    q :| 0 <= q < |Finalize(Cisco, pending)| && Finalize(Cisco, pending)[q] == entries[j];
    SortSorted(SequenceLe, entries);
    assert q < p ==> SequenceLe(Finalize(Cisco, pending)[q], Finalize(Cisco, pending)[p]);
  }

  // Counting free multiples of ten

  /** How many of 10, 20, and so on below `10 * m` nobody named. */
  function CountFree(explicit: set<nat>, m: nat): nat {
    if m <= 1 then 0
    else if 10 * (m - 1) in explicit then CountFree(explicit, m - 1)
    else CountFree(explicit, m - 1) + 1
  }

  lemma {:induction false} CountGrows(explicit: set<nat>, a: nat, b: nat)
    requires 1 <= a < b && 10 * a !in explicit
    ensures CountFree(explicit, a) + 1 <= CountFree(explicit, b)
  {
    if a < b - 1 {
      CountGrows(explicit, a, b - 1);
    }
  }

  lemma {:induction false} FreeWithCount(explicit: set<nat>, m: nat, k: nat) returns (x: nat)
    requires k < CountFree(explicit, m)
    ensures 1 <= x < m && 10 * x !in explicit && CountFree(explicit, x) == k
  {
    if CountFree(explicit, m - 1) == k {
      x := m - 1;
    } else {
      x := FreeWithCount(explicit, m - 1, k);
    }
  }

  function ImplicitsBefore(pending: seq<Pending>, i: nat): nat
    requires i <= |pending|
  {
    if i == 0 then 0
    else if pending[i - 1].sequence.None? then ImplicitsBefore(pending, i - 1) + 1
    else ImplicitsBefore(pending, i - 1)
  }

  lemma {:induction false} ImplicitsGrow(pending: seq<Pending>, i: nat, j: nat)
    requires i < j <= |pending| && pending[i].sequence.None?
    ensures ImplicitsBefore(pending, i) + 1 <= ImplicitsBefore(pending, j)
  {
    if i < j - 1 {
      ImplicitsGrow(pending, i, j - 1);
    }
  }

  lemma {:induction false} ImplicitWithRank(pending: seq<Pending>, i: nat, k: nat) returns (j: nat)
    requires i <= |pending| && k < ImplicitsBefore(pending, i)
    ensures j < i && pending[j].sequence.None? && ImplicitsBefore(pending, j) == k
  {
    if ImplicitsBefore(pending, i - 1) == k {
      j := i - 1;
    } else {
      j := ImplicitWithRank(pending, i - 1, k);
    }
  }

  /** EOS gives the k-th entry without a sequence the k-th smallest multiple of ten that no entry names. */
  lemma {:induction false} AristaGivesKthFree(pending: seq<Pending>, explicit: set<nat>, i: nat) returns (m: nat)
    requires i < |pending| && pending[i].sequence.None?
    requires forall j | 0 <= j < |pending| && pending[j].sequence.Some? :: pending[j].sequence.value in explicit
    ensures |Numbers(Arista, explicit, pending)| == |pending|
    ensures Numbers(Arista, explicit, pending)[i] == 10 * m && 1 <= m && 10 * m !in explicit
    ensures CountFree(explicit, m) == ImplicitsBefore(pending, i)
    decreases i
  {
    hide Numbers, CountFree, ImplicitsBefore;
    m := ImplicitIsFree(Arista, explicit, pending, i);
    NumbersAt(Arista, explicit, pending, i);
    var numbers, k := Numbers(Arista, explicit, pending), ImplicitsBefore(pending, i);
    if CountFree(explicit, m) > k {
      var x := FreeWithCount(explicit, m, k);
      SkippedAreUsed(explicit + Elements(numbers[..i]), 10, 10 * x);
      var j :| 0 <= j < i && numbers[j] == 10 * x;
      NumbersAt(Arista, explicit, pending, j);
      var y := AristaGivesKthFree(pending, explicit, j);
      ImplicitsGrow(pending, j, i);
    } else if CountFree(explicit, m) < k {
      var j := ImplicitWithRank(pending, i, CountFree(explicit, m));
      var y := AristaGivesKthFree(pending, explicit, j);
      assert numbers[..i][j] == 10 * y;
      if y < m { CountGrows(explicit, y, m); } else if m < y { CountGrows(explicit, m, y); }
    }
  }

  /** IOS-XE gives it one with at least that many free multiples of ten below. */
  lemma {:induction false} CiscoSkipsAtLeast(pending: seq<Pending>, explicit: set<nat>, i: nat) returns (m: nat)
    requires i < |pending| && pending[i].sequence.None?
    ensures |Numbers(Cisco, explicit, pending)| == |pending|
    ensures Numbers(Cisco, explicit, pending)[i] == 10 * m && 1 <= m && 10 * m !in explicit
    ensures ImplicitsBefore(pending, i) <= CountFree(explicit, m)
    decreases i
  {
    m := ImplicitIsFree(Cisco, explicit, pending, i);
    if ImplicitsBefore(pending, i) > 0 {
      var j := ImplicitWithRank(pending, i, ImplicitsBefore(pending, i) - 1);
      var y := CiscoSkipsAtLeast(pending, explicit, j);
      CiscoGoesUp(explicit, pending, j, i);
      CountGrows(explicit, y, m);
    }
  }

  /** Hence, entry by entry, EOS never numbers above IOS-XE. */
  lemma {:induction false} AristaIsNeverAbove(pending: seq<Pending>, i: nat)
    requires i < |pending|
    ensures |Numbers(Arista, Explicit(pending), pending)| == |Numbers(Cisco, Explicit(pending), pending)| == |pending|
    ensures Numbers(Arista, Explicit(pending), pending)[i] <= Numbers(Cisco, Explicit(pending), pending)[i]
  {
    var explicit := Explicit(pending);
    NumbersAt(Arista, explicit, pending, i);
    NumbersAt(Cisco, explicit, pending, i);
    if pending[i].sequence.None? {
      forall j | 0 <= j < |pending| && pending[j].sequence.Some? ensures pending[j].sequence.value in explicit {
        ExplicitHas(pending, j);
      }
      var a := AristaGivesKthFree(pending, explicit, i);
      var c := CiscoSkipsAtLeast(pending, explicit, i);
      if c < a { CountGrows(explicit, c, a); }
    }
  }
}
