/** Which lines of a file the reader reads, and exactly when it reads them all. */
module TopologyTrace {
  import opened Wrappers
  import opened TopologyReader
  import opened TopologyProperties

  /** What a read leaves, the positions of the lines it reads, in order, and the position and indentation
      of every `- key:` item read on the way, at any depth. */
  datatype Trace = Trace(rest: seq<Line>, read: seq<nat>, items: seq<(nat, nat)>) {
    function After(more: seq<nat>, others: seq<(nat, nat)>): Trace {
      Trace(rest, more + read, others + items)
    }
  }

  // The reader again, keeping positions in place of values: `from` is that of the first line

  function TracedBlock(lines: seq<Line>, from: nat, indent: nat): (r: Result<Trace, ReadError>)
    requires lines != []
    ensures r.Success? ==> |r.value.rest| <= |lines|
    decreases |lines|, 3
  {
    if OpensSequence(lines[0].text) then TracedSequence(lines, from, indent) else TracedMapping(lines, from, indent)
  }

  function TracedMapping(lines: seq<Line>, from: nat, indent: nat): (r: Result<Trace, ReadError>)
    ensures r.Success? ==> |r.value.rest| <= |lines|
    decreases |lines|, 0
  {
    if lines == [] || lines[0].indent < indent then Success(Trace(lines, [], []))
    else if lines[0].indent > indent then Failure(UnexpectedIndentation(lines[0].text))
    else if KeyMatch(lines[0].text).None? then Failure(UnsupportedLine(lines[0].text))
    else if OpensBlock(lines, indent) then
      var child :- TracedBlock(lines[1..], from + 1, lines[1].indent);
      var t :- TracedMapping(child.rest, from + (|lines| - |child.rest|), indent);
      Success(t.After([from] + child.read, child.items))
    else
      var t :- TracedMapping(lines[1..], from + 1, indent);
      Success(t.After([from], []))
  }

  /** A key without a value and with deeper lines below it. */
  predicate OpensBlock(lines: seq<Line>, indent: nat) {
    && |lines| >= 2 && lines[1].indent > indent
    && KeyMatch(lines[0].text).Some? && KeyMatch(lines[0].text).value.1 == ""
  }

  /** An item takes all deeper lines with it, but reads only what its mapping reads. */
  function TracedItem(lines: seq<Line>, from: nat, indent: nat): (r: Result<Trace, ReadError>)
    requires lines != [] && lines[0].text != ""
    ensures r.Success? ==> |r.value.rest| < |lines|
    decreases |lines|, 1
  {
    if KeyMatch(Strip(lines[0].text[1..])).Some? then
      var virtual := Virtual(lines, indent);
      var t :- TracedMapping(virtual, from, indent + 2);
      Success(Trace(lines[|virtual|..], t.read, t.items + [(from, indent)]))
    else Success(Trace(lines[1..], [from], []))
  }

  function TracedSequence(lines: seq<Line>, from: nat, indent: nat): (r: Result<Trace, ReadError>)
    ensures r.Success? ==> |r.value.rest| <= |lines|
    decreases |lines|, 2
  {
    if lines == [] || lines[0].indent != indent || !StartsWithDash(lines[0].text) then Success(Trace(lines, [], []))
    else
      var item :- TracedItem(lines, from, indent);
      var t :- TracedSequence(item.rest, from + (|lines| - |item.rest|), indent);
      Success(t.After(item.read, item.items))
  }

  // It is the same reader

  /** Both fail with one error, or leave the same lines. */
  predicate Agree<T>(traced: Result<Trace, ReadError>, plain: Result<(T, seq<Line>), ReadError>) {
    match traced
    case Success(t) => plain.Success? && plain.value.1 == t.rest
    case Failure(e) => plain == Failure(e)
  }

  lemma {:induction false} BlockAgrees(lines: seq<Line>, from: nat, indent: nat)
    requires lines != []
    ensures Agree(TracedBlock(lines, from, indent), Block(lines, indent))
    decreases |lines|, 3
  {
    if OpensSequence(lines[0].text) {
      SequenceAgrees(lines, from, indent, []);
    } else {
      MappingAgrees(lines, from, indent, []);
    }
  }

  lemma {:induction false} MappingAgrees(lines: seq<Line>, from: nat, indent: nat, done: seq<Entry>)
    ensures Agree(TracedMapping(lines, from, indent), MappingEntries(lines, indent, done))
    decreases |lines|, 0, 1
  {
    if lines != [] && lines[0].indent == indent && KeyMatch(lines[0].text).Some? {
      if OpensBlock(lines, indent) {
        ChildAgrees(lines, from, indent, done);
      } else {
        var (key, value) := KeyMatch(lines[0].text).value;
        MappingAgrees(lines[1..], from + 1, indent, Put(done, key, if value != "" then ReadScalar(value) else Null));
      }
    }
  }

  lemma {:induction false} ChildAgrees(lines: seq<Line>, from: nat, indent: nat, done: seq<Entry>)
    requires lines != [] && lines[0].indent == indent && OpensBlock(lines, indent)
    ensures Agree(TracedMapping(lines, from, indent), MappingEntries(lines, indent, done))
    decreases |lines|, 0, 0
  {
    BlockAgrees(lines[1..], from + 1, lines[1].indent);
    var child := Block(lines[1..], lines[1].indent);
    if child.Success? {
      var (v, rest) := child.value;
      var key := KeyMatch(lines[0].text).value.0;
      MappingAgrees(rest, from + (|lines| - |rest|), indent, Put(done, key, v));
    }
  }

  lemma {:induction false} ItemAgrees(lines: seq<Line>, from: nat, indent: nat)
    requires lines != [] && lines[0].text != ""
    ensures match TracedItem(lines, from, indent)
            case Success(t) => Item(lines, indent).Success? && t.rest == lines[Item(lines, indent).value.1..]
            case Failure(e) => Item(lines, indent) == Failure(e)
    decreases |lines|, 1
  {
    if KeyMatch(Strip(lines[0].text[1..])).Some? {
      MappingAgrees(Virtual(lines, indent), from, indent + 2, []);
    }
  }

  lemma {:induction false} PlainStep(lines: seq<Line>, indent: nat, done: seq<Value>)
    requires lines != [] && lines[0].indent == indent && StartsWithDash(lines[0].text)
    ensures match Item(lines, indent)
            case Success((v, n)) => SequenceItems(lines, indent, done) == SequenceItems(lines[n..], indent, done + [v])
            case Failure(e) => SequenceItems(lines, indent, done) == Failure(e)
  {
  }

  lemma {:induction false} TracedStep(lines: seq<Line>, from: nat, indent: nat) returns (next: Result<Trace, ReadError>)
    requires lines != [] && lines[0].indent == indent && StartsWithDash(lines[0].text)
    ensures match TracedItem(lines, from, indent)
            case Success(item) =>
              && |item.rest| <= |lines|
              && next == TracedSequence(item.rest, from + (|lines| - |item.rest|), indent)
            case Failure(e) => next == Failure(e)
    ensures next.Success? <==> TracedSequence(lines, from, indent).Success?
    ensures next.Success? ==> TracedSequence(lines, from, indent).value.rest == next.value.rest
    ensures next.Failure? ==> TracedSequence(lines, from, indent) == next
  {
    var item := TracedItem(lines, from, indent);
    if item.Failure? {
      next := Failure(item.error);
    } else {
      next := TracedSequence(item.value.rest, from + (|lines| - |item.value.rest|), indent);
    }
  }

  lemma {:induction false} SequenceAgrees(lines: seq<Line>, from: nat, indent: nat, done: seq<Value>)
    ensures Agree(TracedSequence(lines, from, indent), SequenceItems(lines, indent, done))
    decreases |lines|, 2, 1
  {
    if lines != [] && lines[0].indent == indent && StartsWithDash(lines[0].text) {
      SequenceStepAgrees(lines, from, indent, done);
    }
  }

  lemma {:induction false} SequenceStepAgrees(lines: seq<Line>, from: nat, indent: nat, done: seq<Value>)
    requires lines != [] && lines[0].indent == indent && StartsWithDash(lines[0].text)
    ensures Agree(TracedSequence(lines, from, indent), SequenceItems(lines, indent, done))
    decreases |lines|, 2, 0
  {
    hide TracedSequence, SequenceItems, TracedItem, Item;
    var next := TracedStep(lines, from, indent);
    PlainStep(lines, indent, done);
    ItemAgrees(lines, from, indent);
    var item := Item(lines, indent);
    if item.Success? {
      var (v, n) := item.value;
      SequenceAgrees(lines[n..], from + n, indent, done + [v]);
    }
  }

  /** The trace of a whole file; at the top a mapping is required. */
  function TracedTopology(lines: seq<Line>): Result<Trace, ReadError> {
    if lines == [] then Failure(EmptyFile)
    else
      var t :- TracedBlock(lines, 0, lines[0].indent);
      if t.rest != [] || OpensSequence(lines[0].text) then Failure(NotOneMapping) else Success(t)
  }

  /** Keeping track of positions does not change which files are accepted, nor the error of the others. */
  lemma {:induction false} TracedTopologyAgrees(lines: seq<Line>)
    ensures match TracedTopology(lines)
            case Success(_) => ParseTopology(lines).Success?
            case Failure(e) => ParseTopology(lines) == Failure(e)
  {
    if lines != [] { BlockAgrees(lines, 0, lines[0].indent); }
  }

  // Positions

  function Positions(from: nat, n: nat): (s: seq<nat>)
    ensures |s| == n
    decreases n
  {
    if n == 0 then [] else [from] + Positions(from + 1, n - 1)
  }

  lemma {:induction false} PositionsSplit(from: nat, n: nat, m: nat)
    ensures Positions(from, n + m) == Positions(from, n) + Positions(from + n, m)
    decreases n
  {
    if n > 0 { PositionsSplit(from + 1, n - 1, m); }
  }

  /** A line indented by exactly one column more than the item at `p`, among the deeper lines under it. */
  ghost predicate OddUnder(all: seq<Line>, p: nat, indent: nat) {
    exists q | p < q < |all| :: all[q].indent == indent + 1 && forall r | p < r < q :: all[r].indent > indent
  }

  ghost predicate NoneOdd(all: seq<Line>, items: seq<(nat, nat)>) {
    items == [] || (!OddUnder(all, items[0].0, items[0].1) && NoneOdd(all, items[1..]))
  }

  lemma {:induction false} NoneOddAppend(all: seq<Line>, items: seq<(nat, nat)>, others: seq<(nat, nat)>)
    ensures NoneOdd(all, items + others) <==> NoneOdd(all, items) && NoneOdd(all, others)
  {
    if items == [] {
      assert items + others == others;
    } else {
      assert (items + others)[0] == items[0] && (items + others)[1..] == items[1..] + others;
      NoneOddAppend(all, items[1..], others);
    }
  }

  lemma {:induction false} NoneOddIsAll(all: seq<Line>, items: seq<(nat, nat)>)
    ensures NoneOdd(all, items) <==> forall item | item in items :: !OddUnder(all, item.0, item.1)
  {
    if items != [] {
      NoneOddIsAll(all, items[1..]);
      assert items == [items[0]] + items[1..];
    }
  }

  /** `lines` are those of the file from `from` on, but for the first, up to the end of the file or to a
      line that is not deeper than `floor`. */
  ghost predicate Placed(lines: seq<Line>, all: seq<Line>, from: nat, floor: int) {
    if lines == [] then from <= |all| && (from == |all| || all[from].indent <= floor)
    else from < |all| && (|lines| >= 2 ==> from + 1 < |all| && lines[1] == all[from + 1])
         && Placed(lines[1..], all, from + 1, floor)
  }

  lemma {:induction false} PlacedAt(lines: seq<Line>, all: seq<Line>, from: nat, floor: int)
    requires Placed(lines, all, from, floor)
    ensures from + |lines| <= |all|
    ensures from + |lines| == |all| || all[from + |lines|].indent <= floor
    ensures forall k | 1 <= k < |lines| :: lines[k] == all[from + k]
  {
    if lines != [] {
      PlacedAt(lines[1..], all, from + 1, floor);
      forall k | 2 <= k < |lines| ensures lines[k] == all[from + k] {
        assert lines[k] == lines[1..][k - 1];
      }
    }
  }

  lemma {:induction false} PlacedTail(lines: seq<Line>, all: seq<Line>, from: nat, floor: int, n: nat)
    requires Placed(lines, all, from, floor) && n <= |lines|
    ensures Placed(lines[n..], all, from + n, floor)
  {
    if n == 0 {
      assert lines[n..] == lines;
    } else {
      PlacedTail(lines[1..], all, from + 1, floor, n - 1);
      assert lines[n..] == lines[1..][n - 1..];
    }
  }

  lemma {:induction false} PlacedPrefix(lines: seq<Line>, all: seq<Line>, from: nat, floor: int, n: nat, lower: int)
    requires Placed(lines, all, from, floor) && 1 <= n <= |lines|
    requires n < |lines| ==> lines[n].indent <= lower
    requires floor <= lower
    ensures Placed(lines[..n], all, from, lower)
  {
    if n == 1 {
      PlacedAt(lines, all, from, floor);
      assert lines[..1][1..] == [];
    } else {
      PlacedPrefix(lines[1..], all, from + 1, floor, n - 1, lower);
      assert lines[..n][1..] == lines[1..][..n - 1];
    }
  }

  /** At most the `n` lines from `from` on are read, and just they, in order, exactly when no item is odd. */
  ghost predicate Covers(all: seq<Line>, from: nat, n: nat, read: seq<nat>, items: seq<(nat, nat)>) {
    |read| <= n && (read == Positions(from, n) <==> NoneOdd(all, items))
  }

  /** A trace that started with `n` lines at `from` accounts for those it does not leave. */
  ghost predicate Accounts(t: Trace, n: nat, all: seq<Line>, from: nat, floor: int) {
    && |t.rest| <= n
    && Placed(t.rest, all, from + (n - |t.rest|), floor)
    && Covers(all, from, n - |t.rest|, t.read, t.items)
  }

  lemma {:induction false} CoversTwo(
    all: seq<Line>, from: nat, n: nat, m: nat, read: seq<nat>, more: seq<nat>, items: seq<(nat, nat)>,
    others: seq<(nat, nat)>)
    requires Covers(all, from, n, read, items) && Covers(all, from + n, m, more, others)
    ensures Covers(all, from, n + m, read + more, items + others)
  {
    NoneOddAppend(all, items, others);
    PositionsSplit(from, n, m);
    if read + more == Positions(from, n + m) {
      assert |read| == n;
      assert read == (read + more)[..n] && more == (read + more)[n..];
    }
  }

  lemma {:induction false} CoversOne(all: seq<Line>, from: nat)
    ensures Covers(all, from, 1, [from], [])
    ensures Covers(all, from, 0, [], [])
  {
    assert Positions(from, 1) == [from] + Positions(from + 1, 0);
  }

  /** What was read before, and then the rest. */
  lemma {:induction false} AccountsAfter(
    t: Trace, m: nat, n: nat, all: seq<Line>, from: nat, floor: int, read: seq<nat>, items: seq<(nat, nat)>)
    requires n <= m && Covers(all, from, n, read, items) && Accounts(t, m - n, all, from + n, floor)
    ensures Accounts(t.After(read, items), m, all, from, floor)
  {
    CoversTwo(all, from, n, m - n - |t.rest|, read, t.read, items, t.items);
  }

  lemma {:induction false} NothingAccounts(lines: seq<Line>, all: seq<Line>, from: nat, floor: int)
    requires Placed(lines, all, from, floor)
    ensures Accounts(Trace(lines, [], []), |lines|, all, from, floor)
  {
    CoversOne(all, from);
  }

  // Every reader accounts for its lines

  lemma {:induction false} BlockAccounts(
    lines: seq<Line>, from: nat, indent: nat, all: seq<Line>, floor: int, t: Trace)
    requires lines != [] && floor < indent && Placed(lines, all, from, floor)
    requires TracedBlock(lines, from, indent) == Success(t)
    ensures Accounts(t, |lines|, all, from, floor)
    decreases |lines|, 3
  {
    if OpensSequence(lines[0].text) {
      SequenceAccounts(lines, from, indent, all, floor, t);
    } else {
      MappingAccounts(lines, from, indent, all, floor, t);
    }
  }

  lemma {:induction false} MappingAccounts(
    lines: seq<Line>, from: nat, indent: nat, all: seq<Line>, floor: int, t: Trace)
    requires Placed(lines, all, from, floor) && floor < indent
    requires TracedMapping(lines, from, indent) == Success(t)
    ensures Accounts(t, |lines|, all, from, floor)
    decreases |lines|, 0, 1
  {
    if lines == [] || lines[0].indent < indent {
      NothingAccounts(lines, all, from, floor);
    } else if OpensBlock(lines, indent) {
      var child, rest, n := ChildUnfolds(lines, from, indent);
      ChildAccounts(lines, from, indent, all, floor, child, rest, n);
    } else {
      var rest := KeyUnfolds(lines, from, indent);
      KeyAccounts(lines, from, indent, all, floor, rest);
    }
  }

  lemma {:induction false} KeyAccounts(
    lines: seq<Line>, from: nat, indent: nat, all: seq<Line>, floor: int, t: Trace)
    requires Placed(lines, all, from, floor) && floor < indent && lines != []
    requires TracedMapping(lines[1..], from + 1, indent) == Success(t)
    ensures Accounts(t.After([from], []), |lines|, all, from, floor)
    decreases |lines|, 0, 0
  {
    hide *;
    PlacedTail(lines, all, from, floor, 1);
    MappingAccounts(lines[1..], from + 1, indent, all, floor, t);
    CoversOne(all, from);
    AccountsAfter(t, |lines|, 1, all, from, floor, [from], []);
  }

  /** A key that takes one line. */
  lemma {:induction false} KeyUnfolds(lines: seq<Line>, from: nat, indent: nat) returns (t: Trace)
    requires lines != [] && lines[0].indent == indent && !OpensBlock(lines, indent)
    requires TracedMapping(lines, from, indent).Success?
    ensures TracedMapping(lines[1..], from + 1, indent) == Success(t)
    ensures TracedMapping(lines, from, indent) == Success(t.After([from], []))
  {
    t := TracedMapping(lines[1..], from + 1, indent).value;
  }

  /** A key with a block below it: the block, and what follows it. */
  lemma {:induction false} ChildUnfolds(lines: seq<Line>, from: nat, indent: nat)
    returns (child: Trace, t: Trace, n: nat)
    requires lines != [] && lines[0].indent == indent && OpensBlock(lines, indent)
    requires TracedMapping(lines, from, indent).Success?
    ensures TracedBlock(lines[1..], from + 1, lines[1].indent) == Success(child)
    ensures |child.rest| < |lines| && n == |lines| - |child.rest|
    ensures TracedMapping(child.rest, from + n, indent) == Success(t)
    ensures TracedMapping(lines, from, indent) == Success(t.After([from] + child.read, child.items))
  {
    child := TracedBlock(lines[1..], from + 1, lines[1].indent).value;
    n := |lines| - |child.rest|;
    t := TracedMapping(child.rest, from + n, indent).value;
  }

  lemma {:induction false} ChildThenRest(m: nat, n: nat, all: seq<Line>, from: nat, floor: int, child: Trace, t: Trace)
    requires 1 <= n <= m && |child.rest| == m - n
    requires Accounts(child, m - 1, all, from + 1, floor) && Accounts(t, m - n, all, from + n, floor)
    ensures Accounts(t.After([from] + child.read, child.items), m, all, from, floor)
  {
    CoversOne(all, from);
    CoversTwo(all, from, 1, n - 1, [from], child.read, [], child.items);
    assert [] + child.items == child.items;
    AccountsAfter(t, m, n, all, from, floor, [from] + child.read, child.items);
  }

  lemma {:induction false} LeftIsPlaced(t: Trace, m: nat, all: seq<Line>, from: nat, floor: int, next: nat)
    requires Accounts(t, m, all, from, floor) && next == from + (m - |t.rest|)
    ensures Placed(t.rest, all, next, floor)
  {
  }

  lemma {:induction false} ChildAccounts(
    lines: seq<Line>, from: nat, indent: nat, all: seq<Line>, floor: int, child: Trace, t: Trace, n: nat)
    requires Placed(lines, all, from, floor) && floor < indent && |lines| >= 2 && lines[1].indent > indent
    requires TracedBlock(lines[1..], from + 1, lines[1].indent) == Success(child)
    requires |child.rest| < |lines| && n == |lines| - |child.rest|
    requires TracedMapping(child.rest, from + n, indent) == Success(t)
    ensures Accounts(t.After([from] + child.read, child.items), |lines|, all, from, floor)
    decreases |lines|, 0, 0
  {
    hide *;
    PlacedTail(lines, all, from, floor, 1);
    BlockAccounts(lines[1..], from + 1, lines[1].indent, all, floor, child);
    LeftIsPlaced(child, |lines| - 1, all, from + 1, floor, from + n);
    MappingAccounts(child.rest, from + n, indent, all, floor, t);
    ChildThenRest(|lines|, n, all, from, floor, child, t);
  }

  lemma {:induction false} SequenceUnfolds(lines: seq<Line>, from: nat, indent: nat)
    returns (item: Trace, t: Trace, n: nat)
    requires lines != [] && lines[0].indent == indent && StartsWithDash(lines[0].text)
    requires TracedSequence(lines, from, indent).Success?
    ensures TracedItem(lines, from, indent) == Success(item) && |item.rest| < |lines| && n == |lines| - |item.rest|
    ensures TracedSequence(item.rest, from + n, indent) == Success(t)
    ensures TracedSequence(lines, from, indent) == Success(t.After(item.read, item.items))
  {
    item := TracedItem(lines, from, indent).value;
    n := |lines| - |item.rest|;
    t := TracedSequence(item.rest, from + n, indent).value;
  }

  lemma {:induction false} SequenceAccounts(
    lines: seq<Line>, from: nat, indent: nat, all: seq<Line>, floor: int, t: Trace)
    requires Placed(lines, all, from, floor) && floor < indent
    requires TracedSequence(lines, from, indent) == Success(t)
    ensures Accounts(t, |lines|, all, from, floor)
    decreases |lines|, 2, 1
  {
    if lines != [] && lines[0].indent == indent && StartsWithDash(lines[0].text) {
      var item, rest, n := SequenceUnfolds(lines, from, indent);
      ItemThenRest(lines, from, indent, all, floor, item, rest, n);
    } else {
      NothingAccounts(lines, all, from, floor);
    }
  }

  lemma {:induction false} ItemThenRest(
    lines: seq<Line>, from: nat, indent: nat, all: seq<Line>, floor: int, item: Trace, t: Trace, n: nat)
    requires Placed(lines, all, from, floor) && floor < indent && lines != [] && lines[0].text != ""
    requires TracedItem(lines, from, indent) == Success(item)
    requires |item.rest| < |lines| && n == |lines| - |item.rest|
    requires TracedSequence(item.rest, from + n, indent) == Success(t)
    ensures Accounts(t.After(item.read, item.items), |lines|, all, from, floor)
    decreases |lines|, 2, 0
  {
    hide *;
    ItemAccounts(lines, from, indent, all, floor, item);
    LeftIsPlaced(item, |lines|, all, from, floor, from + n);
    SequenceAccounts(item.rest, from + n, indent, all, floor, t);
    AccountsAfter(t, |lines|, n, all, from, floor, item.read, item.items);
  }

  lemma {:induction false} ItemUnfolds(lines: seq<Line>, from: nat, indent: nat) returns (t: Trace, virtual: seq<Line>)
    requires lines != [] && lines[0].text != "" && KeyMatch(Strip(lines[0].text[1..])).Some?
    requires TracedItem(lines, from, indent).Success?
    ensures virtual == Virtual(lines, indent) && 1 <= |virtual| <= |lines| && |t.rest| <= |virtual|
    ensures TracedMapping(virtual, from, indent + 2) == Success(t)
    ensures TracedItem(lines, from, indent) == Success(Trace(lines[|virtual|..], t.read, t.items + [(from, indent)]))
  {
    virtual := Virtual(lines, indent);
    t := TracedMapping(virtual, from, indent + 2).value;
  }

  lemma {:induction false} ItemIsWhole(
    lines: seq<Line>, n: nat, from: nat, indent: nat, all: seq<Line>, floor: int, t: Trace)
    requires Placed(lines, all, from, floor) && 1 <= n <= |lines|
    requires Accounts(t, n, all, from, indent) && (t.rest != [] <==> OddUnder(all, from, indent))
    ensures Accounts(Trace(lines[n..], t.read, t.items + [(from, indent)]), |lines|, all, from, floor)
  {
    CoversItem(all, from, n, n - |t.rest|, t.read, t.items, indent);
    PlacedTail(lines, all, from, floor, n);
  }

  lemma {:induction false} ItemAccounts(
    lines: seq<Line>, from: nat, indent: nat, all: seq<Line>, floor: int, t: Trace)
    requires Placed(lines, all, from, floor) && floor < indent && lines != [] && lines[0].text != ""
    requires TracedItem(lines, from, indent) == Success(t)
    ensures Accounts(t, |lines|, all, from, floor)
    decreases |lines|, 1
  {
    if KeyMatch(Strip(lines[0].text[1..])).Some? {
      var mapping, virtual := ItemUnfolds(lines, from, indent);
      VirtualIsPlaced(lines, from, indent, all, floor);
      MappingAccounts(virtual, from, indent + 2, all, indent, mapping);
      LostIffOdd(lines, from, indent, all, floor, mapping);
      ItemIsWhole(lines, |virtual|, from, indent, all, floor, mapping);
    } else {
      CoversOne(all, from);
      PlacedTail(lines, all, from, floor, 1);
    }
  }

  lemma {:induction false} VirtualIsPlaced(lines: seq<Line>, from: nat, indent: nat, all: seq<Line>, floor: int)
    requires Placed(lines, all, from, floor) && floor < indent && lines != [] && lines[0].text != ""
    ensures Placed(Virtual(lines, indent), all, from, indent)
  {
    var virtual, below := Virtual(lines, indent), lines[1..];
    if |virtual| < |lines| { assert below[|virtual| - 1] == lines[|virtual|]; }
    PlacedPrefix(lines, all, from, floor, |virtual|, indent);
    assert virtual[1..] == lines[..|virtual|][1..];
  }

  /** An item leaves lines of its virtual list unread exactly when it is odd. */
  lemma {:induction false} LostIffOdd(lines: seq<Line>, from: nat, indent: nat, all: seq<Line>, floor: int, t: Trace)
    requires Placed(lines, all, from, floor) && floor < indent && lines != [] && lines[0].text != ""
    requires TracedMapping(Virtual(lines, indent), from, indent + 2) == Success(t)
    ensures t.rest != [] <==> OddUnder(all, from, indent)
  {
    var virtual := Virtual(lines, indent);
    MappingAgrees(virtual, from, indent + 2, []);
    var (entries, lost) := MappingEntries(virtual, indent + 2, []).value;
    LosesLinesIff(lines, indent, virtual, entries, lost);
    UnderIsDeeper(lines, indent);
    VirtualIsPlaced(lines, from, indent, all, floor);
    OddIsInVirtual(virtual, from, indent, all);
  }

  lemma {:induction false} OddIsInVirtual(virtual: seq<Line>, from: nat, indent: nat, all: seq<Line>)
    requires virtual != [] && Placed(virtual, all, from, indent) && virtual[0].indent == indent + 2
    requires forall k | 0 <= k < |virtual| :: virtual[k].indent > indent
    ensures OddUnder(all, from, indent) <==> exists i | 0 <= i < |virtual| :: virtual[i].indent == indent + 1
  {
    PlacedAt(virtual, all, from, indent);
    if OddUnder(all, from, indent) {
      var q :| from < q < |all| && all[q].indent == indent + 1 && forall r | from < r < q :: all[r].indent > indent;
      assert q < from + |virtual|;
      assert virtual[q - from] == all[q];
    }
    if exists i | 0 <= i < |virtual| :: virtual[i].indent == indent + 1 {
      var i :| 0 <= i < |virtual| && virtual[i].indent == indent + 1;
      assert all[from + i] == virtual[i];
      forall r | from < r < from + i ensures all[r].indent > indent { assert all[r] == virtual[r - from]; }
    }
  }

  /** Of the `n` lines an item takes its mapping reads at most the first `k`. */
  lemma {:induction false} CoversItem(
    all: seq<Line>, from: nat, n: nat, k: nat, read: seq<nat>, items: seq<(nat, nat)>, indent: nat)
    requires k <= n && Covers(all, from, k, read, items)
    requires k == n <==> !OddUnder(all, from, indent)
    ensures Covers(all, from, n, read, items + [(from, indent)])
  {
    NoneOddAppend(all, items, [(from, indent)]);
    assert NoneOdd(all, [(from, indent)]) <==> !OddUnder(all, from, indent) by {
      assert [(from, indent)][1..] == [];
    }
  }

  lemma {:induction false} FileIsPlaced(lines: seq<Line>, all: seq<Line>, n: nat)
    requires n <= |all| && lines == all[n..]
    ensures Placed(lines, all, n, -1)
    decreases |lines|
  {
    if lines != [] {
      FileIsPlaced(lines[1..], all, n + 1);
    }
  }

  /** A file that is accepted is read in full, each line once and in order, exactly when no `- key:` item
      in it, at any depth, has a line under it that is indented by one column only. */
  lemma {:induction false} EveryLineIsReadIff(lines: seq<Line>)
    requires ParseTopology(lines).Success?
    ensures TracedTopology(lines).Success?
    ensures TracedTopology(lines).value.read == Positions(0, |lines|) <==>
            forall item | item in TracedTopology(lines).value.items :: !OddUnder(lines, item.0, item.1)
  {
    TracedTopologyAgrees(lines);
    assert lines[0..] == lines;
    FileIsPlaced(lines, lines, 0);
    BlockAccounts(lines, 0, lines[0].indent, lines, -1, TracedTopology(lines).value);
    NoneOddIsAll(lines, TracedTopology(lines).value.items);
  }
}
