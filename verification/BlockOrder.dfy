/** Why the order of an accepted configuration's blocks does not matter. */
module BlockOrder {
  import opened Wrappers
  import opened Config
  import opened Adapters

  /** What a top-level line and the lines under it are about. */
  datatype Target =
    | HostTarget
    | InterfaceTarget(name: string)
    | AclTarget(acl: string)
    | BgpTarget
    | ErrorTarget
    | NoTarget

  function TargetOf(vendor: Vendor, body: Body): Target {
    match body
    case Hostname(_) => HostTarget
    case HostnameWithoutValue | InterfaceWithoutName => ErrorTarget
    case InterfaceOpen(name) => InterfaceTarget(name)
    case AclOpen(name) => AclTarget(name)
    case NumberedEntry(number, _) => if vendor.Cisco? then AclTarget(number) else NoTarget
    case RouterBgp => BgpTarget
    case _ => NoTarget
  }

  predicate TopLevel(line: Line) {
    !line.indented && !line.body.Blank? && !line.body.Bang?
  }

  ghost predicate IsBlock(b: seq<Line>) {
    b != [] && TopLevel(b[0]) && forall i | 0 < i < |b| :: !TopLevel(b[i])
  }

  ghost predicate AreBlocks(bs: seq<seq<Line>>) {
    forall i | 0 <= i < |bs| :: IsBlock(bs[i])
  }

  predicate About(vendor: Vendor, b: seq<Line>, t: Target) {
    b != [] && TargetOf(vendor, b[0].body) == t
  }

  /** The blocks with a target, in their order. */
  function Only(vendor: Vendor, bs: seq<seq<Line>>, t: Target): seq<seq<Line>> {
    if bs == [] then []
    else
      var before, last := Only(vendor, bs[..|bs| - 1], t), bs[|bs| - 1];
      if About(vendor, last, t) then before + [last] else before
  }

  function Flatten(bs: seq<seq<Line>>): seq<Line> {
    if bs == [] then [] else Flatten(bs[..|bs| - 1]) + bs[|bs| - 1]
  }

  // A line only sees and touches the target of its block

  ghost predicate Agree(s: State, t: State, target: Target) {
    match target
    case HostTarget => s.hostname == t.hostname
    case InterfaceTarget(name) =>
      (name in s.interfaces <==> name in t.interfaces) && s.Interface(name) == t.Interface(name)
    case AclTarget(name) => (name in s.acls <==> name in t.acls) && s.Entries(name) == t.Entries(name)
    case BgpTarget => s.neighbors == t.neighbors
    case _ => true
  }

  predicate ContextIn(c: Context, t: Target) {
    match c
    case NoContext => true
    case InInterface(name) => t == InterfaceTarget(name)
    case InAcl(name) => t == AclTarget(name)
    case InBgp => t == BgpTarget
  }

  ghost predicate Fits(vendor: Vendor, c: Context, line: Line, t: Target) {
    ContextIn(c, t) && (TopLevel(line) ==> TargetOf(vendor, line.body) == t)
  }

  lemma LineFailsAlone(vendor: Vendor, s: State, t: State, line: Line)
    requires s.context == t.context
    ensures ParseLine(vendor, s, line).Success? <==> ParseLine(vendor, t, line).Success?
    ensures ParseLine(vendor, s, line).Success? ==>
              ParseLine(vendor, s, line).value.context == ParseLine(vendor, t, line).value.context
  {
    hide NormalizeNeighbor, NormalizeAddress;
  }

  lemma LineStaysInside(vendor: Vendor, s: State, line: Line, t: Target, u: Target)
    requires Fits(vendor, s.context, line, t) && ParseLine(vendor, s, line).Success?
    ensures ContextIn(ParseLine(vendor, s, line).value.context, t)
    ensures u != t ==> Agree(s, ParseLine(vendor, s, line).value, u)
  {
    hide ParseTop, ParseChild;
    if TopLevel(line) {
      TopStaysInside(vendor, s.(context := NoContext), line.body, t, u);
    } else if !line.body.Blank? && !line.body.Bang? {
      ChildStaysInside(vendor, s, line.body, t, u);
    }
  }

  lemma TopStaysInside(vendor: Vendor, s: State, body: Body, t: Target, u: Target)
    requires s.context == NoContext && TargetOf(vendor, body) == t && ParseTop(vendor, s, body).Success?
    ensures ContextIn(ParseTop(vendor, s, body).value.context, t)
    ensures u != t ==> Agree(s, ParseTop(vendor, s, body).value, u)
  {
  }

  lemma ChildStaysInside(vendor: Vendor, s: State, body: Body, t: Target, u: Target)
    requires ContextIn(s.context, t) && ParseChild(vendor, s, body).Success?
    ensures ContextIn(ParseChild(vendor, s, body).value.context, t)
    ensures u != t ==> Agree(s, ParseChild(vendor, s, body).value, u)
  {
    hide ParseInterfaceChild, NormalizeNeighbor;
  }

  lemma LineIsLocal(vendor: Vendor, s: State, t: State, line: Line, target: Target)
    requires Fits(vendor, s.context, line, target) && s.context == t.context && Agree(s, t, target)
    requires ParseLine(vendor, s, line).Success? && ParseLine(vendor, t, line).Success?
    ensures Agree(ParseLine(vendor, s, line).value, ParseLine(vendor, t, line).value, target)
  {
    hide ParseTop, ParseChild, Agree, ContextIn;
    ContextIsFree(s, t, target);
    if TopLevel(line) {
      TopIsLocal(vendor, s.(context := NoContext), t.(context := NoContext), line.body, target);
    } else if !line.body.Blank? && !line.body.Bang? {
      ChildIsLocal(vendor, s, t, line.body, target);
    }
  }

  lemma ContextIsFree(s: State, t: State, target: Target)
    requires Agree(s, t, target)
    ensures Agree(s.(context := NoContext), t.(context := NoContext), target)
  {
  }

  lemma TopIsLocal(vendor: Vendor, s: State, t: State, body: Body, target: Target)
    requires TargetOf(vendor, body) == target && Agree(s, t, target) && s.context == t.context
    requires ParseTop(vendor, s, body).Success? && ParseTop(vendor, t, body).Success?
    ensures Agree(ParseTop(vendor, s, body).value, ParseTop(vendor, t, body).value, target)
  {
  }

  lemma ChildIsLocal(vendor: Vendor, s: State, t: State, body: Body, target: Target)
    requires ContextIn(s.context, target) && Agree(s, t, target) && s.context == t.context
    requires ParseChild(vendor, s, body).Success? && ParseChild(vendor, t, body).Success?
    ensures Agree(ParseChild(vendor, s, body).value, ParseChild(vendor, t, body).value, target)
  {
    hide ParseInterfaceChild, NormalizeNeighbor;
  }

  // So does a block

  lemma HeaderForgetsContext(vendor: Vendor, s: State, line: Line)
    requires TopLevel(line)
    ensures ParseLine(vendor, s, line) == ParseLine(vendor, s.(context := NoContext), line)
  {
  }

  lemma {:induction false} BlockFailsAlone(vendor: Vendor, s: State, t: State, b: seq<Line>)
    requires IsBlock(b)
    ensures ParseLines(vendor, s, b).Success? <==> ParseLines(vendor, t, b).Success?
    ensures ParseLines(vendor, s, b).Success? ==>
              ParseLines(vendor, s, b).value.context == ParseLines(vendor, t, b).value.context
    decreases |b|
  {
    var n := |b| - 1;
    if n == 0 {
      HeaderForgetsContext(vendor, s, b[0]);
      HeaderForgetsContext(vendor, t, b[0]);
      LineFailsAlone(vendor, s.(context := NoContext), t.(context := NoContext), b[0]);
      assert b[..0] == [];
    } else {
      BlockFailsAlone(vendor, s, t, b[..n]);
      if ParseLines(vendor, s, b[..n]).Success? {
        LineFailsAlone(vendor, ParseLines(vendor, s, b[..n]).value, ParseLines(vendor, t, b[..n]).value, b[n]);
      }
    }
  }

  lemma {:induction false} BlockStaysInside(vendor: Vendor, s: State, b: seq<Line>, t: Target, u: Target)
    requires IsBlock(b) && About(vendor, b, t) && ParseLines(vendor, s, b).Success?
    ensures ContextIn(ParseLines(vendor, s, b).value.context, t)
    ensures u != t ==> Agree(s, ParseLines(vendor, s, b).value, u)
    decreases |b|
  {
    var n := |b| - 1;
    if n == 0 {
      HeaderForgetsContext(vendor, s, b[0]);
      assert b[..0] == [];
      LineStaysInside(vendor, s.(context := NoContext), b[0], t, u);
    } else {
      BlockStaysInside(vendor, s, b[..n], t, u);
      LineStaysInside(vendor, ParseLines(vendor, s, b[..n]).value, b[n], t, u);
    }
  }

  lemma {:induction false} BlockIsLocal(vendor: Vendor, s: State, t: State, b: seq<Line>, target: Target)
    requires IsBlock(b) && About(vendor, b, target) && Agree(s, t, target)
    requires ParseLines(vendor, s, b).Success? && ParseLines(vendor, t, b).Success?
    ensures Agree(ParseLines(vendor, s, b).value, ParseLines(vendor, t, b).value, target)
    decreases |b|
  {
    var n := |b| - 1;
    if n == 0 {
      HeaderForgetsContext(vendor, s, b[0]);
      HeaderForgetsContext(vendor, t, b[0]);
      assert b[..0] == [];
      LineIsLocal(vendor, s.(context := NoContext), t.(context := NoContext), b[0], target);
    } else {
      BlockIsLocal(vendor, s, t, b[..n], target);
      BlockStaysInside(vendor, s, b[..n], target, target);
      BlockFailsAlone(vendor, s, t, b[..n]);
      LineIsLocal(vendor, ParseLines(vendor, s, b[..n]).value, ParseLines(vendor, t, b[..n]).value, b[n], target);
    }
  }

  // A text of blocks

  lemma {:induction false} ParseLinesAppend(vendor: Vendor, s: State, a: seq<Line>, b: seq<Line>)
    ensures ParseLines(vendor, s, a + b) ==
            if ParseLines(vendor, s, a).Success? then ParseLines(vendor, ParseLines(vendor, s, a).value, b)
            else ParseLines(vendor, s, a)
  {
    if b == [] {
      assert a + b == a;
    } else {
      var n := |b| - 1;
      assert (a + b)[..|a + b| - 1] == a + b[..n];
      ParseLinesAppend(vendor, s, a, b[..n]);
    }
  }

  lemma {:induction false} BlocksSucceedAlone(vendor: Vendor, s: State, bs: seq<seq<Line>>)
    requires AreBlocks(bs)
    ensures ParseLines(vendor, s, Flatten(bs)).Success? <==>
            forall i | 0 <= i < |bs| :: ParseLines(vendor, START, bs[i]).Success?
  {
    if bs != [] {
      var n := |bs| - 1;
      BlocksSucceedAlone(vendor, s, bs[..n]);
      ParseLinesAppend(vendor, s, Flatten(bs[..n]), bs[n]);
      if ParseLines(vendor, s, Flatten(bs[..n])).Success? {
        BlockFailsAlone(vendor, START, ParseLines(vendor, s, Flatten(bs[..n])).value, bs[n]);
      }
      assert (forall i | 0 <= i < |bs| :: ParseLines(vendor, START, bs[i]).Success?) <==>
             (forall i | 0 <= i < n :: ParseLines(vendor, START, bs[..n][i]).Success?)
             && ParseLines(vendor, START, bs[n]).Success?;
    }
  }

  /** What a text leaves at a target is what the blocks about that target alone leave there. */
  lemma {:induction false} BlocksProject(vendor: Vendor, s: State, bs: seq<seq<Line>>, t: Target)
    requires AreBlocks(bs) && ParseLines(vendor, s, Flatten(bs)).Success?
    ensures AreBlocks(Only(vendor, bs, t)) && ParseLines(vendor, s, Flatten(Only(vendor, bs, t))).Success?
    ensures Agree(ParseLines(vendor, s, Flatten(bs)).value,
                  ParseLines(vendor, s, Flatten(Only(vendor, bs, t))).value, t)
  {
    if bs != [] {
      var n := |bs| - 1;
      var front, b := bs[..n], bs[n];
      ParseLinesAppend(vendor, s, Flatten(front), b);
      BlocksProject(vendor, s, front, t);
      var kept := Only(vendor, front, t);
      var x, y := ParseLines(vendor, s, Flatten(front)).value, ParseLines(vendor, s, Flatten(kept)).value;
      if About(vendor, b, t) {
        OneMoreBlock(vendor, s, kept, b, t, x, y);
      } else {
        BlockStaysInside(vendor, x, b, TargetOf(vendor, b[0].body), t);
        AgreeTransitive(ParseLines(vendor, x, b).value, x, y, t);
      }
    }
  }

  lemma AgreeTransitive(s: State, t: State, u: State, target: Target)
    requires Agree(t, s, target) && Agree(t, u, target)
    ensures Agree(s, u, target)
  {
  }

  lemma {:induction false} OneMoreBlock(
    vendor: Vendor, s: State, kept: seq<seq<Line>>, b: seq<Line>, t: Target, x: State, y: State)
    requires AreBlocks(kept) && IsBlock(b) && About(vendor, b, t)
    requires ParseLines(vendor, s, Flatten(kept)) == Success(y) && Agree(x, y, t)
    requires ParseLines(vendor, x, b).Success?
    ensures AreBlocks(kept + [b]) && ParseLines(vendor, s, Flatten(kept + [b])).Success?
    ensures Agree(ParseLines(vendor, x, b).value, ParseLines(vendor, s, Flatten(kept + [b])).value, t)
  {
    assert (kept + [b])[..|kept|] == kept;
    ParseLinesAppend(vendor, s, Flatten(kept), b);
    BlockFailsAlone(vendor, x, y, b);
    BlockIsLocal(vendor, x, y, b, t);
  }

  // The theorem

  /** Two texts hold the same blocks, in the same order for each target; blocks about nothing are free. */
  ghost predicate SameTargetOrder(vendor: Vendor, bs: seq<seq<Line>>, cs: seq<seq<Line>>) {
    forall t: Target | !t.NoTarget? :: Only(vendor, bs, t) == Only(vendor, cs, t)
  }

  lemma {:induction false} OnlyHas(vendor: Vendor, bs: seq<seq<Line>>, b: seq<Line>, t: Target)
    ensures b in Only(vendor, bs, t) <==> b in bs && About(vendor, b, t)
  {
    if bs != [] {
      OnlyHas(vendor, bs[..|bs| - 1], b, t);
      assert bs == bs[..|bs| - 1] + [bs[|bs| - 1]];
    }
  }

  lemma {:induction false} IgnoredBlocksSucceed(vendor: Vendor, s: State, b: seq<Line>)
    requires IsBlock(b) && About(vendor, b, NoTarget)
    ensures ParseLines(vendor, s, b) == Success(s.(context := NoContext))
    decreases |b|
  {
    var n := |b| - 1;
    if n == 0 {
      assert b[..0] == [];
    } else {
      IgnoredBlocksSucceed(vendor, s, b[..n]);
    }
  }

  lemma {:induction false} ReorderingSucceeds(vendor: Vendor, bs: seq<seq<Line>>, cs: seq<seq<Line>>)
    requires AreBlocks(bs) && AreBlocks(cs) && SameTargetOrder(vendor, bs, cs)
    requires ParseLines(vendor, START, Flatten(bs)).Success?
    ensures ParseLines(vendor, START, Flatten(cs)).Success?
  {
    BlocksSucceedAlone(vendor, START, bs);
    BlocksSucceedAlone(vendor, START, cs);
    forall i | 0 <= i < |cs| ensures ParseLines(vendor, START, cs[i]).Success? {
      var t := TargetOf(vendor, cs[i][0].body);
      if t.NoTarget? {
        IgnoredBlocksSucceed(vendor, START, cs[i]);
      } else {
        OnlyHas(vendor, cs, cs[i], t);
        OnlyHas(vendor, bs, cs[i], t);
        var j :| 0 <= j < |bs| && bs[j] == cs[i];
      }
    }
  }

  lemma AgreeEverywhere(s: State, t: State)
    requires forall target: Target | !target.NoTarget? :: Agree(s, t, target)
    ensures s.(context := NoContext) == t.(context := NoContext)
  {
    assert Agree(s, t, HostTarget) && Agree(s, t, BgpTarget);
    forall name ensures name in s.interfaces <==> name in t.interfaces
      ensures name in s.interfaces ==> s.interfaces[name] == t.interfaces[name]
      ensures name in s.acls <==> name in t.acls
      ensures name in s.acls ==> s.acls[name] == t.acls[name]
    {
      assert Agree(s, t, InterfaceTarget(name)) && Agree(s, t, AclTarget(name));
    }
    assert s.interfaces == t.interfaces && s.acls == t.acls;
  }

  lemma {:induction false} ReorderingKeepsTheState(vendor: Vendor, bs: seq<seq<Line>>, cs: seq<seq<Line>>)
    requires AreBlocks(bs) && AreBlocks(cs) && SameTargetOrder(vendor, bs, cs)
    requires ParseLines(vendor, START, Flatten(bs)).Success?
    ensures ParseLines(vendor, START, Flatten(cs)).Success?
    ensures ParseLines(vendor, START, Flatten(bs)).value.(context := NoContext)
            == ParseLines(vendor, START, Flatten(cs)).value.(context := NoContext)
  {
    ReorderingSucceeds(vendor, bs, cs);
    var s, t := ParseLines(vendor, START, Flatten(bs)).value, ParseLines(vendor, START, Flatten(cs)).value;
    forall target: Target | !target.NoTarget? ensures Agree(s, t, target) {
      BlocksProject(vendor, START, bs, target);
      BlocksProject(vendor, START, cs, target);
    }
    AgreeEverywhere(s, t);
  }

  lemma {:induction false} PreambleIsIgnored(vendor: Vendor, lines: seq<Line>)
    requires forall i | 0 <= i < |lines| :: !TopLevel(lines[i])
    ensures ParseLines(vendor, START, lines) == Success(START)
  {
    if lines != [] {
      PreambleIsIgnored(vendor, lines[..|lines| - 1]);
    }
  }

  lemma FinishForgetsContext(vendor: Vendor, s: State)
    ensures Finish(vendor, s) == Finish(vendor, s.(context := NoContext))
  {
    var t := s.(context := NoContext);
    InterfacesForgetContext(s, SortedNames(s.interfaces.Keys));
    AclsForgetContext(vendor, s, SortedNames(s.acls.Keys));
    assert ReferencesDeclared(s) == ReferencesDeclared(t);
  }

  lemma {:induction false} InterfacesForgetContext(s: State, names: seq<string>)
    ensures NormalizedInterfaces(s, names) == NormalizedInterfaces(s.(context := NoContext), names)
  {
    if names != [] { InterfacesForgetContext(s, names[..|names| - 1]); }
  }

  lemma {:induction false} AclsForgetContext(vendor: Vendor, s: State, names: seq<string>)
    ensures NormalizedAcls(vendor, s, names) == NormalizedAcls(vendor, s.(context := NoContext), names)
  {
    if names != [] { AclsForgetContext(vendor, s, names[..|names| - 1]); }
  }

  lemma {:induction false} ParseOfBlocks(vendor: Vendor, preamble: seq<Line>, bs: seq<seq<Line>>)
    requires AreBlocks(bs) && forall i | 0 <= i < |preamble| :: !TopLevel(preamble[i])
    ensures Parse(vendor, preamble + Flatten(bs)).Success? ==> ParseLines(vendor, START, Flatten(bs)).Success?
    ensures ParseLines(vendor, START, Flatten(bs)).Success? && bs != [] ==>
              Parse(vendor, preamble + Flatten(bs))
              == Finish(vendor, ParseLines(vendor, START, Flatten(bs)).value.(context := NoContext))
    ensures bs == [] ==> Parse(vendor, preamble + Flatten(bs)).Failure?
  {
    PreambleIsIgnored(vendor, preamble);
    ParseLinesAppend(vendor, START, preamble, Flatten(bs));
    if ParseLines(vendor, START, Flatten(bs)).Success? {
      FinishForgetsContext(vendor, ParseLines(vendor, START, Flatten(bs)).value);
    }
    if bs != [] {
      var n := |bs| - 1;
      var all := preamble + Flatten(bs);
      var k := |preamble| + |Flatten(bs[..n])|;
      assert all[k] == bs[n][0];
      assert !all[k].body.Blank?;
    }
  }

  /** A text with its blocks in another order, the order within each target kept, is accepted just
      when the original is, and then parses to the same configuration: lists may be declared after
      their use, and interfaces and lists may be opened again anywhere. */
  lemma {:induction false} BlockOrderDoesNotMatter(
    vendor: Vendor, preamble: seq<Line>, bs: seq<seq<Line>>, cs: seq<seq<Line>>)
    requires forall i | 0 <= i < |preamble| :: !TopLevel(preamble[i])
    requires AreBlocks(bs) && AreBlocks(cs) && SameTargetOrder(vendor, bs, cs)
    ensures Parse(vendor, preamble + Flatten(bs)).Success? <==> Parse(vendor, preamble + Flatten(cs)).Success?
    ensures Parse(vendor, preamble + Flatten(bs)).Success? ==>
              Parse(vendor, preamble + Flatten(bs)) == Parse(vendor, preamble + Flatten(cs))
  {
    if Parse(vendor, preamble + Flatten(bs)).Success? { HalfOfBlockOrder(vendor, preamble, bs, cs); }
    if Parse(vendor, preamble + Flatten(cs)).Success? { HalfOfBlockOrder(vendor, preamble, cs, bs); }
  }

  lemma {:induction false} HalfOfBlockOrder(vendor: Vendor, preamble: seq<Line>, bs: seq<seq<Line>>, cs: seq<seq<Line>>)
    requires forall i | 0 <= i < |preamble| :: !TopLevel(preamble[i])
    requires AreBlocks(bs) && AreBlocks(cs) && SameTargetOrder(vendor, bs, cs)
    requires Parse(vendor, preamble + Flatten(bs)).Success?
    ensures Parse(vendor, preamble + Flatten(bs)) == Parse(vendor, preamble + Flatten(cs))
  {
    ParseOfBlocks(vendor, preamble, bs);
    ParseOfBlocks(vendor, preamble, cs);
    ReorderingKeepsTheState(vendor, bs, cs);
    assert cs == [] ==> ParseLines(vendor, START, Flatten(cs)) == Success(START);
  }
}
