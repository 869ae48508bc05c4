/** What a configuration text means, line by line: which block a line is in, what it says there, and that the
    last word on each point is the one that counts. */
module ParseMeaning {
  import opened Wrappers
  import opened Config
  import opened Sorting
  import opened AclNumbering
  import opened Adapters
  import opened RoundTrip

  // Blocks

  /** The block that is open after some lines: a header opens its own, a bang or any other top-level line closes
      what is open, and blank and indented lines leave it. */
  function OpenAfter(lines: seq<Line>): Context {
    if lines == [] then NoContext
    else
      var last := lines[|lines| - 1];
      if last.body.Blank? || (last.indented && !last.body.Bang?) then OpenAfter(lines[..|lines| - 1])
      else
        match last.body
        case InterfaceOpen(name) => InInterface(name)
        case AclOpen(name) => InAcl(name)
        case RouterBgp => InBgp
        case _ => NoContext
  }

  // What the lines say, the last one first

  function HostSaid(lines: seq<Line>): Option<string> {
    if lines == [] then None
    else
      var last := lines[|lines| - 1];
      if !last.indented && last.body.Hostname? then Some(last.body.host) else HostSaid(lines[..|lines| - 1])
  }

  function InterfacesOpened(lines: seq<Line>): set<string> {
    if lines == [] then {}
    else
      var before, last := InterfacesOpened(lines[..|lines| - 1]), lines[|lines| - 1];
      if !last.indented && last.body.InterfaceOpen? then before + {last.body.name} else before
  }

  /** The last line of a text is in a block of this interface. */
  predicate LastIsOf(lines: seq<Line>, name: string)
    requires lines != []
  {
    lines[|lines| - 1].indented && OpenAfter(lines[..|lines| - 1]) == InInterface(name)
  }

  function DescriptionSaid(lines: seq<Line>, name: string): Option<string> {
    if lines == [] then None
    else
      var last := lines[|lines| - 1].body;
      if LastIsOf(lines, name) && last.Description? then Some(last.text)
      else DescriptionSaid(lines[..|lines| - 1], name)
  }

  function AddressSaid(lines: seq<Line>, name: string): Option<Cidr> {
    if lines == [] then None
    else
      var last := lines[|lines| - 1].body;
      if LastIsOf(lines, name) && last.IpAddress? && last.address.Some? && last.prefix.Some? then
        Some(Cidr(last.address.value, last.prefix.value))
      else AddressSaid(lines[..|lines| - 1], name)
  }

  function StateSaid(lines: seq<Line>, name: string): AdminState {
    if lines == [] then Up
    else
      var last := lines[|lines| - 1].body;
      if LastIsOf(lines, name) && last.Shutdown? then Down
      else if LastIsOf(lines, name) && last.NoShutdown? then Up
      else StateSaid(lines[..|lines| - 1], name)
  }

  function GroupSaid(lines: seq<Line>, name: string, direction: Direction): Option<string> {
    if lines == [] then None
    else
      var last := lines[|lines| - 1].body;
      if LastIsOf(lines, name) && last.AccessGroup? && last.direction == Some(direction) then Some(last.group)
      else GroupSaid(lines[..|lines| - 1], name, direction)
  }

  /** IOS-XE also declares a list by a numbered entry. */
  function AclsOpened(vendor: Vendor, lines: seq<Line>): set<string> {
    if lines == [] then {}
    else
      var before, last := AclsOpened(vendor, lines[..|lines| - 1]), lines[|lines| - 1];
      if last.indented then before
      else
        match last.body
        case AclOpen(name) => before + {name}
        case NumberedEntry(number, _) => if vendor.Cisco? then before + {number} else before
        case _ => before
  }

  /** The entries of a list in the order met, whichever of its blocks they stand in. */
  function EntriesSaid(vendor: Vendor, lines: seq<Line>, name: string): seq<Pending> {
    if lines == [] then []
    else
      var front, last := lines[..|lines| - 1], lines[|lines| - 1];
      var before := EntriesSaid(vendor, front, name);
      if last.indented && last.body.Entry? && OpenAfter(front) == InAcl(name) then before + [last.body.entry]
      else if !last.indented && vendor.Cisco? && last.body.NumberedEntry? && last.body.number == name then
        before + [Pending(None, last.body.rule)]
      else before
  }

  function NeighborsSaid(lines: seq<Line>): seq<BgpNeighbor> {
    if lines == [] then []
    else
      var front, last := lines[..|lines| - 1], lines[|lines| - 1];
      var before := NeighborsSaid(front);
      if last.indented && last.body.Neighbor? && OpenAfter(front).InBgp?
         && last.body.ip.Some? && last.body.remoteAs.Some? then
        before + [BgpNeighbor(last.body.ip.value, last.body.remoteAs.value)]
      else before
  }

  // What is wrong with a line

  function Wrong(vendor: Vendor, open: Context, line: Line): Option<ErrorCode> {
    match line.body
    case HostnameWithoutValue => if line.indented then None else Some(MalformedHostname)
    case InterfaceWithoutName => if line.indented then None else Some(MalformedInterface)
    case IpAddress(hasSeparator, address, prefix) =>
      if !line.indented || !open.InInterface? then None
      else if vendor.Arista? && !hasSeparator then Some(InvalidSubnetMask)
      else if address.None? then Some(InvalidInterfaceIp)
      else if prefix.None? || prefix.value < 0 || prefix.value > 32 then Some(InvalidSubnetMask)
      else None
    case AccessGroup(_, direction) =>
      if line.indented && open.InInterface? && direction.None? then Some(InvalidAclDirection) else None
    case Neighbor(ip, remoteAs) =>
      if !line.indented || !open.InBgp? then None
      else if ip.None? then Some(InvalidBgpNeighborIp)
      else if remoteAs.None? || remoteAs.value < 1 then Some(InvalidBgpRemoteAs)
      else None
    case _ => None
  }

  // The parser's state is what the lines say

  ghost predicate Means(vendor: Vendor, lines: seq<Line>, s: State) {
    && s.context == OpenAfter(lines)
    && s.hostname == HostSaid(lines)
    && s.interfaces.Keys == InterfacesOpened(lines)
    && s.acls.Keys == AclsOpened(vendor, lines)
    && s.neighbors == NeighborsSaid(lines)
    && (s.context.InInterface? ==> s.context.name in s.interfaces)
    && (s.context.InAcl? ==> s.context.acl in s.acls)
    && (forall name :: s.Interface(name) == InterfaceSaid(lines, name))
    && (forall name :: s.Entries(name) == EntriesSaid(vendor, lines, name))
  }

  function InterfaceSaid(lines: seq<Line>, name: string): Builder {
    Builder(DescriptionSaid(lines, name), AddressSaid(lines, name), StateSaid(lines, name),
            GroupSaid(lines, name, In), GroupSaid(lines, name, Out))
  }

  lemma {:induction false} NothingMeans(vendor: Vendor)
    ensures Means(vendor, [], START)
  {
  }

  // What one more line says

  lemma {:induction false} BlockSnoc(vendor: Vendor, lines: seq<Line>, line: Line)
    ensures OpenAfter(lines + [line]) ==
            (if line.body.Blank? || (line.indented && !line.body.Bang?) then OpenAfter(lines)
             else match line.body
                  case InterfaceOpen(name) => InInterface(name)
                  case AclOpen(name) => InAcl(name)
                  case RouterBgp => InBgp
                  case _ => NoContext)
    ensures HostSaid(lines + [line]) ==
            if !line.indented && line.body.Hostname? then Some(line.body.host) else HostSaid(lines)
    ensures InterfacesOpened(lines + [line]) ==
            InterfacesOpened(lines) + if !line.indented && line.body.InterfaceOpen? then {line.body.name} else {}
    ensures AclsOpened(vendor, lines + [line]) ==
            AclsOpened(vendor, lines)
            + if !line.indented && line.body.AclOpen? then {line.body.acl}
              else if !line.indented && line.body.NumberedEntry? && vendor.Cisco? then {line.body.number}
              else {}
    ensures NeighborsSaid(lines + [line]) ==
            NeighborsSaid(lines)
            + if line.indented && line.body.Neighbor? && OpenAfter(lines).InBgp?
                 && line.body.ip.Some? && line.body.remoteAs.Some?
              then [BgpNeighbor(line.body.ip.value, line.body.remoteAs.value)] else []
  {
    assert (lines + [line])[..|lines|] == lines;
  }

  lemma {:induction false} InterfaceSnoc(lines: seq<Line>, line: Line, name: string)
    ensures var (before, after, body) := (InterfaceSaid(lines, name), InterfaceSaid(lines + [line], name), line.body);
            after ==
            if !line.indented || OpenAfter(lines) != InInterface(name) then before
            else
              match body
              case Description(text) => before.(description := Some(text))
              case IpAddress(_, Some(address), Some(prefix)) => before.(ipAddress := Some(Cidr(address, prefix)))
              case Shutdown => before.(adminState := Down)
              case NoShutdown => before.(adminState := Up)
              case AccessGroup(group, Some(In)) => before.(aclIn := Some(group))
              case AccessGroup(group, Some(Out)) => before.(aclOut := Some(group))
              case _ => before
  {
    hide OpenAfter;
    assert (lines + [line])[..|lines|] == lines;
  }

  lemma {:induction false} EntriesSnoc(vendor: Vendor, lines: seq<Line>, line: Line, name: string)
    ensures EntriesSaid(vendor, lines + [line], name) ==
            EntriesSaid(vendor, lines, name)
            + if line.indented && line.body.Entry? && OpenAfter(lines) == InAcl(name) then [line.body.entry]
              else if !line.indented && vendor.Cisco? && line.body.NumberedEntry? && line.body.number == name then
                [Pending(None, line.body.rule)]
              else []
  {
    hide OpenAfter;
    assert (lines + [line])[..|lines|] == lines;
  }

  // So the parser's state keeps meaning what the lines say

  lemma WrongFails(vendor: Vendor, line: Line, s: State)
    ensures match Wrong(vendor, s.context, line)
            case Some(e) => ParseLine(vendor, s, line) == Failure(e)
            case None => ParseLine(vendor, s, line).Success?
  {
  }

  lemma {:induction false} ContextKeeps(vendor: Vendor, lines: seq<Line>, line: Line, s: State)
    requires s.context == OpenAfter(lines) && ParseLine(vendor, s, line).Success?
    ensures ParseLine(vendor, s, line).value.context == OpenAfter(lines + [line])
  {
    hide OpenAfter, State.Interface, State.Entries, ParseInterfaceChild, NormalizeNeighbor;
    BlockSnoc(vendor, lines, line);
  }

  lemma {:induction false} HostKeeps(vendor: Vendor, lines: seq<Line>, line: Line, s: State)
    requires s.hostname == HostSaid(lines) && ParseLine(vendor, s, line).Success?
    ensures ParseLine(vendor, s, line).value.hostname == HostSaid(lines + [line])
  {
    hide HostSaid, State.Interface, State.Entries, ParseInterfaceChild, NormalizeNeighbor;
    BlockSnoc(vendor, lines, line);
  }

  lemma {:induction false} NamesKeep(vendor: Vendor, lines: seq<Line>, line: Line, s: State)
    requires s.interfaces.Keys == InterfacesOpened(lines) && s.acls.Keys == AclsOpened(vendor, lines)
    requires s.context.InInterface? ==> s.context.name in s.interfaces
    requires s.context.InAcl? ==> s.context.acl in s.acls
    requires ParseLine(vendor, s, line).Success?
    ensures var t := ParseLine(vendor, s, line).value;
            && t.interfaces.Keys == InterfacesOpened(lines + [line])
            && t.acls.Keys == AclsOpened(vendor, lines + [line])
            && (t.context.InInterface? ==> t.context.name in t.interfaces)
            && (t.context.InAcl? ==> t.context.acl in t.acls)
  {
    hide InterfacesOpened, AclsOpened, State.Interface, State.Entries, ParseInterfaceChild, NormalizeNeighbor;
    BlockSnoc(vendor, lines, line);
  }

  lemma {:induction false} NeighborsKeep(vendor: Vendor, lines: seq<Line>, line: Line, s: State)
    requires s.context == OpenAfter(lines) && s.neighbors == NeighborsSaid(lines)
    requires ParseLine(vendor, s, line).Success?
    ensures ParseLine(vendor, s, line).value.neighbors == NeighborsSaid(lines + [line])
  {
    hide NeighborsSaid, OpenAfter, State.Interface, State.Entries, ParseInterfaceChild;
    BlockSnoc(vendor, lines, line);
  }

  lemma {:induction false} InterfaceKeeps(vendor: Vendor, lines: seq<Line>, line: Line, s: State, name: string)
    requires s.context == OpenAfter(lines) && s.Interface(name) == InterfaceSaid(lines, name)
    requires ParseLine(vendor, s, line).Success?
    ensures ParseLine(vendor, s, line).value.Interface(name) == InterfaceSaid(lines + [line], name)
  {
    hide InterfaceSaid, OpenAfter, State.Entries, NormalizeNeighbor;
    InterfaceSnoc(lines, line, name);
  }

  lemma {:induction false} EntriesKeep(vendor: Vendor, lines: seq<Line>, line: Line, s: State, name: string)
    requires s.context == OpenAfter(lines) && s.Entries(name) == EntriesSaid(vendor, lines, name)
    requires ParseLine(vendor, s, line).Success?
    ensures ParseLine(vendor, s, line).value.Entries(name) == EntriesSaid(vendor, lines + [line], name)
  {
    hide EntriesSaid, OpenAfter, State.Interface, ParseInterfaceChild, NormalizeNeighbor;
    EntriesSnoc(vendor, lines, line, name);
  }

  /** A wrong line fails with its error; after any other the state agrees with one more line. */
  lemma {:induction false} OneMoreLine(vendor: Vendor, lines: seq<Line>, line: Line, s: State)
    requires Means(vendor, lines, s)
    ensures match Wrong(vendor, OpenAfter(lines), line)
            case Some(e) => ParseLine(vendor, s, line) == Failure(e)
            case None =>
              && ParseLine(vendor, s, line).Success?
              && Means(vendor, lines + [line], ParseLine(vendor, s, line).value)
  {
    hide ParseLine, Wrong, OpenAfter, HostSaid, InterfacesOpened, AclsOpened, NeighborsSaid, InterfaceSaid, EntriesSaid;
    hide State.Interface, State.Entries;
    WrongFails(vendor, line, s);
    if ParseLine(vendor, s, line).Success? {
      ContextKeeps(vendor, lines, line, s);
      HostKeeps(vendor, lines, line, s);
      NamesKeep(vendor, lines, line, s);
      NeighborsKeep(vendor, lines, line, s);
      forall name
        ensures ParseLine(vendor, s, line).value.Interface(name) == InterfaceSaid(lines + [line], name)
        ensures ParseLine(vendor, s, line).value.Entries(name) == EntriesSaid(vendor, lines + [line], name)
      {
        InterfaceKeeps(vendor, lines, line, s, name);
        EntriesKeep(vendor, lines, line, s, name);
      }
    }
  }

  lemma {:induction false} PrefixMeans(vendor: Vendor, lines: seq<Line>, n: nat) returns (i: nat)
    requires n <= |lines|
    ensures match ParseLines(vendor, START, lines[..n])
            case Success(s) =>
              && Means(vendor, lines[..n], s)
              && forall j | 0 <= j < n :: Wrong(vendor, OpenAfter(lines[..j]), lines[j]) == None
            case Failure(e) =>
              && i < n && Wrong(vendor, OpenAfter(lines[..i]), lines[i]) == Some(e)
              && forall j | 0 <= j < i :: Wrong(vendor, OpenAfter(lines[..j]), lines[j]) == None
  {
    hide ParseLine, Means, Wrong, OpenAfter;
    i := 0;
    if n == 0 {
      NothingMeans(vendor);
    } else {
      i := PrefixMeans(vendor, lines, n - 1);
      assert lines[..n][..n - 1] == lines[..n - 1] && lines[..n] == lines[..n - 1] + [lines[n - 1]];
      var before := ParseLines(vendor, START, lines[..n - 1]);
      if before.Success? {
        OneMoreLine(vendor, lines[..n - 1], lines[n - 1], before.value);
        if Wrong(vendor, OpenAfter(lines[..n - 1]), lines[n - 1]).Some? { i := n - 1; }
      }
    }
  }

  // The finished configuration

  /** Every interface declared, in the order of their names, with the last word on each of its points. */
  ghost predicate InterfacesAre(lines: seq<Line>, interfaces: seq<Interface>) {
    && StrictlySorted(InterfaceNames(interfaces))
    && (forall name :: name in InterfaceNames(interfaces) <==> name in InterfacesOpened(lines))
    && (forall i | i in interfaces ::
          && i.description == DescriptionSaid(lines, i.name) && i.ipAddress == AddressSaid(lines, i.name)
          && i.mtu == None && i.adminState == StateSaid(lines, i.name)
          && i.aclIn == GroupSaid(lines, i.name, In) && i.aclOut == GroupSaid(lines, i.name, Out))
  }

  /** Every list declared, in the order of their names, with all its entries numbered. */
  ghost predicate AclsAre(vendor: Vendor, lines: seq<Line>, acls: seq<Acl>) {
    && StrictlySorted(AclNames(acls))
    && (forall name :: name in AclNames(acls) <==> name in AclsOpened(vendor, lines))
    && (forall a | a in acls :: a.entries == Finalize(vendor, EntriesSaid(vendor, lines, a.name)))
  }

  ghost predicate NeighborsAre(lines: seq<Line>, neighbors: seq<BgpNeighbor>) {
    && multiset(neighbors) == multiset(NeighborsSaid(lines))
    && forall i, j | 0 <= i < j < |neighbors| :: neighbors[i].neighborIp <= neighbors[j].neighborIp
  }

  /** Every access group names a declared list. */
  ghost predicate GroupsDeclared(vendor: Vendor, lines: seq<Line>) {
    forall name, direction | name in InterfacesOpened(lines) && GroupSaid(lines, name, direction).Some? ::
      GroupSaid(lines, name, direction).value in AclsOpened(vendor, lines)
  }

  ghost predicate AllBlank(lines: seq<Line>) {
    forall line | line in lines :: line.body.Blank?
  }

  lemma {:induction false} InterfacesFinished(vendor: Vendor, lines: seq<Line>, s: State)
    requires Means(vendor, lines, s)
    ensures InterfacesAre(lines, NormalizedInterfaces(s, SortedNames(s.interfaces.Keys)))
  {
    hide NormalizedInterfaces, SortedNames, InterfaceNames, StrictlySorted;
    hide DescriptionSaid, AddressSaid, StateSaid, GroupSaid, OpenAfter;
    var names := SortedNames(s.interfaces.Keys);
    var interfaces := NormalizedInterfaces(s, names);
    SortedNamesStrictly(s.interfaces.Keys);
    NormalizedNames(s, names);
    forall i | i in interfaces
      ensures i == NormalizedInterface(i.name, InterfaceSaid(lines, i.name))
    {
      var k :| 0 <= k < |interfaces| && interfaces[k] == i;
      InterfaceNamesAt(interfaces);
      InterfaceAt(s, names, k);
    }
  }

  lemma {:induction false} AclsFinished(vendor: Vendor, lines: seq<Line>, s: State)
    requires Means(vendor, lines, s)
    ensures AclsAre(vendor, lines, NormalizedAcls(vendor, s, SortedNames(s.acls.Keys)))
  {
    hide NormalizedAcls, SortedNames, AclNames, StrictlySorted, EntriesSaid, Finalize, OpenAfter, InterfaceSaid;
    var names := SortedNames(s.acls.Keys);
    var acls := NormalizedAcls(vendor, s, names);
    SortedNamesStrictly(s.acls.Keys);
    FinalizedNames(vendor, s, names);
    forall a | a in acls ensures a.entries == Finalize(vendor, EntriesSaid(vendor, lines, a.name)) {
      var k :| 0 <= k < |acls| && acls[k] == a;
      AclNamesAt(acls);
      AclAt(vendor, s, names, k);
    }
  }

  lemma {:induction false} NeighborsFinished(lines: seq<Line>, neighbors: seq<BgpNeighbor>)
    requires neighbors == NeighborsSaid(lines)
    ensures NeighborsAre(lines, Sort(NeighborLe, neighbors))
  {
    SortSorted(NeighborLe, neighbors);
    SortPermutes(NeighborLe, neighbors);
    var sorted := Sort(NeighborLe, neighbors);
    forall i, j | 0 <= i < j < |sorted| ensures sorted[i].neighborIp <= sorted[j].neighborIp {
      assert NeighborLe(sorted[i], sorted[j]);
    }
  }

  lemma {:induction false} GroupsFinished(vendor: Vendor, lines: seq<Line>, s: State)
    requires Means(vendor, lines, s)
    ensures ReferencesDeclared(s) <==> GroupsDeclared(vendor, lines)
  {
    hide DescriptionSaid, AddressSaid, StateSaid, OpenAfter, EntriesSaid, NeighborsSaid;
    forall name | name in s.interfaces
      ensures s.interfaces[name].aclIn == GroupSaid(lines, name, In)
      ensures s.interfaces[name].aclOut == GroupSaid(lines, name, Out)
    {
      assert s.Interface(name) == InterfaceSaid(lines, name);
    }
    if GroupsDeclared(vendor, lines) {
      forall name | name in s.interfaces
        ensures Declared(s.interfaces[name].aclIn, s.acls.Keys) && Declared(s.interfaces[name].aclOut, s.acls.Keys)
      {
        assert name in InterfacesOpened(lines);
        assert GroupSaid(lines, name, In).Some? ==> GroupSaid(lines, name, In).value in AclsOpened(vendor, lines);
        assert GroupSaid(lines, name, Out).Some? ==> GroupSaid(lines, name, Out).value in AclsOpened(vendor, lines);
      }
    }
    if ReferencesDeclared(s) {
      forall name, direction | name in InterfacesOpened(lines) && GroupSaid(lines, name, direction).Some?
        ensures GroupSaid(lines, name, direction).value in AclsOpened(vendor, lines)
      {
        assert name in s.interfaces && (direction.In? || direction.Out?);
      }
    }
  }

  /** What either adapter makes of any text: nothing but blanks is empty; otherwise the first wrong line decides;
      then a name for the device is needed, and a list for every reference to one; and then the configuration is
      what the lines say. */
  lemma {:induction false} ParseIsExact(vendor: Vendor, lines: seq<Line>)
    ensures AllBlank(lines) ==> Parse(vendor, lines) == Failure(EmptyConfiguration)
    ensures !AllBlank(lines) ==>
              forall i | 0 <= i < |lines|
                         && (forall j | 0 <= j < i :: Wrong(vendor, OpenAfter(lines[..j]), lines[j]) == None)
                         && Wrong(vendor, OpenAfter(lines[..i]), lines[i]).Some? ::
                Parse(vendor, lines) == Failure(Wrong(vendor, OpenAfter(lines[..i]), lines[i]).value)
    ensures !AllBlank(lines)
            && (forall i | 0 <= i < |lines| :: Wrong(vendor, OpenAfter(lines[..i]), lines[i]) == None) ==>
              if HostSaid(lines).None? then Parse(vendor, lines) == Failure(MissingHostname)
              else if !GroupsDeclared(vendor, lines) then Parse(vendor, lines) == Failure(UndeclaredAclReference)
              else
                && Parse(vendor, lines).Success?
                && var c := Parse(vendor, lines).value;
                   && c.hostname == HostSaid(lines).value
                   && InterfacesAre(lines, c.interfaces) && NeighborsAre(lines, c.bgpNeighbors)
                   && AclsAre(vendor, lines, c.acls)
  {
    hide ParseLines, Wrong, OpenAfter, Means, InterfacesAre, AclsAre, NeighborsAre, GroupsDeclared, ReferencesDeclared;
    hide NormalizedInterfaces, NormalizedAcls, SortedNames, HostSaid, Sort;
    var i := PrefixMeans(vendor, lines, |lines|);
    assert lines[..|lines|] == lines;
    assert AllBlank(lines) <==> IsEmpty(lines) by { assert forall k | 0 <= k < |lines| :: lines[k] in lines; }
    var state := ParseLines(vendor, START, lines);
    if state.Success? {
      FinishMeans(vendor, lines, state.value);
    }
  }

  lemma {:induction false} FinishMeans(vendor: Vendor, lines: seq<Line>, s: State)
    requires Means(vendor, lines, s)
    ensures if HostSaid(lines).None? then Finish(vendor, s) == Failure(MissingHostname)
            else if !GroupsDeclared(vendor, lines) then Finish(vendor, s) == Failure(UndeclaredAclReference)
            else
              && Finish(vendor, s).Success?
              && var c := Finish(vendor, s).value;
                 && c.hostname == HostSaid(lines).value
                 && InterfacesAre(lines, c.interfaces) && NeighborsAre(lines, c.bgpNeighbors)
                 && AclsAre(vendor, lines, c.acls)
  {
    hide NormalizedInterfaces, NormalizedAcls, SortedNames, Sort, InterfacesAre, AclsAre, NeighborsAre;
    hide GroupsDeclared, ReferencesDeclared, OpenAfter, InterfaceSaid, EntriesSaid;
    InterfacesFinished(vendor, lines, s);
    AclsFinished(vendor, lines, s);
    NeighborsFinished(lines, s.neighbors);
    GroupsFinished(vendor, lines, s);
  }
}
