/** Parsing and rendering undo each other, and the adapters produce exactly what can be rendered. */
module RoundTrip {
  import opened Wrappers
  import opened Sorting
  import opened Config
  import opened AclNumbering
  import opened Adapters
  import opened BlockOrder

  // What the adapters produce

  ghost predicate StrictlySorted(names: seq<string>) {
    forall i, j | 0 <= i < j < |names| :: StringLe(names[i], names[j]) && names[i] != names[j]
  }

  function InterfaceNames(interfaces: seq<Interface>): seq<string> {
    if interfaces == [] then []
    else InterfaceNames(interfaces[..|interfaces| - 1]) + [interfaces[|interfaces| - 1].name]
  }

  function AclNames(acls: seq<Acl>): seq<string> {
    if acls == [] then [] else AclNames(acls[..|acls| - 1]) + [acls[|acls| - 1].name]
  }

  lemma {:induction false} InterfaceNamesAt(interfaces: seq<Interface>)
    ensures |InterfaceNames(interfaces)| == |interfaces|
    ensures forall i | 0 <= i < |interfaces| :: InterfaceNames(interfaces)[i] == interfaces[i].name
  {
    if interfaces != [] { InterfaceNamesAt(interfaces[..|interfaces| - 1]); }
  }

  lemma {:induction false} AclNamesAt(acls: seq<Acl>)
    ensures |AclNames(acls)| == |acls|
    ensures forall i | 0 <= i < |acls| :: AclNames(acls)[i] == acls[i].name
  {
    if acls != [] { AclNamesAt(acls[..|acls| - 1]); }
  }

  predicate ValidCidr(cidr: Option<Cidr>) {
    cidr.Some? ==> 0 <= cidr.value.prefixLength <= 32
  }

  ghost predicate WellFormed(vendor: Vendor, c: Configuration) {
    && StrictlySorted(InterfaceNames(c.interfaces))
    && StrictlySorted(AclNames(c.acls))
    && (forall i | i in c.interfaces ::
          && i.mtu == None
          && ValidCidr(i.ipAddress)
          && (i.aclIn.Some? ==> i.aclIn.value in AclNames(c.acls))
          && (i.aclOut.Some? ==> i.aclOut.value in AclNames(c.acls)))
    && SortedBy(NeighborLe, c.bgpNeighbors)
    && (forall n | n in c.bgpNeighbors :: n.remoteAs > 0)
    && (vendor.Cisco? ==> forall acl | acl in c.acls :: SortedBy(SequenceLe, acl.entries))
  }

  ghost predicate StateOk(s: State) {
    && (forall name | name in s.interfaces :: ValidCidr(s.interfaces[name].ipAddress))
    && (forall n | n in s.neighbors :: n.remoteAs > 0)
  }

  lemma LineKeepsStateOk(vendor: Vendor, s: State, line: Line)
    requires StateOk(s) && ParseLine(vendor, s, line).Success?
    ensures StateOk(ParseLine(vendor, s, line).value)
  {
    hide ParseTop, ParseChild, StateOk;
    TopKeepsStateOk(vendor, s.(context := NoContext), line.body);
    ChildKeepsStateOk(vendor, s, line.body);
    ContextIsFree(s, NoContext);
  }

  lemma ContextIsFree(s: State, c: Context)
    ensures StateOk(s.(context := c)) == StateOk(s)
  {
  }

  lemma TopKeepsStateOk(vendor: Vendor, s: State, body: Body)
    ensures StateOk(s) && ParseTop(vendor, s, body).Success? ==> StateOk(ParseTop(vendor, s, body).value)
  {
  }

  lemma ChildKeepsStateOk(vendor: Vendor, s: State, body: Body)
    ensures StateOk(s) && ParseChild(vendor, s, body).Success? ==> StateOk(ParseChild(vendor, s, body).value)
  {
    hide ParseInterfaceChild, ValidCidr;
    if s.context.InInterface? { BodyKeepsCidr(vendor, s.Interface(s.context.name), body); }
  }

  lemma BodyKeepsCidr(vendor: Vendor, b: Builder, body: Body)
    ensures var r := ParseInterfaceChild(vendor, b, body);
            (b == NEW_BUILDER || ValidCidr(b.ipAddress)) && r.Success? ==> ValidCidr(r.value.ipAddress)
  {
  }

  lemma {:induction false} LinesKeepStateOk(vendor: Vendor, s: State, lines: seq<Line>)
    requires StateOk(s) && ParseLines(vendor, s, lines).Success?
    ensures StateOk(ParseLines(vendor, s, lines).value)
  {
    if lines != [] {
      var n := |lines| - 1;
      LinesKeepStateOk(vendor, s, lines[..n]);
      LineKeepsStateOk(vendor, ParseLines(vendor, s, lines[..n]).value, lines[n]);
    }
  }

  lemma {:induction false} InterfacesLength(s: State, names: seq<string>)
    ensures |NormalizedInterfaces(s, names)| == |names|
  {
    if names != [] { InterfacesLength(s, names[..|names| - 1]); }
  }

  lemma {:induction false} InterfaceAt(s: State, names: seq<string>, i: nat)
    requires i < |names|
    ensures |NormalizedInterfaces(s, names)| == |names|
    ensures NormalizedInterfaces(s, names)[i] == NormalizedInterface(names[i], s.Interface(names[i]))
  {
    InterfacesLength(s, names);
    InterfacesLength(s, names[..|names| - 1]);
    if i < |names| - 1 { InterfaceAt(s, names[..|names| - 1], i); }
  }

  lemma {:induction false} AclsLength(vendor: Vendor, s: State, names: seq<string>)
    ensures |NormalizedAcls(vendor, s, names)| == |names|
  {
    if names != [] { AclsLength(vendor, s, names[..|names| - 1]); }
  }

  lemma {:induction false} AclAt(vendor: Vendor, s: State, names: seq<string>, i: nat)
    requires i < |names|
    ensures |NormalizedAcls(vendor, s, names)| == |names|
    ensures NormalizedAcls(vendor, s, names)[i] == Acl(names[i], Finalize(vendor, s.Entries(names[i])))
  {
    AclsLength(vendor, s, names);
    AclsLength(vendor, s, names[..|names| - 1]);
    if i < |names| - 1 { AclAt(vendor, s, names[..|names| - 1], i); }
  }

  lemma {:induction false} SortedNamesStrictly(names: set<string>)
    ensures StrictlySorted(SortedNames(names))
    ensures forall name :: name in SortedNames(names) <==> name in names
  {
    SortedNamesAre(names);
    var s := SortedNames(names);
    forall name ensures name in s <==> name in names {
      assert name in s <==> name in multiset(s);
    }
    forall i, j | 0 <= i < j < |s| ensures s[i] != s[j] {
      if s[i] == s[j] { TwiceCounts(s, i, j); }
      assert multiset(names)[s[i]] <= 1;
    }
  }

  lemma TwiceCounts(s: seq<string>, i: nat, j: nat)
    requires i < j < |s| && s[i] == s[j]
    ensures multiset(s)[s[i]] >= 2
  {
    assert s == s[..i] + [s[i]] + s[i + 1..j] + [s[j]] + s[j + 1..];
  }

  /** Whatever an adapter accepts, the result is well-formed. */
  lemma ParseIsWellFormed(vendor: Vendor, lines: seq<Line>)
    requires Parse(vendor, lines).Success?
    ensures WellFormed(vendor, Parse(vendor, lines).value)
  {
    var s, c := ParseLines(vendor, START, lines).value, Parse(vendor, lines).value;
    LinesKeepStateOk(vendor, START, lines);
    FinishedInterfaces(vendor, s, c);
    FinishedNeighbors(s);
    FinishedAcls(vendor, s);
  }

  lemma FinishedInterfaces(vendor: Vendor, s: State, c: Configuration)
    requires StateOk(s) && Finish(vendor, s) == Success(c)
    ensures StrictlySorted(InterfaceNames(c.interfaces))
    ensures forall i | i in c.interfaces ::
              && i.mtu == None
              && ValidCidr(i.ipAddress)
              && (i.aclIn.Some? ==> i.aclIn.value in AclNames(c.acls))
              && (i.aclOut.Some? ==> i.aclOut.value in AclNames(c.acls))
  {
    var names := SortedNames(s.interfaces.Keys);
    SortedNamesStrictly(s.interfaces.Keys);
    InterfacesLength(s, names);
    NormalizedNames(s, names);
    DeclaredNames(vendor, s);
    forall k | 0 <= k < |names|
      ensures c.interfaces[k].mtu == None && ValidCidr(c.interfaces[k].ipAddress)
      ensures c.interfaces[k].aclIn.Some? ==> c.interfaces[k].aclIn.value in AclNames(c.acls)
      ensures c.interfaces[k].aclOut.Some? ==> c.interfaces[k].aclOut.value in AclNames(c.acls)
    {
      InterfaceAt(s, names, k);
      assert names[k] in s.interfaces;
    }
  }

  lemma {:induction false} NormalizedNames(s: State, names: seq<string>)
    ensures InterfaceNames(NormalizedInterfaces(s, names)) == names
  {
    hide NormalizedInterface;
    if names != [] {
      var front, last := names[..|names| - 1], names[|names| - 1];
      var before := NormalizedInterfaces(s, front);
      NormalizedNames(s, front);
      NamesSnoc(before, NormalizedInterface(last, s.Interface(last)));
      NamedAs(last, s.Interface(last));
    }
  }

  lemma NamedAs(name: string, b: Builder)
    ensures NormalizedInterface(name, b).name == name
  {
  }

  lemma {:induction false} NamesSnoc(interfaces: seq<Interface>, i: Interface)
    ensures InterfaceNames(interfaces + [i]) == InterfaceNames(interfaces) + [i.name]
  {
    assert (interfaces + [i])[..|interfaces|] == interfaces;
  }

  lemma {:induction false} FinalizedNames(vendor: Vendor, s: State, names: seq<string>)
    ensures AclNames(NormalizedAcls(vendor, s, names)) == names
  {
    if names != [] { FinalizedNames(vendor, s, names[..|names| - 1]); }
  }

  lemma {:induction false} DeclaredNames(vendor: Vendor, s: State)
    ensures AclNames(NormalizedAcls(vendor, s, SortedNames(s.acls.Keys))) == SortedNames(s.acls.Keys)
    ensures forall name | name in s.acls :: name in SortedNames(s.acls.Keys)
  {
    SortedNamesStrictly(s.acls.Keys);
    FinalizedNames(vendor, s, SortedNames(s.acls.Keys));
  }

  lemma FinishedNeighbors(s: State)
    requires StateOk(s)
    ensures SortedBy(NeighborLe, Sort(NeighborLe, s.neighbors))
    ensures forall n | n in Sort(NeighborLe, s.neighbors) :: n.remoteAs > 0
  {
    SortSorted(NeighborLe, s.neighbors);
    SortPermutes(NeighborLe, s.neighbors);
    SameMembers(Sort(NeighborLe, s.neighbors), s.neighbors);
  }

  lemma FinalizedSorted(pending: seq<Pending>)
    ensures SortedBy(SequenceLe, Finalize(Cisco, pending))
  {
    SortSorted(SequenceLe, Numbered(Cisco, Explicit(pending), pending));
  }

  lemma {:induction false} FinishedAcls(vendor: Vendor, s: State)
    ensures StrictlySorted(AclNames(NormalizedAcls(vendor, s, SortedNames(s.acls.Keys))))
    ensures vendor.Cisco? ==>
              forall acl | acl in NormalizedAcls(vendor, s, SortedNames(s.acls.Keys)) ::
                SortedBy(SequenceLe, acl.entries)
  {
    hide NormalizedAcls, SortedNames, AclNames, StrictlySorted, Finalize, SequenceLe;
    var names := SortedNames(s.acls.Keys);
    SortedNamesStrictly(s.acls.Keys);
    DeclaredNames(vendor, s);
    AclsLength(vendor, s, names);
    if vendor.Cisco? {
      forall i | 0 <= i < |names|
        ensures SortedBy(SequenceLe, NormalizedAcls(vendor, s, names)[i].entries)
      {
        AclAt(vendor, s, names, i);
        FinalizedSorted(s.Entries(names[i]));
      }
    }
  }

  // Rendering

  function Maybe(body: Option<Body>): seq<Line> {
    if body.Some? then [Line(true, body.value)] else []
  }

  function DescriptionBody(i: Interface): Option<Body> {
    if i.description.Some? then Some(Description(i.description.value)) else None
  }

  function AddressBody(i: Interface): Option<Body> {
    if i.ipAddress.Some? then
        Some(IpAddress(true, Some(i.ipAddress.value.address), Some(i.ipAddress.value.prefixLength)))
    else None
  }

  function StateBody(i: Interface): Option<Body> {
    Some(if i.adminState.Down? then Shutdown else NoShutdown)
  }

  function GroupBody(acl: Option<string>, direction: Direction): Option<Body> {
    if acl.Some? then Some(AccessGroup(acl.value, Some(direction))) else None
  }

  function RenderInterface(i: Interface): seq<Line> {
    [Line(false, InterfaceOpen(i.name))]
    + Maybe(DescriptionBody(i)) + Maybe(AddressBody(i)) + Maybe(StateBody(i))
    + Maybe(GroupBody(i.aclIn, In)) + Maybe(GroupBody(i.aclOut, Out))
  }

  function RenderInterfaces(interfaces: seq<Interface>): seq<Line> {
    if interfaces == [] then []
    else RenderInterfaces(interfaces[..|interfaces| - 1]) + RenderInterface(interfaces[|interfaces| - 1])
  }

  function AsPending(entries: seq<AclEntry>): seq<Pending> {
    if entries == [] then []
    else
      var n := |entries| - 1;
      AsPending(entries[..n]) + [Pending(Some(entries[n].sequence), entries[n].rule)]
  }

  function RenderEntries(entries: seq<AclEntry>): seq<Line> {
    if entries == [] then []
    else
      var n := |entries| - 1;
      RenderEntries(entries[..n]) + [Line(true, Entry(Pending(Some(entries[n].sequence), entries[n].rule)))]
  }

  function RenderAcls(acls: seq<Acl>): seq<Line> {
    if acls == [] then []
    else
      var n := |acls| - 1;
      RenderAcls(acls[..n]) + ([Line(false, AclOpen(acls[n].name))] + RenderEntries(acls[n].entries))
  }

  function RenderNeighbors(neighbors: seq<BgpNeighbor>): seq<Line> {
    if neighbors == [] then []
    else
      var n := |neighbors| - 1;
      RenderNeighbors(neighbors[..n])
      + [Line(true, Neighbor(Some(neighbors[n].neighborIp), Some(neighbors[n].remoteAs)))]
  }

  function Render(c: Configuration): seq<Line> {
    [Line(false, Hostname(c.hostname))]
    + RenderInterfaces(c.interfaces)
    + RenderAcls(c.acls)
    + ([Line(false, RouterBgp)] + RenderNeighbors(c.bgpNeighbors))
  }

  // Parsing what was rendered

  function BuilderOf(i: Interface): Builder {
    Builder(i.description, i.ipAddress, i.adminState, i.aclIn, i.aclOut)
  }

  lemma {:induction false} ParseOne(vendor: Vendor, s: State, line: Line)
    ensures ParseLines(vendor, s, [line]) == ParseLine(vendor, s, line)
  {
    assert [line][..0] == [];
  }

  /** The state with one interface open. */
  function Open(s: State, name: string, b: Builder): State {
    s.(interfaces := s.interfaces[name := b], context := InInterface(name))
  }

  lemma {:induction false} OpenAgain(s: State, name: string, before: Builder, after: Builder)
    ensures Open(Open(s, name, before), name, after) == Open(s, name, after)
    ensures Open(s, name, before).Interface(name) == before
  {
    assert s.interfaces[name := before][name := after] == s.interfaces[name := after];
  }

  lemma {:induction false} ReadsChildLine(
    vendor: Vendor, s: State, name: string, before: Builder, body: Body, after: Builder)
    requires !body.Blank? && !body.Bang? && ParseInterfaceChild(vendor, before, body) == Success(after)
    ensures ParseLine(vendor, Open(s, name, before), Line(true, body)) == Success(Open(s, name, after))
  {
    OpenAgain(s, name, before, after);
  }

  /** One optional child line of an open interface. */
  lemma {:induction false} ReadsChild(
    vendor: Vendor, s: State, lines: seq<Line>, name: string, before: Builder, body: Option<Body>, after: Builder)
    requires ParseLines(vendor, s, lines) == Success(Open(s, name, before))
    requires body.None? ==> after == before
    requires body.Some? ==> !body.value.Blank? && !body.value.Bang?
                            && ParseInterfaceChild(vendor, before, body.value) == Success(after)
    ensures ParseLines(vendor, s, lines + Maybe(body)) == Success(Open(s, name, after))
  {
    if body.None? {
      assert lines + Maybe(body) == lines;
    } else {
      assert (lines + Maybe(body))[..|lines|] == lines;
      ReadsChildLine(vendor, s, name, before, body.value, after);
    }
  }

  /** The first half of an interface, through its address. */
  lemma {:induction false} ReadsHead(vendor: Vendor, s: State, i: Interface)
    requires i.name !in s.interfaces && ValidCidr(i.ipAddress)
    ensures ParseLines(vendor, s,
                       [Line(false, InterfaceOpen(i.name))] + Maybe(DescriptionBody(i)) + Maybe(AddressBody(i)))
            == Success(Open(s, i.name, Builder(i.description, i.ipAddress, Up, None, None)))
  {
    var open := [Line(false, InterfaceOpen(i.name))];
    var described := NEW_BUILDER.(description := i.description);
    ParseOne(vendor, s, open[0]);
    ReadsChild(vendor, s, open, i.name, NEW_BUILDER, DescriptionBody(i), described);
    ReadsChild(vendor, s, open + Maybe(DescriptionBody(i)), i.name, described, AddressBody(i),
      described.(ipAddress := i.ipAddress));
  }

  lemma {:induction false} ReadsInterface(vendor: Vendor, s: State, i: Interface)
    requires i.name !in s.interfaces && ValidCidr(i.ipAddress)
    ensures ParseLines(vendor, s, RenderInterface(i)) == Success(Open(s, i.name, BuilderOf(i)))
  {
    var l2 := [Line(false, InterfaceOpen(i.name))] + Maybe(DescriptionBody(i)) + Maybe(AddressBody(i));
    var b2 := Builder(i.description, i.ipAddress, Up, None, None);
    var b3 := b2.(adminState := i.adminState);
    var b4 := b3.(aclIn := i.aclIn);
    hide ParseLines, DescriptionBody, AddressBody;
    ReadsHead(vendor, s, i);
    ReadsChild(vendor, s, l2, i.name, b2, StateBody(i), b3);
    ReadsChild(vendor, s, l2 + Maybe(StateBody(i)), i.name, b3, GroupBody(i.aclIn, In), b4);
    ReadsChild(vendor, s, l2 + Maybe(StateBody(i)) + Maybe(GroupBody(i.aclIn, In)), i.name, b4,
      GroupBody(i.aclOut, Out), BuilderOf(i));
  }

  function Builders(interfaces: seq<Interface>): map<string, Builder> {
    if interfaces == [] then map[]
    else
      var n := |interfaces| - 1;
      Builders(interfaces[..n])[interfaces[n].name := BuilderOf(interfaces[n])]
  }

  ghost predicate Holds(
    s: State, hostname: Option<string>, interfaces: map<string, Builder>, acls: map<string, seq<Pending>>)
  {
    s.hostname == hostname && s.interfaces == interfaces && s.acls == acls && s.neighbors == []
  }

  lemma {:induction false} BuildersKeys(interfaces: seq<Interface>, name: string)
    ensures name in Builders(interfaces) <==> name in InterfaceNames(interfaces)
  {
    if interfaces != [] { BuildersKeys(interfaces[..|interfaces| - 1], name); }
  }

  lemma {:induction false} BuildersAt(interfaces: seq<Interface>, k: nat)
    requires StrictlySorted(InterfaceNames(interfaces)) && k < |interfaces|
    ensures interfaces[k].name in Builders(interfaces)
    ensures Builders(interfaces)[interfaces[k].name] == BuilderOf(interfaces[k])
  {
    var n := |interfaces| - 1;
    if k < n {
      InterfaceNamesAt(interfaces);
      assert InterfaceNames(interfaces)[k] != InterfaceNames(interfaces)[n];
      PrefixIsSorted(InterfaceNames(interfaces[..n]), interfaces[n].name);
      BuildersAt(interfaces[..n], k);
    }
  }

  lemma PrefixIsSorted(names: seq<string>, last: string)
    requires StrictlySorted(names + [last])
    ensures StrictlySorted(names) && last !in names
  {
    var all := names + [last];
    assert forall i | 0 <= i < |names| :: all[i] == names[i] && all[i] != all[|names|];
  }

  lemma {:induction false} ReadsInterfaces(vendor: Vendor, s: State, interfaces: seq<Interface>)
    requires s.interfaces == map[] && s.acls == map[] && s.neighbors == []
    requires StrictlySorted(InterfaceNames(interfaces))
    requires forall i | i in interfaces :: ValidCidr(i.ipAddress)
    ensures ParseLines(vendor, s, RenderInterfaces(interfaces)).Success?
    ensures Holds(ParseLines(vendor, s, RenderInterfaces(interfaces)).value, s.hostname, Builders(interfaces), map[])
  {
    if interfaces != [] {
      var n := |interfaces| - 1;
      PrefixIsSorted(InterfaceNames(interfaces[..n]), interfaces[n].name);
      ReadsInterfaces(vendor, s, interfaces[..n]);
      BuildersKeys(interfaces[..n], interfaces[n].name);
      ParseLinesAppend(vendor, s, RenderInterfaces(interfaces[..n]), RenderInterface(interfaces[n]));
      ReadsInterface(vendor, ParseLines(vendor, s, RenderInterfaces(interfaces[..n])).value, interfaces[n]);
    }
  }

  lemma {:induction false} ReadsEntries(vendor: Vendor, s: State, name: string, entries: seq<AclEntry>)
    requires s.context == InAcl(name) && name in s.acls && s.acls[name] == []
    ensures ParseLines(vendor, s, RenderEntries(entries)) == Success(s.(acls := s.acls[name := AsPending(entries)]))
  {
    if entries == [] {
      assert s.acls[name := []] == s.acls;
    } else {
      var n := |entries| - 1;
      ReadsEntries(vendor, s, name, entries[..n]);
      var lines := RenderEntries(entries[..n]);
      var last := Line(true, Entry(Pending(Some(entries[n].sequence), entries[n].rule)));
      ParseLinesAppend(vendor, s, lines, [last]);
      var t := s.(acls := s.acls[name := AsPending(entries[..n])]);
      ParseOne(vendor, t, last);
      assert t.acls[name := AsPending(entries)] == s.acls[name := AsPending(entries)];
    }
  }

  function Pendings(acls: seq<Acl>): map<string, seq<Pending>> {
    if acls == [] then map[]
    else
      var n := |acls| - 1;
      Pendings(acls[..n])[acls[n].name := AsPending(acls[n].entries)]
  }

  lemma {:induction false} PendingsKeys(acls: seq<Acl>, name: string)
    ensures name in Pendings(acls) <==> name in AclNames(acls)
  {
    if acls != [] { PendingsKeys(acls[..|acls| - 1], name); }
  }

  lemma {:induction false} PendingsAt(acls: seq<Acl>, k: nat)
    requires StrictlySorted(AclNames(acls)) && k < |acls|
    ensures acls[k].name in Pendings(acls) && Pendings(acls)[acls[k].name] == AsPending(acls[k].entries)
  {
    var n := |acls| - 1;
    if k < n {
      AclNamesAt(acls);
      assert AclNames(acls)[k] != AclNames(acls)[n];
      PrefixIsSorted(AclNames(acls[..n]), acls[n].name);
      PendingsAt(acls[..n], k);
    }
  }

  lemma {:induction false} ReadsAcl(vendor: Vendor, s: State, acl: Acl)
    requires acl.name !in s.acls
    ensures ParseLines(vendor, s, [Line(false, AclOpen(acl.name))] + RenderEntries(acl.entries))
            == Success(s.(acls := s.acls[acl.name := AsPending(acl.entries)], context := InAcl(acl.name)))
  {
    ParseLinesAppend(vendor, s, [Line(false, AclOpen(acl.name))], RenderEntries(acl.entries));
    ParseOne(vendor, s, Line(false, AclOpen(acl.name)));
    var t := s.(acls := s.acls[acl.name := []], context := InAcl(acl.name));
    ReadsEntries(vendor, t, acl.name, acl.entries);
    assert t.acls[acl.name := AsPending(acl.entries)] == s.acls[acl.name := AsPending(acl.entries)];
  }

  lemma {:induction false} ReadsAcls(vendor: Vendor, s: State, acls: seq<Acl>)
    requires s.acls == map[] && s.neighbors == []
    requires StrictlySorted(AclNames(acls))
    ensures ParseLines(vendor, s, RenderAcls(acls)).Success?
    ensures Holds(ParseLines(vendor, s, RenderAcls(acls)).value, s.hostname, s.interfaces, Pendings(acls))
  {
    if acls != [] {
      var n := |acls| - 1;
      PrefixIsSorted(AclNames(acls[..n]), acls[n].name);
      ReadsAcls(vendor, s, acls[..n]);
      PendingsKeys(acls[..n], acls[n].name);
      ParseLinesAppend(vendor, s, RenderAcls(acls[..n]),
                       [Line(false, AclOpen(acls[n].name))] + RenderEntries(acls[n].entries));
      ReadsAcl(vendor, ParseLines(vendor, s, RenderAcls(acls[..n])).value, acls[n]);
    }
  }

  lemma {:induction false} ReadsNeighbor(vendor: Vendor, s: State, n: BgpNeighbor)
    requires s.context == InBgp && n.remoteAs > 0
    ensures ParseLines(vendor, s, [Line(true, Neighbor(Some(n.neighborIp), Some(n.remoteAs)))])
            == Success(s.(neighbors := s.neighbors + [n]))
  {
    ParseOne(vendor, s, Line(true, Neighbor(Some(n.neighborIp), Some(n.remoteAs))));
  }

  lemma {:induction false} ReadsNeighbors(vendor: Vendor, s: State, neighbors: seq<BgpNeighbor>)
    requires s.context == InBgp && s.neighbors == [] && forall n | n in neighbors :: n.remoteAs > 0
    ensures ParseLines(vendor, s, RenderNeighbors(neighbors)) == Success(s.(neighbors := neighbors))
  {
    if neighbors != [] {
      var n := |neighbors| - 1;
      ReadsNeighbors(vendor, s, neighbors[..n]);
      var last := Line(true, Neighbor(Some(neighbors[n].neighborIp), Some(neighbors[n].remoteAs)));
      ParseLinesAppend(vendor, s, RenderNeighbors(neighbors[..n]), [last]);
      ReadsNeighbor(vendor, s.(neighbors := neighbors[..n]), neighbors[n]);
      assert neighbors[..n] + [neighbors[n]] == neighbors;
    }
  }

  lemma {:induction false} ReadsBgp(vendor: Vendor, s: State, neighbors: seq<BgpNeighbor>)
    requires s.neighbors == [] && forall n | n in neighbors :: n.remoteAs > 0
    ensures ParseLines(vendor, s, [Line(false, RouterBgp)] + RenderNeighbors(neighbors))
            == Success(s.(neighbors := neighbors, context := InBgp))
  {
    ParseLinesAppend(vendor, s, [Line(false, RouterBgp)], RenderNeighbors(neighbors));
    ParseOne(vendor, s, Line(false, RouterBgp));
    ReadsNeighbors(vendor, s.(context := InBgp), neighbors);
  }

  lemma {:induction false} ReadsHostAndInterfaces(vendor: Vendor, c: Configuration)
    requires WellFormed(vendor, c)
    ensures ParseLines(vendor, START, [Line(false, Hostname(c.hostname))] + RenderInterfaces(c.interfaces)).Success?
    ensures Holds(ParseLines(vendor, START, [Line(false, Hostname(c.hostname))] + RenderInterfaces(c.interfaces)).value,
                  Some(c.hostname), Builders(c.interfaces), map[])
  {
    var host := Line(false, Hostname(c.hostname));
    ParseOne(vendor, START, host);
    ParseLinesAppend(vendor, START, [host], RenderInterfaces(c.interfaces));
    ReadsInterfaces(vendor, START.(hostname := Some(c.hostname)), c.interfaces);
  }

  /** The state after the rendered lines of a configuration. */
  lemma {:induction false} ReadsConfiguration(vendor: Vendor, c: Configuration)
    requires WellFormed(vendor, c)
    ensures ParseLines(vendor, START, Render(c))
            == Success(State(Some(c.hostname), Builders(c.interfaces), Pendings(c.acls), c.bgpNeighbors, InBgp))
  {
    var l1 := [Line(false, Hostname(c.hostname))] + RenderInterfaces(c.interfaces);
    var l2 := l1 + RenderAcls(c.acls);
    ReadsHostAndInterfaces(vendor, c);
    var s1 := ParseLines(vendor, START, l1).value;
    ParseLinesAppend(vendor, START, l1, RenderAcls(c.acls));
    ReadsAcls(vendor, s1, c.acls);
    var s2 := ParseLines(vendor, s1, RenderAcls(c.acls)).value;
    ParseLinesAppend(vendor, START, l2, [Line(false, RouterBgp)] + RenderNeighbors(c.bgpNeighbors));
    ReadsBgp(vendor, s2, c.bgpNeighbors);
  }

  // Finishing it

  lemma {:induction false} ExplicitEntriesStay(vendor: Vendor, explicit: set<nat>, entries: seq<AclEntry>)
    ensures Numbered(vendor, explicit, AsPending(entries)) == entries
  {
    hide Numbers, FirstFree;
    if entries != [] {
      var n := |entries| - 1;
      ExplicitEntriesStay(vendor, explicit, entries[..n]);
      assert AsPending(entries)[..|AsPending(entries)| - 1] == AsPending(entries[..n]);
      assert entries[..n] + [entries[n]] == entries;
    }
  }

  lemma {:induction false} NamesAreCanonical(names: seq<string>, keys: set<string>)
    requires StrictlySorted(names) && forall name :: name in names <==> name in keys
    ensures SortedNames(keys) == names
  {
    StringOrder();
    SortedNamesAre(keys);
    DistinctCounts(names);
    forall name ensures multiset(names)[name] == multiset(keys)[name] {
      assert name in names <==> name in multiset(names);
    }
    SortedIsCanonical(StringLe, names, SortedNames(keys));
  }

  lemma {:induction false} DistinctCounts(names: seq<string>)
    requires StrictlySorted(names)
    ensures forall name :: multiset(names)[name] <= 1
  {
    if names != [] {
      var n := |names| - 1;
      DistinctCounts(names[..n]);
      assert names == names[..n] + [names[n]];
      assert names[n] !in names[..n];
    }
  }

  lemma {:induction false} InterfaceNamesAreKeys(s: State, interfaces: seq<Interface>)
    requires StrictlySorted(InterfaceNames(interfaces)) && s.interfaces == Builders(interfaces)
    ensures SortedNames(s.interfaces.Keys) == InterfaceNames(interfaces)
  {
    forall name ensures name in InterfaceNames(interfaces) <==> name in s.interfaces.Keys {
      BuildersKeys(interfaces, name);
    }
    NamesAreCanonical(InterfaceNames(interfaces), s.interfaces.Keys);
  }

  lemma {:induction false} FinishesInterfaces(s: State, interfaces: seq<Interface>)
    requires StrictlySorted(InterfaceNames(interfaces)) && s.interfaces == Builders(interfaces)
    requires forall i | i in interfaces :: i.mtu == None
    ensures NormalizedInterfaces(s, SortedNames(s.interfaces.Keys)) == interfaces
  {
    InterfaceNamesAreKeys(s, interfaces);
    InterfacesLength(s, InterfaceNames(interfaces));
    InterfaceNamesAt(interfaces);
    forall k | 0 <= k < |interfaces|
      ensures NormalizedInterfaces(s, InterfaceNames(interfaces))[k] == interfaces[k]
    {
      FinishesInterface(s, interfaces, k);
    }
  }

  lemma {:induction false} FinishesInterface(s: State, interfaces: seq<Interface>, k: nat)
    requires StrictlySorted(InterfaceNames(interfaces)) && s.interfaces == Builders(interfaces)
    requires k < |interfaces| && interfaces[k].mtu == None
    ensures |NormalizedInterfaces(s, InterfaceNames(interfaces))| == |interfaces|
    ensures NormalizedInterfaces(s, InterfaceNames(interfaces))[k] == interfaces[k]
  {
    InterfaceNamesAt(interfaces);
    InterfaceAt(s, InterfaceNames(interfaces), k);
    BuildersAt(interfaces, k);
  }

  lemma {:induction false} FinishesAcls(vendor: Vendor, s: State, acls: seq<Acl>)
    requires StrictlySorted(AclNames(acls)) && s.acls == Pendings(acls)
    requires vendor.Cisco? ==> forall acl | acl in acls :: SortedBy(SequenceLe, acl.entries)
    ensures NormalizedAcls(vendor, s, SortedNames(s.acls.Keys)) == acls
  {
    hide NormalizedAcls, SortedNames, AclNames, Pendings, StrictlySorted, SequenceLe;
    forall name ensures name in AclNames(acls) <==> name in s.acls.Keys {
      PendingsKeys(acls, name);
    }
    NamesAreCanonical(AclNames(acls), s.acls.Keys);
    AclsLength(vendor, s, AclNames(acls));
    AclNamesAt(acls);
    forall k | 0 <= k < |acls| ensures NormalizedAcls(vendor, s, AclNames(acls))[k] == acls[k] {
      FinishesAcl(vendor, s, acls, k);
    }
  }

  lemma {:induction false} FinishesAcl(vendor: Vendor, s: State, acls: seq<Acl>, k: nat)
    requires StrictlySorted(AclNames(acls)) && s.acls == Pendings(acls)
    requires k < |acls| && (vendor.Cisco? ==> SortedBy(SequenceLe, acls[k].entries))
    ensures |NormalizedAcls(vendor, s, AclNames(acls))| == |acls|
    ensures NormalizedAcls(vendor, s, AclNames(acls))[k] == acls[k]
  {
    AclNamesAt(acls);
    AclAt(vendor, s, AclNames(acls), k);
    PendingsAt(acls, k);
    FinishesEntries(vendor, acls[k].entries);
  }

  lemma {:induction false} FinishesEntries(vendor: Vendor, entries: seq<AclEntry>)
    requires vendor.Cisco? ==> SortedBy(SequenceLe, entries)
    ensures Finalize(vendor, AsPending(entries)) == entries
  {
    ExplicitEntriesStay(vendor, Explicit(AsPending(entries)), entries);
    if vendor.Cisco? { SortOfSorted(SequenceLe, entries); }
  }

  lemma RenderedReferencesAreDeclared(vendor: Vendor, c: Configuration, s: State)
    requires WellFormed(vendor, c) && s.interfaces == Builders(c.interfaces) && s.acls == Pendings(c.acls)
    ensures ReferencesDeclared(s)
  {
    forall name | name in AclNames(c.acls) ensures name in s.acls {
      PendingsKeys(c.acls, name);
    }
    forall name | name in s.interfaces
      ensures Declared(s.interfaces[name].aclIn, s.acls.Keys) && Declared(s.interfaces[name].aclOut, s.acls.Keys)
    {
      BuildersKeys(c.interfaces, name);
      InterfaceNamesAt(c.interfaces);
      var k :| 0 <= k < |c.interfaces| && c.interfaces[k].name == name;
      BuildersAt(c.interfaces, k);
      assert c.interfaces[k] in c.interfaces;
    }
  }

  /** Rendering any well-formed configuration and parsing the lines gives it back, for both adapters. */
  lemma ParseOfRender(vendor: Vendor, c: Configuration)
    requires WellFormed(vendor, c)
    ensures Parse(vendor, Render(c)) == Success(c)
  {
    ReadsConfiguration(vendor, c);
    var s := ParseLines(vendor, START, Render(c)).value;
    assert !IsEmpty(Render(c)) by { assert Render(c)[0] == Line(false, Hostname(c.hostname)); }
    RenderedReferencesAreDeclared(vendor, c, s);
    FinishesInterfaces(s, c.interfaces);
    FinishesAcls(vendor, s, c.acls);
    SortOfSorted(NeighborLe, c.bgpNeighbors);
  }

  /** So the well-formed configurations are exactly what an adapter can return, and normalizing a
      configuration twice is normalizing it once. */
  lemma WellFormedIffParsed(vendor: Vendor, c: Configuration)
    ensures WellFormed(vendor, c) <==> exists lines :: Parse(vendor, lines) == Success(c)
  {
    if WellFormed(vendor, c) { ParseOfRender(vendor, c); }
    forall lines | Parse(vendor, lines) == Success(c) ensures WellFormed(vendor, c) {
      ParseIsWellFormed(vendor, lines);
    }
  }

  /** An EOS configuration with list entries out of sequence order is one that the IOS-XE adapter can
      never return: it sorts them. */
  lemma OnlySortedListsAreCisco(c: Configuration)
    requires WellFormed(Arista, c)
    ensures (exists lines :: Parse(Cisco, lines) == Success(c)) <==>
            forall acl | acl in c.acls :: SortedBy(SequenceLe, acl.entries)
  {
    WellFormedIffParsed(Cisco, c);
  }
}
