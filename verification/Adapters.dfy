/** The IOS-XE and EOS adapters: line-oriented state machines over classified lines. */
module Adapters {
  import opened Wrappers
  import opened Sorting
  import opened Config
  import opened AclNumbering

  datatype ErrorCode =
    | EmptyConfiguration
    | MissingHostname
    | MalformedHostname
    | MalformedInterface
    | InvalidInterfaceIp
    | InvalidSubnetMask
    | InvalidAclDirection
    | InvalidBgpNeighborIp
    | InvalidBgpRemoteAs
    | UndeclaredAclReference

  datatype Direction = In | Out

  /** What a stripped line says. A token that does not convert is `None`; a line that matches no
      command of its adapter is `Unrecognized`. */
  datatype Body =
    | Blank
    | Bang
    | Hostname(host: string)
    | HostnameWithoutValue
    | InterfaceOpen(name: string)
    | InterfaceWithoutName
    | AclOpen(acl: string)
    | NumberedEntry(number: string, rule: Rule)
    | RouterBgp
    | Description(text: string)
    | IpAddress(hasSeparator: bool, address: Option<Address>, prefix: Option<int>)
    | Shutdown
    | NoShutdown
    | AccessGroup(group: string, direction: Option<Direction>)
    | Entry(entry: Pending)
    | Neighbor(ip: Option<Address>, remoteAs: Option<int>)
    | Unrecognized

  datatype Line = Line(indented: bool, body: Body)

  datatype Builder = Builder(
    description: Option<string>,
    ipAddress: Option<Cidr>,
    adminState: AdminState,
    aclIn: Option<string>,
    aclOut: Option<string>)

  const NEW_BUILDER := Builder(None, None, Up, None, None)

  datatype Context = NoContext | InInterface(name: string) | InAcl(acl: string) | InBgp

  datatype State = State(
    hostname: Option<string>,
    interfaces: map<string, Builder>,
    acls: map<string, seq<Pending>>,
    neighbors: seq<BgpNeighbor>,
    context: Context)
  {
    function Interface(name: string): Builder {
      if name in interfaces then interfaces[name] else NEW_BUILDER
    }

    function Entries(name: string): seq<Pending> {
      if name in acls then acls[name] else []
    }
  }

  const START := State(None, map[], map[], [], NoContext)

  function NormalizeAddress(vendor: Vendor, hasSeparator: bool, address: Option<Address>, prefix: Option<int>)
    : Result<Cidr, ErrorCode>
  {
    if vendor.Arista? && !hasSeparator then Failure(InvalidSubnetMask)
    else if address.None? then Failure(InvalidInterfaceIp)
    else if prefix.None? || !(0 <= prefix.value <= 32) then Failure(InvalidSubnetMask)
    else Success(Cidr(address.value, prefix.value))
  }

  function NormalizeNeighbor(ip: Option<Address>, remoteAs: Option<int>): Result<BgpNeighbor, ErrorCode> {
    if ip.None? then Failure(InvalidBgpNeighborIp)
    else if remoteAs.None? || remoteAs.value <= 0 then Failure(InvalidBgpRemoteAs)
    else Success(BgpNeighbor(ip.value, remoteAs.value))
  }

  /** A top-level line; the previous block is already closed. */
  function ParseTop(vendor: Vendor, s: State, body: Body): Result<State, ErrorCode> {
    match body
    case Hostname(host) => Success(s.(hostname := Some(host)))
    case HostnameWithoutValue => Failure(MalformedHostname)
    case InterfaceOpen(name) =>
      Success(s.(interfaces := s.interfaces[name := s.Interface(name)], context := InInterface(name)))
    case InterfaceWithoutName => Failure(MalformedInterface)
    case AclOpen(name) => Success(s.(acls := s.acls[name := s.Entries(name)], context := InAcl(name)))
    case NumberedEntry(number, rule) =>
      if vendor.Cisco? then Success(s.(acls := s.acls[number := s.Entries(number) + [Pending(None, rule)]]))
      else Success(s)
    case RouterBgp => Success(s.(context := InBgp))
    case _ => Success(s)
  }

  function ParseInterfaceChild(vendor: Vendor, b: Builder, body: Body): Result<Builder, ErrorCode> {
    match body
    case Description(text) => Success(b.(description := Some(text)))
    case IpAddress(hasSeparator, address, prefix) =>
      var cidr :- NormalizeAddress(vendor, hasSeparator, address, prefix);
      Success(b.(ipAddress := Some(cidr)))
    case Shutdown => Success(b.(adminState := Down))
    case NoShutdown => Success(b.(adminState := Up))
    case AccessGroup(acl, direction) =>
      (match direction
       case None => Failure(InvalidAclDirection)
       case Some(In) => Success(b.(aclIn := Some(acl)))
       case Some(Out) => Success(b.(aclOut := Some(acl))))
    case _ => Success(b)
  }

  /** An indented line, read in the context that is open. */
  function ParseChild(vendor: Vendor, s: State, body: Body): Result<State, ErrorCode> {
    match s.context
    case InInterface(name) =>
      var builder :- ParseInterfaceChild(vendor, s.Interface(name), body);
      Success(s.(interfaces := s.interfaces[name := builder]))
    case InAcl(name) =>
      if body.Entry? then Success(s.(acls := s.acls[name := s.Entries(name) + [body.entry]])) else Success(s)
    case InBgp =>
      if body.Neighbor? then
        var neighbor :- NormalizeNeighbor(body.ip, body.remoteAs);
        Success(s.(neighbors := s.neighbors + [neighbor]))
      else Success(s)
    case NoContext => Success(s)
  }

  function ParseLine(vendor: Vendor, s: State, line: Line): Result<State, ErrorCode> {
    if line.body.Blank? then Success(s)
    else if line.body.Bang? then Success(s.(context := NoContext))
    else if !line.indented then ParseTop(vendor, s.(context := NoContext), line.body)
    else ParseChild(vendor, s, line.body)
  }

  function ParseLines(vendor: Vendor, s: State, lines: seq<Line>): Result<State, ErrorCode> {
    if lines == [] then Success(s)
    else
      var before :- ParseLines(vendor, s, lines[..|lines| - 1]);
      ParseLine(vendor, before, lines[|lines| - 1])
  }

  // The finished configuration

  ghost function SortedNames(names: set<string>): seq<string> {
    if names == {} then []
    else
      var name :| name in names;
      Insert(StringLe, name, SortedNames(names - {name}))
  }

  lemma {:induction false} SortedNamesAre(names: set<string>)
    ensures SortedBy(StringLe, SortedNames(names)) && multiset(SortedNames(names)) == multiset(names)
  {
    StringOrder();
    if names != {} {
      var name :| name in names && SortedNames(names) == Insert(StringLe, name, SortedNames(names - {name}));
      SortedNamesAre(names - {name});
      InsertSorted(StringLe, name, SortedNames(names - {name}));
      InsertPermutes(StringLe, name, SortedNames(names - {name}));
      assert multiset(names) == multiset(names - {name}) + multiset{name};
    }
  }

  predicate NeighborLe(a: BgpNeighbor, b: BgpNeighbor) {
    a.neighborIp <= b.neighborIp
  }

  function NormalizedInterface(name: string, b: Builder): Interface {
    Interface(name, b.description, b.ipAddress, None, b.adminState, b.aclIn, b.aclOut)
  }

  function NormalizedInterfaces(s: State, names: seq<string>): seq<Interface> {
    if names == [] then []
    else
      var n := |names| - 1;
      NormalizedInterfaces(s, names[..n]) + [NormalizedInterface(names[n], s.Interface(names[n]))]
  }

  function NormalizedAcls(vendor: Vendor, s: State, names: seq<string>): seq<Acl> {
    if names == [] then []
    else
      var n := |names| - 1;
      NormalizedAcls(vendor, s, names[..n]) + [Acl(names[n], Finalize(vendor, s.Entries(names[n])))]
  }

  predicate Declared(acl: Option<string>, acls: set<string>) {
    acl.Some? ==> acl.value in acls
  }

  ghost predicate ReferencesDeclared(s: State) {
    forall name | name in s.interfaces ::
      Declared(s.interfaces[name].aclIn, s.acls.Keys) && Declared(s.interfaces[name].aclOut, s.acls.Keys)
  }

  ghost function Finish(vendor: Vendor, s: State): Result<Configuration, ErrorCode> {
    if s.hostname.None? then Failure(MissingHostname)
    else if !ReferencesDeclared(s) then Failure(UndeclaredAclReference)
    else Success(Configuration(
                   s.hostname.value,
                   NormalizedInterfaces(s, SortedNames(s.interfaces.Keys)),
                   Sort(NeighborLe, s.neighbors),
                   NormalizedAcls(vendor, s, SortedNames(s.acls.Keys))))
  }

  ghost predicate IsEmpty(lines: seq<Line>) {
    forall i | 0 <= i < |lines| :: lines[i].body.Blank?
  }

  /** `parse` of either adapter. */
  ghost function Parse(vendor: Vendor, lines: seq<Line>): Result<Configuration, ErrorCode> {
    if IsEmpty(lines) then Failure(EmptyConfiguration)
    else
      var s :- ParseLines(vendor, START, lines);
      Finish(vendor, s)
  }

  // The adapter as it runs

  class Parser {
    const vendor: Vendor
    var hostname: Option<string>
    var interfaces: map<string, Builder>
    var acls: map<string, seq<Pending>>
    var neighbors: seq<BgpNeighbor>
    var context: Context
    // The insertion order of the two dictionaries
    var interfaceNames: seq<string>
    var aclNames: seq<string>

    constructor (vendor: Vendor)
      ensures Valid() && Observed() == START && this.vendor == vendor
    {
      this.vendor := vendor;
      hostname, interfaces, acls, neighbors, context := None, map[], map[], [], NoContext;
      interfaceNames, aclNames := [], [];
    }

    function Observed(): State
      reads this
    {
      State(hostname, interfaces, acls, neighbors, context)
    }

    ghost predicate Valid()
      reads this
    {
      && multiset(interfaceNames) == multiset(interfaces.Keys)
      && multiset(aclNames) == multiset(acls.Keys)
      && (context.InInterface? ==> context.name in interfaces)
      && (context.InAcl? ==> context.acl in acls)
    }

    method OpenInterface(name: string)
      requires Valid()
      modifies this`interfaces, this`interfaceNames, this`context
      ensures Valid()
      ensures Success(Observed()) == ParseTop(vendor, old(Observed()), InterfaceOpen(name))
    {
      if name !in interfaces {
        KeysGrow(interfaces, name, NEW_BUILDER);
        interfaces := interfaces[name := NEW_BUILDER];
        interfaceNames := interfaceNames + [name];
      }
      context := InInterface(name);
      assert interfaces == old(interfaces)[name := old(Observed()).Interface(name)];
    }

    /** `acls.setdefault(name, …)` */
    method DeclareAcl(name: string)
      requires Valid()
      modifies this`acls, this`aclNames
      ensures Valid() && name in acls
      ensures acls == old(acls)[name := old(Observed()).Entries(name)]
    {
      if name !in acls {
        KeysGrow(acls, name, []);
        acls := acls[name := []];
        aclNames := aclNames + [name];
      }
    }

    method Append(name: string, entry: Pending)
      requires Valid() && name in acls
      modifies this`acls
      ensures Valid() && acls == old(acls)[name := old(acls)[name] + [entry]]
    {
      KeysKept(acls, name, acls[name] + [entry]);
      acls := acls[name := acls[name] + [entry]];
    }

    /** A numbered entry declares its list and leaves no block open. */
    method AddNumbered(number: string, rule: Rule)
      requires Valid() && vendor.Cisco?
      modifies this`acls, this`aclNames
      ensures Valid()
      ensures Success(Observed()) == ParseTop(vendor, old(Observed()), NumberedEntry(number, rule))
    {
      hide State.Interface;
      DeclareAcl(number);
      Append(number, Pending(None, rule));
      assert acls == old(acls)[number := old(Observed()).Entries(number) + [Pending(None, rule)]];
    }

    method OpenAcl(name: string)
      requires Valid()
      modifies this`acls, this`aclNames, this`context
      ensures Valid()
      ensures Success(Observed()) == ParseTop(vendor, old(Observed()), AclOpen(name))
    {
      DeclareAcl(name);
      context := InAcl(name);
    }

    method TopLevel(body: Body) returns (error: Option<ErrorCode>)
      requires Valid() && context == NoContext
      modifies this
      ensures Valid()
      ensures match ParseTop(vendor, old(Observed()), body)
              case Success(s) => error == None && Observed() == s
              case Failure(e) => error == Some(e)
    {
      hide State.Interface, State.Entries;
      error := None;
      match body
      case Hostname(host) => hostname := Some(host);
      case HostnameWithoutValue => error := Some(MalformedHostname);
      case InterfaceOpen(name) => OpenInterface(name);
      case InterfaceWithoutName => error := Some(MalformedInterface);
      case AclOpen(name) => OpenAcl(name);
      case NumberedEntry(number, rule) =>
        if vendor.Cisco? {
          AddNumbered(number, rule);
        }
      case RouterBgp => context := InBgp;
      case _ =>
    }

    method InterfaceChild(b: Builder, body: Body) returns (r: Result<Builder, ErrorCode>)
      ensures r == ParseInterfaceChild(vendor, b, body)
    {
      match body
      case Description(text) => return Success(b.(description := Some(text)));
      case IpAddress(hasSeparator, address, prefix) =>
        var cidr := NormalizeAddress(vendor, hasSeparator, address, prefix);
        if cidr.Failure? { return Failure(cidr.error); }
        return Success(b.(ipAddress := Some(cidr.value)));
      case Shutdown => return Success(b.(adminState := Down));
      case NoShutdown => return Success(b.(adminState := Up));
      case AccessGroup(acl, direction) =>
        if direction.None? { return Failure(InvalidAclDirection); }
        if direction.value.In? { return Success(b.(aclIn := Some(acl))); }
        return Success(b.(aclOut := Some(acl)));
      case _ => return Success(b);
    }

    /** A line of an open interface block. */
    method Configure(name: string, body: Body) returns (error: Option<ErrorCode>)
      requires Valid() && context == InInterface(name)
      modifies this`interfaces
      ensures Valid()
      ensures match ParseChild(vendor, old(Observed()), body)
              case Success(s) => error == None && Observed() == s
              case Failure(e) => error == Some(e) && interfaces == old(interfaces)
    {
      hide ParseInterfaceChild, NormalizeNeighbor;
      var builder := InterfaceChild(interfaces[name], body);
      if builder.Failure? { return Some(builder.error); }
      KeysKept(interfaces, name, builder.value);
      interfaces := interfaces[name := builder.value];
      return None;
    }

    method Child(body: Body) returns (error: Option<ErrorCode>)
      requires Valid()
      modifies this`interfaces, this`acls, this`neighbors
      ensures Valid()
      ensures match ParseChild(vendor, old(Observed()), body)
              case Success(s) => error == None && Observed() == s
              case Failure(e) => error == Some(e)
    {
      hide ParseInterfaceChild, NormalizeNeighbor;
      error := None;
      match context
      case InInterface(name) =>
        error := Configure(name, body);
      case InAcl(name) =>
        if body.Entry? {
          Append(name, body.entry);
        }
      case InBgp =>
        if body.Neighbor? {
          var neighbor := NormalizeNeighbor(body.ip, body.remoteAs);
          if neighbor.Failure? { return Some(neighbor.error); }
          neighbors := neighbors + [neighbor.value];
        }
      case NoContext =>
    }

    method Read(line: Line) returns (error: Option<ErrorCode>)
      requires Valid()
      modifies this
      ensures Valid()
      ensures match ParseLine(vendor, old(Observed()), line)
              case Success(s) => error == None && Observed() == s
              case Failure(e) => error == Some(e)
    {
      if line.body.Blank? {
        return None;
      }
      if line.body.Bang? {
        context := NoContext;
        return None;
      }
      if !line.indented {
        context := NoContext;
        error := TopLevel(line.body);
        return;
      }
      error := Child(line.body);
    }

    /** Rule 7, after the whole file: every referenced list is declared somewhere in it. */
    method CheckReferences() returns (ok: bool)
      requires Valid()
      ensures ok == ReferencesDeclared(Observed())
    {
      for i := 0 to |interfaceNames|
        invariant forall j | 0 <= j < i ::
                    Declared(Observed().Interface(interfaceNames[j]).aclIn, acls.Keys)
                    && Declared(Observed().Interface(interfaceNames[j]).aclOut, acls.Keys)
      {
        NameIsKey(interfaceNames, interfaces, interfaceNames[i]);
        var b := interfaces[interfaceNames[i]];
        if (b.aclIn.Some? && b.aclIn.value !in acls) || (b.aclOut.Some? && b.aclOut.value !in acls) {
          return false;
        }
      }
      forall name | name in interfaces
        ensures Declared(interfaces[name].aclIn, acls.Keys) && Declared(interfaces[name].aclOut, acls.Keys)
      {
        NameIsKey(interfaceNames, interfaces, name);
      }
      return true;
    }

    method BuildInterfaces() returns (normalized: seq<Interface>)
      requires Valid()
      ensures normalized == NormalizedInterfaces(Observed(), SortedNames(interfaces.Keys))
    {
      hide SortedNames, Sort, NormalizedInterface;
      var names := Sort(StringLe, interfaceNames);
      InsertionOrderIsForgotten(interfaceNames, interfaces.Keys);
      normalized := [];
      for i := 0 to |names|
        invariant normalized == NormalizedInterfaces(Observed(), names[..i])
      {
        assert names[..i + 1][..i] == names[..i];
        normalized := normalized + [NormalizedInterface(names[i], Observed().Interface(names[i]))];
      }
      assert names[..|names|] == names;
    }

    method BuildAcls() returns (finalized: seq<Acl>)
      requires Valid()
      ensures finalized == NormalizedAcls(vendor, Observed(), SortedNames(acls.Keys))
    {
      hide SortedNames, Sort, Finalize, State.Entries;
      var names := Sort(StringLe, aclNames);
      InsertionOrderIsForgotten(aclNames, acls.Keys);
      finalized := [];
      for i := 0 to |names|
        invariant finalized == NormalizedAcls(vendor, Observed(), names[..i])
      {
        assert names[..i + 1][..i] == names[..i];
        var entries := FinalizeEntries(Observed().Entries(names[i]));
        finalized := finalized + [Acl(names[i], entries)];
      }
      assert names[..|names|] == names;
    }

    method FinalizeEntries(pending: seq<Pending>) returns (entries: seq<AclEntry>)
      ensures entries == Finalize(vendor, pending)
    {
      if vendor.Cisco? {
        entries := FinalizeCisco(pending);
      } else {
        entries := FinalizeArista(pending);
      }
    }

    /** What follows the line loop. */
    method Complete() returns (r: Result<Configuration, ErrorCode>)
      requires Valid()
      ensures r == Finish(vendor, Observed())
    {
      if hostname.None? {
        return Failure(MissingHostname);
      }
      var declared := CheckReferences();
      if !declared {
        return Failure(UndeclaredAclReference);
      }
      var normalized := BuildInterfaces();
      var finalized := BuildAcls();
      return Success(Configuration(hostname.value, normalized, Sort(NeighborLe, neighbors), finalized));
    }

    /** The line loop. */
    method ReadAll(lines: seq<Line>) returns (error: Option<ErrorCode>)
      requires Valid()
      modifies this
      ensures Valid()
      ensures match ParseLines(vendor, old(Observed()), lines)
              case Success(s) => error == None && Observed() == s
              case Failure(e) => error == Some(e)
    {
      for i := 0 to |lines|
        invariant Valid()
        invariant ParseLines(vendor, old(Observed()), lines[..i]) == Success(Observed())
      {
        assert lines[..i + 1][..i] == lines[..i];
        error := Read(lines[i]);
        if error.Some? {
          FailsForGood(vendor, old(Observed()), lines, i + 1);
          return;
        }
      }
      assert lines[..|lines|] == lines;
      return None;
    }
  }

  lemma KeysGrow<V>(m: map<string, V>, name: string, v: V)
    requires name !in m
    ensures multiset(m[name := v].Keys) == multiset(m.Keys) + multiset{name}
  {
    assert m[name := v].Keys == m.Keys + {name};
  }

  lemma KeysKept<V>(m: map<string, V>, name: string, v: V)
    requires name in m
    ensures m[name := v].Keys == m.Keys
  {
  }

  lemma NameIsKey<V>(names: seq<string>, m: map<string, V>, name: string)
    requires multiset(names) == multiset(m.Keys)
    ensures name in names <==> name in m
  {
    assert name in names <==> name in multiset(names);
  }

  lemma {:induction false} InsertionOrderIsForgotten(order: seq<string>, names: set<string>)
    requires multiset(order) == multiset(names)
    ensures Sort(StringLe, order) == SortedNames(names)
  {
    StringOrder();
    SortedNamesAre(names);
    SortSorted(StringLe, order);
    SortPermutes(StringLe, order);
    SortedIsCanonical(StringLe, Sort(StringLe, order), SortedNames(names));
  }

  method ParseConfiguration(vendor: Vendor, lines: seq<Line>) returns (r: Result<Configuration, ErrorCode>)
    ensures r == Parse(vendor, lines)
  {
    var empty := IsBlankText(lines);
    if empty {
      return Failure(EmptyConfiguration);
    }
    var parser := new Parser(vendor);
    var error := parser.ReadAll(lines);
    if error.Some? {
      return Failure(error.value);
    }
    r := parser.Complete();
  }

  method IsBlankText(lines: seq<Line>) returns (empty: bool)
    ensures empty == IsEmpty(lines)
  {
    for i := 0 to |lines|
      invariant forall j | 0 <= j < i :: lines[j].body.Blank?
    {
      if !lines[i].body.Blank? {
        return false;
      }
    }
    return true;
  }

  lemma {:induction false} FailsForGood(vendor: Vendor, s: State, lines: seq<Line>, n: nat)
    requires n <= |lines| && ParseLines(vendor, s, lines[..n]).Failure?
    ensures ParseLines(vendor, s, lines) == ParseLines(vendor, s, lines[..n])
  {
    if n < |lines| {
      assert lines[..|lines| - 1][..n] == lines[..n];
      FailsForGood(vendor, s, lines[..|lines| - 1], n);
    } else {
      assert lines[..n] == lines;
    }
  }
}
