/** The indentation reader of the lab validator, from tokenized lines on. */
module TopologyReader {
  import opened Wrappers

  datatype Line = Line(indent: nat, text: string)

  datatype Entry = Entry(key: string, value: Value)

  /** A dictionary is its entries in insertion order. */
  datatype Value = Null | Scalar(text: string) | Sequence(items: seq<Value>) | Mapping(entries: seq<Entry>)

  datatype ReadError = EmptyFile | UnsupportedLine(text: string) | UnexpectedIndentation(text: string) | NotOneMapping

  // Characters

  predicate Space(c: char) {
    c == ' ' || c == '\t'
  }

  predicate KeyChar(c: char) {
    'A' <= c <= 'Z' || 'a' <= c <= 'z' || '0' <= c <= '9' || c == '_' || c == '.' || c == '-'
  }

  function TrimLeft(s: string): (r: string)
    ensures |r| <= |s|
  {
    if s != "" && Space(s[0]) then TrimLeft(s[1..]) else s
  }

  function TrimRight(s: string): (r: string)
    ensures |r| <= |s|
  {
    if s != "" && Space(s[|s| - 1]) then TrimRight(s[..|s| - 1]) else s
  }

  function Strip(s: string): (r: string)
    ensures |r| <= |s|
  {
    TrimRight(TrimLeft(s))
  }

  function KeyLength(s: string): (n: nat)
    ensures n <= |s|
  {
    if s != "" && KeyChar(s[0]) then 1 + KeyLength(s[1..]) else 0
  }

  /** The key pattern: a key, a colon, and then nothing or white space and a value. */
  function KeyMatch(s: string): Option<(string, string)> {
    var n := KeyLength(s);
    if n == 0 || n == |s| || s[n] != ':' then None
    else if n + 1 == |s| then Some((s[..n], ""))
    else if Space(s[n + 1]) then Some((s[..n], TrimLeft(s[n + 1..])))
    else None
  }

  function CommaAt(s: string): (n: nat)
    ensures n <= |s| && (n < |s| ==> s[n] == ',')
  {
    if s == "" || s[0] == ',' then 0 else 1 + CommaAt(s[1..])
  }

  predicate IsFlow(s: string) {
    |s| >= 2 && s[0] == '[' && s[|s| - 1] == ']'
  }

  predicate IsQuoted(s: string) {
    |s| >= 2 && s[0] == s[|s| - 1] && (s[0] == '"' || s[0] == '\'')
  }

  /** `_scalar` */
  function ReadScalar(value: string): Value
    decreases |value|, 0
  {
    var s := Strip(value);
    if IsFlow(s) then
      var inner := Strip(s[1..|s| - 1]);
      if inner == "" then Sequence([]) else Sequence(ReadFlow(inner))
    else if IsQuoted(s) then Scalar(s[1..|s| - 1])
    else Scalar(s)
  }

  /** The parts between the commas. */
  function ReadFlow(inner: string): seq<Value>
    decreases |inner|, 1
  {
    var n := CommaAt(inner);
    if n == |inner| then [ReadScalar(inner)] else [ReadScalar(inner[..n])] + ReadFlow(inner[n + 1..])
  }

  // Lines

  predicate OpensSequence(text: string) {
    text == "-" || (|text| >= 2 && text[0] == '-' && text[1] == ' ')
  }

  predicate StartsWithDash(text: string) {
    text != "" && text[0] == '-'
  }

  /** Assigning to a dictionary key keeps the position of a key that is already there. */
  function Put(entries: seq<Entry>, key: string, value: Value): seq<Entry> {
    if entries == [] then [Entry(key, value)]
    else if entries[0].key == key then [Entry(key, value)] + entries[1..]
    else [entries[0]] + Put(entries[1..], key, value)
  }

  /** How many leading lines are indented more than an item. */
  function Deeper(lines: seq<Line>, indent: nat): (n: nat)
    ensures n <= |lines| && (forall i | 0 <= i < n :: lines[i].indent > indent)
    ensures n < |lines| ==> lines[n].indent <= indent
  {
    if lines != [] && lines[0].indent > indent then 1 + Deeper(lines[1..], indent) else 0
  }

  function Block(lines: seq<Line>, indent: nat): (r: Result<(Value, seq<Line>), ReadError>)
    requires lines != []
    ensures r.Success? ==> |r.value.1| <= |lines|
    decreases |lines|, 3
  {
    if OpensSequence(lines[0].text) then
      var (items, rest) :- SequenceItems(lines, indent, []);
      Success((Sequence(items), rest))
    else
      var (entries, rest) :- MappingEntries(lines, indent, []);
      Success((Mapping(entries), rest))
  }

  function MappingEntries(lines: seq<Line>, indent: nat, done: seq<Entry>)
    : (r: Result<(seq<Entry>, seq<Line>), ReadError>)
    ensures r.Success? ==> |r.value.1| <= |lines|
    decreases |lines|, 0
  {
    if lines == [] || lines[0].indent < indent then Success((done, lines))
    else if lines[0].indent > indent then Failure(UnexpectedIndentation(lines[0].text))
    else
      var found, rest := KeyMatch(lines[0].text), lines[1..];
      if found.None? then Failure(UnsupportedLine(lines[0].text))
      else
        var (key, value) := found.value;
        if value != "" then MappingEntries(rest, indent, Put(done, key, ReadScalar(value)))
        else if rest != [] && rest[0].indent > indent then
          var (child, after) :- Block(rest, rest[0].indent);
          MappingEntries(after, indent, Put(done, key, child))
        else MappingEntries(rest, indent, Put(done, key, Null))
  }

  /** The lines an item is re-read from: its own text as if it were a key line, and all that is deeper. */
  function Virtual(lines: seq<Line>, indent: nat): (v: seq<Line>)
    requires lines != [] && lines[0].text != ""
    ensures |v| == 1 + Deeper(lines[1..], indent) <= |lines|
  {
    [Line(indent + 2, Strip(lines[0].text[1..]))] + lines[1..1 + Deeper(lines[1..], indent)]
  }

  /** One item of a sequence, and how many lines it takes; whatever the mapping leaves is dropped. */
  function Item(lines: seq<Line>, indent: nat): (r: Result<(Value, nat), ReadError>)
    requires lines != [] && lines[0].text != ""
    ensures r.Success? ==> 1 <= r.value.1 <= |lines|
    decreases |lines|, 1
  {
    var item := Strip(lines[0].text[1..]);
    if KeyMatch(item).Some? then
      var virtual := Virtual(lines, indent);
      var (mapping, _) :- MappingEntries(virtual, indent + 2, []);
      Success((Mapping(mapping), |virtual|))
    else Success((ReadScalar(item), 1))
  }

  function SequenceItems(lines: seq<Line>, indent: nat, done: seq<Value>)
    : (r: Result<(seq<Value>, seq<Line>), ReadError>)
    ensures r.Success? ==> |r.value.1| <= |lines|
    decreases |lines|, 2
  {
    if lines == [] || lines[0].indent != indent || !StartsWithDash(lines[0].text) then Success((done, lines))
    else
      var (item, n) :- Item(lines, indent);
      SequenceItems(lines[n..], indent, done + [item])
  }

  function ParseTopology(lines: seq<Line>): Result<Value, ReadError> {
    if lines == [] then Failure(EmptyFile)
    else
      var (parsed, rest) :- Block(lines, lines[0].indent);
      if rest != [] || !parsed.Mapping? then Failure(NotOneMapping) else Success(parsed)
  }

  // The reader as it runs, on indices into one list of lines

  method ReadBlock(lines: seq<Line>, index: nat, indent: nat) returns (r: Result<(Value, nat), ReadError>)
    requires index < |lines|
    ensures match Block(lines[index..], indent)
            case Failure(e) => r == Failure(e)
            case Success((v, rest)) =>
              r.Success? && r.value.0 == v && index <= r.value.1 <= |lines| && rest == lines[r.value.1..]
    decreases |lines| - index, 3
  {
    if OpensSequence(lines[index].text) {
      var items := ReadSequence(lines, index, indent);
      if items.Failure? { return Failure(items.error); }
      return Success((Sequence(items.value.0), items.value.1));
    }
    var entries := ReadMapping(lines, index, indent);
    if entries.Failure? { return Failure(entries.error); }
    return Success((Mapping(entries.value.0), entries.value.1));
  }

  method ReadMapping(lines: seq<Line>, start: nat, indent: nat) returns (r: Result<(seq<Entry>, nat), ReadError>)
    requires start <= |lines|
    ensures match MappingEntries(lines[start..], indent, [])
            case Failure(e) => r == Failure(e)
            case Success((m, rest)) =>
              r.Success? && r.value.0 == m && start <= r.value.1 <= |lines| && rest == lines[r.value.1..]
    decreases |lines| - start, 0
  {
    hide KeyMatch, ReadScalar, Put, Block;
    var result: seq<Entry>, index := [], start;
    while index < |lines| && lines[index].indent == indent
      invariant start <= index <= |lines|
      invariant MappingEntries(lines[start..], indent, []) == MappingEntries(lines[index..], indent, result)
    {
      var found := KeyMatch(lines[index].text);
      assert lines[index..][1..] == lines[index + 1..];
      if found.None? {
        return Failure(UnsupportedLine(lines[index].text));
      }
      var (key, value) := found.value;
      index := index + 1;
      if value != "" {
        result := Put(result, key, ReadScalar(value));
      } else if index < |lines| && lines[index].indent > indent {
        var child := ReadBlock(lines, index, lines[index].indent);
        if child.Failure? { return Failure(child.error); }
        result := Put(result, key, child.value.0);
        index := child.value.1;
      } else {
        result := Put(result, key, Null);
      }
    }
    if index < |lines| && lines[index].indent > indent {
      return Failure(UnexpectedIndentation(lines[index].text));
    }
    return Success((result, index));
  }

  method ReadSequence(lines: seq<Line>, start: nat, indent: nat) returns (r: Result<(seq<Value>, nat), ReadError>)
    requires start <= |lines|
    ensures match SequenceItems(lines[start..], indent, [])
            case Failure(e) => r == Failure(e)
            case Success((s, rest)) =>
              r.Success? && r.value.0 == s && start <= r.value.1 <= |lines| && rest == lines[r.value.1..]
    decreases |lines| - start, 2
  {
    hide Item;
    var result: seq<Value>, index := [], start;
    while index < |lines| && lines[index].indent == indent && StartsWithDash(lines[index].text)
      invariant start <= index <= |lines|
      invariant SequenceItems(lines[start..], indent, []) == SequenceItems(lines[index..], indent, result)
    {
      var item := ReadItem(lines, index, indent);
      if item.Failure? { return Failure(item.error); }
      assert lines[index..][item.value.1 - index..] == lines[item.value.1..];
      result := result + [item.value.0];
      index := item.value.1;
    }
    return Success((result, index));
  }

  method ReadItem(lines: seq<Line>, index: nat, indent: nat) returns (r: Result<(Value, nat), ReadError>)
    requires index < |lines| && lines[index].text != ""
    ensures match Item(lines[index..], indent)
            case Failure(e) => r == Failure(e)
            case Success((v, n)) => r == Success((v, index + n))
    decreases |lines| - index, 1
  {
    var item := Strip(lines[index].text[1..]);
    if KeyMatch(item).None? {
      return Success((ReadScalar(item), index + 1));
    }
    var virtual := CollectVirtual(lines, index, indent);
    var mapping := ReadMapping(virtual, 0, indent + 2);
    assert virtual[0..] == virtual;
    if mapping.Failure? { return Failure(mapping.error); }
    return Success((Mapping(mapping.value.0), index + |virtual|));
  }

  method CollectVirtual(lines: seq<Line>, index: nat, indent: nat) returns (virtual: seq<Line>)
    requires index < |lines| && lines[index].text != ""
    ensures virtual == Virtual(lines[index..], indent)
  {
    virtual := [Line(indent + 2, Strip(lines[index].text[1..]))];
    ghost var below := lines[index + 1..];
    assert lines[index..][1..] == below;
    var next := index + 1;
    while next < |lines| && lines[next].indent > indent
      invariant index + 1 <= next <= |lines|
      invariant virtual == [Line(indent + 2, Strip(lines[index].text[1..]))] + below[..next - index - 1]
      invariant forall i | 0 <= i < next - index - 1 :: below[i].indent > indent
    {
      assert below[..next - index] == below[..next - index - 1] + [lines[next]];
      virtual := virtual + [lines[next]];
      next := next + 1;
    }
    assert Deeper(below, indent) == next - index - 1;
    assert lines[index..][1..1 + Deeper(below, indent)] == below[..next - index - 1];
  }

  method ReadTopology(lines: seq<Line>) returns (r: Result<Value, ReadError>)
    ensures r == ParseTopology(lines)
  {
    if lines == [] {
      return Failure(EmptyFile);
    }
    assert lines[0..] == lines;
    var parsed := ReadBlock(lines, 0, lines[0].indent);
    if parsed.Failure? { return Failure(parsed.error); }
    if parsed.value.1 != |lines| || !parsed.value.0.Mapping? {
      return Failure(NotOneMapping);
    }
    return Success(parsed.value.0);
  }
}
