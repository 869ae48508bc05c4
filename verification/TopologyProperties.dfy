/** The reader undoes the renderer, and exactly when it loses lines. */
module TopologyProperties {
  import opened Wrappers
  import opened TopologyReader

  // What can be rendered, and how

  datatype Quotes = Bare | Single | Double

  /** The free choices of a writer: how far children are indented, which texts are quoted and how, and
      which lists are written on one line. */
  datatype Layout = Layout(width: nat, quotes: string -> Quotes, inline: seq<Value> -> bool)

  /** A letter, a digit, an underscore, a dot or a dash. */
  predicate OfKey(c: char) {
    'A' <= c <= 'Z' || 'a' <= c <= 'z' || '0' <= c <= '9' || c == '_' || c == '.' || c == '-'
  }

  predicate ValidKey(key: string) {
    key != "" && forall c | c in key :: OfKey(c)
  }

  predicate Blank(c: char) {
    c == ' ' || c == '\t'
  }

  /** A key, a colon, and then nothing or a blank: text that opens an entry. */
  predicate KeyLike(s: string) {
    exists n | 0 < n < |s| ::
      && s[n] == ':' && (forall c | c in s[..n] :: OfKey(c))
      && (n + 1 == |s| || Blank(s[n + 1]))
  }

  /** Text that reads back as itself without quotes: it has no blanks around it, is neither bracketed nor
      quoted, and opens no entry. */
  predicate Plain(s: string) {
    && s != "" && !Blank(s[0]) && !Blank(s[|s| - 1])
    && !(|s| >= 2 && s[0] == '[' && s[|s| - 1] == ']')
    && !(|s| >= 2 && s[0] == s[|s| - 1] && (s[0] == '"' || s[0] == '\''))
    && !KeyLike(s)
  }

  /** A list that can be written on one line: nothing but texts, and no comma in any. */
  predicate Flowable(items: seq<Value>) {
    items == [] || (items[0].Scalar? && ',' !in items[0].text && Flowable(items[1..]))
  }

  predicate Leaf(v: Value) {
    v.Scalar? || (v.Sequence? && Flowable(v.items))
  }

  /** Values of the subset: non-empty mappings with distinct keys, sequences of texts, mappings and one-line
      lists, any text, and nothing as the value of a key. */
  predicate Renderable(v: Value)
    decreases v
  {
    match v
    case Null => true
    case Scalar(_) => true
    case Sequence(items) => RenderableItems(items)
    case Mapping(entries) => entries != [] && RenderableEntries(entries)
  }

  predicate RenderableItems(items: seq<Value>)
    decreases items
  {
    items == []
    || ((Leaf(items[0]) || items[0].Mapping?) && Renderable(items[0]) && RenderableItems(items[1..]))
  }

  predicate RenderableEntries(entries: seq<Entry>)
    decreases entries
  {
    entries == []
    || (ValidKey(entries[0].key)
        && !HasKey(entries[1..], entries[0].key)
        && Renderable(entries[0].value)
        && RenderableEntries(entries[1..]))
  }

  predicate HasKey(entries: seq<Entry>, key: string) {
    entries != [] && (entries[0].key == key || HasKey(entries[1..], key))
  }

  // Rendering

  /** Quotes are only left out where the text reads back without them. */
  function ScalarText(s: string, layout: Layout): string {
    match layout.quotes(s)
    case Bare => if Plain(s) then s else "\"" + s + "\""
    case Single => "'" + s + "'"
    case Double => "\"" + s + "\""
  }

  /** The texts of a list, each but the first after a blank. */
  function Parts(items: seq<Value>, layout: Layout, gap: string): seq<string>
    requires Flowable(items)
  {
    if items == [] then []
    else [gap + ScalarText(items[0].text, layout)] + Parts(items[1..], layout, " ")
  }

  function Join(parts: seq<string>): string {
    if parts == [] then "" else if |parts| == 1 then parts[0] else parts[0] + "," + Join(parts[1..])
  }

  function LeafText(v: Value, layout: Layout): string
    requires Leaf(v)
  {
    if v.Scalar? then ScalarText(v.text, layout) else "[" + Join(Parts(v.items, layout, "")) + "]"
  }

  /** Written on the line of its key. */
  predicate OnOneLine(v: Value, layout: Layout) {
    Leaf(v) && (v.Sequence? ==> v.items == [] || layout.inline(v.items))
  }

  function RenderEntries(entries: seq<Entry>, indent: nat, layout: Layout): seq<Line>
    decreases entries
  {
    if entries == [] then []
    else RenderEntry(entries[0].key, entries[0].value, indent, layout) + RenderEntries(entries[1..], indent, layout)
  }

  function RenderEntry(key: string, v: Value, indent: nat, layout: Layout): seq<Line>
    decreases v
  {
    if OnOneLine(v, layout) then [Line(indent, key + ": " + LeafText(v, layout))]
    else
      match v
      case Sequence(items) => [Line(indent, key + ":")] + RenderItems(items, indent + layout.width, layout)
      case Mapping(entries) => [Line(indent, key + ":")] + RenderEntries(entries, indent + layout.width, layout)
      case _ => [Line(indent, key + ":")]
  }

  /** The first line of an item carries the dash; the rest of a mapping sits two columns in. */
  function Dashed(lines: seq<Line>, indent: nat): seq<Line> {
    if lines == [] then [Line(indent, "-")] else [Line(indent, "- " + lines[0].text)] + lines[1..]
  }

  function EmptyItem(layout: Layout): string {
    if layout.quotes("").Bare? then "-" else "- " + ScalarText("", layout)
  }

  function RenderItem(v: Value, indent: nat, layout: Layout): seq<Line>
    decreases v
  {
    match v
    case Mapping(entries) => Dashed(RenderEntries(entries, indent + 2, layout), indent)
    case _ => [Line(indent, if Leaf(v) && v != Scalar("") then "- " + LeafText(v, layout) else EmptyItem(layout))]
  }

  function RenderItems(items: seq<Value>, indent: nat, layout: Layout): seq<Line>
    decreases items
  {
    if items == [] then [] else RenderItem(items[0], indent, layout) + RenderItems(items[1..], indent, layout)
  }

  // Characters

  /** The key pattern takes exactly these characters. */
  lemma {:induction false} ValidKeyIff(key: string)
    ensures ValidKey(key) <==> key != "" && KeyLength(key) == |key|
  {
    KeyIsAll(key);
  }

  lemma {:induction false} KeyIsAll(key: string)
    ensures KeyLength(key) == |key| <==> forall c | c in key :: OfKey(c)
  {
    if key != "" {
      KeyIsAll(key[1..]);
      assert KeyChar(key[0]) == OfKey(key[0]);
      if forall c | c in key[1..] :: OfKey(c) {
        assert forall c | c in key :: c == key[0] || c in key[1..];
      } else {
        var c :| c in key[1..] && !OfKey(c);
        assert c in key;
      }
      assert key[0] in key;
    }
  }

  lemma {:induction false} KeyLengthIs(s: string, n: nat)
    requires n < |s| && !OfKey(s[n]) && forall c | c in s[..n] :: OfKey(c)
    ensures KeyLength(s) == n
  {
    if n > 0 {
      assert s[..n][0] in s[..n] && OfKey(s[0]) && KeyChar(s[0]);
      forall c | c in s[1..][..n - 1] ensures OfKey(c) {
        var k :| 0 <= k < n - 1 && s[1..][..n - 1][k] == c;
        assert s[..n][k + 1] == c;
      }
      KeyLengthIs(s[1..], n - 1);
    }
  }

  lemma {:induction false} KeyLengthTakes(s: string)
    ensures forall c | c in s[..KeyLength(s)] :: OfKey(c)
    ensures KeyLength(s) < |s| ==> !OfKey(s[KeyLength(s)])
  {
    if s != "" && KeyChar(s[0]) {
      KeyLengthTakes(s[1..]);
      assert s[..KeyLength(s)] == [s[0]] + s[1..][..KeyLength(s[1..])];
    }
  }

  /** The key pattern matches exactly the texts that open an entry. */
  lemma {:induction false} KeyMatchIff(s: string)
    ensures KeyMatch(s).Some? <==> KeyLike(s)
  {
    KeyLengthTakes(s);
    if KeyLike(s) {
      var n :| 0 < n < |s| && s[n] == ':' && (forall c | c in s[..n] :: OfKey(c)) && (n + 1 == |s| || Blank(s[n + 1]));
      KeyLengthIs(s, n);
    }
  }

  lemma {:induction false} KeyStops(key: string, rest: string)
    requires KeyLength(key) == |key| && (rest == "" || !KeyChar(rest[0]))
    ensures KeyLength(key + rest) == |key|
  {
    if key == "" {
      assert key + rest == rest;
    } else {
      assert (key + rest)[1..] == key[1..] + rest;
      KeyStops(key[1..], rest);
    }
  }

  lemma KeyLineMatches(key: string)
    requires ValidKey(key)
    ensures KeyMatch(key + ":") == Some((key, ""))
  {
    ValidKeyIff(key);
    KeyStops(key, ":");
    assert (key + ":")[..|key|] == key;
  }

  /** After the colon come any blanks, and then the value. */
  lemma KeyValueLineMatches(key: string, gap: string, text: string)
    requires ValidKey(key) && text != "" && !Blank(text[0]) && gap != "" && forall c | c in gap :: Blank(c)
    ensures KeyMatch(key + ":" + gap + text) == Some((key, text))
  {
    var line, tail := key + ":" + gap + text, ":" + gap + text;
    assert line == key + tail;
    ValidKeyIff(key);
    KeyStops(key, tail);
    assert line[..|key|] == key;
    assert line[|key| + 1..] == gap + text;
    assert line[|key| + 1] == gap[0] && gap[0] in gap;
    TrimsBlanks(gap, text);
  }

  lemma EntryLineMatches(key: string, text: string)
    requires ValidKey(key) && text != "" && !Blank(text[0])
    ensures KeyMatch(key + ": " + text) == Some((key, text))
  {
    hide KeyMatch, ValidKey;
    KeyValueLineMatches(key, " ", text);
    assert key + ":" + " " + text == key + ": " + text;
  }

  lemma {:induction false} TrimsBlanks(gap: string, text: string)
    requires text != "" && !Blank(text[0]) && forall c | c in gap :: Blank(c)
    ensures TrimLeft(gap + text) == text
  {
    if gap == "" {
      assert gap + text == text;
    } else {
      assert gap[0] in gap && (gap + text)[1..] == gap[1..] + text;
      TrimsBlanks(gap[1..], text);
    }
  }

  /** Stripping takes exactly the blanks at both ends. */
  lemma {:induction false} StripIsExact(s: string) returns (i: nat, j: nat)
    ensures i <= j <= |s| && Strip(s) == s[i..j]
    ensures forall k | 0 <= k < i || j <= k < |s| :: Blank(s[k])
    ensures i < j ==> !Blank(s[i]) && !Blank(s[j - 1])
  {
    i := LeftIsExact(s);
    j := RightIsExact(s[i..]);
    assert s[i..][..j] == s[i..i + j];
    assert forall k | i + j <= k < |s| :: s[k] == s[i..][k - i];
    j := i + j;
  }

  lemma {:induction false} LeftIsExact(s: string) returns (i: nat)
    ensures i <= |s| && TrimLeft(s) == s[i..]
    ensures forall k | 0 <= k < i :: Blank(s[k])
    ensures i < |s| ==> !Blank(s[i])
  {
    i := 0;
    if s != "" && Space(s[0]) {
      i := LeftIsExact(s[1..]);
      assert forall k | 1 <= k < i + 1 :: s[k] == s[1..][k - 1];
      assert s[1..][i..] == s[i + 1..];
      i := i + 1;
    }
  }

  lemma {:induction false} RightIsExact(s: string) returns (j: nat)
    ensures j <= |s| && TrimRight(s) == s[..j]
    ensures forall k | j <= k < |s| :: Blank(s[k])
    ensures j > 0 ==> !Blank(s[j - 1])
  {
    j := |s|;
    if s != "" && Space(s[|s| - 1]) {
      j := RightIsExact(s[..|s| - 1]);
      assert forall k | j <= k < |s| - 1 :: s[k] == s[..|s| - 1][k];
      assert s[..|s| - 1][..j] == s[..j];
    }
  }

  lemma ScalarTextIsTrimmed(s: string, layout: Layout)
    ensures var t := ScalarText(s, layout); t != "" && !Space(t[0]) && !Space(t[|t| - 1])
  {
  }

  lemma TrimmedStays(s: string)
    requires s != "" && !Space(s[0]) && !Space(s[|s| - 1])
    ensures Strip(s) == s && Strip(" " + s) == s
  {
    assert (" " + s)[1..] == s;
  }

  lemma ScalarTextReadsBack(s: string, layout: Layout)
    ensures ReadScalar(ScalarText(s, layout)) == Scalar(s) && ReadScalar(" " + ScalarText(s, layout)) == Scalar(s)
    ensures KeyMatch(ScalarText(s, layout)) == None
  {
    var t := ScalarText(s, layout);
    ScalarTextIsTrimmed(s, layout);
    TrimmedStays(t);
    KeyMatchIff(t);
    if t != s {
      assert t[1..|t| - 1] == s;
    }
  }

  // Lists on one line

  lemma {:induction false} CommaAfter(part: string, rest: string)
    requires ',' !in part && (rest == "" || rest[0] == ',')
    ensures CommaAt(part + rest) == |part|
  {
    if part == "" {
      assert part + rest == rest;
    } else {
      assert (part + rest)[1..] == part[1..] + rest;
      CommaAfter(part[1..], rest);
    }
  }

  /** Texts without commas, joined by commas, are each read, in order, and nothing else is. */
  lemma {:induction false} EveryPartIsRead(parts: seq<string>)
    requires parts != [] && forall i | 0 <= i < |parts| :: ',' !in parts[i]
    ensures |ReadFlow(Join(parts))| == |parts|
    ensures forall i | 0 <= i < |parts| :: ReadFlow(Join(parts))[i] == ReadScalar(parts[i])
  {
    if |parts| == 1 {
      CommaAfter(parts[0], "");
      assert parts[0] + "" == parts[0];
    } else {
      var rest := Join(parts[1..]);
      CommaAfter(parts[0], "," + rest);
      assert Join(parts) == parts[0] + ("," + rest);
      assert Join(parts)[..|parts[0]|] == parts[0] && Join(parts)[|parts[0]| + 1..] == rest;
      EveryPartIsRead(parts[1..]);
    }
  }

  /** So a bracketed list reads as the sequence of its parts, and an empty one as the empty sequence. */
  lemma {:induction false} FlowReadsEveryPart(parts: seq<string>)
    requires forall i | 0 <= i < |parts| :: ',' !in parts[i]
    requires parts != [] ==> Strip(Join(parts)) == Join(parts) != ""
    ensures var v := ReadScalar("[" + Join(parts) + "]");
            && v.Sequence? && |v.items| == |parts|
            && forall i | 0 <= i < |parts| :: v.items[i] == ReadScalar(parts[i])
  {
    BracketsAreRead(Join(parts));
    if parts != [] { EveryPartIsRead(parts); }
  }

  lemma {:induction false} BracketsAreRead(inner: string)
    requires Strip(inner) == inner
    ensures ReadScalar("[" + inner + "]") == Sequence(if inner == "" then [] else ReadFlow(inner))
  {
    hide Strip, ReadFlow;
    var s := "[" + inner + "]";
    TrimmedStays(s);
    assert s[1..|s| - 1] == inner;
  }

  lemma {:induction false} PartIs(s: string, layout: Layout, gap: string)
    requires ',' !in s && (gap == "" || gap == " ")
    ensures ',' !in gap + ScalarText(s, layout) && ReadScalar(gap + ScalarText(s, layout)) == Scalar(s)
  {
    hide ReadScalar, Plain, KeyMatch;
    ScalarTextReadsBack(s, layout);
    assert "" + ScalarText(s, layout) == ScalarText(s, layout);
  }

  lemma {:induction false} PartsAre(items: seq<Value>, layout: Layout, gap: string)
    requires Flowable(items) && (gap == "" || gap == " ")
    ensures |Parts(items, layout, gap)| == |items|
    ensures forall i | 0 <= i < |items| ::
              items[i].Scalar? && ',' !in Parts(items, layout, gap)[i]
              && ReadScalar(Parts(items, layout, gap)[i]) == items[i]
  {
    hide ReadScalar, ScalarText;
    if items != [] {
      PartsAre(items[1..], layout, " ");
      PartIs(items[0].text, layout, gap);
    }
  }

  lemma {:induction false} JoinIsTrimmed(items: seq<Value>, layout: Layout, gap: string)
    requires Flowable(items) && items != [] && (gap == "" || gap == " ")
    ensures var t := Join(Parts(items, layout, gap));
            && t != "" && !Space(t[|t| - 1]) && (gap == "" ==> !Space(t[0]))
  {
    hide ScalarText;
    var text, rest := ScalarText(items[0].text, layout), Parts(items[1..], layout, " ");
    ScalarTextIsTrimmed(items[0].text, layout);
    PartsAre(items[1..], layout, " ");
    assert Parts(items, layout, gap) == [gap + text] + rest && ([gap + text] + rest)[1..] == rest;
    if |items| > 1 {
      JoinIsTrimmed(items[1..], layout, " ");
      assert Join([gap + text] + rest) == gap + text + "," + Join(rest);
    }
  }

  lemma {:induction false} FlowTextReadsBack(items: seq<Value>, layout: Layout)
    requires Flowable(items)
    ensures ReadScalar(LeafText(Sequence(items), layout)) == Sequence(items)
  {
    var parts := Parts(items, layout, "");
    PartsAre(items, layout, "");
    if items != [] {
      JoinIsTrimmed(items, layout, "");
      TrimmedStays(Join(parts));
    }
    FlowReadsEveryPart(parts);
    assert ReadScalar("[" + Join(parts) + "]").items == items;
  }

  lemma LeafTextIsTrimmed(v: Value, layout: Layout)
    requires Leaf(v)
    ensures var t := LeafText(v, layout); t != "" && !Space(t[0]) && !Space(t[|t| - 1])
  {
    if v.Scalar? { ScalarTextIsTrimmed(v.text, layout); }
  }

  /** Any text, quoted either way or not where it need not be, and any list on one line is read back as
      itself, and never looks like a key. */
  lemma LeafTextReadsBack(v: Value, layout: Layout)
    requires Leaf(v)
    ensures ReadScalar(LeafText(v, layout)) == v
    ensures KeyMatch(LeafText(v, layout)) == None
  {
    if v.Scalar? { ScalarTextReadsBack(v.text, layout); } else { FlowTextReadsBack(v.items, layout); }
  }

  // Shape of the rendered lines

  lemma {:induction false} AllDeep(v: Value, key: string, indent: nat, layout: Layout)
    requires Renderable(v)
    ensures forall i | 0 <= i < |RenderEntry(key, v, indent, layout)| ::
            RenderEntry(key, v, indent, layout)[i].indent >= indent
    ensures RenderEntry(key, v, indent, layout) != [] && RenderEntry(key, v, indent, layout)[0].indent == indent
    decreases v
  {
    match v
    case Mapping(entries) => EntriesDeep(entries, indent + layout.width, layout);
    case Sequence(items) => ItemsDeep(items, indent + layout.width, layout);
    case _ =>
  }

  lemma {:induction false} EntriesDeep(entries: seq<Entry>, indent: nat, layout: Layout)
    requires RenderableEntries(entries)
    ensures forall i | 0 <= i < |RenderEntries(entries, indent, layout)| ::
            RenderEntries(entries, indent, layout)[i].indent >= indent
    ensures entries != [] ==>
              RenderEntries(entries, indent, layout) != [] && RenderEntries(entries, indent, layout)[0].indent == indent
    decreases entries
  {
    if entries != [] {
      AllDeep(entries[0].value, entries[0].key, indent, layout);
      EntriesDeep(entries[1..], indent, layout);
    }
  }

  lemma {:induction false} ItemDeep(v: Value, indent: nat, layout: Layout)
    requires Renderable(v) && (Leaf(v) || v.Mapping?)
    ensures forall i | 0 <= i < |RenderItem(v, indent, layout)| :: RenderItem(v, indent, layout)[i].indent >= indent
    ensures RenderItem(v, indent, layout) != [] && RenderItem(v, indent, layout)[0].indent == indent
    decreases v
  {
    if v.Mapping? { EntriesDeep(v.entries, indent + 2, layout); }
  }

  lemma {:induction false} ItemsDeep(items: seq<Value>, indent: nat, layout: Layout)
    requires RenderableItems(items)
    ensures forall i | 0 <= i < |RenderItems(items, indent, layout)| ::
            RenderItems(items, indent, layout)[i].indent >= indent
    ensures items != [] ==>
              RenderItems(items, indent, layout) != [] && RenderItems(items, indent, layout)[0].indent == indent
    decreases items
  {
    if items != [] {
      ItemDeep(items[0], indent, layout);
      ItemsDeep(items[1..], indent, layout);
    }
  }

  /** The text of the first rendered line is a key line, trimmed. */
  lemma {:induction false} FirstText(entries: seq<Entry>, indent: nat, layout: Layout)
    requires entries != [] && RenderableEntries(entries)
    ensures var lines := RenderEntries(entries, indent, layout);
            && lines != [] && lines[0].indent == indent
            && lines[0].text != "" && !Space(lines[0].text[0]) && !Space(lines[0].text[|lines[0].text| - 1])
            && KeyMatch(lines[0].text).Some? && !OpensSequence(lines[0].text)
  {
    var key, v := entries[0].key, entries[0].value;
    EntriesDeep(entries, indent, layout);
    KeyLineMatches(key);
    KeyStartsNoSpace(key);
    if OnOneLine(v, layout) {
      LeafTextIsTrimmed(v, layout);
      EntryLineMatches(key, LeafText(v, layout));
    }
    assert RenderEntries(entries, indent, layout)[0] == RenderEntry(key, v, indent, layout)[0];
  }

  lemma KeyStartsNoSpace(key: string)
    requires ValidKey(key)
    ensures !Space(key[0]) && forall rest: string :: rest != "" && rest[0] == ':' ==> !OpensSequence(key + rest)
  {
    ValidKeyIff(key);
    if |key| >= 2 {
      assert KeyLength(key) == 1 + KeyLength(key[1..]);
      assert KeyLength(key[1..]) == |key[1..]|;
      assert KeyChar(key[1..][0]);
    }
  }

  // The round trip

  /** What may follow a block at some indentation: nothing, or a line less indented. */
  predicate Ends(rest: seq<Line>, indent: nat) {
    rest == [] || rest[0].indent < indent
  }

  predicate Shallow(rest: seq<Line>, indent: nat) {
    rest == [] || rest[0].indent <= indent
  }

  lemma {:induction false} PutAppends(done: seq<Entry>, key: string, v: Value)
    requires !HasKey(done, key)
    ensures Put(done, key, v) == done + [Entry(key, v)]
  {
    if done != [] {
      PutAppends(done[1..], key, v);
    }
  }

  lemma {:induction false} HasKeyAppend(a: seq<Entry>, e: Entry, key: string)
    ensures HasKey(a + [e], key) <==> HasKey(a, key) || e.key == key
  {
    if a == [] {
      assert a + [e] == [e];
    } else {
      assert (a + [e])[1..] == a[1..] + [e];
      HasKeyAppend(a[1..], e, key);
    }
  }

  ghost predicate Fresh(done: seq<Entry>, entries: seq<Entry>) {
    forall key | HasKey(done, key) :: !HasKey(entries, key)
  }

  lemma {:induction false} FreshStep(done: seq<Entry>, entries: seq<Entry>)
    requires RenderableEntries(entries) && entries != [] && Fresh(done, entries)
    ensures Put(done, entries[0].key, entries[0].value) == done + [entries[0]]
    ensures Fresh(done + [entries[0]], entries[1..])
  {
    assert HasKey(entries, entries[0].key);
    PutAppends(done, entries[0].key, entries[0].value);
    forall k | HasKey(done + [entries[0]], k) ensures !HasKey(entries[1..], k) {
      HasKeyAppend(done, entries[0], k);
    }
  }

  lemma {:induction false} ShallowAfterEntries(entries: seq<Entry>, indent: nat, layout: Layout, rest: seq<Line>)
    requires RenderableEntries(entries) && Ends(rest, indent)
    ensures Shallow(RenderEntries(entries, indent, layout) + rest, indent)
  {
    EntriesDeep(entries, indent, layout);
    if entries == [] {
      assert RenderEntries(entries, indent, layout) + rest == rest;
    } else {
      assert (RenderEntries(entries, indent, layout) + rest)[0] == RenderEntries(entries, indent, layout)[0];
    }
  }

  lemma {:induction false} FirstEntryReadsBack(
    entries: seq<Entry>, indent: nat, layout: Layout, done: seq<Entry>, rest: seq<Line>)
    requires entries != [] && RenderableEntries(entries) && Fresh(done, entries) && layout.width >= 1
             && Ends(rest, indent)
    ensures MappingEntries(RenderEntries(entries, indent, layout) + rest, indent, done)
            == MappingEntries(RenderEntries(entries[1..], indent, layout) + rest, indent, done + [entries[0]])
    ensures Fresh(done + [entries[0]], entries[1..]) && RenderableEntries(entries[1..])
    decreases entries, 0
  {
    var front := RenderEntry(entries[0].key, entries[0].value, indent, layout);
    var after := RenderEntries(entries[1..], indent, layout) + rest;
    ShallowAfterEntries(entries[1..], indent, layout, rest);
    FreshStep(done, entries);
    EntryReadsBack(entries[0].key, entries[0].value, indent, layout, done, after);
    LinesAssociate(front, RenderEntries(entries[1..], indent, layout), rest);
  }

  lemma {:induction false} EntriesReadBack(
    entries: seq<Entry>, indent: nat, layout: Layout, done: seq<Entry>, rest: seq<Line>)
    requires RenderableEntries(entries) && Fresh(done, entries) && layout.width >= 1 && Ends(rest, indent)
    ensures MappingEntries(RenderEntries(entries, indent, layout) + rest, indent, done) ==
            Success((done + entries, rest))
    decreases entries, 1
  {
    if entries == [] {
      NoEntriesReadBack(indent, layout, done, rest);
    } else {
      var first, others := entries[0], entries[1..];
      FirstEntryReadsBack(entries, indent, layout, done, rest);
      EntriesReadBack(others, indent, layout, done + [first], rest);
      Regroup(done, entries);
    }
  }

  lemma Regroup(done: seq<Entry>, entries: seq<Entry>)
    requires entries != []
    ensures done + [entries[0]] + entries[1..] == done + entries
  {
  }

  lemma {:induction false} NoEntriesReadBack(indent: nat, layout: Layout, done: seq<Entry>, rest: seq<Line>)
    requires Ends(rest, indent)
    ensures MappingEntries(RenderEntries([], indent, layout) + rest, indent, done) == Success((done + [], rest))
  {
    assert RenderEntries([], indent, layout) + rest == rest;
    assert done + [] == done;
  }

  /** One entry: its lines are read, and reading goes on after them. */
  lemma {:induction false} EntryReadsBack(
    key: string, v: Value, indent: nat, layout: Layout, done: seq<Entry>, after: seq<Line>)
    requires ValidKey(key) && Renderable(v) && layout.width >= 1
    requires Shallow(after, indent)
    ensures MappingEntries(RenderEntry(key, v, indent, layout) + after, indent, done)
            == MappingEntries(after, indent, Put(done, key, v))
    decreases v, 2
  {
    hide MappingEntries, Block, KeyMatch, LeafText, ValidKey, Put, Flowable;
    if OnOneLine(v, layout) {
      LeafEntry(key, v, indent, layout, done, after);
    } else if v.Null? {
      NullEntry(key, indent, done, after);
    } else {
      var child := ChildLines(v, indent + layout.width, layout);
      EmptyIsFlowable(v);
      assert RenderEntry(key, v, indent, layout) + after == [Line(indent, key + ":")] + (child + after);
      ChildReadsBack(v, child, indent + layout.width, layout, after);
      NestedEntry(key, child + after, indent, done, v, after);
    }
  }

  lemma EmptyIsFlowable(v: Value)
    ensures v.Sequence? && v.items == [] ==> Leaf(v)
  {
  }

  function ChildLines(v: Value, indent: nat, layout: Layout): seq<Line> {
    if v.Mapping? then RenderEntries(v.entries, indent, layout)
    else if v.Sequence? then RenderItems(v.items, indent, layout)
    else []
  }

  /** A key line with deeper lines below takes the block below as its value. */
  lemma {:induction false} NullEntry(key: string, indent: nat, done: seq<Entry>, after: seq<Line>)
    requires ValidKey(key) && Shallow(after, indent)
    ensures MappingEntries([Line(indent, key + ":")] + after, indent, done)
            == MappingEntries(after, indent, Put(done, key, Null))
  {
    hide KeyMatch, ValidKey, Put;
    KeyLineMatches(key);
    assert ([Line(indent, key + ":")] + after)[1..] == after;
  }

  lemma {:induction false} LeafEntry(
    key: string, v: Value, indent: nat, layout: Layout, done: seq<Entry>, after: seq<Line>)
    requires ValidKey(key) && Leaf(v)
    ensures MappingEntries([Line(indent, key + ": " + LeafText(v, layout))] + after, indent, done)
            == MappingEntries(after, indent, Put(done, key, v))
  {
    hide KeyMatch, ReadScalar, LeafText, ValidKey, Put, Flowable;
    assert ([Line(indent, key + ": " + LeafText(v, layout))] + after)[1..] == after;
    LeafTextIsTrimmed(v, layout);
    EntryLineMatches(key, LeafText(v, layout));
    LeafTextReadsBack(v, layout);
  }

  lemma {:induction false} NestedEntry(
    key: string, below: seq<Line>, indent: nat, done: seq<Entry>, v: Value, after: seq<Line>)
    requires ValidKey(key) && below != [] && below[0].indent > indent
    requires Block(below, below[0].indent) == Success((v, after))
    ensures MappingEntries([Line(indent, key + ":")] + below, indent, done)
            == MappingEntries(after, indent, Put(done, key, v))
  {
    hide KeyMatch, ValidKey, Put;
    KeyLineMatches(key);
    assert ([Line(indent, key + ":")] + below)[1..] == below;
  }

  lemma {:induction false} ChildReadsBack(v: Value, child: seq<Line>, indent: nat, layout: Layout, after: seq<Line>)
    requires (v.Mapping? || (v.Sequence? && v.items != [])) && Renderable(v)
    requires layout.width >= 1 && Ends(after, indent)
    requires child == ChildLines(v, indent, layout)
    ensures child != [] && child[0].indent == indent
    ensures Block(child + after, indent) == Success((v, after))
    decreases v, 1
  {
    if v.Mapping? {
      FirstText(v.entries, indent, layout);
      EntriesReadBack(v.entries, indent, layout, [], after);
      assert [] + v.entries == v.entries;
    } else {
      ItemsDeep(v.items, indent, layout);
      FirstItemDashed(v.items, indent, layout);
      ItemsReadBack(v.items, indent, layout, [], after);
      assert [] + v.items == v.items;
    }
    assert (child + after)[0] == child[0];
  }

  lemma {:induction false} FirstItemDashed(items: seq<Value>, indent: nat, layout: Layout)
    requires items != [] && RenderableItems(items)
    ensures RenderItems(items, indent, layout) != []
    ensures OpensSequence(RenderItems(items, indent, layout)[0].text)
  {
    ItemDeep(items[0], indent, layout);
    assert RenderItems(items, indent, layout)[0] == RenderItem(items[0], indent, layout)[0];
  }

  lemma {:induction false} ShallowAfterItems(items: seq<Value>, indent: nat, layout: Layout, rest: seq<Line>)
    requires RenderableItems(items) && Ends(rest, indent)
    ensures Shallow(RenderItems(items, indent, layout) + rest, indent)
  {
    ItemsDeep(items, indent, layout);
    if items == [] {
      assert RenderItems(items, indent, layout) + rest == rest;
    } else {
      assert (RenderItems(items, indent, layout) + rest)[0] == RenderItems(items, indent, layout)[0];
    }
  }

  lemma {:induction false} LinesAssociate(a: seq<Line>, b: seq<Line>, c: seq<Line>)
    ensures a + b + c == a + (b + c)
  {
  }

  lemma {:induction false} FirstItemReadsBack(
    items: seq<Value>, indent: nat, layout: Layout, done: seq<Value>, rest: seq<Line>)
    requires items != [] && RenderableItems(items) && layout.width >= 1 && Ends(rest, indent)
    ensures SequenceItems(RenderItems(items, indent, layout) + rest, indent, done)
            == SequenceItems(RenderItems(items[1..], indent, layout) + rest, indent, done + [items[0]])
    decreases items, 0
  {
    var front, after := RenderItem(items[0], indent, layout), RenderItems(items[1..], indent, layout) + rest;
    LinesAssociate(front, RenderItems(items[1..], indent, layout), rest);
    assert SequenceItems(front + after, indent, done) == SequenceItems(after, indent, done + [items[0]]) by {
      ShallowAfterItems(items[1..], indent, layout, rest);
      ItemReadsBack(items[0], indent, layout, after);
      ItemDeep(items[0], indent, layout);
      OneMoreItem(items[0], front, indent, after, done);
    }
  }

  lemma {:induction false} NoItemsReadBack(indent: nat, layout: Layout, done: seq<Value>, rest: seq<Line>)
    requires Ends(rest, indent)
    ensures SequenceItems(RenderItems([], indent, layout) + rest, indent, done) == Success((done + [], rest))
  {
    assert RenderItems([], indent, layout) + rest == rest;
    assert done + [] == done;
  }

  lemma {:induction false} RegroupItems(done: seq<Value>, items: seq<Value>)
    requires items != []
    ensures done + [items[0]] + items[1..] == done + items
  {
  }

  lemma {:induction false} ItemsReadBack(
    items: seq<Value>, indent: nat, layout: Layout, done: seq<Value>, rest: seq<Line>)
    requires RenderableItems(items) && layout.width >= 1 && Ends(rest, indent)
    ensures SequenceItems(RenderItems(items, indent, layout) + rest, indent, done) == Success((done + items, rest))
    decreases items, 1
  {
    if items == [] {
      NoItemsReadBack(indent, layout, done, rest);
    } else {
      FirstItemReadsBack(items, indent, layout, done, rest);
      ItemsReadBack(items[1..], indent, layout, done + [items[0]], rest);
      RegroupItems(done, items);
    }
  }

  lemma {:induction false} OneMoreItem(v: Value, front: seq<Line>, indent: nat, after: seq<Line>, done: seq<Value>)
    requires front != [] && front[0].indent == indent && StartsWithDash(front[0].text)
    requires Item(front + after, indent) == Success((v, |front|))
    ensures SequenceItems(front + after, indent, done) == SequenceItems(after, indent, done + [v])
  {
    assert (front + after)[0] == front[0];
    assert (front + after)[|front|..] == after;
  }

  lemma {:induction false} DeeperStops(deep: seq<Line>, after: seq<Line>, indent: nat)
    requires forall i | 0 <= i < |deep| :: deep[i].indent > indent
    requires Shallow(after, indent)
    ensures Deeper(deep + after, indent) == |deep|
  {
    if deep == [] {
      assert deep + after == after;
    } else {
      assert (deep + after)[0] == deep[0] && (deep + after)[1..] == deep[1..] + after;
      DeeperStops(deep[1..], after, indent);
    }
  }

  lemma {:induction false} ItemReadsBack(v: Value, indent: nat, layout: Layout, after: seq<Line>)
    requires Renderable(v) && (Leaf(v) || v.Mapping?) && layout.width >= 1
    requires Shallow(after, indent)
    ensures RenderItem(v, indent, layout) != [] && StartsWithDash(RenderItem(v, indent, layout)[0].text)
    ensures Item(RenderItem(v, indent, layout) + after, indent) == Success((v, |RenderItem(v, indent, layout)|))
    decreases v, 1
  {
    hide Item, KeyMatch, ScalarText, MappingEntries, Flowable, Join, Parts;
    if v == Scalar("") && layout.quotes("").Bare? {
      EmptyItemReadsBack(indent, after);
    } else if Leaf(v) {
      LeafItemReadsBack(v, indent, layout, after);
    } else {
      var lines := RenderEntries(v.entries, indent + 2, layout);
      FirstText(v.entries, indent + 2, layout);
      EntriesDeep(v.entries, indent + 2, layout);
      EntriesReadBack(v.entries, indent + 2, layout, [], []);
      assert lines + [] == lines;
      assert [] + v.entries == v.entries;
      MappingItemReadsBack(v.entries, lines, indent, after);
    }
  }

  lemma {:induction false} EmptyItemReadsBack(indent: nat, after: seq<Line>)
    ensures Item([Line(indent, "-")] + after, indent) == Success((Scalar(""), 1))
  {
    assert ("-")[1..] == "" && ([Line(indent, "-")] + after)[0].text == "-";
    assert Strip("") == "";
  }

  lemma {:induction false} LeafItemReadsBack(v: Value, indent: nat, layout: Layout, after: seq<Line>)
    requires Leaf(v)
    ensures Item([Line(indent, "- " + LeafText(v, layout))] + after, indent) == Success((v, 1))
  {
    hide KeyMatch, ReadScalar, Strip, LeafText, Space, Flowable;
    var text := LeafText(v, layout);
    LeafTextIsTrimmed(v, layout);
    TrimmedStays(text);
    LeafTextReadsBack(v, layout);
    assert ("- " + text)[1..] == " " + text;
  }

  lemma {:induction false} MappingItemReadsBack(entries: seq<Entry>, lines: seq<Line>, indent: nat, after: seq<Line>)
    requires lines != [] && lines[0].indent == indent + 2 && KeyMatch(lines[0].text).Some?
    requires lines[0].text != "" && !Space(lines[0].text[0]) && !Space(lines[0].text[|lines[0].text| - 1])
    requires forall i | 0 <= i < |lines| :: lines[i].indent >= indent + 2
    requires MappingEntries(lines, indent + 2, []) == Success((entries, []))
    requires Shallow(after, indent)
    ensures Item(Dashed(lines, indent) + after, indent) == Success((Mapping(entries), |lines|))
  {
    hide KeyMatch, Virtual, MappingEntries, Strip, Space;
    TrimmedStays(lines[0].text);
    DashedIsVirtual(lines[0].text, lines[1..], indent, after);
    assert lines == [Line(indent + 2, lines[0].text)] + lines[1..];
    assert ("- " + lines[0].text)[1..] == " " + lines[0].text;
  }

  /** The virtual list of a dashed mapping is the mapping's own lines. */
  lemma DashedIsVirtual(text: string, deep: seq<Line>, indent: nat, after: seq<Line>)
    requires Strip(" " + text) == text
    requires forall i | 0 <= i < |deep| :: deep[i].indent > indent
    requires Shallow(after, indent)
    ensures Virtual([Line(indent, "- " + text)] + deep + after, indent) == [Line(indent + 2, text)] + deep
  {
    var all := [Line(indent, "- " + text)] + deep + after;
    assert all[0].text[1..] == " " + text;
    assert all[1..] == deep + after;
    DeeperStops(deep, after, indent);
    assert all[1..1 + |deep|] == deep;
  }

  /** Reading the rendering of any mapping of the subset gives the mapping back, for any margin and any
      child indentation. */
  lemma {:induction false} TopologyReadsBack(v: Value, indent: nat, layout: Layout)
    requires v.Mapping? && Renderable(v) && layout.width >= 1
    ensures ParseTopology(RenderEntries(v.entries, indent, layout)) == Success(v)
  {
    hide MappingEntries, SequenceItems, RenderEntries, KeyMatch, Space, RenderableEntries;
    var lines := RenderEntries(v.entries, indent, layout);
    FirstText(v.entries, indent, layout);
    EntriesReadBack(v.entries, indent, layout, [], []);
    assert lines + [] == lines;
    assert [] + v.entries == v.entries;
  }

  // Lines that are lost

  /** Going from one list of lines to the rest of it passes only lines indented at least so much. */
  ghost predicate Takes(lines: seq<Line>, rest: seq<Line>, indent: nat) {
    lines == rest || (lines != [] && lines[0].indent >= indent && Takes(lines[1..], rest, indent))
  }

  lemma {:induction false} TakesThrough(lines: seq<Line>, middle: seq<Line>, rest: seq<Line>, indent: nat)
    requires Takes(lines, middle, indent) && Takes(middle, rest, indent)
    ensures Takes(lines, rest, indent)
  {
    if lines != middle {
      TakesThrough(lines[1..], middle, rest, indent);
    }
  }

  lemma {:induction false} TakesDeeper(lines: seq<Line>, rest: seq<Line>, deeper: nat, indent: nat)
    requires Takes(lines, rest, deeper) && indent <= deeper
    ensures Takes(lines, rest, indent)
  {
    if lines != rest {
      TakesDeeper(lines[1..], rest, deeper, indent);
    }
  }

  lemma {:induction false} TakesPrefix(lines: seq<Line>, n: nat, indent: nat)
    requires n <= |lines| && forall i | 0 <= i < n :: lines[i].indent >= indent
    ensures Takes(lines, lines[n..], indent)
  {
    if n > 0 {
      TakesPrefix(lines[1..], n - 1, indent);
      assert lines[1..][n - 1..] == lines[n..];
    }
  }

  lemma {:induction false} TakesIsSuffix(lines: seq<Line>, rest: seq<Line>, indent: nat)
    requires Takes(lines, rest, indent)
    ensures |rest| <= |lines| && rest == lines[|lines| - |rest|..]
    ensures forall i | 0 <= i < |lines| - |rest| :: lines[i].indent >= indent
  {
    if lines != rest {
      TakesIsSuffix(lines[1..], rest, indent);
      assert forall i | 0 < i < |lines| - |rest| :: lines[i] == lines[1..][i - 1];
    }
  }

  lemma {:induction false} BlockTakes(lines: seq<Line>, indent: nat)
    requires lines != [] && lines[0].indent == indent && Block(lines, indent).Success?
    ensures Takes(lines, Block(lines, indent).value.1, indent)
    decreases |lines|, 3
  {
    if OpensSequence(lines[0].text) {
      SequenceTakes(lines, indent, []);
    } else {
      MappingTakes(lines, indent, []);
    }
  }

  /** Reading one entry, and what is left to read. */
  lemma {:induction false} MappingStep(lines: seq<Line>, indent: nat, done: seq<Entry>)
    returns (next: seq<Line>, more: seq<Entry>)
    requires MappingEntries(lines, indent, done).Success? && lines != [] && lines[0].indent == indent
    ensures |next| < |lines| && Takes(lines, next, indent)
    ensures MappingEntries(lines, indent, done) == MappingEntries(next, indent, more)
    decreases |lines|, 0
  {
    var (key, value) := KeyMatch(lines[0].text).value;
    next := lines[1..];
    if value != "" {
      more := Put(done, key, ReadScalar(value));
    } else if next != [] && next[0].indent > indent {
      var below := next;
      BlockTakes(below, below[0].indent);
      more := Put(done, key, Block(below, below[0].indent).value.0);
      next := Block(below, below[0].indent).value.1;
      TakesDeeper(below, next, below[0].indent, indent);
    } else {
      more := Put(done, key, Null);
    }
  }

  lemma {:induction false} MappingTakes(lines: seq<Line>, indent: nat, done: seq<Entry>)
    requires MappingEntries(lines, indent, done).Success?
    ensures Takes(lines, MappingEntries(lines, indent, done).value.1, indent)
    ensures Ends(MappingEntries(lines, indent, done).value.1, indent)
    decreases |lines|, 1
  {
    if lines != [] && lines[0].indent == indent {
      var next, more := MappingStep(lines, indent, done);
      MappingTakes(next, indent, more);
      TakesThrough(lines, next, MappingEntries(next, indent, more).value.1, indent);
    }
  }

  lemma SequenceStep(lines: seq<Line>, indent: nat, done: seq<Value>) returns (next: seq<Line>, more: seq<Value>)
    requires SequenceItems(lines, indent, done).Success?
    requires lines != [] && lines[0].indent == indent && StartsWithDash(lines[0].text)
    ensures |next| < |lines| && Takes(lines, next, indent)
    ensures SequenceItems(lines, indent, done) == SequenceItems(next, indent, more)
  {
    var (item, n) := Item(lines, indent).value;
    next, more := lines[n..], done + [item];
    ItemLinesAreDeep(lines, indent);
    TakesPrefix(lines, n, indent);
  }

  lemma {:induction false} ItemLinesAreDeep(lines: seq<Line>, indent: nat)
    requires lines != [] && lines[0].indent == indent && lines[0].text != "" && Item(lines, indent).Success?
    ensures forall i | 0 <= i < Item(lines, indent).value.1 :: lines[i].indent >= indent
  {
    assert forall i | 0 < i < |lines| :: lines[i] == lines[1..][i - 1];
  }

  lemma {:induction false} SequenceTakes(lines: seq<Line>, indent: nat, done: seq<Value>)
    requires SequenceItems(lines, indent, done).Success?
    ensures Takes(lines, SequenceItems(lines, indent, done).value.1, indent)
    decreases |lines|, 2
  {
    if lines != [] && lines[0].indent == indent && StartsWithDash(lines[0].text) {
      var next, more := SequenceStep(lines, indent, done);
      SequenceTakes(next, indent, more);
      TakesThrough(lines, next, SequenceItems(next, indent, more).value.1, indent);
    }
  }

  /** A `- key:` item drops what its mapping leaves of the virtual list. It loses lines exactly when a
      line under it is indented by one column only, and then from the first such line on. */
  lemma {:induction false} LosesLinesIff(
    lines: seq<Line>, indent: nat, virtual: seq<Line>, entries: seq<Entry>, lost: seq<Line>)
    requires lines != [] && lines[0].text != "" && virtual == Virtual(lines, indent)
    requires MappingEntries(virtual, indent + 2, []) == Success((entries, lost))
    ensures lost != [] <==> exists i | 0 <= i < |virtual| :: virtual[i].indent == indent + 1
    ensures |lost| <= |virtual| && lost == virtual[|virtual| - |lost|..]
    ensures lost != [] ==> lost[0].indent == indent + 1
    ensures forall i | 0 <= i < |virtual| - |lost| :: virtual[i].indent != indent + 1
  {
    MappingTakes(virtual, indent + 2, []);
    TakesIsSuffix(virtual, lost, indent + 2);
    UnderIsDeeper(lines, indent);
    if lost != [] {
      assert virtual[|virtual| - |lost|] == lost[0];
    }
  }

  lemma {:induction false} UnderIsDeeper(lines: seq<Line>, indent: nat)
    requires lines != [] && lines[0].text != ""
    ensures forall i | 0 <= i < |Virtual(lines, indent)| :: Virtual(lines, indent)[i].indent > indent
  {
    var virtual := Virtual(lines, indent);
    forall i | 0 < i < |virtual| ensures virtual[i].indent > indent {
      assert virtual[i] == lines[1..][i - 1];
    }
  }

  lemma {:induction false} ItemOfVirtual(
    lines: seq<Line>, indent: nat, virtual: seq<Line>, entries: seq<Entry>, rest: seq<Line>)
    requires lines != [] && lines[0].text != "" && KeyMatch(Strip(lines[0].text[1..])).Some?
    requires Virtual(lines, indent) == virtual
    requires MappingEntries(virtual, indent + 2, []) == Success((entries, rest))
    ensures Item(lines, indent) == Success((Mapping(entries), |virtual|))
  {
  }

  /** So under any mapping item any lines can follow, one column in, and the item reads the same. */
  lemma {:induction false} OddLinesAreNeverRead(
    entries: seq<Entry>, item: seq<Line>, indent: nat, layout: Layout, odd: seq<Line>, after: seq<Line>)
    requires entries != [] && RenderableEntries(entries) && layout.width >= 1
    requires item == RenderItem(Mapping(entries), indent, layout)
    requires odd != [] && odd[0].indent == indent + 1 && forall i | 0 <= i < |odd| :: odd[i].indent > indent
    requires Shallow(after, indent)
    ensures Item(item + odd + after, indent) == Success((Mapping(entries), |item| + |odd|))
  {
    hide *;
    var lines := MappingLines(entries, item, indent, layout, odd);
    OddUnderItem(entries, lines, indent, odd, after);
  }

  lemma {:induction false} MappingLines(
    entries: seq<Entry>, item: seq<Line>, indent: nat, layout: Layout, odd: seq<Line>)
    returns (lines: seq<Line>)
    requires entries != [] && RenderableEntries(entries) && layout.width >= 1
    requires item == RenderItem(Mapping(entries), indent, layout)
    requires odd != [] && odd[0].indent == indent + 1 && forall i | 0 <= i < |odd| :: odd[i].indent > indent
    ensures item == Dashed(lines, indent) && |item| == |lines| && ItemReady(lines, indent, entries, odd)
  {
    lines := RenderEntries(entries, indent + 2, layout);
    ReadyForItem(entries, indent, layout, odd);
  }

  /** Lines that an item's mapping reads as these entries, stopping at the lines in `odd`. */
  ghost predicate ItemReady(lines: seq<Line>, indent: nat, entries: seq<Entry>, odd: seq<Line>) {
    && lines != [] && lines[0].indent == indent + 2 && KeyMatch(lines[0].text).Some?
    && lines[0].text != "" && !Space(lines[0].text[0]) && !Space(lines[0].text[|lines[0].text| - 1])
    && (forall i | 0 <= i < |lines| :: lines[i].indent >= indent + 2)
    && (forall i | 0 <= i < |odd| :: odd[i].indent > indent)
    && MappingEntries(lines + odd, indent + 2, []) == Success((entries, odd))
  }

  lemma {:induction false} ReadyForItem(entries: seq<Entry>, indent: nat, layout: Layout, odd: seq<Line>)
    requires entries != [] && RenderableEntries(entries) && layout.width >= 1
    requires odd != [] && odd[0].indent == indent + 1 && forall i | 0 <= i < |odd| :: odd[i].indent > indent
    ensures ItemReady(RenderEntries(entries, indent + 2, layout), indent, entries, odd)
  {
    OddEntriesStop(entries, indent, layout, odd);
    FirstText(entries, indent + 2, layout);
    EntriesDeep(entries, indent + 2, layout);
  }

  lemma {:induction false} OddUnderItem(
    entries: seq<Entry>, lines: seq<Line>, indent: nat, odd: seq<Line>, after: seq<Line>)
    requires ItemReady(lines, indent, entries, odd) && Shallow(after, indent)
    ensures Item(Dashed(lines, indent) + odd + after, indent) == Success((Mapping(entries), |lines| + |odd|))
  {
    DashedAppend(lines, indent, odd, after);
    OddItem(Dashed(lines, indent) + odd + after, lines + odd, entries, lines[0].text, lines[1..] + odd,
            indent, odd, after);
  }

  /** Such lines end the mapping without an error. */
  lemma {:induction false} OddEntriesStop(entries: seq<Entry>, indent: nat, layout: Layout, odd: seq<Line>)
    requires RenderableEntries(entries) && layout.width >= 1 && odd != [] && odd[0].indent == indent + 1
    ensures MappingEntries(RenderEntries(entries, indent + 2, layout) + odd, indent + 2, []) == Success((entries, odd))
  {
    EntriesReadBack(entries, indent + 2, layout, [], odd);
    assert [] + entries == entries;
  }

  lemma {:induction false} DashedAppend(lines: seq<Line>, indent: nat, odd: seq<Line>, after: seq<Line>)
    requires lines != [] && lines[0].indent == indent + 2
    ensures Dashed(lines, indent) + odd + after == [Line(indent, "- " + lines[0].text)] + (lines[1..] + odd) + after
    ensures lines + odd == [Line(indent + 2, lines[0].text)] + (lines[1..] + odd)
  {
  }

  lemma {:induction false} OddItem(
    all: seq<Line>, virtual: seq<Line>, entries: seq<Entry>, text: string, deep: seq<Line>, indent: nat,
    odd: seq<Line>, after: seq<Line>)
    requires all == [Line(indent, "- " + text)] + deep + after && virtual == [Line(indent + 2, text)] + deep
    requires KeyMatch(text).Some? && text != "" && !Space(text[0]) && !Space(text[|text| - 1])
    requires forall i | 0 <= i < |deep| :: deep[i].indent > indent
    requires MappingEntries(virtual, indent + 2, []) == Success((entries, odd))
    requires Shallow(after, indent)
    ensures Item(all, indent) == Success((Mapping(entries), |virtual|))
  {
    TrimmedStays(text);
    assert all[0].text[1..] == " " + text;
    DashedIsVirtual(text, deep, indent, after);
    ItemOfVirtual(all, indent, virtual, entries, odd);
  }
}
