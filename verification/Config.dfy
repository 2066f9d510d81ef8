/** Configuration files: nested scopes tracked by a prefix string and a stack of lengths, and classified values. */
module Config {
  import opened Options
  import opened Strings

  // A double is kept as its text; `rejected` below are those the library cannot read.
  datatype Entry = Bool(b: bool) | Double(text: string) | Integer(n: nat) | Text(s: string)

  type Dictionary = map<string, Entry>

  const INT64_LIMIT: nat := 0x8000_0000_0000_0000

  // -- Values -----------------------------------------------------------------

  predicate Occurs(c: char, s: string) {
    c in s
  }

  function Count(s: string, c: char): nat {
    if s == "" then 0 else (if s[0] == c then 1 else 0) + Count(s[1..], c)
  }

  predicate IsDouble(s: string) {
    Count(s, '.') == 1 && forall i :: 0 <= i < |s| ==> IsDigit(s[i]) || s[i] == '.'
  }

  predicate IsInteger(s: string) {
    Count(s, '.') == 0 && AllDigits(s)
  }

  // What a value means, or that it is an error.
  function Classify(s: string, rejected: set<string>): Option<Entry> {
    if s == "true" || s == "false" then Some(Bool(s == "true"))
    else if IsDouble(s) then if s in rejected then None else Some(Double(s))
    else if IsInteger(s) then
      match ParseUnsigned(s, INT64_LIMIT)
      case None => None
      case Some(n) => Some(Integer(n))
    else Some(Text(s))
  }

  // emplace() keeps the first binding.
  function Bind(dict: Dictionary, key: string, e: Entry): Dictionary {
    if key in dict then dict else dict[key := e]
  }

  lemma {:induction false} CountOccurs(s: string, c: char)
    ensures Count(s, c) == 0 <==> c !in s
  {
    if s != "" {
      CountOccurs(s[1..], c);
    }
  }

  /** A value is true or false exactly as the words say; an integer exactly if it is the decimal form of one that fits,
      behind any zeros; digits that are more than that, and doubles the library cannot read, are errors; whatever else
      it is, it is text and kept as it stands. */
  lemma ClassifyExactness(s: string, rejected: set<string>, n: nat)
    ensures Classify(s, rejected) == Some(Bool(true)) <==> s == "true"
    ensures Classify(s, rejected) == Some(Bool(false)) <==> s == "false"
    ensures Classify(s, rejected) == Some(Integer(n))
            <==> n < INT64_LIMIT && exists k: nat :: s == Zeros(k) + Decimal(n)
    ensures IsDouble(s) ==> Classify(s, rejected) == if s in rejected then None else Some(Double(s))
    ensures Classify(s, rejected).None? <==>
              (IsDouble(s) && s in rejected) || (AllDigits(s) && (s == "" || ValueOf(s) >= INT64_LIMIT))
    ensures Classify(s, rejected) == Some(Text(s)) <==>
              s != "true" && s != "false" && !IsDouble(s) && !AllDigits(s)
  {
    ParseExactness(s, INT64_LIMIT, n);
    CountOccurs(s, '.');
    assert "true"[0] == 't' && "false"[0] == 'f';
    if k: nat :| s == Zeros(k) + Decimal(n) {
      PaddedValue(k, n);
    }
  }

  // -- The parser -------------------------------------------------------------

  datatype Scope = Scope(prefix: string, lengths: seq<nat>, dict: Dictionary)

  // Failed is an exception; Undefined is a scope closed that was never opened.
  datatype Outcome<T> = Going(state: T) | Failed | Undefined

  function Assignment(dict: Dictionary, prefix: string, line: string, rejected: set<string>): Outcome<Dictionary> {
    var parts := Split(line, "=");
    if |parts| != 2 || parts[0] == "" || parts[1] == "" then Failed
    else
      match Classify(parts[1], rejected)
      case None => Failed
      case Some(e) => Going(Bind(dict, prefix + parts[0], e))
  }

  /** A line binds the text before its only '=' to the value behind it, unless that is bound already; it fails if there
      is none or more than one, if a side is empty, or if the value is an error. */
  lemma AssignmentExactness(dict: Dictionary, prefix: string, key: string, value: string, rejected: set<string>)
    requires '=' !in key
    ensures var o := Assignment(dict, prefix, key + "=" + value, rejected);
            var e := Classify(value, rejected);
            && (o.Going? <==> key != "" && value != "" && '=' !in value && e.Some?)
            && (o.Going? ==>
                  o.state == if prefix + key in dict then dict else dict[prefix + key := e.value])
  {
    CharFree(key, '=');
    CharFree(value, '=');
    JoinTwo(key, value, "=");
    SplitPush(key, "=", value);
    var rest := Split(value, "=");
    if '=' !in value {
      SplitOne(value, "=");
    } else {
      PiecesAreFree(value, "=");
      assert |rest| == 1 ==> rest[0] == value by {
        JoinSplit(value, "=");
      }
    }
    hide Classify;
  }

  lemma NoAssignment(dict: Dictionary, prefix: string, line: string, rejected: set<string>)
    requires '=' !in line
    ensures Assignment(dict, prefix, line, rejected) == Failed
  {
    CharFree(line, '=');
    SplitOne(line, "=");
  }

  function ParseLine(s: Scope, raw: string, rejected: set<string>): Outcome<Scope> {
    var line := Without(raw, ' ');
    if line == "" then Going(s)
    else if Occurs('{', line) then
      var scope := Without(line, '{') + ".";
      Going(s.(prefix := s.prefix + scope, lengths := s.lengths + [|scope|]))
    else if Occurs('}', line) then
      if s.lengths == [] || s.lengths[|s.lengths| - 1] > |s.prefix| then Undefined
      else
        var top := |s.lengths| - 1;
        Going(s.(prefix := s.prefix[..|s.prefix| - s.lengths[top]], lengths := s.lengths[..top]))
    else
      match Assignment(s.dict, s.prefix, line, rejected)
      case Going(dict) => Going(s.(dict := dict))
      case Failed => Failed
      case Undefined => Undefined
  }

  function Parse(s: Scope, lines: seq<string>, rejected: set<string>): Outcome<Scope>
    decreases |lines|
  {
    if lines == [] then Going(s)
    else
      match ParseLine(s, lines[0], rejected)
      case Going(s') => Parse(s', lines[1..], rejected)
      case Failed => Failed
      case Undefined => Undefined
  }

  // getline(): up to the next line break; a file that ends in one has no line behind it.
  function ReadLines(text: string): seq<string>
    decreases |text|
  {
    if text == "" then []
    else
      var end := Find(text, "\n");
      if end < 0 then [text] else [text[..end]] + ReadLines(text[end + 1..])
  }

  // -- A stack of names -------------------------------------------------------

  // The names of the open scopes, outermost first.
  datatype Named = Named(names: seq<string>, dict: Dictionary)

  function Dotted(names: seq<string>): string {
    if names == [] then "" else Dotted(names[..|names| - 1]) + names[|names| - 1] + "."
  }

  function Lengths(names: seq<string>): seq<nat> {
    if names == [] then [] else Lengths(names[..|names| - 1]) + [|names[|names| - 1]| + 1]
  }

  function Compact(s: Named): Scope {
    Scope(Dotted(s.names), Lengths(s.names), s.dict)
  }

  function Compacted(o: Outcome<Named>): Outcome<Scope> {
    match o
    case Going(s) => Going(Compact(s))
    case Failed => Failed
    case Undefined => Undefined
  }

  function NamedLine(s: Named, raw: string, rejected: set<string>): Outcome<Named> {
    var line := Without(raw, ' ');
    if line == "" then Going(s)
    else if Occurs('{', line) then Going(s.(names := s.names + [Without(line, '{')]))
    else if Occurs('}', line) then
      if s.names == [] then Undefined else Going(s.(names := s.names[..|s.names| - 1]))
    else
      match Assignment(s.dict, Dotted(s.names), line, rejected)
      case Going(dict) => Going(s.(dict := dict))
      case Failed => Failed
      case Undefined => Undefined
  }

  function NamedParse(s: Named, lines: seq<string>, rejected: set<string>): Outcome<Named>
    decreases |lines|
  {
    if lines == [] then Going(s)
    else
      match NamedLine(s, lines[0], rejected)
      case Going(s') => NamedParse(s', lines[1..], rejected)
      case Failed => Failed
      case Undefined => Undefined
  }

  lemma PushName(names: seq<string>, name: string)
    ensures Dotted(names + [name]) == Dotted(names) + (name + ".")
    ensures Lengths(names + [name]) == Lengths(names) + [|name + "."|]
  {
    assert (names + [name])[..|names|] == names;
    assert Dotted(names) + name + "." == Dotted(names) + (name + ".");
  }

  lemma PopName(names: seq<string>)
    requires names != []
    ensures var l := Lengths(names); var p := Dotted(names); var top := |l| - 1;
            && l != [] && l[top] <= |p|
            && p[..|p| - l[top]] == Dotted(names[..|names| - 1])
            && l[..top] == Lengths(names[..|names| - 1])
  {
    var rest := names[..|names| - 1];
    assert names == rest + [names[|names| - 1]];
    PushName(rest, names[|names| - 1]);
  }

  lemma {:induction false} SameDepth(names: seq<string>)
    ensures |Lengths(names)| == |names|
  {
    if names != [] {
      SameDepth(names[..|names| - 1]);
    }
  }

  lemma LineRefines(s: Named, raw: string, rejected: set<string>)
    ensures ParseLine(Compact(s), raw, rejected) == Compacted(NamedLine(s, raw, rejected))
  {
    hide Assignment, Without, Occurs;
    var line := Without(raw, ' ');
    SameDepth(s.names);
    if s.names != [] {
      PopName(s.names);
    }
    PushName(s.names, Without(line, '{'));
  }

  /** Throughout the file the prefix is the open scopes' names, each with a dot behind it, and the stack holds their
      lengths: the parser does what a stack of names would do. */
  lemma {:induction false} PrefixRefinesNames(s: Named, lines: seq<string>, rejected: set<string>)
    ensures Parse(Compact(s), lines, rejected) == Compacted(NamedParse(s, lines, rejected))
    decreases |lines|
  {
    hide NamedLine, ParseLine, Compact;
    if lines != [] {
      LineRefines(s, lines[0], rejected);
      var o := NamedLine(s, lines[0], rejected);
      if o.Going? {
        PrefixRefinesNames(o.state, lines[1..], rejected);
      }
    }
  }

  lemma {:induction false} SumOfLengths(names: seq<string>)
    ensures Total(Lengths(names)) == |Dotted(names)|
  {
    if names != [] {
      SumOfLengths(names[..|names| - 1]);
    }
  }

  function Total(lengths: seq<nat>): nat {
    if lengths == [] then 0 else Total(lengths[..|lengths| - 1]) + lengths[|lengths| - 1]
  }

  // -- Printed trees ----------------------------------------------------------

  datatype Node = Group(name: string, items: seq<Node>) | Leaf(key: string, value: string)

  function Print(node: Node): seq<string>
    decreases node
  {
    match node
    case Group(name, items) => [name + "{"] + PrintAll(items) + ["}"]
    case Leaf(key, value) => [key + "=" + value]
  }

  function PrintAll(items: seq<Node>): seq<string>
    decreases items
  {
    if items == [] then [] else Print(items[0]) + PrintAll(items[1..])
  }

  predicate Plain(s: string) {
    && ' ' !in s && '\n' !in s
    && '{' !in s && '}' !in s
    && '=' !in s
    && s != ""
  }

  // Scope names lack blanks, line breaks and opening braces.
  predicate ScopeName(name: string) {
    ' ' !in name && '\n' !in name && '{' !in name
  }

  // Keys and values lack every mark and are not empty.
  predicate WellNamed(node: Node)
    decreases node
  {
    match node
    case Group(name, items) => ScopeName(name) && AllNamed(items)
    case Leaf(key, value) => Plain(key) && Plain(value)
  }

  predicate AllNamed(items: seq<Node>)
    decreases items
  {
    items != [] ==> WellNamed(items[0]) && AllNamed(items[1..])
  }

  datatype Binding = Binding(key: string, value: string)

  // The bindings of a tree in the order of the file, keys with their dotted paths.
  function Flatten(node: Node, prefix: string): seq<Binding>
    decreases node
  {
    match node
    case Group(name, items) => FlattenAll(items, prefix + (name + "."))
    case Leaf(key, value) => [Binding(prefix + key, value)]
  }

  function FlattenAll(items: seq<Node>, prefix: string): seq<Binding>
    decreases items
  {
    if items == [] then [] else Flatten(items[0], prefix) + FlattenAll(items[1..], prefix)
  }

  function BindAll(dict: Dictionary, bs: seq<Binding>, rejected: set<string>): Outcome<Dictionary>
    decreases |bs|
  {
    if bs == [] then Going(dict)
    else
      match Classify(bs[0].value, rejected)
      case None => Failed
      case Some(e) => BindAll(Bind(dict, bs[0].key, e), bs[1..], rejected)
  }

  // Continuing after a part of the file or of the bindings.
  function Then(o: Outcome<Scope>, lines: seq<string>, rejected: set<string>): Outcome<Scope> {
    match o
    case Going(s) => Parse(s, lines, rejected)
    case Failed => Failed
    case Undefined => Undefined
  }

  function ThenBind(o: Outcome<Dictionary>, bs: seq<Binding>, rejected: set<string>): Outcome<Dictionary> {
    match o
    case Going(d) => BindAll(d, bs, rejected)
    case Failed => Failed
    case Undefined => Undefined
  }

  function InScope(s: Scope, o: Outcome<Dictionary>): Outcome<Scope> {
    match o
    case Going(d) => Going(s.(dict := d))
    case Failed => Failed
    case Undefined => Undefined
  }

  lemma {:induction false} ParseAppend(s: Scope, a: seq<string>, b: seq<string>, rejected: set<string>)
    ensures Parse(s, a + b, rejected) == Then(Parse(s, a, rejected), b, rejected)
    decreases |a|
  {
    hide ParseLine;
    if a == [] {
      assert a + b == b;
    } else {
      assert (a + b)[1..] == a[1..] + b;
      var o := ParseLine(s, a[0], rejected);
      if o.Going? {
        ParseAppend(o.state, a[1..], b, rejected);
      }
    }
  }

  lemma {:induction false} BindAppend(dict: Dictionary, a: seq<Binding>, b: seq<Binding>, rejected: set<string>)
    ensures BindAll(dict, a + b, rejected) == ThenBind(BindAll(dict, a, rejected), b, rejected)
    decreases |a|
  {
    hide Classify;
    if a == [] {
      assert a + b == b;
    } else {
      assert (a + b)[1..] == a[1..] + b;
      var e := Classify(a[0].value, rejected);
      if e.Some? {
        BindAppend(Bind(dict, a[0].key, e.value), a[1..], b, rejected);
      }
    }
  }

  lemma ParseOne(s: Scope, line: string, rejected: set<string>)
    ensures Parse(s, [line], rejected) == ParseLine(s, line, rejected)
  {
    hide ParseLine;
    var o := ParseLine(s, line, rejected);
    assert [line][1..] == [];
    assert o.Going? ==> Parse(o.state, [], rejected) == o;
  }

  lemma OpenLine(s: Scope, name: string, rejected: set<string>)
    requires ScopeName(name)
    ensures ParseLine(s, name + "{", rejected)
         == Going(s.(prefix := s.prefix + (name + "."), lengths := s.lengths + [|name| + 1]))
  {
    var line := name + "{";
    assert line[|name|] == '{';
    WithoutKeeps(line, ' ');
    WithoutKeeps(name, '{');
    WithoutAppend(name, "{", '{');
    assert Without("{", '{') == "";
    assert Without(line, '{') == name;
  }

  lemma CloseLine(s: Scope, inner: Scope, scope: string, rejected: set<string>)
    requires inner.prefix == s.prefix + scope && inner.lengths == s.lengths + [|scope|]
    ensures ParseLine(inner, "}", rejected) == Going(s.(dict := inner.dict))
  {
    var line := "}";
    WithoutKeeps(line, ' ');
    assert line[0] == '}' && '{' !in line;
    assert inner.prefix[..|inner.prefix| - |scope|] == s.prefix;
    assert inner.lengths[..|s.lengths|] == s.lengths;
  }

  lemma LeafLine(s: Scope, key: string, value: string, rejected: set<string>)
    requires Plain(key) && Plain(value)
    ensures ParseLine(s, key + "=" + value, rejected)
         == InScope(s, BindAll(s.dict, [Binding(s.prefix + key, value)], rejected))
  {
    var line := key + "=" + value;
    WithoutKeeps(line, ' ');
    assert !Occurs('{', line) && !Occurs('}', line);
    CharFree(key, '=');
    CharFree(value, '=');
    JoinTwo(key, value, "=");
    SplitJoin([key, value], "=");
    hide Classify, Split, Without, Occurs;
    var b := Binding(s.prefix + key, value);
    assert [b][1..] == [];
    assert line != "";
    var e := Classify(value, rejected);
    assert e.Some? ==> BindAll(Bind(s.dict, b.key, e.value), [], rejected) == Going(Bind(s.dict, b.key, e.value));
  }

  lemma {:induction false} PrintedNode(s: Scope, node: Node, rejected: set<string>)
    requires WellNamed(node)
    ensures Parse(s, Print(node), rejected) == InScope(s, BindAll(s.dict, Flatten(node, s.prefix), rejected))
    decreases node
  {
    hide ParseLine, BindAll;
    match node {
      case Leaf(key, value) =>
        LeafLine(s, key, value, rejected);
        ParseOne(s, key + "=" + value, rejected);
      case Group(name, items) =>
        PrintedGroup(s, name, items, rejected);
    }
  }

  lemma {:induction false} PrintedGroup(s: Scope, name: string, items: seq<Node>, rejected: set<string>)
    requires ScopeName(name) && AllNamed(items)
    ensures Parse(s, [name + "{"] + PrintAll(items) + ["}"], rejected)
         == InScope(s, BindAll(s.dict, FlattenAll(items, s.prefix + (name + ".")), rejected))
    decreases items, 1
  {
    hide ParseLine, BindAll, Parse, PrintAll, FlattenAll;
    var inner := s.(prefix := s.prefix + (name + "."), lengths := s.lengths + [|name| + 1]);
    OpenLine(s, name, rejected);
    ParseOne(s, name + "{", rejected);
    ParseAppend(s, [name + "{"], PrintAll(items), rejected);
    ParseAppend(s, [name + "{"] + PrintAll(items), ["}"], rejected);
    PrintedItems(inner, items, rejected);
    var o := BindAll(s.dict, FlattenAll(items, inner.prefix), rejected);
    if o.Going? {
      CloseLine(s, inner.(dict := o.state), name + ".", rejected);
      ParseOne(inner.(dict := o.state), "}", rejected);
    }
  }

  /** Parsing printed items binds their dotted paths in order and comes back to the same scope, or fails at the first
      value that is an error. */
  lemma {:induction false} PrintedItems(s: Scope, items: seq<Node>, rejected: set<string>)
    requires AllNamed(items)
    ensures Parse(s, PrintAll(items), rejected) == InScope(s, BindAll(s.dict, FlattenAll(items, s.prefix), rejected))
    decreases items, 0
  {
    hide ParseLine, Print, Flatten;
    if items != [] {
      PrintedNode(s, items[0], rejected);
      ParseAppend(s, Print(items[0]), PrintAll(items[1..]), rejected);
      var first := Flatten(items[0], s.prefix);
      BindAppend(s.dict, first, FlattenAll(items[1..], s.prefix), rejected);
      var o := BindAll(s.dict, first, rejected);
      if o.Going? {
        PrintedItems(s.(dict := o.state), items[1..], rejected);
      }
    }
  }

  // Where the key is bound first, or the end.
  function First(bs: seq<Binding>, key: string): (i: nat)
    ensures i <= |bs|
  {
    if bs == [] || bs[0].key == key then 0 else First(bs[1..], key) + 1
  }

  lemma {:induction false} FirstBindingWins(dict: Dictionary, bs: seq<Binding>, rejected: set<string>, key: string)
    requires BindAll(dict, bs, rejected).Going?
    ensures var d := BindAll(dict, bs, rejected).state; var i := First(bs, key);
            && (key in d <==> key in dict || i < |bs|)
            && (key in dict ==> d[key] == dict[key])
            && (key !in dict && i < |bs| ==> Some(d[key]) == Classify(bs[i].value, rejected))
    decreases |bs|
  {
    hide Classify;
    if bs != [] {
      FirstBindingWins(Bind(dict, bs[0].key, Classify(bs[0].value, rejected).value), bs[1..], rejected, key);
    }
  }

  predicate AllMeaningful(bs: seq<Binding>, rejected: set<string>) {
    forall i :: 0 <= i < |bs| ==>
      Classify(bs[i].value, rejected).Some?
  }

  lemma {:induction false} BindExactness(dict: Dictionary, bs: seq<Binding>, rejected: set<string>)
    ensures BindAll(dict, bs, rejected).Going? <==> AllMeaningful(bs, rejected)
    ensures !BindAll(dict, bs, rejected).Undefined?
    decreases |bs|
  {
    hide Classify;
    if bs != [] {
      var e := Classify(bs[0].value, rejected);
      if e.Some? {
        BindExactness(Bind(dict, bs[0].key, e.value), bs[1..], rejected);
        assert AllMeaningful(bs[1..], rejected) ==> forall i :: 0 < i < |bs| ==> bs[i] == bs[1..][i - 1];
      }
    }
  }

  const START := Scope("", [], map[])

  // A file with these lines.
  function FileText(lines: seq<string>): string {
    if lines == [] then "" else lines[0] + "\n" + FileText(lines[1..])
  }

  predicate Unbroken(lines: seq<string>) {
    forall i :: 0 <= i < |lines| ==> '\n' !in lines[i]
  }

  /** Reading a file gives back the lines it was written from exactly when none holds a line break. */
  lemma {:induction false} ReadBackExactness(lines: seq<string>)
    ensures ReadLines(FileText(lines)) == lines <==> Unbroken(lines)
  {
    ReadLinesUnbroken(FileText(lines));
    if Unbroken(lines) && lines != [] {
      CharFree(lines[0], '\n');
      var rest := FileText(lines[1..]);
      FirstAt(lines[0], "\n", rest);
      ReadBackExactness(lines[1..]);
      var text := lines[0] + "\n" + rest;
      assert text[..|lines[0]|] == lines[0] && text[|lines[0]| + 1..] == rest;
      assert lines == [lines[0]] + lines[1..];
    }
  }

  lemma {:induction false} ReadLinesUnbroken(text: string)
    ensures Unbroken(ReadLines(text))
    decreases |text|
  {
    if text != "" {
      var end := Find(text, "\n");
      var line := if end < 0 then text else text[..end];
      forall i | 0 <= i < |line| ensures line[i] != '\n' {
        assert !At(text, "\n", i);
        assert text[i..i + 1] == [line[i]];
      }
      if end >= 0 {
        ReadLinesUnbroken(text[end + 1..]);
      }
    }
  }

  lemma {:induction false} PrintedUnbroken(node: Node)
    requires WellNamed(node)
    ensures Unbroken(Print(node))
    decreases node
  {
    if node.Group? {
      PrintedAllUnbroken(node.items);
    }
  }

  lemma {:induction false} PrintedAllUnbroken(items: seq<Node>)
    requires AllNamed(items)
    ensures Unbroken(PrintAll(items))
    decreases items
  {
    if items != [] {
      PrintedUnbroken(items[0]);
      PrintedAllUnbroken(items[1..]);
    }
  }

  /** Printing a well-named tree to a file and parsing that fails exactly when some value is an error. Otherwise every
      scope is closed again, the keys are the dotted paths of the tree's leaves, and each has the meaning of its first
      value. */
  lemma PrintThenParse(items: seq<Node>, rejected: set<string>, key: string)
    requires AllNamed(items)
    ensures var bs := FlattenAll(items, "");
            var o := Parse(START, ReadLines(FileText(PrintAll(items))), rejected);
            var i := First(bs, key);
            && (if AllMeaningful(bs, rejected) then o.Going? else o.Failed?)
            && (o.Going? ==>
                  && o.state.prefix == ""
                  && o.state.lengths == []
                  && (key in o.state.dict <==> i < |bs|)
                  && (i < |bs| ==> Some(o.state.dict[key]) == Classify(bs[i].value, rejected)))
  {
    hide Classify, BindAll, FlattenAll, PrintAll, Parse, ReadLines, FileText, AllNamed;
    var bs := FlattenAll(items, "");
    PrintedAllUnbroken(items);
    ReadBackExactness(PrintAll(items));
    PrintedItems(START, items, rejected);
    BindExactness(map[], bs, rejected);
    if AllMeaningful(bs, rejected) {
      FirstBindingWins(map[], bs, rejected, key);
    }
  }

  /** Blanks mean nothing, wherever they stand. */
  lemma {:induction false} BlanksIgnored(s: Scope, a: seq<string>, b: seq<string>, rejected: set<string>)
    requires |a| == |b| && forall i :: 0 <= i < |a| ==> Without(a[i], ' ') == Without(b[i], ' ')
    ensures Parse(s, a, rejected) == Parse(s, b, rejected)
    decreases |a|
  {
    hide Without;
    if a != [] {
      var o := ParseLine(s, a[0], rejected);
      assert ParseLine(s, b[0], rejected) == o;
      hide ParseLine;
      if o.Going? {
        forall i | 0 <= i < |a[1..]| ensures Without(a[1..][i], ' ') == Without(b[1..][i], ' ') {
          assert a[1..][i] == a[i + 1] && b[1..][i] == b[i + 1];
        }
        BlanksIgnored(o.state, a[1..], b[1..], rejected);
      }
    }
  }

  // -- The parsing loop -------------------------------------------------------

  // parse_line
  method AddEntry(dict: Dictionary, prefix: string, line: string, rejected: set<string>)
    returns (res: Outcome<Dictionary>)
    ensures res == Assignment(dict, prefix, line, rejected)
  {
    var parts := SplitText(line, "=");
    if |parts| != 2 || parts[0] == "" || parts[1] == "" {
      return Failed;
    }
    var key := prefix;
    key := key + parts[0];
    var entry := Classify(parts[1], rejected);
    if entry.None? {
      return Failed;
    }
    res := Going(if key in dict then dict else dict[key := entry.value]);
  }

  method GetLine(text: string) returns (line: string, rest: string)
    requires text != ""
    ensures ReadLines(text) == [line] + ReadLines(rest)
    ensures |rest| < |text|
  {
    var end := Find(text, "\n");
    if end < 0 {
      line, rest := text, "";
    } else {
      line, rest := text[..end], text[end + 1..];
    }
  }

  // parse_file, given what the file holds
  method ParseFile(text: string, rejected: set<string>) returns (res: Outcome<Dictionary>)
    ensures match Parse(START, ReadLines(text), rejected)
            case Going(s) => res == Going(s.dict)
            case Failed => res == Failed
            case Undefined => res == Undefined
  {
    hide Assignment, Without, Occurs;
    var dict: Dictionary := map[];
    var prefix := "";
    var lengths: seq<nat> := [];
    var rest := text;
    while rest != ""
      invariant Parse(Scope(prefix, lengths, dict), ReadLines(rest), rejected)
             == Parse(START, ReadLines(text), rejected)
      decreases |rest|
    {
      ghost var lines := ReadLines(rest);
      var raw: string;
      raw, rest := GetLine(rest);
      assert lines[0] == raw && lines[1..] == ReadLines(rest);
      var line := RemoveChar(raw, ' ');
      if line == "" {
        continue;
      }
      if Occurs('{', line) {
        var scope := RemoveChar(line, '{');
        scope := scope + ".";
        lengths := lengths + [|scope|];
        prefix := prefix + scope;
      } else if Occurs('}', line) {
        if lengths == [] || lengths[|lengths| - 1] > |prefix| {
          return Undefined;
        }
        prefix := prefix[..|prefix| - lengths[|lengths| - 1]];
        lengths := lengths[..|lengths| - 1];
      } else {
        var entry := AddEntry(dict, prefix, line, rejected);
        if !entry.Going? {
          assert entry == Failed || entry == Undefined;
          return entry;
        }
        dict := entry.state;
      }
    }
    res := Going(dict);
  }
}
