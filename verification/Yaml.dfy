/** Nested mappings of the YAML subset: the printer, the line-by-line loader, and their round trip. */
module Yaml {
  import opened Prelude
  import opened YamlScalar

  datatype Value = Leaf(scalar: Scalar) | Nested(mapping: Mapping)

  /** An insertion-ordered dictionary. */
  datatype Mapping = Nil | Cons(key: string, value: Value, rest: Mapping)

  // ---------------------------------------------------------------- dictionaries

  function Keys(m: Mapping): set<string> {
    match m case Nil => {} case Cons(k, _, r) => {k} + Keys(r)
  }

  /** Assignment to a key: in place when the key is there, otherwise at the end. */
  function Put(m: Mapping, key: string, v: Value): Mapping {
    match m
    case Nil => Cons(key, v, Nil)
    case Cons(k, w, r) => if k == key then Cons(k, v, r) else Cons(k, w, Put(r, key, v))
  }

  function Append(a: Mapping, b: Mapping): Mapping {
    match a case Nil => b case Cons(k, v, r) => Cons(k, v, Append(r, b))
  }

  lemma PutNew(m: Mapping, key: string, v: Value)
    requires key !in Keys(m)
    ensures Put(m, key, v) == Append(m, Cons(key, v, Nil))
    ensures Keys(Put(m, key, v)) == Keys(m) + {key}
  {
  }

  lemma PutTwice(m: Mapping, key: string, v: Value, v': Value)
    ensures Put(Put(m, key, v), key, v') == Put(m, key, v')
  {
  }

  lemma AppendNext(m: Mapping, key: string, v: Value, rest: Mapping)
    ensures Append(Append(m, Cons(key, v, Nil)), rest) == Append(m, Cons(key, v, rest))
  {
  }

  lemma AppendNil(m: Mapping)
    ensures Append(m, Nil) == m
  {
  }

  // ---------------------------------------------------------------- the printer

  function Spaces(n: nat): (s: string)
    ensures |s| == n && forall i :: 0 <= i < n ==> s[i] == ' '
  {
    seq(n, _ => ' ')
  }

  function Join(lines: seq<string>): string {
    if lines == [] then "" else if |lines| == 1 then lines[0] else lines[0] + ("\n" + Join(lines[1..]))
  }

  function KeyLine(key: string, indent: nat): string { Spaces(indent) + (key + ":") }

  function LeafLine(key: string, v: Scalar, indent: nat): string {
    Spaces(indent) + (key + (":" + (" " + FormatScalar(v))))
  }

  function DumpLines(m: Mapping, indent: nat): seq<string>
    decreases m, 0
  {
    match m
    case Nil => []
    case Cons(key, Nested(c), rest) => [KeyLine(key, indent), RStrip(Dump(c, indent + 2))] + DumpLines(rest, indent)
    case Cons(key, Leaf(v), rest) => [LeafLine(key, v, indent)] + DumpLines(rest, indent)
  }

  function Dump(m: Mapping, indent: nat): string
    decreases m, 1
  {
    Join(DumpLines(m, indent)) + "\n"
  }

  // ---------------------------------------------------------------- the comment scanner

  datatype Quote = NoQuote | In(char)

  /** Where the line ends or its comment begins, scanning from `i`. */
  function Scan(line: string, i: nat, quote: Quote, escaped: bool): (r: nat)
    requires i <= |line|
    ensures i <= r <= |line|
    decreases |line| - i
  {
    if i == |line| then i
    else if escaped then Scan(line, i + 1, quote, false)
    else if quote == In('"') && line[i] == '\\' then Scan(line, i + 1, quote, true)
    else if line[i] == '\'' || line[i] == '"' then
      Scan(line, i + 1, if quote == NoQuote then In(line[i]) else if quote == In(line[i]) then NoQuote else quote, false)
    else if line[i] == '#' && quote == NoQuote && (i == 0 || Space(line[i - 1])) then i
    else Scan(line, i + 1, quote, false)
  }

  function StripComment(line: string): string { RStrip(line[..Scan(line, 0, NoQuote, false)]) }

  // ---------------------------------------------------------------- one line

  /** The length of the leading run of spaces, or of spaces and tabs. */
  function Leading(line: string, tabs: bool): (n: nat)
    ensures n <= |line|
    ensures forall i :: 0 <= i < n ==> line[i] == ' ' || (tabs && line[i] == '\t')
    ensures n < |line| ==> !(line[n] == ' ' || (tabs && line[n] == '\t'))
  {
    if line != [] && (line[0] == ' ' || (tabs && line[0] == '\t')) then 1 + Leading(line[1..], tabs) else 0
  }

  /** The position of the first colon, or the length. */
  function FirstColon(s: string): (n: nat)
    ensures n <= |s|
    ensures forall i :: 0 <= i < n ==> s[i] != ':'
    ensures n < |s| ==> s[n] == ':'
  {
    if s == [] || s[0] == ':' then 0 else 1 + FirstColon(s[1..])
  }

  datatype Item = Item(indent: nat, key: string, value: string)

  function ReadContent(content: string, indent: nat): Result<Option<Item>, LoadError> {
    var colon := FirstColon(content);
    if |content| >= 2 && content[0] == '-' && content[1] == ' ' then Err(SequenceEntry)
    else if colon == |content| then Err(NoColon)
    else if Strip(content[..colon]) == "" then Err(EmptyKey)
    else Ok(Some(Item(indent, Strip(content[..colon]), Strip(content[colon + 1..]))))
  }

  /** Reads one line: nothing when it is blank, otherwise its indentation, key and value text. */
  function ReadLine(raw: string): Result<Option<Item>, LoadError> {
    var line := StripComment(raw);
    var indent := Leading(line, false);
    if Strip(line) == "" then Ok(None)
    else if '\t' in line[..Leading(line, true)] then Err(TabIndent)
    else if indent % 2 != 0 then Err(OddIndent)
    else ReadContent(Strip(line), indent)
  }

  // ---------------------------------------------------------------- the stack of open mappings

  /** The root, or a mapping that is still open under a key of the one below. */
  datatype Stack = Root(entries: Mapping) | Push(below: Stack, indent: nat, key: string, entries: Mapping)

  function Depth(s: Stack): nat { if s.Root? then 0 else 1 + Depth(s.below) }

  function TopIndent(s: Stack): int { if s.Root? then -2 else s.indent }

  function Store(s: Stack, key: string, v: Value): (r: Stack)
    ensures Depth(r) == Depth(s) && TopIndent(r) == TopIndent(s) && (s.Push? ==> r.Push? && r.below == s.below)
  {
    s.(entries := Put(s.entries, key, v))
  }

  /** Closes every mapping that a line at this indentation cannot belong to. */
  function Settle(s: Stack, indent: int): (r: Stack)
    ensures r.Push? ==> r.indent < indent
    decreases Depth(s)
  {
    if s.Push? && indent <= s.indent then Settle(Store(s.below, s.key, Nested(s.entries)), indent) else s
  }

  function AddItem(s: Stack, item: Item): Result<Stack, LoadError> {
    var parent := Settle(s, item.indent);
    var expected := if TopIndent(parent) < 0 then 0 else TopIndent(parent) + 2;
    if item.indent > expected then Err(NoParent)
    else if item.value == "" then
      Ok(Push(Store(parent, item.key, Nested(Nil)), item.indent, item.key, Nil))
    else
      var v := ParseScalar(item.value);
      if v.Ok? then Ok(Store(parent, item.key, Leaf(v.value))) else Err(v.error)
  }

  /** A line in terms of what it means: it opens a mapping under a key, or sets a key. */
  datatype Entry = Open(indent: nat, key: string) | Set(indent: nat, key: string, scalar: Scalar)

  function Place(s: Stack, e: Entry): Result<Stack, LoadError> {
    var parent := Settle(s, e.indent);
    var expected := if TopIndent(parent) < 0 then 0 else TopIndent(parent) + 2;
    if e.indent > expected then Err(NoParent)
    else if e.Open? then Ok(Push(Store(parent, e.key, Nested(Nil)), e.indent, e.key, Nil))
    else Ok(Store(parent, e.key, Leaf(e.scalar)))
  }

  function FeedLine(s: Stack, raw: string): Result<Stack, LoadError> {
    var item := ReadLine(raw);
    if item.Err? then Err(item.error) else if item.value.None? then Ok(s) else AddItem(s, item.value.value)
  }

  function Feed(s: Stack, lines: seq<string>): Result<Stack, LoadError>
    decreases |lines|
  {
    if lines == [] then Ok(s) else
      var next := FeedLine(s, lines[0]);
      if next.Err? then next else Feed(next.value, lines[1..])
  }

  predicate Break(c: char) { '\n' <= c <= '\r' || 0x1c <= c as int <= 0x1e }

  /** Puts a character in front of a list of lines. */
  function Before(c: char, ls: seq<string>): (r: seq<string>)
    requires |ls| > 0
    ensures |r| > 0
  {
    if Break(c) then [""] + ls else [[c] + ls[0]] + ls[1..]
  }

  /** Cuts a text at every line break. Empty lines have no effect on loading. */
  function Lines(text: string): (ls: seq<string>)
    ensures |ls| > 0
  {
    if text == [] then [""] else Before(text[0], Lines(text[1..]))
  }

  function Load(text: string): Result<Mapping, LoadError> {
    var s := Feed(Root(Nil), Lines(text));
    if s.Ok? then Ok(Settle(s.value, 0).entries) else Err(s.error)
  }
}
