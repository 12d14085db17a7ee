/** A reader for the part of TOML v1.0.0 that lockfiles are written in: tables and arrays of tables with bare names, and
    bare keys with a basic string, an array of basic strings or a decimal integer, each on a line of its own. */
module Toml {
  import opened Prelude
  import Decimals

  datatype Value = Number(n: int) | Text(s: string) | Texts(items: seq<string>)

  type Table = map<string, Value>

  datatype Place = Top | In(name: string) | LastOf(name: string)

  /** The tables read so far, and the one that a key line belongs to. */
  datatype Document = Document(top: Table, tables: map<string, Table>, lists: map<string, seq<Table>>, place: Place)

  const EMPTY := Document(map[], map[], map[], Top)

  // ---------------------------------------------------------------- characters

  predicate BareKey(c: char) { 'a' <= c <= 'z' || 'A' <= c <= 'Z' || '0' <= c <= '9' || c == '_' || c == '-' }

  /** Control characters other than the tab must be escaped inside a string. */
  predicate Control(c: char) { (c < ' ' && c != '\t') || c == 0x7f as char }

  predicate Digit(c: char) { '0' <= c <= '9' }

  /** The longest run of characters of a kind at the front. */
  function Run(s: string, kind: char -> bool): (n: nat)
    ensures n <= |s| && (forall i :: 0 <= i < n ==> kind(s[i])) && (n < |s| ==> !kind(s[n]))
  {
    if s == [] || !kind(s[0]) then 0 else 1 + Run(s[1..], kind)
  }

  function SkipBlanks(s: string): (r: string)
    ensures |r| <= |s|
  {
    if s != [] && (s[0] == ' ' || s[0] == '\t') then SkipBlanks(s[1..]) else s
  }

  /** What follows a character that must come next. */
  function After(s: string, c: char): (r: Option<string>)
    ensures r.Some? ==> |r.value| < |s|
  {
    if s != [] && s[0] == c then Some(s[1..]) else None
  }

  // ---------------------------------------------------------------- values

  /** The rest of a basic string behind its opening quote, and what follows the closing one. Of the escapes only those of
      a quote and of a backslash are read. */
  function ReadBasic(s: string): (r: Option<(string, string)>)
    ensures r.Some? ==> |r.value.1| < |s|
  {
    if s == [] || Control(s[0]) then None
    else if s[0] == '"' then Some(([], s[1..]))
    else if s[0] != '\\' then Prefixed(s[0], ReadBasic(s[1..]))
    else if |s| > 1 && (s[1] == '"' || s[1] == '\\') then Prefixed(s[1], ReadBasic(s[2..]))
    else None
  }

  function Prefixed(c: char, r: Option<(string, string)>): Option<(string, string)> {
    if r.Some? then Some(([c] + r.value.0, r.value.1)) else None
  }

  /** The strings of an array behind its bracket or a comma, and what follows the closing bracket. */
  function ReadTexts(s: string): (r: Option<(seq<string>, string)>)
    ensures r.Some? ==> |r.value.1| < |s|
    decreases |s|
  {
    var open := After(SkipBlanks(s), '"');
    if open.None? then
      var close := After(SkipBlanks(s), ']');
      if close.None? then None else Some(([], close.value))
    else
      var first := ReadBasic(open.value);
      if first.None? then None else
        var comma := After(SkipBlanks(first.value.1), ',');
        var more := if comma.Some? then ReadTexts(comma.value) else Closed(SkipBlanks(first.value.1));
        if more.None? then None else Some(([first.value.0] + more.value.0, more.value.1))
  }

  function Closed(s: string): (r: Option<(seq<string>, string)>)
    ensures r.Some? ==> |r.value.1| < |s|
  {
    var close := After(s, ']');
    if close.None? then None else Some(([], close.value))
  }

  function ReadValue(s: string): (r: Option<(Value, string)>)
    ensures r.Some? ==> |r.value.1| < |s|
  {
    if s == [] then None
    else if s[0] == '"' then
      var text := ReadBasic(s[1..]);
      if text.Some? then Some((Text(text.value.0), text.value.1)) else None
    else if s[0] == '[' then
      var texts := ReadTexts(s[1..]);
      if texts.Some? then Some((Texts(texts.value.0), texts.value.1)) else None
    else
      var n := Run(s, Digit);
      if n > 0 && (s[0] != '0' || n == 1) then Some((Number(Decimals.Value(s[..n])), s[n..])) else None
  }

  // ---------------------------------------------------------------- lines

  /** Sets a key of the current table; a key is not set twice. */
  function Put(d: Document, key: string, v: Value): Option<Document> {
    match d.place
    case Top => if key in d.top then None else Some(d.(top := d.top[key := v]))
    case In(name) =>
      if name !in d.tables || key in d.tables[name] then None
      else Some(d.(tables := d.tables[name := d.tables[name][key := v]]))
    case LastOf(name) =>
      if name !in d.lists || d.lists[name] == [] then None
      else
        var n := |d.lists[name]| - 1;
        if key in d.lists[name][n] then None
        else Some(d.(lists := d.lists[name := d.lists[name][n := d.lists[name][n][key := v]]]))
  }

  function OpenTable(d: Document, name: string): Option<Document> {
    if name in d.tables || name in d.lists || name in d.top then None
    else Some(d.(tables := d.tables[name := map[]], place := In(name)))
  }

  function OpenEntry(d: Document, name: string): Option<Document> {
    if name in d.tables || name in d.top then None
    else
      var entries := if name in d.lists then d.lists[name] else [];
      Some(d.(lists := d.lists[name := entries + [map[]]], place := LastOf(name)))
  }

  /** What follows the end of a line. */
  function LineEnd(s: string): (r: Option<string>)
    ensures r.Some? ==> |r.value| <= |s|
  {
    var t := SkipBlanks(s);
    if t == [] then Some([]) else After(t, '\n')
  }

  /** A key line: the changed document and what follows. */
  function ReadKey(s: string, d: Document): (r: Option<(Document, string)>)
    ensures r.Some? ==> |r.value.1| < |s|
  {
    var n := Run(s, BareKey);
    var eq := After(SkipBlanks(s[n..]), '=');
    if n == 0 || eq.None? then None else
      var v := ReadValue(SkipBlanks(eq.value));
      if v.None? then None else
        var rest := LineEnd(v.value.1);
        var d' := Put(d, s[..n], v.value.0);
        if rest.None? || d'.None? then None else Some((d'.value, rest.value))
  }

  /** A header line behind its opening brackets, which number one or two. */
  function ReadHeader(s: string, d: Document, entry: bool): (r: Option<(Document, string)>)
    ensures r.Some? ==> |r.value.1| <= |s|
  {
    var n := Run(s, BareKey);
    var one := After(s[n..], ']');
    var close := if entry && one.Some? then After(one.value, ']') else one;
    if n == 0 || close.None? then None else
      var rest := LineEnd(close.value);
      var d' := if entry then OpenEntry(d, s[..n]) else OpenTable(d, s[..n]);
      if rest.None? || d'.None? then None else Some((d'.value, rest.value))
  }

  function ReadLine(s: string, d: Document): (r: Option<(Document, string)>)
    requires s != []
    ensures r.Some? ==> |r.value.1| < |s|
  {
    if s[0] == '\n' then Some((d, s[1..]))
    else if s[0] != '[' then ReadKey(s, d)
    else if |s| > 1 && s[1] == '[' then ReadHeader(s[2..], d, true)
    else ReadHeader(s[1..], d, false)
  }

  function ReadLines(s: string, d: Document): Option<Document>
    decreases |s|
  {
    if s == [] then Some(d) else
      var line := ReadLine(s, d);
      if line.None? then None else ReadLines(line.value.1, line.value.0)
  }

  function Read(text: string): Option<Document> { ReadLines(text, EMPTY) }
}
