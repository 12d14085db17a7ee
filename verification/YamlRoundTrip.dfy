/** Loading what the printer wrote gives the mapping back, except for texts that read as something else. */
module YamlRoundTrip {
  import opened Prelude
  import opened YamlScalar
  import opened Yaml

  // ---------------------------------------------------------------- what may be printed

  predicate WordChar(c: char) { Alnum(c) || c == '_' }

  predicate Word(s: string) { s != [] && forall i :: 0 <= i < |s| ==> WordChar(s[i]) }

  /** Keys are words, distinct within a mapping, and texts are printable. */
  predicate Dumpable(m: Mapping) {
    match m
    case Nil => true
    case Cons(k, v, r) => Word(k) && k !in Keys(r) && DumpableValue(v) && Dumpable(r)
  }

  predicate DumpableValue(v: Value) {
    match v
    case Leaf(x) => x.Text? ==> AllPrintable(x.s)
    case Nested(c) => Dumpable(c)
  }

  // ---------------------------------------------------------------- cutting text into lines

  lemma BeforeJoin(c: char, x: seq<string>, y: seq<string>)
    requires |x| > 0
    ensures Before(c, x + y) == Before(c, x) + y
  {
    assert (x + y)[1..] == x[1..] + y;
  }

  lemma {:induction false} LinesJoin(a: string, c: char, b: string)
    requires Break(c)
    ensures Lines(a + ([c] + b)) == Lines(a) + Lines(b)
  {
    var t := a + ([c] + b);
    if a == [] {
      assert t == [c] + b && t[1..] == b;
    } else {
      assert t[1..] == a[1..] + ([c] + b);
      LinesJoin(a[1..], c, b);
      BeforeJoin(a[0], Lines(a[1..]), Lines(b));
    }
  }

  predicate TidyLine(l: string) { l == "" || !Space(l[|l| - 1]) }

  predicate Tidy(ls: seq<string>) { forall l :: l in ls ==> TidyLine(l) }

  /** Adds a character to the last line. */
  function AtEnd(ls: seq<string>, c: char): (r: seq<string>)
    requires |ls| > 0
    ensures |r| == |ls|
  {
    ls[..|ls| - 1] + [ls[|ls| - 1] + [c]]
  }

  lemma BeforeAtEnd(x: char, ls: seq<string>, c: char)
    requires |ls| > 0
    ensures Before(x, AtEnd(ls, c)) == AtEnd(Before(x, ls), c)
  {
    var n := |ls| - 1;
    if Break(x) {
      assert ([""] + ls)[..n + 1] == [""] + ls[..n];
    } else if n == 0 {
      assert [x] + (ls[0] + [c]) == ([x] + ls[0]) + [c];
    } else {
      assert AtEnd(ls, c)[1..] == ls[1..n] + [ls[n] + [c]];
      assert Before(x, ls)[..n] == [[x] + ls[0]] + ls[1..n];
    }
  }

  lemma {:induction false} LinesSnoc(a: string, c: char)
    requires !Break(c)
    ensures Lines(a + [c]) == AtEnd(Lines(a), c)
  {
    var t := a + [c];
    if a == [] {
      assert t[1..] == [];
      assert [c] + "" == [c] == "" + [c];
      assert Lines(t) == Before(c, [""]) == [[c]] == AtEnd([""], c);
    } else {
      assert t[1..] == a[1..] + [c];
      LinesSnoc(a[1..], c);
      BeforeAtEnd(a[0], Lines(a[1..]), c);
    }
  }

  lemma UntidyEnd(a: string, c: char)
    requires !Break(c) && Space(c)
    ensures !Tidy(Lines(a + [c]))
  {
    LinesSnoc(a, c);
    var l := Lines(a)[|Lines(a)| - 1] + [c];
    assert l in Lines(a + [c]) && !TidyLine(l);
  }

  predicate Unbroken(s: string) { forall i :: 0 <= i < |s| ==> !Break(s[i]) }

  lemma {:induction false} UnbrokenIsOneLine(s: string)
    requires Unbroken(s)
    ensures Lines(s) == [s]
  {
    if s != [] {
      UnbrokenIsOneLine(s[1..]);
      assert Before(s[0], [s[1..]]) == [[s[0]] + s[1..]];
      assert s == [s[0]] + s[1..];
    }
  }

  function Solid(ls: seq<string>): seq<string> {
    if ls == [] then [] else (if ls[0] == "" then [] else [ls[0]]) + Solid(ls[1..])
  }

  lemma {:induction false} SolidJoin(a: seq<string>, b: seq<string>)
    ensures Solid(a + b) == Solid(a) + Solid(b)
  {
    if a == [] {
      assert a + b == b;
    } else {
      assert (a + b)[1..] == a[1..] + b;
      SolidJoin(a[1..], b);
    }
  }

  lemma BlankLine(s: Stack)
    ensures FeedLine(s, "") == Ok(s)
  {
  }

  lemma {:induction false} FeedSolid(s: Stack, ls: seq<string>)
    ensures Feed(s, ls) == Feed(s, Solid(ls))
    decreases |ls|
  {
    if ls != [] {
      if ls[0] == "" {
        BlankLine(s);
        FeedSolid(s, ls[1..]);
        assert Solid(ls) == Solid(ls[1..]);
      } else {
        assert Solid(ls)[0] == ls[0] && Solid(ls)[1..] == Solid(ls[1..]);
        if FeedLine(s, ls[0]).Ok? {
          FeedSolid(FeedLine(s, ls[0]).value, ls[1..]);
        }
      }
    }
  }

  // ---------------------------------------------------------------- stripping the end of a text

  /** When no line ends in blanks, stripping the end of a text removes empty lines only. */
  lemma {:induction false} RStripKeepsSolid(t: string)
    requires Tidy(Lines(t))
    ensures Solid(Lines(RStrip(t))) == Solid(Lines(t)) && Tidy(Lines(RStrip(t)))
    decreases |t|
  {
    if t != [] && Space(t[|t| - 1]) {
      var u, c := t[..|t| - 1], t[|t| - 1];
      if Break(c) {
        assert t == u + ([c] + "");
        LinesJoin(u, c, "");
        SolidJoin(Lines(u), Lines(""));
        assert Solid([""]) == [];
        RStripKeepsSolid(u);
      } else {
        assert t == u + [c];
        UntidyEnd(u, c);
        assert false;
      }
    }
  }

  // ---------------------------------------------------------------- the lines of a dump

  /** The lines that matter. */
  function FlatLines(m: Mapping, indent: nat): seq<string> {
    match m
    case Nil => []
    case Cons(key, Nested(c), rest) => [KeyLine(key, indent)] + (FlatLines(c, indent + 2) + FlatLines(rest, indent))
    case Cons(key, Leaf(v), rest) => [LeafLine(key, v, indent)] + FlatLines(rest, indent)
  }

  function SolidAll(ls: seq<string>): seq<string> {
    if ls == [] then [] else Solid(Lines(ls[0])) + SolidAll(ls[1..])
  }

  predicate TidyAll(ls: seq<string>) { forall l :: l in ls ==> Tidy(Lines(l)) }

  lemma {:induction false} JoinedLines(ls: seq<string>)
    requires TidyAll(ls)
    ensures Solid(Lines(Join(ls) + "\n")) == SolidAll(ls)
    ensures Tidy(Lines(Join(ls) + "\n"))
  {
    var rest := if |ls| <= 1 then "" else Join(ls[1..]) + "\n";
    if ls == [] {
      LinesJoin("", '\n', "");
      assert Join(ls) + "\n" == "" + (['\n'] + "");
      SolidJoin([""], [""]);
      assert Solid([""]) == [];
    } else {
      assert Join(ls) + "\n" == ls[0] + (['\n'] + rest);
      LinesJoin(ls[0], '\n', rest);
      SolidJoin(Lines(ls[0]), Lines(rest));
      assert ls[0] in ls && Tidy(Lines(ls[0]));
      if |ls| == 1 {
        assert Solid(Lines("")) == [] && SolidAll(ls[1..]) == [];
      } else {
        JoinedLines(ls[1..]);
      }
    }
  }

  lemma OneLine(l: string)
    requires Unbroken(l) && l != "" && !Space(l[|l| - 1])
    ensures Solid(Lines(l)) == [l] && Tidy(Lines(l))
  {
    UnbrokenIsOneLine(l);
    assert Solid([l]) == [l] + Solid([]);
  }

  lemma WordIsClean(key: string)
    requires Word(key)
    ensures Clean(key) && Unbroken(key)
  {
    assert WordChar(key[0]) && WordChar(key[|key| - 1]);
  }

  lemma {:induction false} EscapePrintable(s: string)
    requires AllPrintable(s)
    ensures AllPrintable(Escape(s))
  {
    if s != [] {
      EscapePrintable(s[1..]);
    }
  }

  /** A scalar is written either bare or in double quotes. */
  lemma ScalarForms(v: Scalar)
    ensures Bare(FormatScalar(v)) || (v.Text? && FormatScalar(v) == Quoted(v.s))
  {
    match v
    case Bool(b) =>
    case Null =>
    case Int(n) =>
      IntReadsBack(n);
      NumberIsNoWord(FormatInt(n));
    case Text(s) => TwoReplacements(s);
  }

  lemma ScalarUnbroken(v: Scalar)
    requires v.Text? ==> AllPrintable(v.s)
    ensures Clean(FormatScalar(v)) && Unbroken(FormatScalar(v))
  {
    ScalarReads(v);
    ScalarForms(v);
    if Bare(FormatScalar(v)) {
      assert forall i :: 0 <= i < |FormatScalar(v)| ==> BareChar(FormatScalar(v)[i]);
    } else {
      EscapePrintable(v.s);
      assert AllPrintable(Quoted(v.s));
      assert forall i :: 0 <= i < |FormatScalar(v)| ==> Printable(FormatScalar(v)[i]);
    }
  }

  lemma KeyLineIsOne(key: string, indent: nat)
    requires Word(key)
    ensures Solid(Lines(KeyLine(key, indent))) == [KeyLine(key, indent)] && Tidy(Lines(KeyLine(key, indent)))
  {
    WordIsClean(key);
    OneLine(KeyLine(key, indent));
  }

  lemma LeafLineIsOne(key: string, v: Scalar, indent: nat)
    requires Word(key) && (v.Text? ==> AllPrintable(v.s))
    ensures Solid(Lines(LeafLine(key, v, indent))) == [LeafLine(key, v, indent)] && Tidy(Lines(LeafLine(key, v, indent)))
  {
    WordIsClean(key);
    ScalarUnbroken(v);
    OneLine(LeafLine(key, v, indent));
  }

  lemma {:induction false} DumpLinesAreFlat(m: Mapping, indent: nat)
    requires Dumpable(m)
    ensures SolidAll(DumpLines(m, indent)) == FlatLines(m, indent) && TidyAll(DumpLines(m, indent))
    decreases m, 0
  {
    match m
    case Nil =>
    case Cons(key, Nested(c), rest) =>
      DumpIsFlat(c, indent + 2);
      RStripKeepsSolid(Dump(c, indent + 2));
      DumpLinesAreFlat(rest, indent);
      KeyLineIsOne(key, indent);
      SolidTwo(KeyLine(key, indent), RStrip(Dump(c, indent + 2)), DumpLines(rest, indent));
    case Cons(key, Leaf(v), rest) =>
      LeafLineIsOne(key, v, indent);
      DumpLinesAreFlat(rest, indent);
      SolidOne(LeafLine(key, v, indent), DumpLines(rest, indent));
  }

  lemma SolidOne(l: string, more: seq<string>)
    ensures SolidAll([l] + more) == Solid(Lines(l)) + SolidAll(more)
  {
    assert ([l] + more)[1..] == more;
  }

  lemma SolidTwo(k: string, l: string, more: seq<string>)
    ensures SolidAll([k, l] + more) == Solid(Lines(k)) + (Solid(Lines(l)) + SolidAll(more))
  {
    assert [k, l] + more == [k] + ([l] + more);
    SolidOne(k, [l] + more);
    SolidOne(l, more);
  }

  lemma {:induction false} DumpIsFlat(m: Mapping, indent: nat)
    requires Dumpable(m)
    ensures Solid(Lines(Dump(m, indent))) == FlatLines(m, indent) && Tidy(Lines(Dump(m, indent)))
    decreases m, 1
  {
    DumpLinesAreFlat(m, indent);
    JoinedLines(DumpLines(m, indent));
  }

  // ---------------------------------------------------------------- reading a printed line

  predicate Inert(c: char) { c != '\'' && c != '"' && c != '#' }

  lemma {:induction false} ScanInert(line: string, i: nat, j: nat)
    requires i <= j <= |line| && forall k :: i <= k < j ==> Inert(line[k])
    ensures Scan(line, i, NoQuote, false) == Scan(line, j, NoQuote, false)
    decreases j - i
  {
    if i < j {
      ScanInert(line, i + 1, j);
    }
  }

  /** The scanner leaves a quoted text at its closing quote, whatever is inside. */
  lemma {:induction false} ScanQuoted(line: string, i: nat, s: string)
    requires i <= |line| && line[i..] == Escape(s) + ['"']
    ensures Scan(line, i, In('"'), false) == |line|
    decreases |s|
  {
    var tail := line[i..];
    assert |tail| == |line| - i;
    if s == [] {
      assert tail == ['"'];
      assert line[i] == tail[0] == '"';
    } else {
      var k := if s[0] == '\\' || s[0] == '"' then 2 else 1;
      assert tail[k..] == Escape(s[1..]) + ['"'];
      assert line[i + k..] == tail[k..];
      assert line[i] == tail[0] && line[i + k - 1] == tail[k - 1] == s[0];
      ScanQuoted(line, i + k, s[1..]);
    }
  }

  lemma ScanScalar(line: string, i: nat, v: Scalar)
    requires i <= |line| && line[i..] == FormatScalar(v)
    ensures Scan(line, i, NoQuote, false) == |line|
  {
    var t := FormatScalar(v);
    ScalarForms(v);
    assert forall k :: i <= k < |line| ==> line[k] == t[k - i];
    if Bare(t) {
      forall k | i <= k < |line| ensures Inert(line[k]) {
        assert BareChar(t[k - i]);
      }
      ScanInert(line, i, |line|);
    } else {
      assert t == ['"'] + (Escape(v.s) + ['"']);
      assert line[i] == '"' && line[i + 1..] == t[1..] == Escape(v.s) + ['"'];
      ScanQuoted(line, i + 1, v.s);
    }
  }

  lemma {:induction false} LStripSpaces(n: nat, s: string)
    requires s != [] && !Space(s[0])
    ensures LStrip(Spaces(n) + s) == s
  {
    var t := Spaces(n) + s;
    if n == 0 {
      assert t == s;
    } else {
      assert t[1..] == Spaces(n - 1) + s;
      LStripSpaces(n - 1, s);
    }
  }

  lemma LeadingSpaces(n: nat, s: string, tabs: bool)
    requires s != [] && !Space(s[0])
    ensures Leading(Spaces(n) + s, tabs) == n
  {
    var t := Spaces(n) + s;
    var k := Leading(t, tabs);
    assert forall i :: 0 <= i < n ==> t[i] == ' ';
    assert t[n] == s[0];
  }

  lemma ColonAfterKey(key: string, tail: string)
    requires Word(key)
    ensures FirstColon(key + (":" + tail)) == |key|
  {
    var s := key + (":" + tail);
    assert forall i :: 0 <= i < |key| ==> WordChar(s[i]);
    assert s[|key|] == ':';
  }

  lemma ContentReads(key: string, tail: string, indent: nat)
    requires Word(key)
    ensures ReadContent(key + (":" + tail), indent) == Ok(Some(Item(indent, key, Strip(tail))))
  {
    var body := key + (":" + tail);
    WordIsClean(key);
    assert WordChar(key[0]) && body[0] == key[0];
    ColonAfterKey(key, tail);
    assert body[..|key|] == key && body[|key| + 1..] == tail;
    CleanStays(key);
  }

  lemma LineStrips(body: string, indent: nat)
    requires Clean(body) && Scan(Spaces(indent) + body, 0, NoQuote, false) == |Spaces(indent) + body|
    ensures StripComment(Spaces(indent) + body) == Spaces(indent) + body && Strip(Spaces(indent) + body) == body
  {
    var line := Spaces(indent) + body;
    assert line[..|line|] == line && line[|line| - 1] == body[|body| - 1];
    LStripSpaces(indent, body);
  }

  lemma IndentReads(body: string, indent: nat)
    requires Clean(body) && indent % 2 == 0
    requires Scan(Spaces(indent) + body, 0, NoQuote, false) == |Spaces(indent) + body|
    ensures ReadLine(Spaces(indent) + body) == ReadContent(body, indent)
  {
    LineStrips(body, indent);
    LeadingSpaces(indent, body, false);
    LeadingSpaces(indent, body, true);
    assert (Spaces(indent) + body)[..indent] == Spaces(indent);
  }

  /** A line made of indentation, a key, a colon and a tail that the scanner accepts. */
  lemma ReadsAs(key: string, tail: string, indent: nat, line: string)
    requires Word(key) && indent % 2 == 0 && line == Spaces(indent) + (key + (":" + tail))
    requires tail == "" || !Space(tail[|tail| - 1])
    requires Scan(line, 0, NoQuote, false) == |line|
    ensures ReadLine(line) == Ok(Some(Item(indent, key, Strip(tail))))
  {
    var body := key + (":" + tail);
    WordIsClean(key);
    assert body[0] == key[0] && (tail != "" ==> body[|body| - 1] == tail[|tail| - 1]);
    IndentReads(body, indent);
    ContentReads(key, tail, indent);
  }

  lemma HeadScans(key: string, tail: string, indent: nat)
    requires Word(key)
    ensures var line, n := Spaces(indent) + (key + (":" + tail)), indent + |key| + 1;
            && n <= |line| && line[n..] == tail
            && Scan(line, 0, NoQuote, false) == Scan(line, n, NoQuote, false)
  {
    var line, n := Spaces(indent) + (key + (":" + tail)), indent + |key| + 1;
    forall k | 0 <= k < n ensures Inert(line[k]) {
      assert indent <= k < indent + |key| ==> line[k] == key[k - indent] && WordChar(key[k - indent]);
    }
    ScanInert(line, 0, n);
  }

  lemma KeyLineReads(key: string, indent: nat)
    requires Word(key) && indent % 2 == 0
    ensures ReadLine(KeyLine(key, indent)) == Ok(Some(Item(indent, key, "")))
  {
    var line := KeyLine(key, indent);
    assert ":" + "" == ":";
    HeadScans(key, "", indent);
    ReadsAs(key, "", indent, line);
  }

  lemma AfterSpace(line: string, n: nat, t: string)
    requires n <= |line| && line[n..] == " " + t
    ensures n < |line| && line[n] == ' ' && line[n + 1..] == t
  {
    assert line[n..][0] == ' ' && line[n..][1..] == t;
  }

  lemma PairScans(key: string, t: string, indent: nat, line: string)
    requires Word(key) && line == Spaces(indent) + (key + (":" + (" " + t)))
    ensures var n := indent + |key| + 2;
            n <= |line| && line[n..] == t && Scan(line, 0, NoQuote, false) == Scan(line, n, NoQuote, false)
  {
    var n := indent + |key| + 1;
    HeadScans(key, " " + t, indent);
    AfterSpace(line, n, t);
    ScanInert(line, n, n + 1);
  }

  lemma LeafLineScans(key: string, v: Scalar, indent: nat)
    requires Word(key)
    ensures Scan(LeafLine(key, v, indent), 0, NoQuote, false) == |LeafLine(key, v, indent)|
  {
    PairScans(key, FormatScalar(v), indent, LeafLine(key, v, indent));
    ScanScalar(LeafLine(key, v, indent), indent + |key| + 2, v);
  }

  lemma LeafLineReads(key: string, v: Scalar, indent: nat)
    requires Word(key) && indent % 2 == 0
    ensures ReadLine(LeafLine(key, v, indent)) == Ok(Some(Item(indent, key, FormatScalar(v))))
  {
    ScalarReads(v);
    LeafLineScans(key, v, indent);
    PairReads(key, FormatScalar(v), indent, LeafLine(key, v, indent));
  }

  lemma PairReads(key: string, t: string, indent: nat, line: string)
    requires Word(key) && Clean(t) && indent % 2 == 0 && line == Spaces(indent) + (key + (":" + (" " + t)))
    requires Scan(line, 0, NoQuote, false) == |line|
    ensures ReadLine(line) == Ok(Some(Item(indent, key, t)))
  {
    StripOneSpace(t);
    assert (" " + t)[|t|] == t[|t| - 1];
    ReadsAs(key, " " + t, indent, line);
  }

  lemma StripOneSpace(t: string)
    requires Clean(t)
    ensures Strip(" " + t) == t
  {
    var s := " " + t;
    assert s[|s| - 1] == t[|t| - 1] && s[1..] == t;
    assert RStrip(s) == s;
    assert LStrip(s) == LStrip(t);
    CleanStays(t);
  }

  // ---------------------------------------------------------------- loading the lines of a mapping

  /** The mapping with every scalar as it is read back. */
  function Reread(m: Mapping): Mapping {
    match m
    case Nil => Nil
    case Cons(k, v, r) => Cons(k, RereadValue(v), Reread(r))
  }

  function RereadValue(v: Value): Value {
    match v
    case Leaf(x) => Leaf(YamlScalar.Reread(x))
    case Nested(c) => Nested(Reread(c))
  }

  lemma SettleTwice(s: Stack, outer: int, inner: int)
    requires outer <= inner
    ensures Settle(Settle(s, inner), outer) == Settle(s, outer)
    decreases Depth(s)
  {
    if s.Push? && inner <= s.indent {
      SettleTwice(Store(s.below, s.key, Nested(s.entries)), outer, inner);
    }
  }

  /** The mapping that a line at this indentation joins. */
  ghost predicate Awaits(s: Stack, top: Stack, indent: nat) {
    Settle(s, indent) == top && TopIndent(top) == indent - 2
  }

  function WithEntries(s: Stack, es: Mapping): Stack { s.(entries := es) }

  lemma PlaceLeaf(s: Stack, top: Stack, indent: nat, key: string, v: Scalar)
    requires Awaits(s, top, indent) && key !in Keys(top.entries)
    ensures var top' := WithEntries(top, Append(top.entries, Cons(key, Leaf(v), Nil)));
            Place(s, Set(indent, key, v)) == Ok(top') && Awaits(top', top', indent)
  {
    PutNew(top.entries, key, Leaf(v));
  }

  lemma PlaceKey(s: Stack, top: Stack, indent: nat, key: string)
    requires Awaits(s, top, indent)
    ensures var child := Push(Store(top, key, Nested(Nil)), indent, key, Nil);
            Place(s, Open(indent, key)) == Ok(child) && Awaits(child, child, indent + 2)
  {
  }

  /** Closing a child stores it under its key. */
  lemma CloseChild(s: Stack, top: Stack, indent: nat, key: string, c: Mapping)
    requires key !in Keys(top.entries) && TopIndent(top) == indent - 2
    requires Awaits(s, Push(Store(top, key, Nested(Nil)), indent, key, c), indent + 2)
    ensures Awaits(s, WithEntries(top, Append(top.entries, Cons(key, Nested(c), Nil))), indent)
  {
    SettleTwice(s, indent, indent + 2);
    PutTwice(top.entries, key, Nested(Nil), Nested(c));
    PutNew(top.entries, key, Nested(c));
  }

  lemma KeysAppend(a: Mapping, b: Mapping)
    ensures Keys(Append(a, b)) == Keys(a) + Keys(b)
  {
  }

  function Places(s: Stack, es: seq<Entry>): Result<Stack, LoadError>
    decreases |es|
  {
    if es == [] then Ok(s) else
      var next := Place(s, es[0]);
      if next.Err? then next else Places(next.value, es[1..])
  }

  lemma {:induction false} PlacesJoin(s: Stack, a: seq<Entry>, b: seq<Entry>)
    ensures Places(s, a + b) == var t := Places(s, a); if t.Ok? then Places(t.value, b) else t
    decreases |a|
  {
    if a == [] {
      assert a + b == b;
    } else {
      assert (a + b)[1..] == a[1..] + b;
      if Place(s, a[0]).Ok? {
        PlacesJoin(Place(s, a[0]).value, a[1..], b);
      }
    }
  }

  lemma PlacesFirst(s: Stack, e: Entry, more: seq<Entry>)
    requires Place(s, e).Ok?
    ensures Places(s, [e] + more) == Places(Place(s, e).value, more)
  {
    assert ([e] + more)[1..] == more;
  }

  /** What the lines of a mapping mean. */
  function Entries(m: Mapping, indent: nat): seq<Entry> {
    match m
    case Nil => []
    case Cons(key, Nested(c), rest) => [Open(indent, key)] + (Entries(c, indent + 2) + Entries(rest, indent))
    case Cons(key, Leaf(v), rest) => [Set(indent, key, v)] + Entries(rest, indent)
  }

  /** The mapping `top` after the entries of `m`. */
  function Extended(top: Stack, m: Mapping): Stack { WithEntries(top, Append(top.entries, m)) }

  predicate DistinctKeys(m: Mapping) {
    match m
    case Nil => true
    case Cons(k, Leaf(_), r) => k !in Keys(r) && DistinctKeys(r)
    case Cons(k, Nested(c), r) => k !in Keys(r) && DistinctKeys(c) && DistinctKeys(r)
  }

  /** Placing the entries of a mapping adds exactly these to the mapping they are indented under. */
  lemma {:induction false} PlaceMapping(s: Stack, top: Stack, m: Mapping, indent: nat)
    requires Awaits(s, top, indent) && DistinctKeys(m) && Keys(top.entries) !! Keys(m)
    ensures Places(s, Entries(m, indent)).Ok?
    ensures Awaits(Places(s, Entries(m, indent)).value, Extended(top, m), indent)
    decreases m, 1
  {
    match m
    case Nil => AppendNil(top.entries);
    case Cons(key, Leaf(v), rest) => PlaceLeafFirst(s, top, key, v, rest, indent);
    case Cons(key, Nested(c), rest) => PlaceNestedFirst(s, top, key, c, rest, indent);
  }

  lemma {:induction false} PlaceLeafFirst(s: Stack, top: Stack, key: string, v: Scalar, rest: Mapping, indent: nat)
    requires Awaits(s, top, indent) && DistinctKeys(Cons(key, Leaf(v), rest))
    requires Keys(top.entries) !! Keys(Cons(key, Leaf(v), rest))
    ensures var m := Cons(key, Leaf(v), rest);
            && Places(s, Entries(m, indent)).Ok?
            && Awaits(Places(s, Entries(m, indent)).value, Extended(top, m), indent)
    decreases rest, 2
  {
    PlaceLeaf(s, top, indent, key, v);
    var top' := WithEntries(top, Append(top.entries, Cons(key, Leaf(v), Nil)));
    PlacesFirst(s, Set(indent, key, v), Entries(rest, indent));
    KeysAppend(top.entries, Cons(key, Leaf(v), Nil));
    PlaceMapping(top', top', rest, indent);
    AppendNext(top.entries, key, Leaf(v), rest);
  }

  lemma {:induction false} PlaceNestedFirst(s: Stack, top: Stack, key: string, c: Mapping, rest: Mapping, indent: nat)
    requires Awaits(s, top, indent) && DistinctKeys(Cons(key, Nested(c), rest))
    requires Keys(top.entries) !! Keys(Cons(key, Nested(c), rest))
    ensures var m := Cons(key, Nested(c), rest);
            && Places(s, Entries(m, indent)).Ok?
            && Awaits(Places(s, Entries(m, indent)).value, Extended(top, m), indent)
    decreases Cons(key, Nested(c), rest), 0
  {
    PlaceKey(s, top, indent, key);
    var child := Push(Store(top, key, Nested(Nil)), indent, key, Nil);
    PlacesFirst(s, Open(indent, key), Entries(c, indent + 2) + Entries(rest, indent));
    PlacesJoin(child, Entries(c, indent + 2), Entries(rest, indent));
    PlaceMapping(child, child, c, indent + 2);
    var inner := Places(child, Entries(c, indent + 2)).value;
    CloseChild(inner, top, indent, key, c);
    var top' := WithEntries(top, Append(top.entries, Cons(key, Nested(c), Nil)));
    KeysAppend(top.entries, Cons(key, Nested(c), Nil));
    PlaceMapping(inner, top', rest, indent);
    AppendNext(top.entries, key, Nested(c), rest);
  }

  // ---------------------------------------------------------------- what the printed lines mean

  /** The line reads as the entry. */
  ghost predicate Means(line: string, e: Entry) {
    forall s {:trigger FeedLine(s, line)} :: FeedLine(s, line) == Place(s, e)
  }

  lemma KeyLineMeans(key: string, indent: nat)
    requires Word(key) && indent % 2 == 0
    ensures Means(KeyLine(key, indent), Open(indent, key))
  {
    KeyLineReads(key, indent);
  }

  lemma LeafLineMeans(key: string, v: Scalar, indent: nat)
    requires Word(key) && indent % 2 == 0
    ensures Means(LeafLine(key, v, indent), Set(indent, key, YamlScalar.Reread(v)))
  {
    LeafLineReads(key, v, indent);
    ScalarReads(v);
  }

  ghost predicate MeansAll(lines: seq<string>, es: seq<Entry>) {
    |lines| == |es| && forall i {:trigger es[i]} :: 0 <= i < |es| ==> Means(lines[i], es[i])
  }

  lemma {:induction false} FeedPlaces(s: Stack, lines: seq<string>, es: seq<Entry>)
    requires MeansAll(lines, es)
    ensures Feed(s, lines) == Places(s, es)
    decreases |lines|
  {
    if lines != [] {
      assert Means(lines[0], es[0]);
      assert MeansAll(lines[1..], es[1..]);
      if Place(s, es[0]).Ok? {
        FeedPlaces(Place(s, es[0]).value, lines[1..], es[1..]);
      }
    }
  }

  lemma MeansFirst(line: string, e: Entry, lines: seq<string>, es: seq<Entry>)
    requires Means(line, e) && MeansAll(lines, es)
    ensures MeansAll([line] + lines, [e] + es)
  {
  }

  lemma MeansJoin(a: seq<string>, x: seq<Entry>, b: seq<string>, y: seq<Entry>)
    requires MeansAll(a, x) && MeansAll(b, y)
    ensures MeansAll(a + b, x + y)
  {
    forall i | 0 <= i < |x + y| ensures Means((a + b)[i], (x + y)[i]) {
      if i < |x| {
        assert Means(a[i], x[i]);
      } else {
        assert Means(b[i - |x|], y[i - |x|]);
      }
    }
  }

  lemma {:induction false} FlatLinesMean(m: Mapping, indent: nat)
    requires Dumpable(m) && indent % 2 == 0
    ensures MeansAll(FlatLines(m, indent), Entries(Reread(m), indent))
  {
    match m
    case Nil =>
    case Cons(key, Nested(c), rest) =>
      KeyLineMeans(key, indent);
      FlatLinesMean(c, indent + 2);
      FlatLinesMean(rest, indent);
      MeansJoin(FlatLines(c, indent + 2), Entries(Reread(c), indent + 2),
                FlatLines(rest, indent), Entries(Reread(rest), indent));
      MeansFirst(KeyLine(key, indent), Open(indent, key),
                 FlatLines(c, indent + 2) + FlatLines(rest, indent),
                 Entries(Reread(c), indent + 2) + Entries(Reread(rest), indent));
    case Cons(key, Leaf(v), rest) =>
      LeafLineMeans(key, v, indent);
      FlatLinesMean(rest, indent);
      MeansFirst(LeafLine(key, v, indent), Set(indent, key, YamlScalar.Reread(v)),
                 FlatLines(rest, indent), Entries(Reread(rest), indent));
  }

  lemma {:induction false} RereadKeys(m: Mapping)
    ensures Keys(Reread(m)) == Keys(m) && (Dumpable(m) ==> DistinctKeys(Reread(m)))
  {
    match m
    case Nil =>
    case Cons(_, Leaf(_), r) => RereadKeys(r);
    case Cons(_, Nested(c), r) =>
      assert Dumpable(m) ==> DumpableValue(m.value);
      RereadKeys(c);
      RereadKeys(r);
  }

  // ---------------------------------------------------------------- the round trip

  /** Loading a dump always succeeds and gives every scalar as it reads back. */
  lemma LoadOfDump(m: Mapping)
    requires Dumpable(m)
    ensures Load(Dump(m, 0)) == Ok(Reread(m))
  {
    DumpIsFlat(m, 0);
    FeedSolid(Root(Nil), Lines(Dump(m, 0)));
    FlatLinesMean(m, 0);
    FeedPlaces(Root(Nil), FlatLines(m, 0), Entries(Reread(m), 0));
    RereadKeys(m);
    PlaceMapping(Root(Nil), Root(Nil), Reread(m), 0);
  }

  /** Somewhere in the mapping a text is written bare and reads as a keyword or an integer. */
  predicate HasAmbiguous(m: Mapping) {
    match m
    case Nil => false
    case Cons(_, Leaf(v), r) => (v.Text? && Ambiguous(v.s)) || HasAmbiguous(r)
    case Cons(_, Nested(c), r) => HasAmbiguous(c) || HasAmbiguous(r)
  }

  lemma {:induction false} RereadExactly(m: Mapping)
    ensures Reread(m) == m <==> !HasAmbiguous(m)
  {
    match m
    case Nil =>
    case Cons(_, Leaf(v), r) => RereadExactly(r);
    case Cons(_, Nested(c), r) =>
      RereadExactly(c);
      RereadExactly(r);
  }

  /** A mapping comes back from its dump exactly when it holds no ambiguous text. */
  lemma RoundTrip(m: Mapping)
    requires Dumpable(m)
    ensures Load(Dump(m, 0)) == Ok(m) <==> !HasAmbiguous(m)
  {
    LoadOfDump(m);
    RereadExactly(m);
  }

  /** The failing family is not empty: a text that spells an integer comes back as the integer. */
  lemma IntegerTextIsLost(key: string, n: int)
    requires Word(key)
    ensures Dumpable(Cons(key, Leaf(Text(FormatInt(n))), Nil))
    ensures Load(Dump(Cons(key, Leaf(Text(FormatInt(n))), Nil), 0)) == Ok(Cons(key, Leaf(Int(n)), Nil))
  {
    IntTextRereads(n);
    LoadOfDump(Cons(key, Leaf(Text(FormatInt(n))), Nil));
  }

  lemma IntTextRereads(n: int)
    ensures YamlScalar.Reread(Text(FormatInt(n))) == Int(n) && AllPrintable(FormatInt(n))
  {
    IntReadsBack(n);
    NumberIsNoWord(FormatInt(n));
  }
}
