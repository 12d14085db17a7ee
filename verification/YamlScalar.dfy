/** Scalars of the YAML subset: how they are written and how they are read back. Texts are ASCII. */
module YamlScalar {
  import opened Prelude
  import opened Decimals

  datatype Scalar = Null | Bool(b: bool) | Int(n: int) | Text(s: string)

  datatype LoadError =
    | TabIndent | OddIndent | SequenceEntry | NoColon | EmptyKey | NoParent
    | OtherEscape // an escape sequence other than of a backslash or a quote

  // ---------------------------------------------------------------- characters

  predicate Space(c: char) { c == ' ' || '\t' <= c <= '\r' || 0x1c <= c as int <= 0x1f }
  predicate IsDigit(c: char) { '0' <= c <= '9' }
  predicate Alnum(c: char) { IsDigit(c) || 'a' <= c <= 'z' || 'A' <= c <= 'Z' }
  predicate Printable(c: char) { ' ' <= c <= '~' }
  predicate AllPrintable(s: string) { forall i :: 0 <= i < |s| ==> Printable(s[i]) }

  function Lower(c: char): char { if 'A' <= c <= 'Z' then c - 'A' + 'a' else c }
  function LowerText(s: string): string { MapSeq(s, Lower) }

  function LStrip(s: string): string {
    if s != [] && Space(s[0]) then LStrip(s[1..]) else s
  }

  function RStrip(s: string): string {
    if s != [] && Space(s[|s| - 1]) then RStrip(s[..|s| - 1]) else s
  }

  function Strip(s: string): string { LStrip(RStrip(s)) }

  /** Begins and ends with something that stripping keeps. */
  predicate Clean(s: string) { s != [] && !Space(s[0]) && !Space(s[|s| - 1]) }

  lemma CleanStays(s: string)
    requires Clean(s)
    ensures Strip(s) == s && RStrip(s) == s && LStrip(s) == s
  {
  }

  // ---------------------------------------------------------------- writing

  predicate BareChar(c: char) { Alnum(c) || c in {'.', '-', '_', '/', ':'} }

  predicate Bare(s: string) { s != [] && forall i :: 0 <= i < |s| ==> BareChar(s[i]) }

  /** Puts `t` for every occurrence of one character. */
  function Replace(s: string, c: char, t: string): string {
    if s == [] then [] else (if s[0] == c then t else [s[0]]) + Replace(s[1..], c, t)
  }

  /** A backslash before every backslash and quote. */
  function Escape(s: string): string {
    if s == [] then [] else (if s[0] == '\\' || s[0] == '"' then ['\\', s[0]] else [s[0]]) + Escape(s[1..])
  }

  lemma {:induction false} ReplaceJoin(a: string, b: string, c: char, t: string)
    ensures Replace(a + b, c, t) == Replace(a, c, t) + Replace(b, c, t)
  {
    if a == [] {
      assert a + b == b;
    } else {
      assert (a + b)[1..] == a[1..] + b;
      ReplaceJoin(a[1..], b, c, t);
    }
  }

  /** Doubling the backslashes first and escaping the quotes second escapes each character once. */
  lemma {:induction false} TwoReplacements(s: string)
    ensures Replace(Replace(s, '\\', ['\\', '\\']), '"', ['\\', '"']) == Escape(s)
  {
    if s != [] {
      TwoReplacements(s[1..]);
      var head := if s[0] == '\\' then ['\\', '\\'] else [s[0]];
      ReplaceJoin(head, Replace(s[1..], '\\', ['\\', '\\']), '"', ['\\', '"']);
      ReplaceShort(head);
    }
  }

  lemma ReplaceShort(s: string)
    requires 1 <= |s| <= 2 && (|s| == 2 ==> s[0] == s[1] == '\\')
    ensures Replace(s, '"', ['\\', '"']) == if s == ['"'] then ['\\', '"'] else s
  {
    assert s[1..] == [] || s[1..] == ['\\'];
    assert Replace(s[1..], '"', ['\\', '"']) == s[1..];
  }

  function Quoted(s: string): string { ['"'] + Escape(s) + ['"'] }

  function FormatInt(n: int): string { if n < 0 then "-" + Decimal(-n) else Decimal(n) }

  function FormatScalar(v: Scalar): string {
    match v
    case Bool(b) => if b then "true" else "false"
    case Int(n) => FormatInt(n)
    case Null => "null"
    case Text(s) => if Bare(s) then s else
      ['"'] + Replace(Replace(s, '\\', ['\\', '\\']), '"', ['\\', '"']) + ['"']
  }

  // ---------------------------------------------------------------- reading

  /** Digits, with single underscores between them. */
  predicate Grouped(s: string) {
    && s != [] && IsDigit(s[0]) && IsDigit(s[|s| - 1])
    && (forall i :: 0 <= i < |s| ==> IsDigit(s[i]) || s[i] == '_')
    && (forall i :: 0 < i < |s| ==> IsDigit(s[i - 1]) || IsDigit(s[i]))
  }

  function DropUnderscores(s: string): string { Replace(s, '_', []) }

  /** What the integer conversion accepts, apart from a leading plus. */
  function ParseInt(s: string): Option<int> {
    if s != [] && s[0] == '-' then
      if Grouped(s[1..]) then Some(-Value(DropUnderscores(s[1..]))) else None
    else if Grouped(s) then Some(Value(DropUnderscores(s))) else None
  }

  function Decode(s: string): Result<string, LoadError> {
    if s == [] then Ok([])
    else if s[0] != '\\' then Prepend(s[0], Decode(s[1..]))
    else if |s| > 1 && s[1] in {'\\', '"', '\''} then Prepend(s[1], Decode(s[2..]))
    else Err(OtherEscape)
  }

  function Prepend(c: char, r: Result<string, LoadError>): Result<string, LoadError> {
    if r.Ok? then Ok([c] + r.value) else r
  }

  function SingleQuotes(s: string): string {
    if |s| > 1 && s[0] == '\'' && s[1] == '\'' then ['\''] + SingleQuotes(s[2..])
    else if s == [] then [] else [s[0]] + SingleQuotes(s[1..])
  }

  function Middle(s: string): string { if |s| < 2 then [] else s[1..|s| - 1] }

  predicate Wrapped(s: string, quote: char) { s != [] && s[0] == quote && s[|s| - 1] == quote }

  /** What a text is taken for when it is not quoted. */
  function ReadPlain(v: string): Scalar {
    if v != [] && v[0] != '0' && v[0] != '+' then
      if ParseInt(v).Some? then Int(ParseInt(v).value) else Text(v)
    else if v == "0" then Int(0)
    else Text(v)
  }

  function ReadWord(lower: string): Option<Scalar> {
    if lower == "true" then Some(Bool(true))
    else if lower == "false" then Some(Bool(false))
    else if lower == "null" || lower == "~" then Some(Null)
    else None
  }

  function ParseScalar(text: string): Result<Scalar, LoadError> {
    var v := Strip(text);
    if ReadWord(LowerText(v)).Some? then Ok(ReadWord(LowerText(v)).value)
    else if Wrapped(v, '"') then
      var inner := Decode(Middle(v));
      if inner.Ok? then Ok(Text(inner.value)) else Err(inner.error)
    else if Wrapped(v, '\'') then Ok(Text(SingleQuotes(Middle(v))))
    else Ok(ReadPlain(v))
  }

  // ---------------------------------------------------------------- numbers come back

  lemma {:induction false} DecimalDigits(n: nat)
    ensures forall i :: 0 <= i < |Decimal(n)| ==> IsDigit(Decimal(n)[i])
    ensures n > 0 ==> Decimal(n)[0] != '0'
  {
    if n >= 10 {
      DecimalDigits(n / 10);
    }
  }

  lemma {:induction false} NothingToReplace(s: string, c: char, t: string)
    requires forall i :: 0 <= i < |s| ==> s[i] != c
    ensures Replace(s, c, t) == s
  {
    if s != [] {
      NothingToReplace(s[1..], c, t);
    }
  }

  lemma DecimalReads(m: nat)
    ensures Grouped(Decimal(m)) && Value(DropUnderscores(Decimal(m))) == m
    ensures m > 0 ==> Decimal(m)[0] != '0'
  {
    DecimalDigits(m);
    DecimalValue(m);
    NothingToReplace(Decimal(m), '_', []);
  }

  lemma NegativeReads(m: nat)
    requires m > 0
    ensures ReadPlain("-" + Decimal(m)) == Int(0 - m)
  {
    DecimalReads(m);
    assert ("-" + Decimal(m))[1..] == Decimal(m);
  }

  lemma PositiveReads(m: nat)
    ensures ReadPlain(Decimal(m)) == Int(m)
  {
    DecimalReads(m);
    assert IsDigit(Decimal(m)[0]);
  }

  lemma IntReadsBack(n: int)
    ensures FormatInt(n) != [] && ReadPlain(FormatInt(n)) == Int(n)
    ensures forall i :: 0 <= i < |FormatInt(n)| ==> IsDigit(FormatInt(n)[i]) || FormatInt(n)[i] == '-'
  {
    if n < 0 {
      NegativeReads(-n);
      DecimalDigits(-n);
    } else {
      PositiveReads(n);
      DecimalDigits(n);
    }
  }

  // ---------------------------------------------------------------- quoted texts come back

  lemma {:induction false} DecodeEscape(s: string)
    ensures Decode(Escape(s)) == Ok(s)
  {
    if s != [] {
      DecodeEscape(s[1..]);
      var e, k := Escape(s), if s[0] == '\\' || s[0] == '"' then 2 else 1;
      assert e[k..] == Escape(s[1..]) && e[k - 1] == s[0] && (e[0] == '\\' <==> k == 2);
      assert s == [s[0]] + s[1..];
    }
  }

  /** No unquoted word, so neither a keyword nor a number, begins with this character. */
  lemma NotAWord(v: string)
    requires v != [] && !Alnum(v[0]) && v[0] != '~'
    ensures ReadWord(LowerText(v)) == None
  {
    assert LowerText(v)[0] == v[0];
  }

  lemma QuotedReadsBack(s: string)
    ensures Clean(Quoted(s)) && ParseScalar(Quoted(s)) == Ok(Text(s))
  {
    var q := Quoted(s);
    CleanStays(q);
    NotAWord(q);
    assert Middle(q) == Escape(s);
    DecodeEscape(s);
  }

  // ---------------------------------------------------------------- exactly what comes back

  /** A text that is written without quotes and reads as something else. */
  predicate Ambiguous(s: string) {
    Bare(s) && (ReadWord(LowerText(s)).Some? || ReadPlain(s).Int?)
  }

  lemma BareReads(s: string)
    requires Bare(s)
    ensures Clean(s)
    ensures ParseScalar(s) == Ok(if ReadWord(LowerText(s)).Some? then ReadWord(LowerText(s)).value else ReadPlain(s))
  {
    assert BareChar(s[0]) && BareChar(s[|s| - 1]);
    CleanStays(s);
  }

  lemma NumberIsNoWord(s: string)
    requires s != [] && forall i :: 0 <= i < |s| ==> IsDigit(s[i]) || s[i] == '-'
    ensures ReadWord(LowerText(s)) == None && Bare(s)
  {
    assert LowerText(s)[0] == s[0];
  }

  /** What a written scalar is read as. */
  function Reread(v: Scalar): Scalar {
    if v.Text? && Bare(v.s) then
      if ReadWord(LowerText(v.s)).Some? then ReadWord(LowerText(v.s)).value else ReadPlain(v.s)
    else v
  }

  lemma NumberReads(n: int)
    ensures Clean(FormatInt(n)) && ParseScalar(FormatInt(n)) == Ok(Int(n))
  {
    IntReadsBack(n);
    NumberIsNoWord(FormatInt(n));
    BareReads(FormatInt(n));
  }

  lemma ScalarReads(v: Scalar)
    ensures Clean(FormatScalar(v)) && ParseScalar(FormatScalar(v)) == Ok(Reread(v))
  {
    match v
    case Bool(b) => WordsRead();
    case Null => WordsRead();
    case Int(n) => NumberReads(n);
    case Text(s) =>
      if Bare(s) {
        BareReads(s);
      } else {
        TwoReplacements(s);
        QuotedReadsBack(s);
      }
  }

  lemma WordsRead()
    ensures Clean("true") && ParseScalar("true") == Ok(Bool(true))
    ensures Clean("false") && ParseScalar("false") == Ok(Bool(false))
    ensures Clean("null") && ParseScalar("null") == Ok(Null)
  {
    assert LowerText("true") == "true" && LowerText("false") == "false" && LowerText("null") == "null";
    CleanStays("true");
    CleanStays("false");
    CleanStays("null");
  }

  /** A scalar comes back exactly when it is not a text that reads as a keyword or an integer. */
  lemma ScalarRoundTrip(v: Scalar)
    ensures ParseScalar(FormatScalar(v)) == Ok(v) <==> !(v.Text? && Ambiguous(v.s))
  {
    ScalarReads(v);
  }
}
