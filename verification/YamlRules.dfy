/** The rules for one line and for one scalar, in terms of their characters. */
module YamlRules {
  import opened Prelude
  import opened YamlScalar
  import opened Yaml
  import opened YamlRoundTrip
  import opened Decimals

  // ---------------------------------------------------------------- comments

  predicate Unquoted(s: string) { forall i :: 0 <= i < |s| ==> s[i] != '\'' && s[i] != '"' }

  /** A hash at the beginning of the line or behind a blank. */
  predicate Begins(line: string, k: nat) {
    k < |line| && line[k] == '#' && (k == 0 || Space(line[k - 1]))
  }

  lemma {:induction false} ScanTo(line: string, i: nat, k: nat)
    requires i <= k <= |line| && Unquoted(line)
    requires (forall j :: i <= j < k ==> !Begins(line, j)) && (k < |line| ==> Begins(line, k))
    ensures Scan(line, i, NoQuote, false) == k
    decreases k - i
  {
    if i < k {
      assert !Begins(line, i);
      ScanTo(line, i + 1, k);
    }
  }

  /** Without quotes, a line is cut at the first hash that begins it or follows a blank, and nowhere else. */
  lemma CommentCut(line: string, k: nat)
    requires k <= |line| && Unquoted(line)
    requires (forall j :: 0 <= j < k ==> !Begins(line, j)) && (k < |line| ==> Begins(line, k))
    ensures StripComment(line) == RStrip(line[..k])
  {
    ScanTo(line, 0, k);
  }

  /** The scanner leaves a text in single quotes at the closing quote. */
  lemma {:induction false} ScanSingle(line: string, i: nat, s: string)
    requires i <= |line| && line[i..] == s + ['\''] && Unquoted(s)
    ensures Scan(line, i, In('\''), false) == |line|
    decreases |s|
  {
    var tail := line[i..];
    assert line[i] == tail[0] && |tail| == |line| - i;
    if s != [] {
      assert line[i + 1..] == tail[1..] == s[1..] + ['\''];
      ScanSingle(line, i + 1, s[1..]);
    }
  }

  // ---------------------------------------------------------------- lines

  predicate Calm(s: string) { forall i :: 0 <= i < |s| ==> Inert(s[i]) }

  predicate Blank(s: string) { forall i :: 0 <= i < |s| ==> Space(s[i]) }

  predicate Trimmed(s: string) { s == "" || Clean(s) }

  lemma {:induction false} LStripBlank(b: string, s: string)
    requires Blank(b) && (s != "" ==> !Space(s[0]))
    ensures LStrip(b + s) == s
  {
    if b == "" {
      assert b + s == s;
    } else {
      assert (b + s)[1..] == b[1..] + s;
      LStripBlank(b[1..], s);
    }
  }

  lemma {:induction false} RStripBlank(s: string, b: string)
    requires Blank(b) && (s != "" ==> !Space(s[|s| - 1]))
    ensures RStrip(s + b) == s
    decreases |b|
  {
    if b == "" {
      assert s + b == s;
    } else {
      assert (s + b)[..|s + b| - 1] == s + b[..|b| - 1];
      RStripBlank(s, b[..|b| - 1]);
    }
  }

  /** Stripping removes exactly the blanks around a text. */
  lemma StripBlanks(a: string, s: string, b: string)
    requires Blank(a) && Blank(b) && Trimmed(s)
    ensures Strip(a + s + b) == s
  {
    if s == "" {
      assert a + s + b == "" + (a + b);
      RStripBlank("", a + b);
    } else {
      assert (a + s)[|a + s| - 1] == s[|s| - 1];
      RStripBlank(a + s, b);
      LStripBlank(a, s);
    }
  }

  lemma CalmLine(line: string)
    requires Calm(line)
    ensures StripComment(line) == RStrip(line)
  {
    assert forall j :: 0 <= j < |line| ==> Inert(line[j]);
    CommentCut(line, |line|);
    assert line[..|line|] == line;
  }

  lemma BlankLines(line: string)
    requires Blank(line) && Calm(line)
    ensures ReadLine(line) == Ok(None)
  {
    CalmLine(line);
    assert "" + line == line;
    RStripBlank("", line);
  }

  /** A comment line says nothing. */
  lemma CommentLines(b: string, text: string)
    requires Blank(b) && Calm(b) && Unquoted(text)
    ensures ReadLine(b + ("#" + text)) == Ok(None)
  {
    var line := b + ("#" + text);
    assert forall j :: 0 <= j < |b| ==> line[j] == b[j] && Inert(b[j]);
    assert line[|b|] == '#' && (b != "" ==> line[|b| - 1] == b[|b| - 1]);
    assert Unquoted(line) by {
      assert forall i :: 0 <= i < |line| ==> line[i] == if i < |b| then b[i] else ("#" + text)[i - |b|];
    }
    CommentCut(line, |b|);
    assert line[..|b|] == b && "" + b == b;
    RStripBlank("", b);
  }

  /** Stripping a line of indentation, content and trailing blanks. */
  lemma LineParts(n: nat, content: string, b: string)
    requires Clean(content) && Calm(content) && Blank(b) && Calm(b)
    ensures var line := StripComment(Spaces(n) + content + b);
            && line == Spaces(n) + content && Strip(line) == content
            && Leading(line, false) == n && Leading(line, true) == n && line[..n] == Spaces(n)
  {
    var raw := Spaces(n) + content + b;
    assert Calm(raw) by {
      assert forall i :: 0 <= i < |raw| ==>
        raw[i] == if i < n then ' ' else if i < n + |content| then content[i - n] else b[i - n - |content|];
    }
    CalmLine(raw);
    assert (Spaces(n) + content)[n + |content| - 1] == content[|content| - 1];
    RStripBlank(Spaces(n) + content, b);
    assert Spaces(n) + content + "" == Spaces(n) + content;
    StripBlanks(Spaces(n), content, "");
    LeadingSpaces(n, content, false);
    LeadingSpaces(n, content, true);
  }

  /** A tab in the indentation is refused before anything else. */
  lemma TabRefused(n: nat, b: string, content: string)
    requires Clean(content) && Calm(content) && Blank(b) && Calm(b) && b != "" && b[0] == '\t'
    ensures ReadLine(Spaces(n) + (b + content)) == Err(TabIndent)
  {
    var line := Spaces(n) + (b + content);
    assert forall i :: 0 <= i < |line| ==>
      line[i] == if i < n then ' ' else if i < n + |b| then b[i - n] else content[i - n - |b|];
    CalmLine(line);
    assert line + "" == line && line[|line| - 1] == content[|content| - 1];
    RStripBlank(line, "");
    assert line == (Spaces(n) + b) + content + "";
    StripBlanks(Spaces(n) + b, content, "");
    var k := Leading(line, true);
    assert forall i :: 0 <= i <= n ==> line[i] == ' ' || line[i] == '\t';
    assert line[..k][n] == '\t';
  }

  /** The odd indentation comes next, whatever the content. */
  lemma OddRefused(n: nat, content: string, b: string)
    requires Clean(content) && Calm(content) && Blank(b) && Calm(b) && n % 2 == 1
    ensures ReadLine(Spaces(n) + content + b) == Err(OddIndent)
  {
    LineParts(n, content, b);
  }

  lemma EvenRead(n: nat, content: string, b: string)
    requires Clean(content) && Calm(content) && Blank(b) && Calm(b) && n % 2 == 0
    ensures ReadLine(Spaces(n) + content + b) == ReadContent(content, n)
  {
    LineParts(n, content, b);
  }

  predicate Dashed(content: string) { |content| >= 2 && content[..2] == "- " }

  /** A line of a list is refused, and then a line without a colon. */
  lemma ContentRefused(n: nat, content: string, b: string)
    requires Clean(content) && Calm(content) && Blank(b) && Calm(b) && n % 2 == 0
    ensures ReadLine(Spaces(n) + content + b) == Err(SequenceEntry) <==> Dashed(content)
    ensures ReadLine(Spaces(n) + content + b) == Err(NoColon) <==> !Dashed(content) && ':' !in content
  {
    EvenRead(n, content, b);
    assert Dashed(content) ==> content[0] == content[..2][0] && content[1] == content[..2][1];
    var colon := FirstColon(content);
    assert colon == |content| <==> ':' !in content;
  }

  /** The content is cut at its first colon. */
  lemma ColonCuts(before: string, after: string)
    requires ':' !in before
    ensures var content := before + (":" + after);
            && FirstColon(content) == |before| && content[..|before|] == before && content[|before| + 1..] == after
            && (|content| >= 2 && content[0] == '-' && content[1] == ' ' <==> Dashed(before))
  {
    var content := before + (":" + after);
    assert forall i :: 0 <= i < |before| ==> content[i] == before[i];
    assert content[|before|] == ':';
    if |before| >= 2 {
      assert before[..2] == [content[0], content[1]];
    }
  }

  lemma ContentPair(n: nat, before: string, after: string)
    requires ':' !in before && !Dashed(before)
    ensures ReadContent(before + (":" + after), n) ==
            if Strip(before) == "" then Err(EmptyKey) else Ok(Some(Item(n, Strip(before), Strip(after))))
  {
    ColonCuts(before, after);
  }

  /** Key and value with blanks around them. */
  function PairText(key: string, b1: string, b2: string, value: string): string { (key + b1) + (":" + (b2 + value)) }

  /** Otherwise the text before the first colon is the key, which may not be empty, and the rest is the value, both
      without the blanks around them. */
  lemma PairRead(n: nat, key: string, b1: string, b2: string, value: string, b3: string)
    requires Calm(key) && Calm(b1) && Calm(b2) && Calm(value) && Calm(b3)
    requires Blank(b1) && Blank(b2) && Blank(b3) && Trimmed(key) && Trimmed(value) && ':' !in key
    requires (key == "" ==> b1 == "") && (value == "" ==> b2 == "") && n % 2 == 0
    requires !Dashed(key + b1)
    ensures ReadLine(Spaces(n) + PairText(key, b1, b2, value) + b3) ==
            if key == "" then Err(EmptyKey) else Ok(Some(Item(n, key, value)))
  {
    PairIsClean(key, b1, b2, value);
    EvenRead(n, PairText(key, b1, b2, value), b3);
    assert ':' !in key + b1;
    ContentPair(n, key + b1, b2 + value);
    PartsStrip(key, b1, b2, value);
  }

  lemma PartsStrip(key: string, b1: string, b2: string, value: string)
    requires Blank(b1) && Blank(b2) && Trimmed(key) && Trimmed(value)
    ensures Strip(key + b1) == key && Strip(b2 + value) == value
  {
    assert "" + key + b1 == key + b1 && b2 + value + "" == b2 + value;
    StripBlanks("", key, b1);
    StripBlanks(b2, value, "");
  }

  lemma CalmJoins(a: string, b: string)
    requires Calm(a) && Calm(b)
    ensures Calm(a + b)
  {
  }

  lemma PairIsClean(key: string, b1: string, b2: string, value: string)
    requires Calm(key) && Calm(b1) && Calm(b2) && Calm(value) && Trimmed(key) && Trimmed(value)
    requires (key == "" ==> b1 == "") && (value == "" ==> b2 == "")
    ensures Clean(PairText(key, b1, b2, value)) && Calm(PairText(key, b1, b2, value))
  {
    var content := PairText(key, b1, b2, value);
    assert content[0] == if key == "" then ':' else key[0];
    assert content[|content| - 1] == if value == "" then ':' else value[|value| - 1];
    CalmJoins(key, b1);
    CalmJoins(b2, value);
    CalmJoins(":", b2 + value);
    CalmJoins(key + b1, ":" + (b2 + value));
  }

  // ---------------------------------------------------------------- scalars

  /** A text is written as it is exactly when it is made of letters, digits and five other characters. */
  lemma WrittenPlainly(s: string)
    ensures FormatScalar(Text(s)) == s <==>
              s != "" && forall i :: 0 <= i < |s| ==>
                'a' <= s[i] <= 'z' || 'A' <= s[i] <= 'Z' || '0' <= s[i] <= '9' || s[i] in ".-_/:"
  {
    assert forall c: char :: c in ".-_/:" <==> c in {'.', '-', '_', '/', ':'};
    if !Bare(s) {
      TwoReplacements(s);
      EscapeIsLong(s);
      assert |FormatScalar(Text(s))| > |s|;
    }
  }

  lemma {:induction false} EscapeIsLong(s: string)
    ensures |Escape(s)| >= |s|
  {
    if s != [] {
      EscapeIsLong(s[1..]);
    }
  }

  lemma {:induction false} SingleQuotesRead(s: string)
    ensures SingleQuotes(Replace(s, '\'', "''")) == s
  {
    if s != [] {
      SingleQuotesRead(s[1..]);
      var t := Replace(s[1..], '\'', "''");
      var u := Replace(s, '\'', "''");
      if s[0] == '\'' {
        assert u[0] == '\'' && u[1] == '\'' && u[2..] == t;
      } else {
        assert u[0] == s[0] && u[1..] == t;
      }
      assert s == [s[0]] + s[1..];
    }
  }

  /** Any text can be written in single quotes with its own doubled. */
  lemma SingleQuotedReads(s: string)
    ensures ParseScalar("'" + Replace(s, '\'', "''") + "'") == Ok(Text(s))
  {
    var q := "'" + Replace(s, '\'', "''") + "'";
    CleanStays(q);
    NotAWord(q);
    assert Middle(q) == Replace(s, '\'', "''");
    SingleQuotesRead(s);
  }

  lemma BareWord(s: string)
    requires s != "" && !Space(s[0]) && !Space(s[|s| - 1]) && s[0] != '"' && s[0] != '\''
    ensures ParseScalar(s) == Ok(if ReadWord(LowerText(s)).Some? then ReadWord(LowerText(s)).value else ReadPlain(s))
  {
    CleanStays(s);
  }

  /** The word in lower case letters, upper case letters or both. */
  predicate Spells(s: string, word: string) {
    |s| == |word| && forall i :: 0 <= i < |s| ==> s[i] == word[i] || s[i] as int + 32 == word[i] as int
  }

  lemma LowerSpells(s: string, word: string)
    requires forall i :: 0 <= i < |word| ==> 'a' <= word[i] <= 'z'
    ensures LowerText(s) == word <==> Spells(s, word)
  {
    if |s| == |word| {
      assert forall i :: 0 <= i < |s| ==> (Lower(s[i]) == word[i] <==> s[i] == word[i] || s[i] as int + 32 == word[i] as int);
    }
  }

  lemma TildeIsLower(s: string)
    ensures LowerText(s) == "~" <==> s == "~"
  {
    if |s| == 1 {
      assert LowerText(s)[0] == Lower(s[0]);
      assert s == [s[0]];
    }
  }

  /** Exactly these texts, in any case, are read as keywords. */
  lemma KeywordsExactly(s: string)
    requires Clean(s)
    ensures ParseScalar(s) == Ok(Bool(true)) <==> Spells(s, "true")
    ensures ParseScalar(s) == Ok(Bool(false)) <==> Spells(s, "false")
    ensures ParseScalar(s) == Ok(Null) <==> Spells(s, "null") || s == "~"
  {
    CleanStays(s);
    LowerSpells(s, "true");
    LowerSpells(s, "false");
    LowerSpells(s, "null");
    TildeIsLower(s);
  }

  /** A plus sign or a leading zero makes a text of a number. */
  lemma NumbersAsTexts(s: string)
    requires s != "" && (s[0] == '+' || s[0] == '0') && s != "0" && !Space(s[|s| - 1])
    ensures ParseScalar(s) == Ok(Text(s))
  {
    assert LowerText(s)[0] == s[0];
    BareWord(s);
  }

  predicate AllDigits(s: string) { s != "" && forall i :: 0 <= i < |s| ==> IsDigit(s[i]) }

  lemma GroupedDigits(d: string, e: string)
    requires AllDigits(d) && AllDigits(e)
    ensures Grouped(d + (['_'] + e))
  {
    var t := d + (['_'] + e);
    assert forall i :: 0 <= i < |t| ==> t[i] == if i < |d| then d[i] else if i == |d| then '_' else e[i - |d| - 1];
  }

  lemma DroppedDigits(d: string, e: string)
    requires AllDigits(d) && AllDigits(e)
    ensures DropUnderscores(d + (['_'] + e)) == d + e
  {
    ReplaceJoin(d, ['_'] + e, '_', []);
    ReplaceJoin(['_'], e, '_', []);
    NothingToReplace(d, '_', []);
    NothingToReplace(e, '_', []);
    assert Replace(['_'], '_', []) == [];
    assert [] + e == e;
  }

  /** Digits may be grouped by an underscore, behind a minus sign too. */
  lemma GroupedRead(d: string, e: string, t: string)
    requires AllDigits(d) && AllDigits(e) && d[0] != '0' && t == d + (['_'] + e)
    ensures ParseScalar(t) == Ok(Int(Decimals.Value(d + e)))
    ensures ParseScalar(['-'] + t) == Ok(Int(-Decimals.Value(d + e)))
  {
    GroupedDigits(d, e);
    DroppedDigits(d, e);
    assert t[0] == d[0];
    DigitsRead(t, Decimals.Value(d + e));
  }

  lemma PlainDigits(t: string, n: int)
    requires Grouped(t) && t[0] != '0' && Decimals.Value(DropUnderscores(t)) == n
    ensures ReadPlain(t) == Int(n)
  {
    assert ParseInt(t) == Some(n);
  }

  lemma PlainMinus(t: string, n: int)
    requires Grouped(t) && Decimals.Value(DropUnderscores(t)) == n
    ensures ReadPlain(['-'] + t) == Int(-n)
  {
    assert (['-'] + t)[1..] == t;
    assert ParseInt(['-'] + t) == Some(-n);
  }

  lemma BareNumber(s: string, n: int)
    requires s != "" && (IsDigit(s[0]) || s[0] == '-') && IsDigit(s[|s| - 1]) && ReadPlain(s) == Int(n)
    ensures ParseScalar(s) == Ok(Int(n))
  {
    assert LowerText(s)[0] == s[0];
    BareWord(s);
  }

  lemma DigitsRead(t: string, n: int)
    requires Grouped(t) && t[0] != '0' && Decimals.Value(DropUnderscores(t)) == n
    ensures ParseScalar(t) == Ok(Int(n)) && ParseScalar(['-'] + t) == Ok(Int(-n))
  {
    PlainDigits(t, n);
    BareNumber(t, n);
    PlainMinus(t, n);
    var m := ['-'] + t;
    assert m[0] == '-' && m[|m| - 1] == t[|t| - 1];
    BareNumber(m, -n);
  }
}
