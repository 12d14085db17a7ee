/** The loader as it works: a scanner with two flags, and a stack that grows and shrinks line by line. */
module YamlLoader {
  import opened Prelude
  import opened YamlScalar
  import opened Yaml

  method StripYamlComment(line: string) returns (r: string)
    ensures r == StripComment(line)
  {
    var quote, escaped := NoQuote, false;
    var index := 0;
    while index < |line|
      invariant 0 <= index <= |line|
      invariant Scan(line, index, quote, escaped) == Scan(line, 0, NoQuote, false)
    {
      var c := line[index];
      if escaped {
        escaped := false;
      } else if quote == In('"') && c == '\\' {
        escaped := true;
      } else if c == '\'' || c == '"' {
        if quote == NoQuote {
          quote := In(c);
        } else if quote == In(c) {
          quote := NoQuote;
        }
      } else if c == '#' && quote == NoQuote && (index == 0 || Space(line[index - 1])) {
        return RStrip(line[..index]);
      }
      index := index + 1;
    }
    assert line[..|line|] == line;
    r := RStrip(line);
  }

  /** Pops the mappings that a line at this indentation cannot belong to. */
  method PopTo(stack: Stack, indent: nat) returns (r: Stack)
    ensures r == Settle(stack, indent)
  {
    r := stack;
    while indent <= TopIndent(r)
      invariant Settle(r, indent) == Settle(stack, indent)
      decreases Depth(r)
    {
      r := Store(r.below, r.key, Nested(r.entries));
    }
  }

  method AddLine(stack: Stack, raw: string) returns (r: Result<Stack, LoadError>)
    ensures r == FeedLine(stack, raw)
  {
    var line := StripYamlComment(raw);
    var content := Strip(line);
    if content == "" {
      return Ok(stack);
    }
    if '\t' in line[..Leading(line, true)] {
      return Err(TabIndent);
    }
    var indent := Leading(line, false);
    if indent % 2 != 0 {
      return Err(OddIndent);
    }
    if |content| >= 2 && content[0] == '-' && content[1] == ' ' {
      return Err(SequenceEntry);
    }
    var colon := FirstColon(content);
    if colon == |content| {
      return Err(NoColon);
    }
    var key, value := Strip(content[..colon]), Strip(content[colon + 1..]);
    if key == "" {
      return Err(EmptyKey);
    }
    r := AddPair(stack, Item(indent, key, value));
  }

  method AddPair(stack: Stack, item: Item) returns (r: Result<Stack, LoadError>)
    ensures r == AddItem(stack, item)
  {
    var parent := PopTo(stack, item.indent);
    var expected := if TopIndent(parent) < 0 then 0 else TopIndent(parent) + 2;
    if item.indent > expected {
      return Err(NoParent);
    }
    if item.value == "" {
      parent := Store(parent, item.key, Nested(Nil));
      return Ok(Push(parent, item.indent, item.key, Nil));
    }
    var v := ParseScalar(item.value);
    if v.Err? {
      return Err(v.error);
    }
    r := Ok(Store(parent, item.key, Leaf(v.value)));
  }

  method LoadYamlMapping(text: string) returns (r: Result<Mapping, LoadError>)
    ensures r == Load(text)
  {
    var lines := Lines(text);
    var stack := Root(Nil);
    assert lines[0..] == lines;
    for i := 0 to |lines|
      invariant Feed(stack, lines[i..]) == Feed(Root(Nil), lines)
    {
      assert lines[i..][1..] == lines[i + 1..];
      var next := AddLine(stack, lines[i]);
      if next.Err? {
        return Err(next.error);
      }
      stack := next.value;
    }
    stack := PopTo(stack, 0);
    r := Ok(stack.entries);
  }
}
