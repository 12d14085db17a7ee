/** Where a line lands: the loader's stack as a path of keys, and a mapping as a tree that paths lead into. */
module YamlPaths {
  import opened Prelude
  import opened YamlScalar
  import opened Yaml
  import opened YamlRoundTrip

  // ---------------------------------------------------------------- paths

  function Lookup(m: Mapping, key: string): Option<Value> {
    match m case Nil => None case Cons(k, v, r) => if k == key then Some(v) else Lookup(r, key)
  }

  /** What stands at a path. */
  function At(m: Mapping, path: seq<string>): Option<Value>
    decreases |path|
  {
    if path == [] then Some(Nested(m)) else
      var v := Lookup(m, path[0]);
      if v.None? || |path| == 1 then v
      else if v.value.Nested? then At(v.value.mapping, path[1..])
      else None
  }

  /** The keys of the open mappings, from the root. */
  function Path(s: Stack): (p: seq<string>)
    ensures |p| == Depth(s)
  {
    if s.Root? then [] else Path(s.below) + [s.key]
  }

  /** The mapping that loading would return now. */
  function Whole(s: Stack): Mapping { Settle(s, 0).entries }

  /** Every open mapping is two columns right of the one it is in. */
  ghost predicate Stair(s: Stack) { s.Push? ==> s.indent == 2 * Depth(s.below) && Stair(s.below) }

  lemma LookupPut(m: Mapping, key: string, v: Value, other: string)
    ensures Lookup(Put(m, key, v), other) == if other == key then Some(v) else Lookup(m, other)
  {
  }

  lemma AtFirst(m: Mapping, key: string, p: seq<string>)
    ensures At(m, [key] + p) ==
            var v := Lookup(m, key);
            if v.None? || p == [] then v else if v.value.Nested? then At(v.value.mapping, p) else None
  {
    assert ([key] + p)[1..] == p;
  }

  // ---------------------------------------------------------------- closing mappings

  lemma {:induction false} SettleStair(s: Stack, n: nat)
    requires Stair(s)
    ensures var p := Settle(s, 2 * n);
            && Stair(p) && Whole(p) == Whole(s)
            && Path(p) == if n < Depth(s) then Path(s)[..n] else Path(s)
    decreases Depth(s)
  {
    if s.Push? && 2 * n <= s.indent {
      var t := Store(s.below, s.key, Nested(s.entries));
      assert Path(t) == Path(s.below);
      SettleStair(t, n);
    }
    SettleTwice(s, 0, 2 * n);
  }

  lemma {:induction false} WholeAt(s: Stack, p: seq<string>)
    requires Stair(s)
    ensures At(Whole(s), Path(s) + p) == At(s.entries, p)
    decreases Depth(s)
  {
    if s.Root? {
      assert Path(s) + p == p;
    } else {
      var t := Store(s.below, s.key, Nested(s.entries));
      assert Path(t) == Path(s.below);
      WholeAt(t, [s.key] + p);
      assert Path(s) + p == Path(t) + ([s.key] + p);
      AtFirst(t.entries, s.key, p);
      LookupPut(s.below.entries, s.key, Nested(s.entries), s.key);
    }
  }

  ghost predicate Apart(p: seq<string>, q: seq<string>) { !(p <= q) && !(q <= p) }

  lemma ApartBelow(path: seq<string>, key: string, q: seq<string>)
    requires path <= q
    ensures Apart(path + [key], q) <==> |q| > |path| && q[|path|] != key
  {
    var t := path + [key];
    assert q[..|path|] == path && t[..|path|] == path;
    if |q| > |path| {
      assert q[..|path| + 1] == path + [q[|path|]];
      assert t <= q <==> q[|path|] == key;
    } else {
      assert q == path;
    }
  }

  /** Changing the mapping on top changes nothing away from its path. */
  lemma {:induction false} OthersStay(s: Stack, es: Mapping, q: seq<string>)
    requires Stair(s) && Apart(Path(s), q)
    ensures At(Whole(s.(entries := es)), q) == At(Whole(s), q)
    decreases Depth(s)
  {
    var t, t' := Store(s.below, s.key, Nested(s.entries)), Store(s.below, s.key, Nested(es));
    var path := Path(s.below);
    assert Path(t) == path && Path(t') == path && Path(s) == path + [s.key];
    if path <= q {
      var p := q[|path|..];
      ApartBelow(path, s.key, q);
      assert q == path + p && p != [] && p[0] != s.key;
      WholeAt(t, p);
      WholeAt(t', p);
      LookupPut(s.below.entries, s.key, Nested(s.entries), p[0]);
      LookupPut(s.below.entries, s.key, Nested(es), p[0]);
    } else {
      assert !(q <= path);
      OthersStay(t, t'.entries, q);
    }
  }

  // ---------------------------------------------------------------- one entry

  /** After setting a key of the mapping on top, the value is at its path, and nothing changes away from there. */
  lemma StoreLands(s: Stack, key: string, v: Value)
    requires Stair(s)
    ensures Stair(Store(s, key, v)) && Path(Store(s, key, v)) == Path(s)
    ensures At(Whole(Store(s, key, v)), Path(s) + [key]) == Some(v)
    ensures forall q :: Apart(Path(s) + [key], q) ==> At(Whole(Store(s, key, v)), q) == At(Whole(s), q)
  {
    var r := Store(s, key, v);
    assert Path(r) == Path(s);
    WholeAt(r, [key]);
    LookupPut(s.entries, key, v, key);
    forall q | Apart(Path(s) + [key], q) ensures At(Whole(r), q) == At(Whole(s), q) {
      if Path(s) <= q {
        var p := q[|Path(s)|..];
        ApartBelow(Path(s), key, q);
        assert q == Path(s) + p && p != [] && p[0] != key;
        WholeAt(r, p);
        WholeAt(s, p);
        LookupPut(s.entries, key, v, p[0]);
      } else {
        assert !(q <= Path(s));
        OthersStay(s, r.entries, q);
      }
    }
  }

  /** A mapping that was just opened is empty, and is part of the whole already. */
  lemma OpenLands(s: Stack, key: string)
    requires Stair(s)
    ensures var r := Push(Store(s, key, Nested(Nil)), 2 * Depth(s), key, Nil);
            Stair(r) && Path(r) == Path(s) + [key] && Whole(r) == Whole(Store(s, key, Nested(Nil)))
  {
    var t := Store(s, key, Nested(Nil));
    StoreLands(s, key, Nested(Nil));
    PutTwice(s.entries, key, Nested(Nil), Nested(Nil));
  }

  lemma {:induction false} DecodeFails(s: string)
    ensures Decode(s).Err? ==> Decode(s).error == OtherEscape
    decreases |s|
  {
    if s != [] {
      DecodeFails(s[1..]);
      if |s| > 1 {
        DecodeFails(s[2..]);
      }
    }
  }

  /** What the value text of a line stands for. */
  function Meant(value: string): Result<Value, LoadError> {
    if value == "" then Ok(Nested(Nil)) else
      var v := ParseScalar(value);
      if v.Ok? then Ok(Leaf(v.value)) else Err(v.error)
  }

  /** The entry of a line goes under the first `n` open keys, where `n` is half its indentation; it is refused exactly
      when there are fewer, or its value cannot be read. */
  ghost predicate Lands(s: Stack, item: Item, r: Result<Stack, LoadError>) {
    var n, v := item.indent / 2, Meant(item.value);
    && (r.Ok? <==> n <= |Path(s)| && v.Ok?)
    && (r == Err(NoParent) <==> n > |Path(s)|)
    && (n <= |Path(s)| && v.Ok? ==>
          var target := Path(s)[..n] + [item.key];
          && Path(r.value) == (if item.value == "" then target else Path(s)[..n])
          && At(Whole(r.value), target) == Some(v.value)
          && forall q :: Apart(target, q) ==> At(Whole(r.value), q) == At(Whole(s), q))
  }

  /** The result for an entry whose mapping is on top. */
  lemma EntryLands(s: Stack, key: string, value: string, v: Value)
    requires Stair(s) && Meant(value) == Ok(v)
    ensures var stored := Store(s, key, v);
            var r := if value == "" then Push(stored, 2 * Depth(s), key, Nil) else stored;
            && Stair(r) && Path(r) == (if value == "" then Path(s) + [key] else Path(s))
            && At(Whole(r), Path(s) + [key]) == Some(v)
            && forall q :: Apart(Path(s) + [key], q) ==> At(Whole(r), q) == At(Whole(s), q)
  {
    StoreLands(s, key, v);
    OpenLands(s, key);
  }

  lemma AddUnfolds(s: Stack, item: Item, parent: Stack)
    requires parent == Settle(s, item.indent) && TopIndent(parent) == 2 * Depth(parent) - 2
    ensures AddItem(s, item) ==
            if item.indent > 2 * Depth(parent) then Err(NoParent)
            else if Meant(item.value).Err? then Err(Meant(item.value).error)
            else
              var stored := Store(parent, item.key, Meant(item.value).value);
              Ok(if item.value == "" then Push(stored, item.indent, item.key, Nil) else stored)
  {
  }

  lemma SettledParent(s: Stack, indent: nat)
    requires Stair(s) && indent % 2 == 0
    ensures var n, parent := indent / 2, Settle(s, indent);
            && Stair(parent) && Whole(parent) == Whole(s) && TopIndent(parent) == 2 * Depth(parent) - 2
            && (n <= |Path(s)| ==> Path(parent) == Path(s)[..n] && Depth(parent) == n)
            && (n > |Path(s)| ==> Depth(parent) == |Path(s)|)
  {
    SettleStair(s, indent / 2);
  }

  lemma AddLands(s: Stack, item: Item)
    requires Stair(s) && item.indent % 2 == 0
    ensures Lands(s, item, AddItem(s, item)) && (AddItem(s, item).Ok? ==> Stair(AddItem(s, item).value))
  {
    var n, v, parent := item.indent / 2, Meant(item.value), Settle(s, item.indent);
    SettledParent(s, item.indent);
    AddUnfolds(s, item, parent);
    DecodeFails(Middle(Strip(item.value)));
    if n <= |Path(s)| && v.Ok? {
      EntryLands(parent, item.key, item.value, v.value);
    }
  }

  // ---------------------------------------------------------------- every state of the loader

  lemma {:induction false} FeedKeepsStair(s: Stack, lines: seq<string>)
    requires Stair(s)
    ensures Feed(s, lines).Ok? ==> Stair(Feed(s, lines).value)
    decreases |lines|
  {
    if lines != [] {
      var item := ReadLine(lines[0]);
      if item.Ok? && item.value.Some? {
        AddLands(s, item.value.value);
      }
      if FeedLine(s, lines[0]).Ok? {
        FeedKeepsStair(FeedLine(s, lines[0]).value, lines[1..]);
      }
    }
  }

  /** Behind any lines that load, the entry of the next line lands at its path. */
  lemma LineLands(lines: seq<string>, raw: string)
    requires Feed(Root(Nil), lines).Ok? && ReadLine(raw).Ok? && ReadLine(raw).value.Some?
    ensures var s := Feed(Root(Nil), lines).value; Lands(s, ReadLine(raw).value.value, FeedLine(s, raw))
  {
    FeedKeepsStair(Root(Nil), lines);
    AddLands(Feed(Root(Nil), lines).value, ReadLine(raw).value.value);
  }
}
