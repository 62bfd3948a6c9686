/** What holds of the templates the contract validator accepts, and of what rendering makes of them. */
module TemplateGuarantees {
  import opened Common
  import opened JsonValues
  import opened TemplateGrammar
  import opened CompensationTemplate

  // ---- The validator

  /** Every token is well formed, and there are as many openings as tokens. */
  predicate ValidString(s: string) {
    && (forall t :: t in Tokens(s, 0) ==> PathMatches(Body(s, t)))
    && Count(s, 0) == |Tokens(s, 0)|
  }

  /** The string leaves of a value, in the order in which they are rendered. */
  function Leaves(v: Json): seq<string>
    decreases v
  {
    match v
    case Str(s) => [s]
    case Arr(items) => ItemLeaves(items)
    case Obj(entries) => EntryLeaves(entries)
    case _ => []
  }

  function ItemLeaves(items: seq<Json>): seq<string>
    decreases items
  {
    if items == [] then [] else Leaves(items[0]) + ItemLeaves(items[1..])
  }

  function LeavesOfEntry(entry: (string, Json)): seq<string>
    decreases entry
  {
    Leaves(entry.1)
  }

  function EntryLeaves(entries: seq<(string, Json)>): seq<string>
    decreases entries
  {
    if entries == [] then [] else LeavesOfEntry(entries[0]) + EntryLeaves(entries[1..])
  }

  predicate ValidTemplate(v: Json) {
    forall s :: s in Leaves(v) ==> ValidString(s)
  }

  /** Scanning for tokens misses none: tokens cannot overlap. */
  lemma {:induction false} EveryTokenIsListed(s: string, i: nat, k: nat)
    requires i <= k < |s| && TokenAt(s, k).Some?
    ensures Token(k, TokenAt(s, k).value) in Tokens(s, i)
    decreases |s| - i
  {
    if i < k {
      var end := TokenAt(s, i);
      if end.Some? {
        assert OpensAt(s, k) && s[k] == '$' && s[k + 1] == '{';
        EveryTokenIsListed(s, end.value, k);
      } else {
        EveryTokenIsListed(s, i + 1, k);
      }
    }
  }

  /** A string is accepted exactly when every "${" in it opens a token with an accepted path. */
  lemma ValidIffEveryOpeningIsGood(s: string)
    ensures ValidString(s) <==> forall k: nat :: k <= |s| && "${" <= s[k..] ==>
      TokenAt(s, k).Some? && PathMatches(Body(s, Token(k, TokenAt(s, k).value)))
  {
    forall k: nat | k <= |s| ensures OpensAt(s, k) <==> "${" <= s[k..] {
      if "${" <= s[k..] { assert s[k] == s[k..][0] && s[k + 1] == s[k..][1]; }
    }
    BalancedIffEveryOpeningIsAToken(s, 0);
    forall k: nat | TokenAt(s, k).Some? ensures Token(k, TokenAt(s, k).value) in Tokens(s, 0) {
      EveryTokenIsListed(s, 0, k);
    }
  }

  // ---- When rendering fails, and as what

  /** Token `k` fails so, and no token before it fails. */
  ghost predicate FailsFirst(s: string, tokens: seq<Token>, output: Option<Json>, k: nat, f: Failure)
    requires forall t :: t in tokens ==> TokenAt(s, t.start) == Some(t.end)
  {
    && k < |tokens| && TokenValue(output, Body(s, tokens[k])) == Err(f)
    && forall j :: 0 <= j < k ==> TokenValue(output, Body(s, tokens[j])).Ok?
  }

  /** Rendering a string succeeds when all its tokens resolve; otherwise it fails as its first bad token does. */
  lemma StringFailsAtFirstBadToken(s: string, output: Option<Json>)
    ensures StringRendered(s, output).Ok? <==> forall t :: t in Tokens(s, 0) ==> TokenValue(output, Body(s, t)).Ok?
    ensures StringRendered(s, output).Err? ==>
      exists k: nat :: FailsFirst(s, Tokens(s, 0), output, k, StringRendered(s, output).failure)
  {
    var tokens := Tokens(s, 0);
    TokensAreOrdered(s, 0, 0);
    SpliceFailsAtFirstBadToken(s, 0, tokens, output);
    if tokens == [Token(0, |s|)] {
      assert tokens[0] in tokens;
      var v := TokenValue(output, Body(s, tokens[0]));
      if v.Err? { assert FailsFirst(s, tokens, output, 0, v.failure); }
    }
  }

  lemma {:induction false} SpliceFailsAtFirstBadToken(s: string, cursor: nat, tokens: seq<Token>, output: Option<Json>)
    requires Ordered(s, cursor, tokens)
    requires forall t :: t in tokens ==> TokenAt(s, t.start) == Some(t.end)
    ensures Spliced(s, cursor, tokens, output).Ok? <==> forall t :: t in tokens ==> TokenValue(output, Body(s, t)).Ok?
    ensures Spliced(s, cursor, tokens, output).Err? ==>
      exists k: nat :: FailsFirst(s, tokens, output, k, Spliced(s, cursor, tokens, output).failure)
    decreases |tokens|
  {
    hide TokenValue, TokenAt;
    if tokens != [] {
      var rest := tokens[1..];
      SpliceFailsAtFirstBadToken(s, tokens[0].end, rest, output);
      assert tokens == [tokens[0]] + rest;
      var v := TokenValue(output, Body(s, tokens[0]));
      if v.Err? {
        assert FailsFirst(s, tokens, output, 0, v.failure);
      } else if Spliced(s, cursor, tokens, output).Err? {
        var f := Spliced(s, tokens[0].end, rest, output).failure;
        var k: nat :| FailsFirst(s, rest, output, k, f);
        assert forall j :: 0 < j < |tokens| ==> tokens[j] == rest[j - 1];
        assert FailsFirst(s, tokens, output, k + 1, f);
      }
    }
  }

  lemma {:induction false} WalkIsNeverMalformed(node: Json, segs: seq<Segment>)
    requires AllWellFormed(segs)
    ensures Walk(node, segs).Err? ==> !Walk(node, segs).failure.Malformed?
    decreases |segs|
  {
    if segs != [] {
      var next := Step(node, segs[0]);
      if next.Ok? { WalkIsNeverMalformed(next.value, segs[1..]); }
    }
  }

  /**
   The validator accepts a path with a newline behind it, the renderer does not: against a usable
   output an accepted token fails as malformed exactly when its body ends in a newline.
   */
  lemma MalformedIffNewline(output: Option<Json>, body: string)
    requires PathMatches(body)
    ensures (exists path :: TokenValue(output, body) == Err(Malformed(path))) <==>
      CheckOutputUsable(output).Ok? && EndsInNewline(body)
  {
    AcceptedIsPathUnlessNewline(body);
    var segs := Scan(body[|ROOT|..], 0);
    if CheckOutputUsable(output).Ok? {
      if segs.Some? {
        ScanIsSound(body[|ROOT|..], 0);
        WalkIsNeverMalformed(CheckOutputUsable(output).value, segs.value);
      } else {
        assert TokenValue(output, body) == Err(Malformed(body));
      }
    }
  }

  predicate NoNewlineTokens(s: string) {
    forall t :: t in Tokens(s, 0) ==> !EndsInNewline(Body(s, t))
  }

  lemma {:induction false} RenderFailsAtALeaf(v: Json, output: Option<Json>)
    ensures RenderValue(v, output).Ok? <==> forall s :: s in Leaves(v) ==> StringRendered(s, output).Ok?
    ensures RenderValue(v, output).Err? ==> exists s :: s in Leaves(v) && StringRendered(s, output) == RenderValue(v, output)
    decreases v
  {
    match v
    case Str(s) => assert s in Leaves(v);
    case Arr(items) => ItemsFailAtALeaf(items, output);
    case Obj(entries) => EntriesFailAtALeaf(entries, output);
    case _ =>
  }

  lemma {:induction false} ItemsFailAtALeaf(items: seq<Json>, output: Option<Json>)
    ensures var r := RenderItems(items, output);
            && (r.Ok? <==> forall s :: s in ItemLeaves(items) ==> StringRendered(s, output).Ok?)
            && (r.Err? ==> exists s :: s in ItemLeaves(items) && StringRendered(s, output) == Err(r.failure))
    decreases items
  {
    if items != [] {
      RenderFailsAtALeaf(items[0], output);
      ItemsFailAtALeaf(items[1..], output);
    }
  }

  lemma {:induction false} EntryFailsAtALeaf(entry: (string, Json), output: Option<Json>)
    ensures var r := RenderEntry(entry, output);
            && (r.Ok? <==> forall s :: s in LeavesOfEntry(entry) ==> StringRendered(s, output).Ok?)
            && (r.Err? ==> exists s :: s in LeavesOfEntry(entry) && StringRendered(s, output) == Err(r.failure))
    decreases entry
  {
    RenderFailsAtALeaf(entry.1, output);
  }

  lemma {:induction false} EntriesFailAtALeaf(entries: seq<(string, Json)>, output: Option<Json>)
    ensures var r := RenderEntries(entries, output);
            && (r.Ok? <==> forall s :: s in EntryLeaves(entries) ==> StringRendered(s, output).Ok?)
            && (r.Err? ==> exists s :: s in EntryLeaves(entries) && StringRendered(s, output) == Err(r.failure))
    decreases entries
  {
    if entries != [] {
      EntryFailsAtALeaf(entries[0], output);
      EntriesFailAtALeaf(entries[1..], output);
    }
  }

  /** An accepted template without newline-terminated tokens never fails as malformed, only on lookup. */
  lemma AcceptedNeverMalformed(v: Json, output: Option<Json>)
    requires ValidTemplate(v) && forall s :: s in Leaves(v) ==> NoNewlineTokens(s)
    ensures RenderValue(v, output).Err? ==> !RenderValue(v, output).failure.Malformed?
  {
    RenderFailsAtALeaf(v, output);
    if RenderValue(v, output).Err? {
      var s :| s in Leaves(v) && StringRendered(s, output) == RenderValue(v, output);
      StringFailsAtFirstBadToken(s, output);
      var k: nat :| FailsFirst(s, Tokens(s, 0), output, k, StringRendered(s, output).failure);
      assert Tokens(s, 0)[k] in Tokens(s, 0);
      MalformedIffNewline(output, Body(s, Tokens(s, 0)[k]));
    }
  }

  /** The template "${output\n}" is accepted, and fails as malformed against every usable output. */
  lemma AcceptedYetMalformed(output: Option<Json>)
    requires CheckOutputUsable(output).Ok?
    ensures var s := "${output\n}";
            ValidString(s) && StringRendered(s, output) == Err(Malformed("output\n"))
  {
    var s := "${output\n}";
    var body := "output\n";
    assert IsPath("output") by { assert "output"[|ROOT|..] == ""; }
    assert body[..|body| - 1] == "output";
    AcceptedIsPathUnlessNewline(body);
    assert |s| == 10;
    RunEnds(s, 2, IsPlain, 9);
    assert TokenAt(s, 0) == Some(10);
    assert Tokens(s, 0) == [Token(0, 10)] + Tokens(s, 10);
    assert Body(s, Token(0, 10)) == body;
    NoOpening(s, 1, |s|);
    assert Scan(body[|ROOT|..], 0).None?;
  }

  // ---- What rendering leaves alone

  /** The part of a value that a list of positions leads to. */
  function At(v: Json, p: seq<nat>): Option<Json>
    decreases |p|
  {
    if p == [] then Some(v)
    else if v.Arr? && p[0] < |v.items| then At(v.items[p[0]], p[1..])
    else if v.Obj? && p[0] < |v.entries| then At(v.entries[p[0]].1, p[1..])
    else None
  }

  /** The shape of one node is kept, and only a string with a token in it may change. */
  ghost predicate Alike(before: Json, after: Json) {
    match before
    case Str(s) => IsScalar(after) && (Tokens(s, 0) == [] ==> after == before)
    case Arr(items) => after.Arr? && |after.items| == |items|
    case Obj(entries) =>
      after.Obj? && |after.entries| == |entries|
      && forall k :: 0 <= k < |entries| ==> after.entries[k].0 == entries[k].0
    case _ => after == before
  }

  lemma {:induction false} ItemIsRendered(items: seq<Json>, output: Option<Json>)
    requires RenderItems(items, output).Ok?
    ensures var r := RenderItems(items, output).value;
            |r| == |items| && forall k :: 0 <= k < |items| ==> RenderValue(items[k], output) == Ok(r[k])
  {
    if items != [] {
      var rest := RenderItems(items[1..], output).value;
      ItemIsRendered(items[1..], output);
      var r := RenderItems(items, output).value;
      forall k | 0 <= k < |items| ensures RenderValue(items[k], output) == Ok(r[k]) {
        if k > 0 { assert items[k] == items[1..][k - 1] && r[k] == rest[k - 1]; }
      }
    }
  }

  lemma {:induction false} EntryIsRendered(entries: seq<(string, Json)>, output: Option<Json>)
    requires RenderEntries(entries, output).Ok?
    ensures var r := RenderEntries(entries, output).value;
            |r| == |entries| && forall k :: 0 <= k < |entries| ==>
              r[k].0 == entries[k].0 && RenderValue(entries[k].1, output) == Ok(r[k].1)
  {
    if entries != [] {
      var rest := RenderEntries(entries[1..], output).value;
      EntryIsRendered(entries[1..], output);
      var r := RenderEntries(entries, output).value;
      forall k | 0 <= k < |entries| ensures r[k].0 == entries[k].0 && RenderValue(entries[k].1, output) == Ok(r[k].1) {
        if k > 0 { assert entries[k] == entries[1..][k - 1] && r[k] == rest[k - 1]; }
      }
    }
  }

  lemma NodeIsAlike(v: Json, output: Option<Json>)
    requires RenderValue(v, output).Ok?
    ensures Alike(v, RenderValue(v, output).value)
  {
    match v
    case Arr(items) => ItemIsRendered(items, output);
    case Obj(entries) => EntryIsRendered(entries, output);
    case _ =>
  }

  /** Rendering goes node by node: every part of the template becomes its own rendering, in the same place. */
  lemma {:induction false} RenderedInPlace(v: Json, output: Option<Json>, p: seq<nat>)
    requires RenderValue(v, output).Ok? && At(v, p).Some?
    ensures var part := RenderValue(At(v, p).value, output);
            part.Ok? && At(RenderValue(v, output).value, p) == Some(part.value) && Alike(At(v, p).value, part.value)
    decreases |p|
  {
    if p == [] {
      NodeIsAlike(v, output);
    } else if v.Arr? {
      ItemIsRendered(v.items, output);
      RenderedInPlace(v.items[p[0]], output, p[1..]);
    } else {
      EntryIsRendered(v.entries, output);
      RenderedInPlace(v.entries[p[0]].1, output, p[1..]);
    }
  }

  /** Nothing appears that was not in the template, except inside what a token became. */
  lemma {:induction false} NothingIsAdded(v: Json, output: Option<Json>, p: seq<nat>)
    requires RenderValue(v, output).Ok?
    ensures At(RenderValue(v, output).value, p).Some? <==> At(v, p).Some?
    decreases |p|
  {
    NodeIsAlike(v, output);
    if p != [] && p[0] < (match v case Arr(items) => |items| case Obj(entries) => |entries| case _ => 0) {
      if v.Arr? {
        ItemIsRendered(v.items, output);
        NothingIsAdded(v.items[p[0]], output, p[1..]);
      } else {
        EntryIsRendered(v.entries, output);
        NothingIsAdded(v.entries[p[0]].1, output, p[1..]);
      }
    }
  }

  /** A template without tokens is its own rendering, whatever the output, present or not. */
  lemma {:induction false} TokenlessIsUnchanged(v: Json, output: Option<Json>)
    requires forall s :: s in Leaves(v) ==> Tokens(s, 0) == []
    ensures RenderValue(v, output) == Ok(v)
    decreases v
  {
    match v
    case Str(s) => assert s in Leaves(v);
    case Arr(items) => TokenlessItems(items, output);
    case Obj(entries) => TokenlessEntries(entries, output);
    case _ =>
  }

  lemma {:induction false} TokenlessItems(items: seq<Json>, output: Option<Json>)
    requires forall s :: s in ItemLeaves(items) ==> Tokens(s, 0) == []
    ensures RenderItems(items, output) == Ok(items)
    decreases items
  {
    if items != [] {
      TokenlessIsUnchanged(items[0], output);
      TokenlessItems(items[1..], output);
      assert [items[0]] + items[1..] == items;
    }
  }

  lemma {:induction false} TokenlessEntry(entry: (string, Json), output: Option<Json>)
    requires forall s :: s in LeavesOfEntry(entry) ==> Tokens(s, 0) == []
    ensures RenderEntry(entry, output) == Ok(entry)
    decreases entry
  {
    TokenlessIsUnchanged(entry.1, output);
  }

  lemma {:induction false} TokenlessEntries(entries: seq<(string, Json)>, output: Option<Json>)
    requires forall s :: s in EntryLeaves(entries) ==> Tokens(s, 0) == []
    ensures RenderEntries(entries, output) == Ok(entries)
    decreases entries
  {
    if entries != [] {
      TokenlessEntry(entries[0], output);
      TokenlessEntries(entries[1..], output);
      assert [entries[0]] + entries[1..] == entries;
    }
  }

  // ---- Interpolation keeps every literal character

  /** lits[0] + mids[0] + lits[1] + mids[1] + ... + lits[n]. */
  function Weave(lits: seq<string>, mids: seq<string>): string
    requires |lits| == |mids| + 1
    decreases |mids|
  {
    if mids == [] then lits[0] else lits[0] + mids[0] + Weave(lits[1..], mids[1..])
  }

  /** The text between the tokens. */
  function Literals(s: string, cursor: nat, tokens: seq<Token>): (r: seq<string>)
    requires Ordered(s, cursor, tokens)
    ensures |r| == |tokens| + 1
    decreases |tokens|
  {
    if tokens == [] then [s[cursor..]] else [s[cursor..tokens[0].start]] + Literals(s, tokens[0].end, tokens[1..])
  }

  function TokenTexts(s: string, cursor: nat, tokens: seq<Token>): (r: seq<string>)
    requires Ordered(s, cursor, tokens)
    ensures |r| == |tokens|
    decreases |tokens|
  {
    if tokens == [] then [] else ["${" + Body(s, tokens[0]) + "}"] + TokenTexts(s, tokens[0].end, tokens[1..])
  }

  function ValueTexts(s: string, cursor: nat, tokens: seq<Token>, output: Option<Json>): (r: seq<string>)
    requires Ordered(s, cursor, tokens) && Spliced(s, cursor, tokens, output).Ok?
    ensures |r| == |tokens|
    decreases |tokens|
  {
    if tokens == [] then []
    else [Text(TokenValue(output, Body(s, tokens[0])).value)] + ValueTexts(s, tokens[0].end, tokens[1..], output)
  }

  lemma TokenText(s: string, t: Token)
    requires TokenAt(s, t.start) == Some(t.end)
    ensures s[t.start..t.end] == "${" + Body(s, t) + "}"
  {
    var body := Body(s, t);
    var text := "${" + body + "}";
    assert |text| == t.end - t.start;
    forall k | 0 <= k < |text| ensures s[t.start + k] == text[k] {
      if 2 <= k < |text| - 1 { assert body[k - 2] == s[t.start + k]; }
    }
  }

  /** The template is its literals woven with its tokens. */
  lemma {:induction false} TemplateIsWoven(s: string, cursor: nat, tokens: seq<Token>)
    requires Ordered(s, cursor, tokens)
    ensures s[cursor..] == Weave(Literals(s, cursor, tokens), TokenTexts(s, cursor, tokens))
    decreases |tokens|
  {
    hide TokenAt;
    if tokens != [] {
      var t := tokens[0];
      TemplateIsWoven(s, t.end, tokens[1..]);
      TokenText(s, t);
      assert s[cursor..] == s[cursor..t.start] + s[t.start..t.end] + s[t.end..];
      assert Literals(s, cursor, tokens)[1..] == Literals(s, t.end, tokens[1..]);
      assert TokenTexts(s, cursor, tokens)[1..] == TokenTexts(s, t.end, tokens[1..]);
    }
  }

  /** Its rendering is the same literals, untouched and in the same order, woven with the tokens' values. */
  lemma {:induction false} LiteralsAreKept(s: string, cursor: nat, tokens: seq<Token>, output: Option<Json>)
    requires Ordered(s, cursor, tokens) && Spliced(s, cursor, tokens, output).Ok?
    ensures Spliced(s, cursor, tokens, output).value
            == Weave(Literals(s, cursor, tokens), ValueTexts(s, cursor, tokens, output))
    decreases |tokens|
  {
    if tokens != [] {
      var t := tokens[0];
      LiteralsAreKept(s, t.end, tokens[1..], output);
      assert Literals(s, cursor, tokens)[1..] == Literals(s, t.end, tokens[1..]);
      assert ValueTexts(s, cursor, tokens, output)[1..] == ValueTexts(s, t.end, tokens[1..], output);
    }
  }

  /** So a string with tokens embedded in text loses, gains and moves no character outside its tokens. */
  lemma InterpolationKeepsLiterals(s: string, output: Option<Json>)
    requires Tokens(s, 0) != [Token(0, |s|)] && Tokens(s, 0) != [] && StringRendered(s, output).Ok?
    ensures var tokens := Tokens(s, 0);
            && Ordered(s, 0, tokens) && Spliced(s, 0, tokens, output).Ok?
            && s == Weave(Literals(s, 0, tokens), TokenTexts(s, 0, tokens))
            && StringRendered(s, output).value == Str(Weave(Literals(s, 0, tokens), ValueTexts(s, 0, tokens, output)))
  {
    var tokens := Tokens(s, 0);
    TokensAreOrdered(s, 0, 0);
    TemplateIsWoven(s, 0, tokens);
    LiteralsAreKept(s, 0, tokens, output);
    assert s[0..] == s;
  }
}
