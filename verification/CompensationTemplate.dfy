/** The grammar of template tokens and of the paths inside them. */
module TemplateGrammar {
  import opened Common

  // ---- Paths: output, then .identifier or [digits] segments

  datatype Segment = Key(name: string) | Index(digits: string)

  predicate IsIdentStart(c: char) {
    'A' <= c <= 'Z' || 'a' <= c <= 'z' || c == '_'
  }

  predicate IsDigit(c: char) {
    '0' <= c <= '9'
  }

  predicate IsIdentChar(c: char) {
    IsIdentStart(c) || IsDigit(c)
  }

  predicate WellFormed(seg: Segment) {
    match seg
    case Key(name) => name != [] && IsIdentStart(name[0]) && forall c :: c in name ==> IsIdentChar(c)
    case Index(digits) => digits != [] && forall c :: c in digits ==> IsDigit(c)
  }

  function PrintOne(seg: Segment): string {
    match seg
    case Key(name) => "." + name
    case Index(digits) => "[" + digits + "]"
  }

  function Print(segs: seq<Segment>): string {
    if segs == [] then "" else PrintOne(segs[0]) + Print(segs[1..])
  }

  ghost predicate AllWellFormed(segs: seq<Segment>) {
    forall seg :: seg in segs ==> WellFormed(seg)
  }

  /** The end of the longest run of characters satisfying `p` from `i` on. */
  function Run(s: string, i: nat, p: char -> bool): (end: nat)
    requires i <= |s|
    ensures i <= end <= |s|
    ensures forall k :: i <= k < end ==> p(s[k])
    ensures end < |s| ==> !p(s[end])
    decreases |s| - i
  {
    if i < |s| && p(s[i]) then Run(s, i + 1, p) else i
  }

  /** A dot and an identifier. */
  function KeyAt(s: string, i: nat): (r: Option<(nat, Segment)>)
    requires i <= |s|
    ensures r.Some? ==> i < r.value.0 <= |s| && WellFormed(r.value.1) && s[i..r.value.0] == PrintOne(r.value.1)
  {
    if i + 1 < |s| && s[i] == '.' && IsIdentStart(s[i + 1]) then
      var end := Run(s, i + 2, IsIdentChar);
      assert s[i..end] == [s[i]] + s[i + 1..end];
      Some((end, Key(s[i + 1..end])))
    else None
  }

  /** Digits in brackets. */
  function IndexAt(s: string, i: nat): (r: Option<(nat, Segment)>)
    requires i <= |s|
    ensures r.Some? ==> i < r.value.0 <= |s| && WellFormed(r.value.1) && s[i..r.value.0] == PrintOne(r.value.1)
  {
    if i < |s| && s[i] == '[' then
      var end := Run(s, i + 1, IsDigit);
      if i + 1 < end < |s| && s[end] == ']' then
        assert s[i..end + 1] == [s[i]] + s[i + 1..end] + [s[end]];
        Some((end + 1, Index(s[i + 1..end])))
      else None
    else None
  }

  /** What the segment expression matches at position `i`: the segment and where it ends. */
  function SegmentAt(s: string, i: nat): (r: Option<(nat, Segment)>)
    requires i <= |s|
    ensures r.Some? ==> i < r.value.0 <= |s| && WellFormed(r.value.1) && s[i..r.value.0] == PrintOne(r.value.1)
  {
    if KeyAt(s, i).Some? then KeyAt(s, i) else IndexAt(s, i)
  }

  function Prepend(before: seq<Segment>, after: Option<seq<Segment>>): Option<seq<Segment>> {
    if after.Some? then Some(before + after.value) else None
  }

  lemma PrependNothing(after: Option<seq<Segment>>)
    ensures Prepend([], after) == after
  {
    if after.Some? { assert [] + after.value == after.value; }
  }

  lemma PrependTwice(before: seq<Segment>, seg: Segment, after: Option<seq<Segment>>)
    ensures Prepend(before, Prepend([seg], after)) == Prepend(before + [seg], after)
  {
    if after.Some? { assert before + ([seg] + after.value) == (before + [seg]) + after.value; }
  }

  /** Segment after segment from `i` to the end of the string, or nothing. */
  function Scan(s: string, i: nat): Option<seq<Segment>>
    requires i <= |s|
    decreases |s| - i
  {
    if i == |s| then Some([])
    else
      var m := SegmentAt(s, i);
      if m.None? then None else Prepend([m.value.1], Scan(s, m.value.0))
  }

  lemma {:induction false} ScanIsSound(s: string, i: nat)
    requires i <= |s| && Scan(s, i).Some?
    ensures AllWellFormed(Scan(s, i).value) && s[i..] == Print(Scan(s, i).value)
    decreases |s| - i
  {
    hide SegmentAt, PrintOne, WellFormed;
    if i < |s| {
      var m := SegmentAt(s, i).value;
      ScanIsSound(s, m.0);
      assert Scan(s, i).value[1..] == Scan(s, m.0).value;
      assert s[i..] == s[i..m.0] + s[m.0..];
    }
  }

  lemma {:induction false} RunEnds(s: string, i: nat, p: char -> bool, end: nat)
    requires i <= end <= |s|
    requires forall k :: i <= k < end ==> p(s[k])
    requires end < |s| ==> !p(s[end])
    ensures Run(s, i, p) == end
    decreases end - i
  {
    if i < end { RunEnds(s, i + 1, p, end); }
  }

  lemma Cut(s: string, i: nat, a: string, b: string)
    requires i <= |s| && s[i..] == a + b
    ensures i + |a| <= |s| && s[i..i + |a|] == a && s[i + |a|..] == b
    ensures b != [] ==> i + |a| < |s| && s[i + |a|] == b[0]
    ensures b == [] ==> i + |a| == |s|
  {
    assert s[i..i + |a|] == (a + b)[..|a|];
    assert s[i + |a|..] == (a + b)[|a|..];
    assert b != [] ==> s[i + |a|] == s[i + |a|..][0];
  }

  /** Nothing that follows a segment could extend it. */
  predicate EndsSegment(after: string) {
    after == [] || after[0] == '.' || after[0] == '['
  }

  lemma PrintEndsSegment(segs: seq<Segment>)
    ensures EndsSegment(Print(segs))
  {
  }

  lemma KeyIsFound(s: string, i: nat, name: string, after: string)
    requires i <= |s| && WellFormed(Key(name)) && EndsSegment(after) && s[i..] == "." + name + after
    ensures SegmentAt(s, i) == Some((i + 1 + |name|, Key(name)))
  {
    var end := i + 1 + |name|;
    Cut(s, i, ".", name + after) by { assert "." + name + after == "." + (name + after); }
    assert s[i] == s[i..i + 1][0];
    Cut(s, i + 1, name, after);
    forall k | i + 1 <= k < end ensures IsIdentChar(s[k]) {
      assert s[k] == s[i + 1..end][k - (i + 1)];
      assert s[k] in name;
    }
    assert s[i + 1] == name[0];
    IdentRun(s, i, end);
  }

  lemma IdentRun(s: string, i: nat, end: nat)
    requires i + 1 < end <= |s| && s[i] == '.' && IsIdentStart(s[i + 1])
    requires forall k :: i + 1 <= k < end ==> IsIdentChar(s[k])
    requires end < |s| ==> s[end] == '.' || s[end] == '['
    ensures SegmentAt(s, i) == Some((end, Key(s[i + 1..end])))
  {
    hide Run;
    RunEnds(s, i + 2, IsIdentChar, end);
  }

  lemma IndexIsFound(s: string, i: nat, digits: string, after: string)
    requires i <= |s| && WellFormed(Index(digits)) && s[i..] == "[" + digits + "]" + after
    ensures SegmentAt(s, i) == Some((i + 2 + |digits|, Index(digits)))
  {
    var close := i + 1 + |digits|;
    Cut(s, i, "[", digits + "]" + after) by { assert "[" + digits + "]" + after == "[" + (digits + "]" + after); }
    assert s[i] == s[i..i + 1][0];
    Cut(s, i + 1, digits, "]" + after) by { assert digits + "]" + after == digits + ("]" + after); }
    forall k | i + 1 <= k < close ensures IsDigit(s[k]) {
      assert s[k] == s[i + 1..close][k - (i + 1)];
      assert s[k] in digits;
    }
    DigitRun(s, i, close);
  }

  lemma DigitRun(s: string, i: nat, close: nat)
    requires i + 1 < close < |s| && s[i] == '[' && s[close] == ']' && forall k :: i + 1 <= k < close ==> IsDigit(s[k])
    ensures SegmentAt(s, i) == Some((close + 1, Index(s[i + 1..close])))
  {
    hide Run;
    RunEnds(s, i + 1, IsDigit, close);
  }

  lemma SegmentIsFound(s: string, i: nat, seg: Segment, after: string)
    requires i <= |s| && WellFormed(seg) && EndsSegment(after) && s[i..] == PrintOne(seg) + after
    ensures SegmentAt(s, i) == Some((i + |PrintOne(seg)|, seg))
  {
    hide SegmentAt, KeyAt, IndexAt, WellFormed, EndsSegment;
    match seg {
      case Key(name) => KeyIsFound(s, i, name, after);
      case Index(digits) => IndexIsFound(s, i, digits, after);
    }
  }

  lemma {:induction false} ScanIsComplete(s: string, i: nat, segs: seq<Segment>)
    requires i <= |s| && AllWellFormed(segs) && s[i..] == Print(segs)
    ensures Scan(s, i) == Some(segs)
    decreases |segs|
  {
    hide SegmentAt, PrintOne, WellFormed;
    if segs == [] {
    } else {
      PrintEndsSegment(segs[1..]);
      SegmentIsFound(s, i, segs[0], Print(segs[1..]));
      Cut(s, i, PrintOne(segs[0]), Print(segs[1..]));
      ScanIsComplete(s, i + |PrintOne(segs[0])|, segs[1..]);
      assert segs == [segs[0]] + segs[1..];
    }
  }

  /** An accepted path is the text of exactly one list of segments, the one the scanner returns. */
  lemma ScanIffPrinted(s: string, segs: seq<Segment>)
    ensures Scan(s, 0) == Some(segs) <==> AllWellFormed(segs) && s == Print(segs)
  {
    assert s[0..] == s;
    if Scan(s, 0) == Some(segs) { ScanIsSound(s, 0); }
    if AllWellFormed(segs) && s == Print(segs) { ScanIsComplete(s, 0, segs); }
  }

  const ROOT := "output"

  /** The whole of `body` is a path. */
  predicate IsPath(body: string) {
    ROOT <= body && Scan(body[|ROOT|..], 0).Some?
  }

  predicate EndsInNewline(s: string) {
    s != [] && s[|s| - 1] == '\n'
  }

  /** What the path expression accepts: its `$` also stands before a final newline. */
  predicate PathMatches(body: string) {
    IsPath(body) || (EndsInNewline(body) && IsPath(body[..|body| - 1]))
  }

  lemma {:induction false} PathsHaveNoNewline(segs: seq<Segment>)
    requires AllWellFormed(segs)
    ensures '\n' !in Print(segs)
  {
    if segs != [] {
      assert WellFormed(segs[0]);
      PathsHaveNoNewline(segs[1..]);
    }
  }

  /** The accepted bodies that are not paths are those ending in a newline. */
  lemma AcceptedIsPathUnlessNewline(body: string)
    requires PathMatches(body)
    ensures IsPath(body) <==> !EndsInNewline(body)
  {
    if IsPath(body) {
      var rest := body[|ROOT|..];
      ScanIffPrinted(rest, Scan(rest, 0).value);
      PathsHaveNoNewline(Scan(rest, 0).value);
      assert body == ROOT + rest;
    }
  }

  // ---- Tokens: ${ then anything but braces then }

  predicate IsPlain(c: char) {
    c != '{' && c != '}'
  }

  predicate OpensAt(s: string, i: nat) {
    i + 1 < |s| && s[i] == '$' && s[i + 1] == '{'
  }

  /** The end of the token at `i`, if one stands there. */
  function TokenAt(s: string, i: nat): (end: Option<nat>)
    ensures end.Some? ==> OpensAt(s, i) && i + 3 <= end.value <= |s| && s[end.value - 1] == '}'
                          && forall k :: i + 2 <= k < end.value - 1 ==> IsPlain(s[k])
  {
    if OpensAt(s, i) then
      var close := Run(s, i + 2, IsPlain);
      if close < |s| && s[close] == '}' then Some(close + 1) else None
    else None
  }

  datatype Token = Token(start: nat, end: nat)

  /** The leftmost non-overlapping tokens from `i` on. */
  function Tokens(s: string, i: nat): (r: seq<Token>)
    requires i <= |s|
    ensures forall t :: t in r ==> i <= t.start && TokenAt(s, t.start) == Some(t.end)
    decreases |s| - i
  {
    if i == |s| then []
    else
      var end := TokenAt(s, i);
      if end.Some? then [Token(i, end.value)] + Tokens(s, end.value) else Tokens(s, i + 1)
  }

  function Body(s: string, t: Token): string
    requires TokenAt(s, t.start) == Some(t.end)
  {
    s[t.start + 2..t.end - 1]
  }

  /** s.count("${"), counted from `i` on. */
  function Count(s: string, i: nat): nat
    requires i <= |s|
    decreases |s| - i
  {
    if i == |s| then 0 else (if OpensAt(s, i) then 1 else 0) + Count(s, i + 1)
  }

  lemma {:induction false} NoOpening(s: string, i: nat, j: nat)
    requires i <= j <= |s| && forall k: nat :: i <= k < j ==> !OpensAt(s, k)
    ensures Count(s, i) == Count(s, j)
    decreases j - i
  {
    if i < j { NoOpening(s, i + 1, j); }
  }

  /** The brace count balances exactly when every opening is that of a token. */
  lemma {:induction false} BalancedIffEveryOpeningIsAToken(s: string, i: nat)
    requires i <= |s|
    ensures Count(s, i) >= |Tokens(s, i)|
    ensures Count(s, i) == |Tokens(s, i)| <==> forall k: nat :: k >= i && OpensAt(s, k) ==> TokenAt(s, k).Some?
    decreases |s| - i
  {
    if i < |s| {
      var end := TokenAt(s, i);
      if end.Some? {
        NoOpening(s, i + 1, end.value);
        BalancedIffEveryOpeningIsAToken(s, end.value);
      } else {
        BalancedIffEveryOpeningIsAToken(s, i + 1);
      }
    }
  }
}

/** Validation and rendering of compensation argument templates. */
module CompensationTemplate {
  import opened Common
  import opened JsonValues
  import opened TemplateGrammar

  datatype Failure =
    | Malformed(path: string)
    | Absent | Truncated | Offloaded
    | NotObject(key: string) | MissingKey(key: string)
    | NotArray(index: nat) | OutOfRange(index: nat)
    | NonScalar

  datatype Result<+T> = Ok(value: T) | Err(failure: Failure)

  // ---- Resolving one path

  /** Python's truth of a JSON value. */
  predicate Truthy(v: Json) {
    match v
    case Null => false
    case Bool(b) => b
    case Int(i) => i != 0
    case Float(text) => text != "0.0" && text != "-0.0"
    case Str(s) => s != []
    case Arr(items) => items != []
    case Obj(entries) => entries != []
  }

  predicate TruthyAt(entries: seq<(string, Json)>, key: string) {
    var v := Lookup(entries, key);
    v.Some? && Truthy(v.value)
  }

  /** Absent, truncated and offloaded outputs are refused, in this order. */
  function CheckOutputUsable(output: Option<Json>): Result<Json> {
    if output.None? || !output.value.Obj? then Err(Absent)
    else if TruthyAt(output.value.entries, "resultTruncated") then Err(Truncated)
    else if TruthyAt(output.value.entries, "resultOffloaded") || Lookup(output.value.entries, "resultRef").Some? then Err(Offloaded)
    else Ok(output.value)
  }

  function DigitsValue(digits: string): nat
    requires forall c :: c in digits ==> IsDigit(c)
  {
    if digits == [] then 0
    else
      assert digits[|digits| - 1] in digits && IsDigit(digits[|digits| - 1]);
      DigitsValue(digits[..|digits| - 1]) * 10 + (digits[|digits| - 1] as int - '0' as int)
  }

  function Step(node: Json, seg: Segment): Result<Json>
    requires WellFormed(seg)
  {
    match seg
    case Key(name) =>
      if !node.Obj? then Err(NotObject(name))
      else
        var v := Lookup(node.entries, name);
        if v.None? then Err(MissingKey(name)) else Ok(v.value)
    case Index(digits) =>
      var i := DigitsValue(digits);
      if !node.Arr? then Err(NotArray(i))
      else if i >= |node.items| then Err(OutOfRange(i))
      else Ok(node.items[i])
  }

  function Walk(node: Json, segs: seq<Segment>): Result<Json>
    requires AllWellFormed(segs)
  {
    if segs == [] then Ok(node)
    else
      var next := Step(node, segs[0]);
      if next.Err? then next else Walk(next.value, segs[1..])
  }

  /** The declared order: is the output usable, is the path one, where does it lead. */
  function Resolved(output: Option<Json>, body: string): Result<Json>
    requires ROOT <= body
  {
    var node := CheckOutputUsable(output);
    if node.Err? then node
    else
      var segs := Scan(body[|ROOT|..], 0);
      if segs.None? then Err(Malformed(body))
      else
        ScanIsSound(body[|ROOT|..], 0);
        Walk(node.value, segs.value)
  }

  /** The first match of the segment expression at or after `pos`: where it starts and ends, and what it is. */
  function NextSegment(s: string, pos: nat): (r: Option<(nat, nat, Segment)>)
    requires pos <= |s|
    ensures r.Some? ==> pos <= r.value.0 <= |s| && SegmentAt(s, r.value.0) == Some((r.value.1, r.value.2))
    ensures SegmentAt(s, pos).Some? <==> r.Some? && r.value.0 == pos
    decreases |s| - pos
  {
    var m := SegmentAt(s, pos);
    if m.Some? then Some((pos, m.value.0, m.value.1))
    else if pos == |s| then None
    else NextSegment(s, pos + 1)
  }

  lemma PathTexts(body: string)
    requires ROOT <= body
    ensures forall segs :: Scan(body[|ROOT|..], 0) == Some(segs) <==> AllWellFormed(segs) && body == ROOT + Print(segs)
  {
    forall segs ensures Scan(body[|ROOT|..], 0) == Some(segs) <==> AllWellFormed(segs) && body == ROOT + Print(segs) {
      ScanIffPrinted(body[|ROOT|..], segs);
      assert body == ROOT + body[|ROOT|..];
      assert (ROOT + Print(segs))[|ROOT|..] == Print(segs);
    }
  }

  /** Succeeds exactly on the text of a list of segments, and returns that list. */
  method ParsePathSegments(body: string) returns (r: Result<seq<Segment>>)
    requires ROOT <= body
    ensures r == if Scan(body[|ROOT|..], 0).Some? then Ok(Scan(body[|ROOT|..], 0).value) else Err(Malformed(body))
    ensures r.Ok? ==> AllWellFormed(r.value) && body == ROOT + Print(r.value)
    ensures r.Err? ==> forall segs :: AllWellFormed(segs) ==> body != ROOT + Print(segs)
  {
    PathTexts(body);
    hide AllWellFormed, Print, Scan, SegmentAt, Prepend;
    var rest := body[|ROOT|..];
    var segments: seq<Segment> := [];
    var pos := 0;
    PrependNothing(Scan(rest, 0));
    var found := NextSegment(rest, pos);
    while found.Some?
      invariant pos <= |rest| && found == NextSegment(rest, pos)
      invariant Scan(rest, 0) == Prepend(segments, Scan(rest, pos))
      decreases |rest| - pos
    {
      if found.value.0 != pos {
        return Err(Malformed(body));
      }
      PrependTwice(segments, found.value.2, Scan(rest, found.value.1));
      segments := segments + [found.value.2];
      pos := found.value.1;
      found := NextSegment(rest, pos);
    }
    if pos != |rest| {
      return Err(Malformed(body));
    }
    assert segments + [] == segments;
    r := Ok(segments);
  }

  method ResolvePath(output: Option<Json>, body: string) returns (r: Result<Json>)
    requires ROOT <= body
    ensures r == Resolved(output, body)
  {
    r := CheckOutputUsable(output);
    if r.Err? {
      return;
    }
    var parsed := ParsePathSegments(body);
    if parsed.Err? {
      return Err(parsed.failure);
    }
    ScanIsSound(body[|ROOT|..], 0);
    var segments := parsed.value;
    var node := r.value;
    ghost var resolved := Walk(node, segments);
    assert segments[0..] == segments;
    for i := 0 to |segments|
      invariant Walk(node, segments[i..]) == resolved
    {
      var next := Step(node, segments[i]);
      assert segments[i..][0] == segments[i] && segments[i..][1..] == segments[i + 1..];
      if next.Err? {
        return next;
      }
      node := next.value;
    }
    r := Ok(node);
  }

  // ---- Rendering one string

  function Digit(d: nat): char
    requires d < 10
  {
    ('0' as nat + d) as char
  }

  function Decimal(n: nat): string {
    if n < 10 then [Digit(n)] else Decimal(n / 10) + [Digit(n % 10)]
  }

  predicate IsScalar(v: Json) {
    !v.Arr? && !v.Obj?
  }

  /** str(), with nothing for None. */
  function Text(v: Json): string
    requires IsScalar(v)
  {
    match v
    case Null => ""
    case Bool(b) => if b then "True" else "False"
    case Int(i) => if i < 0 then "-" + Decimal(-i) else Decimal(i)
    case Float(text) => text
    case Str(s) => s
  }

  /** What one token stands for. */
  function TokenValue(output: Option<Json>, body: string): (r: Result<Json>)
    ensures r.Ok? ==> IsScalar(r.value)
  {
    if !PathMatches(body) then Err(Malformed(body))
    else
      var v := Resolved(output, body);
      if v.Ok? && !IsScalar(v.value) then Err(NonScalar) else v
  }

  /** The string from `cursor` on, each of its tokens replaced by its text, or the first failure. */
  function Spliced(s: string, cursor: nat, tokens: seq<Token>, output: Option<Json>): Result<string>
    requires Ordered(s, cursor, tokens)
    decreases |tokens|
  {
    if tokens == [] then Ok(s[cursor..])
    else
      var v := TokenValue(output, Body(s, tokens[0]));
      if v.Err? then Err(v.failure)
      else
        var rest := Spliced(s, tokens[0].end, tokens[1..], output);
        if rest.Err? then rest else Ok(s[cursor..tokens[0].start] + Text(v.value) + rest.value)
  }

  /** The tokens stand in `s`, one behind the other, from `cursor` on. */
  ghost predicate Ordered(s: string, cursor: nat, tokens: seq<Token>)
    decreases |tokens|
  {
    && cursor <= |s|
    && (tokens != [] ==> (
          && cursor <= tokens[0].start && TokenAt(s, tokens[0].start) == Some(tokens[0].end)
          && Ordered(s, tokens[0].end, tokens[1..])))
  }

  lemma {:induction false} TokensAreOrdered(s: string, cursor: nat, i: nat)
    requires cursor <= i <= |s|
    ensures Ordered(s, cursor, Tokens(s, i))
    decreases |s| - i
  {
    if i < |s| {
      var end := TokenAt(s, i);
      if end.Some? {
        TokensAreOrdered(s, end.value, end.value);
        assert Tokens(s, i)[1..] == Tokens(s, end.value);
      } else {
        TokensAreOrdered(s, cursor, i + 1);
      }
    }
  }

  function StringRendered(s: string, output: Option<Json>): Result<Json> {
    var tokens := Tokens(s, 0);
    if tokens == [] then Ok(Str(s))
    else if tokens == [Token(0, |s|)] then TokenValue(output, Body(s, tokens[0]))
    else
      TokensAreOrdered(s, 0, 0);
      var r := Spliced(s, 0, tokens, output);
      if r.Ok? then Ok(Str(r.value)) else Err(r.failure)
  }

  function Then(before: string, after: Result<string>): Result<string> {
    if after.Ok? then Ok(before + after.value) else after
  }

  method RenderToken(s: string, m: Token, output: Option<Json>) returns (r: Result<Json>)
    requires TokenAt(s, m.start) == Some(m.end)
    ensures r == TokenValue(output, Body(s, m))
  {
    var body := Body(s, m);
    if !PathMatches(body) {
      return Err(Malformed(body));
    }
    r := ResolvePath(output, body);
    if r.Ok? && !IsScalar(r.value) {
      return Err(NonScalar);
    }
  }

  lemma Regroup(a: string, b: string, c: string, d: string)
    ensures a + (b + c + d) == (a + b + c) + d
  {
  }

  lemma ThenNothing(r: Result<string>)
    ensures Then("", r) == r
  {
    if r.Ok? { assert "" + r.value == r.value; }
  }

  lemma SplicedDone(s: string, pieces: string, cursor: nat, output: Option<Json>)
    requires Ordered(s, cursor, [])
    ensures Then(pieces, Spliced(s, cursor, [], output)) == Ok(pieces + s[cursor..])
  {
  }

  lemma SplicedStep(s: string, pieces: string, cursor: nat, tokens: seq<Token>, output: Option<Json>)
    requires Ordered(s, cursor, tokens) && tokens != []
    ensures var v := TokenValue(output, Body(s, tokens[0]));
            Then(pieces, Spliced(s, cursor, tokens, output)) ==
            if v.Err? then Err(v.failure)
            else Then(pieces + s[cursor..tokens[0].start] + Text(v.value), Spliced(s, tokens[0].end, tokens[1..], output))
  {
    var v := TokenValue(output, Body(s, tokens[0]));
    var rest := Spliced(s, tokens[0].end, tokens[1..], output);
    if v.Ok? && rest.Ok? {
      Regroup(pieces, s[cursor..tokens[0].start], Text(v.value), rest.value);
    }
  }

  method RenderStringValue(s: string, output: Option<Json>) returns (r: Result<Json>)
    ensures r == StringRendered(s, output)
  {
    hide TokenValue, TokenAt, Spliced, Then;
    var matches := Tokens(s, 0);
    if matches == [] {
      return Ok(Str(s));
    }
    if |matches| == 1 && matches[0] == Token(0, |s|) {
      assert matches == [matches[0]];
      r := RenderToken(s, matches[0], output);
      return;
    }
    TokensAreOrdered(s, 0, 0);
    var pieces := "";
    var cursor: nat := 0;
    ghost var spliced := Spliced(s, 0, matches, output);
    ThenNothing(spliced);
    assert matches[0..] == matches;
    for k := 0 to |matches|
      invariant Ordered(s, cursor, matches[k..])
      invariant spliced == Then(pieces, Spliced(s, cursor, matches[k..], output))
    {
      var m := matches[k];
      assert matches[k..][0] == m && matches[k..][1..] == matches[k + 1..];
      SplicedStep(s, pieces, cursor, matches[k..], output);
      pieces := pieces + s[cursor..m.start];
      var resolved := RenderToken(s, m, output);
      if resolved.Err? {
        return resolved;
      }
      pieces := pieces + Text(resolved.value);
      cursor := m.end;
    }
    assert matches[|matches|..] == [];
    SplicedDone(s, pieces, cursor, output);
    pieces := pieces + s[cursor..];
    r := Ok(Str(pieces));
  }

  // ---- Rendering values

  function RenderValue(v: Json, output: Option<Json>): Result<Json>
    decreases v
  {
    match v
    case Str(s) => StringRendered(s, output)
    case Arr(items) =>
      var r := RenderItems(items, output);
      if r.Ok? then Ok(Arr(r.value)) else Err(r.failure)
    case Obj(entries) =>
      var r := RenderEntries(entries, output);
      if r.Ok? then Ok(Obj(r.value)) else Err(r.failure)
    case _ => Ok(v)
  }

  function RenderItems(items: seq<Json>, output: Option<Json>): (r: Result<seq<Json>>)
    decreases items
  {
    if items == [] then Ok([])
    else
      var first := RenderValue(items[0], output);
      if first.Err? then Err(first.failure)
      else
        var rest := RenderItems(items[1..], output);
        if rest.Err? then rest else Ok([first.value] + rest.value)
  }

  function RenderEntry(entry: (string, Json), output: Option<Json>): Result<(string, Json)>
    decreases entry
  {
    var r := RenderValue(entry.1, output);
    if r.Ok? then Ok((entry.0, r.value)) else Err(r.failure)
  }

  function RenderEntries(entries: seq<(string, Json)>, output: Option<Json>): (r: Result<seq<(string, Json)>>)
    decreases entries
  {
    if entries == [] then Ok([])
    else
      var first := RenderEntry(entries[0], output);
      if first.Err? then Err(first.failure)
      else
        var rest := RenderEntries(entries[1..], output);
        if rest.Err? then rest else Ok([first.value] + rest.value)
  }
}
