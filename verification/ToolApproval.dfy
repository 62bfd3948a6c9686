/** The ASCII JSON text that approval ids are derived from (section 7 of RFC 8259). */
module JsonAscii {
  import opened Common

  /** A Python string is a sequence of code points, surrogates included. */
  type Code = c: int | 0 <= c < 0x11_0000
  type Text = seq<Code>

  /** A UTF-16 code unit. */
  type Unit = u: int | 0 <= u < 0x1_0000

  predicate IsHigh(c: int) {
    0xD800 <= c < 0xDC00
  }

  predicate IsLow(c: int) {
    0xDC00 <= c < 0xE000
  }

  function Pair(c: Code): (Unit, Unit)
    requires c >= 0x1_0000
  {
    (0xD800 + (c - 0x1_0000) / 0x400, 0xDC00 + (c - 0x1_0000) % 0x400)
  }

  function Join(high: Code, low: Code): Code
    requires IsHigh(high) && IsLow(low)
  {
    0x1_0000 + (high - 0xD800) * 0x400 + (low - 0xDC00)
  }

  function HexDigit(d: nat): char
    requires d < 16
  {
    "0123456789abcdef"[d]
  }

  function Hex4(u: Unit): string {
    [HexDigit(u / 0x1000), HexDigit(u / 0x100 % 0x10), HexDigit(u / 0x10 % 0x10), HexDigit(u % 0x10)]
  }

  function EscapeUnit(u: Unit): string {
    if u == 0x22 then "\\\""
    else if u == 0x5C then "\\\\"
    else if u == 0x0A then "\\n"
    else if u == 0x0D then "\\r"
    else if u == 0x09 then "\\t"
    else if u == 0x0C then "\\f"
    else if u == 0x08 then "\\b"
    else if 0x20 <= u <= 0x7E then [u as char]
    else "\\u" + Hex4(u)
  }

  /** One code point: outside the basic plane, as two escaped units. */
  function EscapeCode(c: Code): string {
    if c < 0x1_0000 then EscapeUnit(c) else EscapeUnit(Pair(c).0) + EscapeUnit(Pair(c).1)
  }

  function Escape(t: Text): string {
    if t == [] then "" else EscapeCode(t[0]) + Escape(t[1..])
  }

  function Quoted(t: Text): string {
    "\"" + Escape(t) + "\""
  }

  // ---- Reading it back

  function Units(t: Text): seq<Unit> {
    if t == [] then []
    else if t[0] < 0x1_0000 then [t[0]] + Units(t[1..])
    else [Pair(t[0]).0, Pair(t[0]).1] + Units(t[1..])
  }

  function EscapeUnits(us: seq<Unit>): string {
    if us == [] then "" else EscapeUnit(us[0]) + EscapeUnits(us[1..])
  }

  /** What the encoding cannot tell apart: a high surrogate followed by a low one reads as one code point. */
  function Merge(t: Text): Text {
    if |t| >= 2 && IsHigh(t[0]) && IsLow(t[1]) then [Join(t[0], t[1])] + Merge(t[2..])
    else if t == [] then []
    else [t[0]] + Merge(t[1..])
  }

  /** Units paired up again, as a JSON reader does. */
  function Paired(us: seq<Unit>): Text {
    if |us| >= 2 && IsHigh(us[0]) && IsLow(us[1]) then [Join(us[0], us[1])] + Paired(us[2..])
    else if us == [] then []
    else [us[0]] + Paired(us[1..])
  }

  lemma {:induction false} EscapeByUnits(t: Text)
    ensures Escape(t) == EscapeUnits(Units(t))
  {
    hide EscapeUnit;
    if t != [] {
      EscapeByUnits(t[1..]);
      if t[0] >= 0x1_0000 {
        var p := Pair(t[0]);
        assert Units(t) == [p.0] + ([p.1] + Units(t[1..]));
        assert ([p.1] + Units(t[1..]))[1..] == Units(t[1..]);
      }
    }
  }

  lemma {:induction false} PairedUnits(t: Text)
    ensures Paired(Units(t)) == Merge(t)
    decreases |t|
  {
    if t == [] {
    } else if t[0] >= 0x1_0000 {
      PairedUnits(t[1..]);
      var p := Pair(t[0]);
      assert Units(t)[2..] == Units(t[1..]);
      assert Join(p.0, p.1) == t[0];
    } else if |t| >= 2 && IsHigh(t[0]) && IsLow(t[1]) {
      PairedUnits(t[2..]);
      assert t[1..][1..] == t[2..];
      assert Units(t) == [t[0]] + ([t[1]] + Units(t[2..]));
      assert Units(t)[2..] == Units(t[2..]);
    } else {
      PairedUnits(t[1..]);
      assert Units(t)[1..] == Units(t[1..]);
      if |t| >= 2 { assert t[1..][0] == t[1]; }
    }
  }

  lemma {:induction false} UnitsOfMerge(t: Text)
    ensures Units(Merge(t)) == Units(t)
    decreases |t|
  {
    if |t| >= 2 && IsHigh(t[0]) && IsLow(t[1]) {
      UnitsOfMerge(t[2..]);
      assert t[1..][1..] == t[2..];
      assert Units(t) == [t[0]] + ([t[1]] + Units(t[2..]));
      assert Merge(t)[1..] == Merge(t[2..]);
      assert Pair(Join(t[0], t[1])) == (t[0], t[1]);
    } else if t != [] {
      UnitsOfMerge(t[1..]);
      assert Merge(t)[1..] == Merge(t[1..]);
    }
  }

  lemma HexValue(u: Unit)
    ensures u == u / 0x1000 * 0x1000 + u / 0x100 % 0x10 * 0x100 + u / 0x10 % 0x10 * 0x10 + u % 0x10
  {
    assert u / 0x10 == u / 0x100 * 0x10 + u / 0x10 % 0x10;
    assert u / 0x100 == u / 0x1000 * 0x10 + u / 0x100 % 0x10;
  }

  lemma Hex4IsInjective(u: Unit, v: Unit)
    requires Hex4(u) == Hex4(v)
    ensures u == v
  {
    assert Hex4(u)[0] == Hex4(v)[0] && Hex4(u)[1] == Hex4(v)[1] && Hex4(u)[2] == Hex4(v)[2] && Hex4(u)[3] == Hex4(v)[3];
    DigitIsInjective(u / 0x1000, v / 0x1000);
    DigitIsInjective(u / 0x100 % 0x10, v / 0x100 % 0x10);
    DigitIsInjective(u / 0x10 % 0x10, v / 0x10 % 0x10);
    DigitIsInjective(u % 0x10, v % 0x10);
    HexValue(u);
    HexValue(v);
  }

  lemma DigitIsInjective(d: nat, e: nat)
    requires d < 16 && e < 16
    ensures HexDigit(d) == HexDigit(e) ==> d == e
  {
  }

  /** The start of an escaped text says which unit it begins with. */
  lemma UnitIsReadable(u: Unit, v: Unit, x: string, y: string)
    requires EscapeUnit(u) + x == EscapeUnit(v) + y
    ensures u == v && x == y
  {
    hide HexDigit;
    var s := EscapeUnit(u) + x;
    assert s[0] == EscapeUnit(u)[0] && s[0] == EscapeUnit(v)[0];
    if s[0] == '\\' {
      assert s[1] == EscapeUnit(u)[1] && s[1] == EscapeUnit(v)[1];
      if s[1] == 'u' {
        assert s[2..6] == Hex4(u) && s[2..6] == Hex4(v);
        Hex4IsInjective(u, v);
      }
    }
    assert s[|EscapeUnit(u)|..] == x && s[|EscapeUnit(v)|..] == y;
  }

  lemma Regroup(a: string, b: string, c: string)
    ensures a + b + c == a + (b + c)
  {
  }

  lemma AfterChar(c: char, x: string, y: string)
    requires [c] + x == [c] + y
    ensures x == y
  {
    assert ([c] + x)[1..] == x && ([c] + y)[1..] == y;
  }

  lemma NoUnitIsAQuote(u: Unit, x: string)
    ensures (EscapeUnit(u) + x)[0] != '"'
  {
  }

  lemma {:induction false} UnitsAreReadable(us: seq<Unit>, vs: seq<Unit>, x: string, y: string)
    requires EscapeUnits(us) + ("\"" + x) == EscapeUnits(vs) + ("\"" + y)
    ensures us == vs && x == y
    decreases |us|
  {
    var xs, ys := "\"" + x, "\"" + y;
    if us != [] {
      Regroup(EscapeUnit(us[0]), EscapeUnits(us[1..]), xs);
      NoUnitIsAQuote(us[0], EscapeUnits(us[1..]) + xs);
    }
    if vs != [] {
      Regroup(EscapeUnit(vs[0]), EscapeUnits(vs[1..]), ys);
      NoUnitIsAQuote(vs[0], EscapeUnits(vs[1..]) + ys);
    }
    if us == [] {
      assert EscapeUnits(us) + xs == xs;
      assert vs == [] ==> EscapeUnits(vs) + ys == ys;
      AfterChar('"', x, y);
    } else {
      assert vs == [] ==> EscapeUnits(vs) + ys == ys;
      UnitIsReadable(us[0], vs[0], EscapeUnits(us[1..]) + xs, EscapeUnits(vs[1..]) + ys);
      UnitsAreReadable(us[1..], vs[1..], x, y);
      assert us == [us[0]] + us[1..] && vs == [vs[0]] + vs[1..];
    }
  }

  /** A quoted text can be read back, up to joining surrogates, and says where it ends. */
  lemma QuotedIsReadable(t: Text, v: Text, x: string, y: string)
    requires Quoted(t) + x == Quoted(v) + y
    ensures Merge(t) == Merge(v) && x == y
  {
    EscapeByUnits(t);
    EscapeByUnits(v);
    Unquote(t, x);
    Unquote(v, y);
    AfterChar('"', Escape(t) + ("\"" + x), Escape(v) + ("\"" + y));
    UnitsAreReadable(Units(t), Units(v), x, y);
    PairedUnits(t);
    PairedUnits(v);
  }

  lemma Unquote(t: Text, x: string)
    ensures Quoted(t) + x == "\"" + (Escape(t) + ("\"" + x))
  {
    Regroup("\"" + Escape(t), "\"", x);
    Regroup("\"", Escape(t), "\"" + x);
  }

  lemma MergedQuotesAlike(t: Text, v: Text)
    requires Merge(t) == Merge(v)
    ensures Quoted(t) == Quoted(v)
  {
    EscapeByUnits(t);
    EscapeByUnits(v);
    UnitsOfMerge(t);
    UnitsOfMerge(v);
  }

  /** No high surrogate stands right before a low one; true of all well-formed Unicode. */
  predicate NoSplitPair(t: Text) {
    forall i :: 0 <= i < |t| - 1 ==> !(IsHigh(t[i]) && IsLow(t[i + 1]))
  }

  lemma {:induction false} MergeKeeps(t: Text)
    ensures |Merge(t)| <= |t|
    ensures Merge(t) == t <==> NoSplitPair(t)
    decreases |t|
  {
    if |t| >= 2 && IsHigh(t[0]) && IsLow(t[1]) {
      MergeKeeps(t[2..]);
    } else if t != [] {
      MergeKeeps(t[1..]);
      assert t == [t[0]] + t[1..];
      assert NoSplitPair(t) <==> NoSplitPair(t[1..]) by {
        assert forall i :: 0 <= i < |t[1..]| ==> t[1..][i] == t[i + 1];
        if NoSplitPair(t[1..]) {
          forall i | 0 <= i < |t| - 1 ensures !(IsHigh(t[i]) && IsLow(t[i + 1])) {
            if i > 0 { assert t[i] == t[1..][i - 1] && t[i + 1] == t[1..][i]; }
          }
        }
      }
    }
  }

  // ---- A reader of JSON strings

  /** The value of a hexadecimal digit of either case; 16 for anything else. */
  function HexOf(c: char): (d: nat)
    ensures d <= 16
  {
    if '0' <= c <= '9' then c as nat - '0' as nat
    else if 'a' <= c <= 'f' then c as nat - 'a' as nat + 10
    else if 'A' <= c <= 'F' then c as nat - 'A' as nat + 10
    else 16
  }

  /** What a two-character escape stands for. */
  function ShortEscape(c: char): Option<Unit> {
    match c
    case '"' => Some(0x22)
    case '\\' => Some(0x5C)
    case '/' => Some(0x2F)
    case 'b' => Some(0x08)
    case 'f' => Some(0x0C)
    case 'n' => Some(0x0A)
    case 'r' => Some(0x0D)
    case 't' => Some(0x09)
    case _ => None
  }

  /** The unit at the head of the inside of a JSON string, and how many characters spell it. */
  function ReadUnit(s: string): (r: Option<(Unit, nat)>)
    ensures r.Some? ==> 0 < r.value.1 <= |s|
  {
    if s == [] || s[0] == '"' || s[0] < ' ' || s[0] as int >= 0x1_0000 then None
    else if s[0] != '\\' then Some((s[0] as int, 1))
    else if |s| < 2 then None
    else if ShortEscape(s[1]).Some? then Some((ShortEscape(s[1]).value, 2))
    else if s[1] == 'u' && |s| >= 6 && HexOf(s[2]) < 16 && HexOf(s[3]) < 16 && HexOf(s[4]) < 16 && HexOf(s[5]) < 16
    then Some((HexOf(s[2]) * 0x1000 + HexOf(s[3]) * 0x100 + HexOf(s[4]) * 0x10 + HexOf(s[5]), 6))
    else None
  }

  /** The units up to the closing quote, and how many characters they and it take. */
  function ReadUnits(s: string): Option<(seq<Unit>, nat)>
    decreases |s|
  {
    if s != [] && s[0] == '"' then Some(([], 1))
    else
      var head := ReadUnit(s);
      if head.None? then None
      else
        var rest := ReadUnits(s[head.value.1..]);
        if rest.None? then None else Some(([head.value.0] + rest.value.0, head.value.1 + rest.value.1))
  }

  lemma HexReadsBack(d: nat)
    requires d < 16
    ensures HexOf(HexDigit(d)) == d && 0x20 < HexDigit(d) as int < 0x7F
  {
  }

  lemma FourDigitsRead(s: string, a: nat, b: nat, c: nat, d: nat)
    requires |s| >= 6 && s[0] == '\\' && s[1] == 'u' && a < 16 && b < 16 && c < 16 && d < 16
    requires HexOf(s[2]) == a && HexOf(s[3]) == b && HexOf(s[4]) == c && HexOf(s[5]) == d
    ensures ReadUnit(s) == Some((a * 0x1000 + b * 0x100 + c * 0x10 + d, 6))
  {
    hide HexOf;
  }

  lemma HexUnitReadsBack(u: Unit, x: string)
    ensures ReadUnit("\\u" + Hex4(u) + x) == Some((u, 6))
    ensures forall c :: c in Hex4(u) ==> 0x20 <= c as int <= 0x7E
  {
    var s := "\\u" + Hex4(u) + x;
    assert s[0] == '\\' && s[1] == 'u' && s[2] == Hex4(u)[0] && s[3] == Hex4(u)[1] && s[4] == Hex4(u)[2] && s[5] == Hex4(u)[3];
    HexReadsBack(u / 0x1000);
    HexReadsBack(u / 0x100 % 0x10);
    HexReadsBack(u / 0x10 % 0x10);
    HexReadsBack(u % 0x10);
    hide HexOf, HexDigit, ReadUnit;
    FourDigitsRead(s, u / 0x1000, u / 0x100 % 0x10, u / 0x10 % 0x10, u % 0x10);
    HexValue(u);
  }

  lemma ShortUnitReadsBack(u: Unit, x: string)
    requires |EscapeUnit(u)| != 6
    ensures ReadUnit(EscapeUnit(u) + x) == Some((u, |EscapeUnit(u)|))
    ensures forall c :: c in EscapeUnit(u) ==> 0x20 <= c as int <= 0x7E
  {
    hide HexDigit, HexOf;
    var s := EscapeUnit(u) + x;
    assert s[0] == EscapeUnit(u)[0] && (|EscapeUnit(u)| == 2 ==> s[1] == EscapeUnit(u)[1]);
  }

  /** A reader gets back the unit that was escaped, whatever follows; and the escape is printable ASCII. */
  lemma UnitReadsBack(u: Unit, x: string)
    ensures ReadUnit(EscapeUnit(u) + x) == Some((u, |EscapeUnit(u)|)) && (EscapeUnit(u) + x)[0] != '"'
    ensures forall c :: c in EscapeUnit(u) ==> 0x20 <= c as int <= 0x7E
  {
    NoUnitIsAQuote(u, x);
    hide ReadUnit, HexDigit;
    if |EscapeUnit(u)| == 6 {
      HexUnitReadsBack(u, x);
      var head := "\\u";
      assert EscapeUnit(u) == head + Hex4(u) && head[0] == '\\' && head[1] == 'u';
      forall c | c in EscapeUnit(u) ensures 0x20 <= c as int <= 0x7E {
        assert c in head || c in Hex4(u);
      }
    } else {
      ShortUnitReadsBack(u, x);
    }
  }

  /** Printable characters stand for themselves, the usual seven have two-character escapes, and the rest lower-case digits. */
  lemma EscapesInWords(u: Unit)
    ensures 0x20 <= u <= 0x7E && u !in {0x22, 0x5C} ==> EscapeUnit(u) == [u as char]
    ensures u in {0x22, 0x5C, 0x08, 0x09, 0x0A, 0x0C, 0x0D} <==> |EscapeUnit(u)| == 2
    ensures (u < 0x20 || u > 0x7E) && u !in {0x08, 0x09, 0x0A, 0x0C, 0x0D} ==>
      |EscapeUnit(u)| == 6 && forall i :: 2 <= i < 6 ==> EscapeUnit(u)[i] in "0123456789abcdef"
  {
  }

  lemma {:induction false} UnitsReadBack(us: seq<Unit>, x: string)
    ensures ReadUnits(EscapeUnits(us) + ("\"" + x)) == Some((us, |EscapeUnits(us)| + 1))
    ensures forall c :: c in EscapeUnits(us) ==> 0x20 <= c as int <= 0x7E
    decreases |us|
  {
    hide EscapeUnit, ReadUnit;
    var end := "\"" + x;
    if us == [] {
      assert EscapeUnits(us) + end == end;
    } else {
      Regroup(EscapeUnit(us[0]), EscapeUnits(us[1..]), end);
      var rest := EscapeUnits(us[1..]) + end;
      UnitReadsBack(us[0], rest);
      UnitsReadBack(us[1..], x);
      assert (EscapeUnit(us[0]) + rest)[|EscapeUnit(us[0])|..] == rest;
      assert us == [us[0]] + us[1..];
    }
  }

  /** Any reader of JSON gets the text back, up to joining surrogates, from printable ASCII that ends at the closing quote. */
  lemma QuotedReadsBack(t: Text, x: string)
    ensures Quoted(t)[0] == '"'
    ensures var read := ReadUnits((Quoted(t) + x)[1..]);
      read.Some? && Paired(read.value.0) == Merge(t) && 1 + read.value.1 == |Quoted(t)|
    ensures forall c :: c in Quoted(t) ==> 0x20 <= c as int <= 0x7E
  {
    EscapeByUnits(t);
    PairedUnits(t);
    Unquote(t, x);
    UnitsReadBack(Units(t), x);
    assert (Quoted(t) + x)[1..] == Escape(t) + ("\"" + x);
  }
}

/** Pre-granted, single-use approvals: their ids, their validity, their consumption. */
module ToolApproval {
  import opened Common
  import opened JsonAscii

  /** What an approval is granted for. */
  datatype Scope = Scope(orgId: Text, workflowDefinitionId: Text, nodeId: Text, toolName: Text)

  function Canonical(s: Scope): string {
    "[" + (Quoted(s.orgId) + ("," + (Quoted(s.workflowDefinitionId) + ("," + (Quoted(s.nodeId) + ("," + (Quoted(s.toolName) + "]")))))))
  }

  function Merged(s: Scope): Scope {
    Scope(Merge(s.orgId), Merge(s.workflowDefinitionId), Merge(s.nodeId), Merge(s.toolName))
  }

  predicate WellFormed(s: Scope) {
    NoSplitPair(s.orgId) && NoSplitPair(s.workflowDefinitionId) && NoSplitPair(s.nodeId) && NoSplitPair(s.toolName)
  }

  /** Two scopes have the same canonical text exactly when they differ at most in how surrogate pairs are spelled. */
  lemma CanonicalIffMerged(a: Scope, b: Scope)
    ensures Canonical(a) == Canonical(b) <==> Merged(a) == Merged(b)
  {
    if Canonical(a) == Canonical(b) {
      CanonicalIsReadable(a, b);
    }
    if Merged(a) == Merged(b) {
      MergedQuotesAlike(a.orgId, b.orgId);
      MergedQuotesAlike(a.workflowDefinitionId, b.workflowDefinitionId);
      MergedQuotesAlike(a.nodeId, b.nodeId);
      MergedQuotesAlike(a.toolName, b.toolName);
    }
  }

  lemma CanonicalIsReadable(a: Scope, b: Scope)
    requires Canonical(a) == Canonical(b)
    ensures Merged(a) == Merged(b)
  {
    var a3, b3 := Quoted(a.toolName) + "]", Quoted(b.toolName) + "]";
    var a2, b2 := Quoted(a.nodeId) + ("," + a3), Quoted(b.nodeId) + ("," + b3);
    var a1, b1 := Quoted(a.workflowDefinitionId) + ("," + a2), Quoted(b.workflowDefinitionId) + ("," + b2);
    AfterChar('[', Quoted(a.orgId) + ("," + a1), Quoted(b.orgId) + ("," + b1));
    QuotedIsReadable(a.orgId, b.orgId, "," + a1, "," + b1);
    AfterChar(',', a1, b1);
    QuotedIsReadable(a.workflowDefinitionId, b.workflowDefinitionId, "," + a2, "," + b2);
    AfterChar(',', a2, b2);
    QuotedIsReadable(a.nodeId, b.nodeId, "," + a3, "," + b3);
    AfterChar(',', a3, b3);
    QuotedIsReadable(a.toolName, b.toolName, "]", "]");
  }

  // ---- Ids

  /** The hash is a parameter; all that is asked of it is that it keeps different texts apart. */
  ghost predicate Injective(digest: string -> string) {
    forall a, b :: digest(a) == digest(b) ==> a == b
  }

  function GrantId(digest: string -> string, s: Scope): string {
    "tool-approval:" + digest(Canonical(s))
  }

  function ConsumptionId(digest: string -> string, s: Scope): string {
    "tool-approval-consumption:" + digest(Canonical(s))
  }

  /** Well-formed scopes never share a marker; any two scopes share one exactly when their merged texts agree. */
  lemma SameMarkerIffMerged(digest: string -> string, a: Scope, b: Scope)
    requires Injective(digest)
    ensures ConsumptionId(digest, a) == ConsumptionId(digest, b) <==> Merged(a) == Merged(b)
    ensures GrantId(digest, a) == GrantId(digest, b) <==> Merged(a) == Merged(b)
    ensures WellFormed(a) && WellFormed(b) && ConsumptionId(digest, a) == ConsumptionId(digest, b) ==> a == b
  {
    CanonicalIffMerged(a, b);
    var g, c := "tool-approval:", "tool-approval-consumption:";
    assert GrantId(digest, a)[|g|..] == digest(Canonical(a)) && GrantId(digest, b)[|g|..] == digest(Canonical(b));
    assert ConsumptionId(digest, a)[|c|..] == digest(Canonical(a)) && ConsumptionId(digest, b)[|c|..] == digest(Canonical(b));
    if WellFormed(a) && WellFormed(b) {
      MergeKeeps(a.orgId);
      MergeKeeps(a.workflowDefinitionId);
      MergeKeeps(a.nodeId);
      MergeKeeps(a.toolName);
      MergeKeeps(b.orgId);
      MergeKeeps(b.workflowDefinitionId);
      MergeKeeps(b.nodeId);
      MergeKeeps(b.toolName);
    }
  }

  /** The hypothesis is needed: U+1F600 and its surrogate pair are different strings with one marker. */
  lemma SplitPairsShareAMarker(digest: string -> string)
    ensures var a := Scope([0x1F600], [], [], []);
            var b := Scope([0xD83D, 0xDE00], [], [], []);
            a != b && ConsumptionId(digest, a) == ConsumptionId(digest, b)
  {
    var a := Scope([0x1F600], [], [], []);
    var b := Scope([0xD83D, 0xDE00], [], [], []);
    assert a.orgId[0] == 0x1F600;
    assert b.orgId[2..] == [];
    assert Merge(b.orgId) == [0x1F600] + Merge([]);
    assert Merge(a.orgId) == [0x1F600] + Merge(a.orgId[1..]);
    CanonicalIffMerged(a, b);
  }

  /** Whatever the hash, a grant row is never a consumption marker. */
  lemma GrantsAndMarkersAreApart(digest: string -> string, a: Scope, b: Scope)
    ensures GrantId(digest, a) != ConsumptionId(digest, b)
  {
    assert GrantId(digest, a)[13] == ':' && ConsumptionId(digest, b)[13] == '-';
  }

  // ---- The rows

  datatype Row =
    | Grant(category: string, scope: Scope, expiresAt: Option<real>)
    | Marker(scope: Scope, consumedBy: string, consumedAt: int, ttl: int)

  const GRANT_CATEGORY := "tool-approval"
  const CONSUMPTION_TTL_SECONDS := 90 * 86400

  /** The grant exists, is one, is for exactly this scope, and has not run out. */
  predicate GrantIsValid(row: Option<Row>, scope: Scope, now: real) {
    && row.Some? && row.value.Grant?
    && row.value.category == GRANT_CATEGORY
    && row.value.scope == scope
    && row.value.expiresAt.Some? && row.value.expiresAt.value > now
  }

  /** A grant is honoured from the moment it is there until its expiry, for its own scope; nothing else ever is. */
  lemma GrantLivesUntilExpiry(row: Option<Row>, scope: Scope, now: real)
    ensures GrantIsValid(row, scope, now)
      <==> exists expiry :: row == Some(Grant("tool-approval", scope, Some(expiry))) && now < expiry
  {
    if row.Some? && row.value.Grant? && row.value.expiresAt.Some? && GrantIsValid(row, scope, now) {
      assert row == Some(Grant("tool-approval", scope, Some(row.value.expiresAt.value)));
    }
  }

  /** Two scopes may share a grant's id; the grant is still honoured for the scope it names and no other. */
  lemma SharedIdIsNotSharedAuthority(digest: string -> string, rows: map<string, Row>, a: Scope, b: Scope, now: real)
    requires GrantId(digest, a) == GrantId(digest, b) && a != b && GrantId(digest, a) in rows
    requires GrantIsValid(Some(rows[GrantId(digest, a)]), a, now)
    ensures !GrantIsValid(Some(rows[GrantId(digest, b)]), b, now)
  {
  }

  // ---- Consumption: first write wins

  /** What may befall one write, besides being carried out. */
  datatype Fault = NoFault | NotWritten | ReplyLost

  datatype Reply = Won | AlreadyConsumed | ReadError

  /** put_item with attribute_not_exists, under a fault. */
  function PutNew(rows: map<string, Row>, id: string, row: Row, fault: Fault): (map<string, Row>, Reply) {
    if fault.NotWritten? then (rows, ReadError)
    else
      var after := if id in rows then rows else rows[id := row];
      (after, if fault.ReplyLost? then ReadError else if id in rows then AlreadyConsumed else Won)
  }

  class ApprovalTable {
    var rows: map<string, Row>

    constructor ()
      ensures rows == map[]
    {
      rows := map[];
    }

    /** Claims the scope for one execution. Nothing already stored changes. */
    method Consume(digest: string -> string, scope: Scope, execution: string, now: real, fault: Fault) returns (reply: Reply)
      modifies this
      ensures (rows, reply) == PutNew(old(rows), ConsumptionId(digest, scope),
                                      Marker(scope, execution, Trunc(now), Trunc(now) + CONSUMPTION_TTL_SECONDS), fault)
      ensures forall id :: id in old(rows) ==> id in rows && rows[id] == old(rows[id])
      ensures reply.Won? ==> ConsumptionId(digest, scope) !in old(rows)
                             && ConsumptionId(digest, scope) in rows && rows[ConsumptionId(digest, scope)].consumedBy == execution
      ensures reply.AlreadyConsumed? ==> ConsumptionId(digest, scope) in old(rows)
    {
      var id := ConsumptionId(digest, scope);
      var marker := Marker(scope, execution, Trunc(now), Trunc(now) + CONSUMPTION_TTL_SECONDS);
      if fault.NotWritten? {
        return ReadError;
      }
      var absent := id !in rows;
      if absent {
        rows := rows[id := marker];
      }
      if fault.ReplyLost? {
        return ReadError;
      }
      reply := if absent then Won else AlreadyConsumed;
    }
  }

  // ---- Every interleaving of callers

  /** One atomic write of any caller, in the order the table carries them out. */
  datatype Claim = Claim(id: string, scope: Scope, execution: string, now: real, fault: Fault)

  /** Every claim is made under the id of its scope. */
  ghost predicate Identified(digest: string -> string, claims: seq<Claim>) {
    forall c :: c in claims ==> c.id == ConsumptionId(digest, c.scope)
  }

  function MarkerOf(c: Claim): Row {
    Marker(c.scope, c.execution, Trunc(c.now), Trunc(c.now) + CONSUMPTION_TTL_SECONDS)
  }

  /** The table after the first `n` claims, starting from any table. */
  function TableAfter(rows: map<string, Row>, claims: seq<Claim>, n: nat): map<string, Row>
    requires n <= |claims|
  {
    if n == 0 then rows
    else PutNew(TableAfter(rows, claims, n - 1), claims[n - 1].id, MarkerOf(claims[n - 1]), claims[n - 1].fault).0
  }

  /** What claim `i` was told. */
  function ReplyTo(rows: map<string, Row>, claims: seq<Claim>, i: nat): Reply
    requires i < |claims|
  {
    PutNew(TableAfter(rows, claims, i), claims[i].id, MarkerOf(claims[i]), claims[i].fault).1
  }

  lemma {:induction false} RowsStay(rows: map<string, Row>, claims: seq<Claim>, i: nat, j: nat, id: string)
    requires i <= j <= |claims| && id in TableAfter(rows, claims, i)
    ensures id in TableAfter(rows, claims, j)
    ensures TableAfter(rows, claims, j)[id] == TableAfter(rows, claims, i)[id]
    decreases j - i
  {
    if i < j { RowsStay(rows, claims, i, j - 1, id); }
  }

  lemma LaterClaimsLose(rows: map<string, Row>, claims: seq<Claim>, i: nat, j: nat)
    requires i < j < |claims| && claims[i].id == claims[j].id && ReplyTo(rows, claims, i).Won?
    ensures !ReplyTo(rows, claims, j).Won?
  {
    assert claims[i].id in TableAfter(rows, claims, i + 1);
    RowsStay(rows, claims, i + 1, j, claims[i].id);
  }

  /** Of all the claims on one marker, in any order and under any faults, at most one is told that it won. */
  lemma AtMostOneWinner(rows: map<string, Row>, claims: seq<Claim>, i: nat, j: nat)
    requires i < |claims| && j < |claims| && claims[i].id == claims[j].id
    requires ReplyTo(rows, claims, i).Won? && ReplyTo(rows, claims, j).Won?
    ensures i == j
  {
    if i < j { LaterClaimsLose(rows, claims, i, j); }
    if j < i { LaterClaimsLose(rows, claims, j, i); }
  }

  /** So, whatever the hash, at most one of all the claims on one approval wins. */
  lemma OneWinnerPerApproval(digest: string -> string, rows: map<string, Row>, claims: seq<Claim>, i: nat, j: nat)
    requires Identified(digest, claims)
    requires i < |claims| && j < |claims| && claims[i].scope == claims[j].scope
    requires ReplyTo(rows, claims, i).Won? && ReplyTo(rows, claims, j).Won?
    ensures i == j
  {
    assert claims[i] in claims && claims[j] in claims;
    AtMostOneWinner(rows, claims, i, j);
  }

  /** The winner stays on record, whoever comes after. */
  lemma {:induction false} WinnerIsRecorded(rows: map<string, Row>, claims: seq<Claim>, i: nat, n: nat)
    requires i < n <= |claims| && ReplyTo(rows, claims, i).Won?
    ensures var c := claims[i];
      && c.id in TableAfter(rows, claims, n)
      && TableAfter(rows, claims, n)[c.id] == Marker(c.scope, c.execution, Trunc(c.now), Trunc(c.now) + 90 * 86400)
  {
    RowsStay(rows, claims, i + 1, n, claims[i].id);
  }

  /** A claim on a well-formed scope is refused only because that very approval was claimed before. */
  lemma RefusedOnlyIfClaimed(digest: string -> string, claims: seq<Claim>, i: nat)
    requires Injective(digest) && Identified(digest, claims) && forall c :: c in claims ==> WellFormed(c.scope)
    requires i < |claims| && ReplyTo(map[], claims, i).AlreadyConsumed?
    ensures exists k :: 0 <= k < i && claims[k].scope == claims[i].scope && !claims[k].fault.NotWritten?
  {
    var k := WhoWrote(claims, i, claims[i].id);
    assert claims[k] in claims && claims[i] in claims;
    SameMarkerIffMerged(digest, claims[k].scope, claims[i].scope);
  }

  lemma {:induction false} WhoWrote(claims: seq<Claim>, n: nat, id: string) returns (k: nat)
    requires n <= |claims| && id in TableAfter(map[], claims, n)
    ensures k < n && claims[k].id == id && !claims[k].fault.NotWritten?
  {
    if id in TableAfter(map[], claims, n - 1) {
      k := WhoWrote(claims, n - 1, id);
    } else {
      k := n - 1;
    }
  }
}
