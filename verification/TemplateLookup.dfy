/** Which part of a recorded output a path leads to, and how it is spelled out in a text. */
module TemplateLookup {
  import opened Common
  import opened JsonValues
  import opened TemplateGrammar
  import opened CompensationTemplate

  // ---- Spelling

  const UPPER := "ABCDEFGHIJKLMNOPQRSTUVWXYZ"
  const LOWER := "abcdefghijklmnopqrstuvwxyz"
  const DIGITS := "0123456789"

  lemma DigitsInWords(c: char)
    ensures IsDigit(c) <==> c in DIGITS
  {
    if IsDigit(c) { assert DIGITS[c as int - '0' as int] == c; }
  }

  lemma UpperInWords(c: char)
    ensures 'A' <= c <= 'Z' <==> c in UPPER
  {
    if 'A' <= c <= 'Z' { assert UPPER[c as int - 'A' as int] == c; }
  }

  lemma LowerInWords(c: char)
    ensures 'a' <= c <= 'z' <==> c in LOWER
  {
    if 'a' <= c <= 'z' { assert LOWER[c as int - 'a' as int] == c; }
  }

  predicate IsLetter(c: char) {
    c in UPPER || c in LOWER || c == '_'
  }

  /** Keys are ASCII identifiers and indices are digits: exactly these segments may stand in a path. */
  lemma SegmentsInWords(name: string, digits: string)
    ensures WellFormed(Key(name)) <==> |name| > 0 && IsLetter(name[0]) && forall c :: c in name ==> IsLetter(c) || c in DIGITS
    ensures WellFormed(Index(digits)) <==> |digits| > 0 && forall c :: c in digits ==> c in DIGITS
    ensures PrintOne(Key(name)) == "." + name && PrintOne(Index(digits)) == "[" + digits + "]"
  {
    forall c ensures (IsDigit(c) <==> c in DIGITS) && (IsIdentStart(c) <==> IsLetter(c)) {
      DigitsInWords(c);
      UpperInWords(c);
      LowerInWords(c);
    }
    hide IsDigit, IsIdentStart, IsLetter;
  }

  // ---- Numbers in paths

  lemma DecimalIsDigits(n: nat)
    ensures Decimal(n) != [] && forall c :: c in Decimal(n) ==> IsDigit(c)
  {
  }

  /** Reading a decimal number gives the number back. */
  lemma {:induction false} DecimalReadsBack(n: nat)
    ensures (forall c :: c in Decimal(n) ==> IsDigit(c)) && DigitsValue(Decimal(n)) == n
  {
    DecimalIsDigits(n);
    if n >= 10 {
      DecimalReadsBack(n / 10);
      assert Decimal(n)[..|Decimal(n)| - 1] == Decimal(n / 10);
    }
  }

  /** A leading zero changes nothing. */
  lemma {:induction false} LeadingZero(digits: string)
    requires forall c :: c in digits ==> IsDigit(c)
    ensures (forall c :: c in "0" + digits ==> IsDigit(c)) && DigitsValue("0" + digits) == DigitsValue(digits)
  {
    if digits == [] {
      assert "0" + digits == "0" && "0"[..0] == [] && DigitsValue([]) == 0;
    } else {
      var front := digits[..|digits| - 1];
      LeadingZero(front);
      assert ("0" + digits)[..|digits|] == "0" + front;
    }
  }

  // ---- One step further along a path

  lemma {:induction false} WalkFurther(node: Json, segs: seq<Segment>, seg: Segment)
    requires AllWellFormed(segs) && WellFormed(seg)
    ensures AllWellFormed(segs + [seg])
    ensures Walk(node, segs + [seg]) == if Walk(node, segs).Err? then Walk(node, segs) else Step(Walk(node, segs).value, seg)
    decreases |segs|
  {
    hide WellFormed, Step;
    if segs == [] {
      assert [] + [seg] == [seg] && [seg][1..] == [];
    } else {
      var next := Step(node, segs[0]);
      assert (segs + [seg])[0] == segs[0] && (segs + [seg])[1..] == segs[1..] + [seg];
      assert AllWellFormed(segs + [seg]);
      if next.Ok? { WalkFurther(next.value, segs[1..], seg); }
    }
  }

  lemma {:induction false} PrintFurther(segs: seq<Segment>, seg: Segment)
    ensures Print(segs + [seg]) == Print(segs) + PrintOne(seg)
  {
    hide PrintOne;
    if segs == [] {
      assert [] + [seg] == [seg] && [seg][1..] == [] && "" + PrintOne(seg) == PrintOne(seg) + "";
    } else {
      assert (segs + [seg])[0] == segs[0] && (segs + [seg])[1..] == segs[1..] + [seg];
      PrintFurther(segs[1..], seg);
      assert PrintOne(segs[0]) + (Print(segs[1..]) + PrintOne(seg)) == PrintOne(segs[0]) + Print(segs[1..]) + PrintOne(seg);
    }
  }

  /** A path that is spelled right is walked if the output is usable. */
  lemma PathIsWalked(output: Option<Json>, segs: seq<Segment>)
    requires AllWellFormed(segs)
    ensures Resolved(output, ROOT + Print(segs))
      == if CheckOutputUsable(output).Err? then CheckOutputUsable(output) else Walk(CheckOutputUsable(output).value, segs)
  {
    var body := ROOT + Print(segs);
    assert body[|ROOT|..] == Print(segs);
    ScanIffPrinted(body[|ROOT|..], segs);
  }

  lemma OneSegmentFurther(output: Option<Json>, segs: seq<Segment>, seg: Segment)
    requires AllWellFormed(segs) && WellFormed(seg)
    ensures ROOT <= ROOT + Print(segs) && ROOT <= ROOT + Print(segs) + PrintOne(seg)
    ensures Resolved(output, ROOT + Print(segs) + PrintOne(seg))
      == if Resolved(output, ROOT + Print(segs)).Err? then Resolved(output, ROOT + Print(segs))
         else Step(Resolved(output, ROOT + Print(segs)).value, seg)
  {
    hide Walk, Step, Resolved, CheckOutputUsable, WellFormed, PrintOne, Print;
    PathIsWalked(output, segs);
    if CheckOutputUsable(output).Ok? { WalkFurther(CheckOutputUsable(output).value, segs, seg); }
    AllStillWellFormed(segs, seg);
    PathIsWalked(output, segs + [seg]);
    PrintFurther(segs, seg);
    assert ROOT + (Print(segs) + PrintOne(seg)) == ROOT + Print(segs) + PrintOne(seg);
  }

  lemma AllStillWellFormed(segs: seq<Segment>, seg: Segment)
    requires AllWellFormed(segs) && WellFormed(seg)
    ensures AllWellFormed(segs + [seg])
  {
  }

  /**
   An index leads to exactly the element at that position of the array the path led to so far; it
   is out of range exactly from the array's length on, and anything but an array has no elements.
   */
  lemma IndexLeadsToElement(output: Option<Json>, segs: seq<Segment>, i: nat)
    requires AllWellFormed(segs)
    ensures var (path, longer) := (ROOT + Print(segs), ROOT + Print(segs) + "[" + Decimal(i) + "]");
      ROOT <= path && ROOT <= longer &&
      var (found, further) := (Resolved(output, path), Resolved(output, longer));
      && (found.Err? ==> further == found)
      && (found.Ok? && found.value.Arr? && i < |found.value.items| ==> further == Ok(found.value.items[i]))
      && (found.Ok? && found.value.Arr? && i >= |found.value.items| ==> further == Err(OutOfRange(i)))
      && (found.Ok? && !found.value.Arr? ==> further == Err(NotArray(i)))
  {
    DecimalIsDigits(i);
    DecimalReadsBack(i);
    hide Resolved, Walk, Print, Decimal, DigitsValue, AllWellFormed;
    OneSegmentFurther(output, segs, Index(Decimal(i)));
    assert ROOT + Print(segs) + ("[" + Decimal(i) + "]") == ROOT + Print(segs) + "[" + Decimal(i) + "]";
  }

  /** A key leads to the value of that key in the object the path led to so far, and is missing if no entry has it. */
  lemma KeyLeadsToMember(output: Option<Json>, segs: seq<Segment>, name: string, v: Json)
    requires AllWellFormed(segs) && WellFormed(Key(name))
    ensures var (path, longer) := (ROOT + Print(segs), ROOT + Print(segs) + "." + name);
      ROOT <= path && ROOT <= longer &&
      var (found, further) := (Resolved(output, path), Resolved(output, longer));
      && (found.Err? ==> further == found)
      && (found.Ok? && found.value.Obj? ==> (further == Ok(v) <==> FirstUnder(found.value.entries, name, v)))
      && (found.Ok? && found.value.Obj? ==> (further == Err(MissingKey(name))
            <==> KeyNotBefore(found.value.entries, name, |found.value.entries|)))
      && (found.Ok? && !found.value.Obj? ==> further == Err(NotObject(name)))
  {
    hide Resolved, Walk, Print, AllWellFormed;
    OneSegmentFurther(output, segs, Key(name));
    assert ROOT + Print(segs) + ("." + name) == ROOT + Print(segs) + "." + name;
    var found := Resolved(output, ROOT + Print(segs));
    if found.Ok? && found.value.Obj? { LookupFindsFirst(found.value.entries, name, v); }
  }

  // ---- The root

  /** What Python takes for false. */
  predicate IsEmpty(v: Json) {
    v in {Null, Bool(false), Int(0), Float("0.0"), Float("-0.0"), Str(""), Arr([]), Obj([])}
  }

  /** The object has a first entry of that key that is not empty. */
  ghost predicate Flagged(entries: seq<(string, Json)>, key: string) {
    exists v :: FirstUnder(entries, key, v) && !IsEmpty(v)
  }

  lemma FlaggedIffTruthy(entries: seq<(string, Json)>, key: string)
    ensures TruthyAt(entries, key) <==> Flagged(entries, key)
  {
    forall v ensures Lookup(entries, key) == Some(v) <==> FirstUnder(entries, key, v) {
      LookupFindsFirst(entries, key, v);
    }
  }

  /** The bare root leads to the output itself, if it is an object that is neither cut off nor kept elsewhere. */
  lemma RootLeadsToOutput(output: Option<Json>)
    ensures var found := Resolved(output, ROOT);
      && (output.None? || !output.value.Obj? ==> found == Err(Absent))
      && (output.Some? && output.value.Obj? ==> (
            var entries := output.value.entries;
            var elsewhere := Flagged(entries, "resultOffloaded") || !KeyNotBefore(entries, "resultRef", |entries|);
            && (found == Err(Truncated) <==> Flagged(entries, "resultTruncated"))
            && (found == Err(CompensationTemplate.Offloaded) <==> !Flagged(entries, "resultTruncated") && elsewhere)
            && (found == Ok(output.value) <==> !Flagged(entries, "resultTruncated") && !elsewhere)))
  {
    assert Print([]) == "" && ROOT + "" == ROOT;
    PathIsWalked(output, []);
    if output.Some? && output.value.Obj? {
      var entries := output.value.entries;
      FlaggedIffTruthy(entries, "resultTruncated");
      FlaggedIffTruthy(entries, "resultOffloaded");
      assert KeyNotBefore(entries, "resultRef", |entries|) <==> Lookup(entries, "resultRef").None?;
    }
  }

  // ---- The text of a value

  /** Integers are spelled in decimal digits, without needless zeros and with their sign; the rest as Python prints it. */
  lemma TextSpellsValue(i: int)
    ensures Text(Null) == "" && Text(Bool(true)) == "True" && Text(Bool(false)) == "False"
    ensures i >= 0 ==> Text(Int(i)) == Decimal(i)
    ensures i < 0 ==> Text(Int(i)) == "-" + Decimal(-i)
    ensures forall s :: Text(Str(s)) == s && Text(Float(s)) == s
    ensures var digits := Decimal(if i < 0 then -i else i);
      && (forall c :: c in digits ==> IsDigit(c)) && DigitsValue(digits) == (if i < 0 then -i else i)
      && (digits[0] == '0' ==> i == 0)
  {
    DecimalReadsBack(if i < 0 then -i else i);
    NoLeadingZero(if i < 0 then -i else i);
  }

  lemma {:induction false} NoLeadingZero(n: nat)
    ensures Decimal(n) != [] && (Decimal(n)[0] == '0' ==> n == 0)
  {
    if n >= 10 {
      NoLeadingZero(n / 10);
    }
  }

  // ---- A whole token

  /** A string that is one token and no more becomes what its path leads to, type and all, if that is a scalar. */
  lemma WholeTokenIsItsValue(output: Option<Json>, segs: seq<Segment>)
    requires AllWellFormed(segs)
    ensures ROOT <= ROOT + Print(segs)
    ensures var found := Resolved(output, ROOT + Print(segs));
      StringRendered("${" + ROOT + Print(segs) + "}", output)
        == if found.Ok? && (found.value.Arr? || found.value.Obj?) then Err(NonScalar) else found
  {
    var body := ROOT + Print(segs);
    var s := "${" + ROOT + Print(segs) + "}";
    assert body[|ROOT|..] == Print(segs);
    ScanIffPrinted(body[|ROOT|..], segs);
    assert IsPath(body);
    PathsArePlain(segs);
    assert s == "${" + body + "}";
    OneTokenOnly(s, body);
  }

  lemma {:induction false} PathsArePlain(segs: seq<Segment>)
    requires AllWellFormed(segs)
    ensures forall c :: c in Print(segs) ==> IsPlain(c)
  {
    if segs != [] {
      assert WellFormed(segs[0]);
      PathsArePlain(segs[1..]);
    }
  }

  lemma OneTokenOnly(s: string, body: string)
    requires s == "${" + body + "}" && forall c :: c in body ==> IsPlain(c)
    ensures Tokens(s, 0) == [Token(0, |s|)] && TokenAt(s, 0) == Some(|s|) && Body(s, Token(0, |s|)) == body
  {
    forall k | 2 <= k < |s| - 1 ensures IsPlain(s[k]) {
      assert s[k] == body[k - 2];
      assert s[k] in body;
    }
    assert s[0] == '$' && s[1] == '{' && s[|s| - 1] == '}';
    RunEnds(s, 2, IsPlain, |s| - 1);
    assert Tokens(s, 0) == [Token(0, |s|)] + Tokens(s, |s|);
    assert s[2..|s| - 1] == body;
  }
}
