/**
 The XML escaping used by the S3 shim: escaping is five whole-string replacements made one
 after the other, unescaping seven.  Strings are sequences of UTF-16 code units, as in JavaScript.
 */
module XmlEscape {

  type CodeUnit = u: int | 0 <= u < 0x1_0000
  type JsString = seq<CodeUnit>

  const AMP: CodeUnit := 38
  const LT: CodeUnit := 60
  const GT: CodeUnit := 62
  const QUOT: CodeUnit := 34
  const APOS: CodeUnit := 39
  const HASH: CodeUnit := 35
  const SEMICOLON: CodeUnit := 59
  const LOWER_X: CodeUnit := 120

  const SPECIALS: set<CodeUnit> := {AMP, LT, GT, QUOT, APOS}

  const MAX_CODE_POINT := 0x10_FFFF

  /** What String.fromCodePoint does to an out-of-range number is throw a RangeError. */
  datatype Outcome = Ok(text: JsString) | RangeError {
    function Prepend(head: JsString): Outcome {
      match this
      case Ok(text) => Ok(head + text)
      case RangeError => RangeError
    }
  }

  /** The predefined entity of a special character: &amp; &lt; &gt; &quot; &apos; */
  function Entity(c: CodeUnit): JsString
    requires c in SPECIALS
  {
    if c == AMP then [AMP, 97, 109, 112, SEMICOLON]
    else if c == LT then [AMP, 108, 116, SEMICOLON]
    else if c == GT then [AMP, 103, 116, SEMICOLON]
    else if c == QUOT then [AMP, 113, 117, 111, 116, SEMICOLON]
    else [AMP, 97, 112, 111, 115, SEMICOLON]
  }

  /** s.replace(/pat/g, rep) for a literal pattern: leftmost matches, without overlap. */
  function ReplaceAll(s: JsString, pat: JsString, rep: JsString): JsString
    requires pat != []
  {
    if |s| < |pat| then s
    else if s[..|pat|] == pat then rep + ReplaceAll(s[|pat|..], pat, rep)
    else [s[0]] + ReplaceAll(s[1..], pat, rep)
  }

  function EscapeXml(s: JsString): JsString {
    var s1 := ReplaceAll(s, [AMP], Entity(AMP));
    var s2 := ReplaceAll(s1, [LT], Entity(LT));
    var s3 := ReplaceAll(s2, [GT], Entity(GT));
    var s4 := ReplaceAll(s3, [QUOT], Entity(QUOT));
    ReplaceAll(s4, [APOS], Entity(APOS))
  }

  predicate IsDigit(c: CodeUnit, hex: bool) {
    48 <= c <= 57 || (hex && (65 <= c <= 70 || 97 <= c <= 102))
  }

  function DigitValue(c: CodeUnit): nat
    requires IsDigit(c, true)
  {
    if c <= 57 then c - 48 else if c <= 70 then c - 55 else c - 87
  }

  function DigitRun(s: JsString, hex: bool): (n: nat)
    ensures n <= |s|
  {
    if s == [] || !IsDigit(s[0], hex) then 0 else 1 + DigitRun(s[1..], hex)
  }

  function DigitsValue(s: JsString, hex: bool): nat
    requires forall i :: 0 <= i < |s| ==> IsDigit(s[i], true)
  {
    if s == [] then 0
    else DigitsValue(s[..|s| - 1], hex) * (if hex then 16 else 10) + DigitValue(s[|s| - 1])
  }

  lemma {:induction false} DigitRunIsDigits(s: JsString, hex: bool)
    ensures forall i :: 0 <= i < DigitRun(s, hex) ==> IsDigit(s[i], true)
  {
    if s != [] && IsDigit(s[0], hex) {
      DigitRunIsDigits(s[1..], hex);
      forall i | 0 <= i < DigitRun(s, hex) ensures IsDigit(s[i], true) {
        assert i > 0 ==> s[i] == s[1..][i - 1];
      }
    }
  }

  function Opener(hex: bool): JsString {
    if hex then [AMP, HASH, LOWER_X] else [AMP, HASH]
  }

  /** The length of the numeric reference that s starts with, 0 when it starts with none. */
  function NumericReference(s: JsString, hex: bool): (n: nat)
    ensures n <= |s|
  {
    var skip := |Opener(hex)|;
    if !(Opener(hex) <= s) then 0
    else
      var run := DigitRun(s[skip..], hex);
      if run == 0 || skip + run == |s| || s[skip + run] != SEMICOLON then 0
      else skip + run + 1
  }

  function FromCodePoint(v: nat): Outcome {
    if v > MAX_CODE_POINT then RangeError
    else if v < 0x1_0000 then Ok([v])
    else Ok([0xD800 + (v - 0x1_0000) / 0x400, 0xDC00 + (v - 0x1_0000) % 0x400])
  }

  /** One numeric pass: every &#x…; (hex) or &#…; (decimal) becomes its code point. */
  function DecodeNumeric(s: JsString, hex: bool): Outcome {
    if s == [] then Ok([])
    else
      var n := NumericReference(s, hex);
      if n == 0 then DecodeNumeric(s[1..], hex).Prepend([s[0]])
      else
        var digits := s[|Opener(hex)|..n - 1];
        assert forall i :: 0 <= i < |digits| ==> IsDigit(digits[i], true) by {
          DigitRunIsDigits(s[|Opener(hex)|..], hex);
        }
        match FromCodePoint(DigitsValue(digits, hex))
        case Ok(c) => DecodeNumeric(s[n..], hex).Prepend(c)
        case RangeError => RangeError
  }

  /** The five literal passes, &amp; last. */
  function DecodeNamed(s: JsString): JsString {
    var s1 := ReplaceAll(s, Entity(LT), [LT]);
    var s2 := ReplaceAll(s1, Entity(GT), [GT]);
    var s3 := ReplaceAll(s2, Entity(QUOT), [QUOT]);
    var s4 := ReplaceAll(s3, Entity(APOS), [APOS]);
    ReplaceAll(s4, Entity(AMP), [AMP])
  }

  function UnescapeXml(s: JsString): Outcome {
    match DecodeNumeric(s, true)
    case RangeError => RangeError
    case Ok(s1) =>
      match DecodeNumeric(s1, false)
      case RangeError => RangeError
      case Ok(s2) => Ok(DecodeNamed(s2))
  }

  /** Reference: one look at each character, the members of k written as their entity. */
  function Encode(s: JsString, k: set<CodeUnit>): JsString
    requires k <= SPECIALS
  {
    if s == [] then []
    else (if s[0] in k then Entity(s[0]) else [s[0]]) + Encode(s[1..], k)
  }

  // ----- ReplaceAll over concatenations

  lemma Regroup(a: JsString, b: JsString, c: JsString)
    ensures a + (b + c) == (a + b) + c
  {
  }

  /** Text in which the first character of the pattern does not occur passes through. */
  lemma {:induction false} ReplaceSkips(a: JsString, b: JsString, pat: JsString, rep: JsString)
    requires pat != [] && pat[0] !in a
    ensures ReplaceAll(a + b, pat, rep) == a + ReplaceAll(b, pat, rep)
  {
    if a == [] {
      assert a + b == b;
    } else {
      ReplaceSkips(a[1..], b, pat, rep);
      assert (a + b)[0] == a[0] && (a + b)[1..] == a[1..] + b;
      if |a + b| < |pat| {
        assert a + b == a + ReplaceAll(b, pat, rep);
      } else {
        assert (a + b)[..|pat|][0] == a[0];
        assert [a[0]] + (a[1..] + ReplaceAll(b, pat, rep)) == a + ReplaceAll(b, pat, rep);
      }
    }
  }

  lemma ReplaceMatches(b: JsString, pat: JsString, rep: JsString)
    requires pat != []
    ensures ReplaceAll(pat + b, pat, rep) == rep + ReplaceAll(b, pat, rep)
  {
    assert (pat + b)[..|pat|] == pat && (pat + b)[|pat|..] == b;
  }

  lemma NoMatchAtFront(d: CodeUnit, c: CodeUnit, b: JsString)
    requires d in SPECIALS && c in SPECIALS && d != c
    ensures !(Entity(c) <= Entity(d) + b)
  {
    var whole := Entity(d) + b;
    assert whole[1] == Entity(d)[1] && whole[2] == Entity(d)[2];
  }

  /** The entity of d is not touched by a pass that looks for the entity of c. */
  lemma OtherEntityPasses(d: CodeUnit, c: CodeUnit, b: JsString)
    requires d in SPECIALS && c in SPECIALS && d != c
    ensures ReplaceAll(Entity(d) + b, Entity(c), [c]) == Entity(d) + ReplaceAll(b, Entity(c), [c])
  {
    NoMatchAtFront(d, c, b);
    StepPasses(Entity(d), b, Entity(c), [c]);
  }

  lemma NoMatchStep(a: CodeUnit, w: JsString, pat: JsString, rep: JsString)
    requires pat != [] && !(pat <= [a] + w)
    ensures ReplaceAll([a] + w, pat, rep) == [a] + ReplaceAll(w, pat, rep)
  {
    var whole := [a] + w;
    assert whole[0] == a && whole[1..] == w;
    if |whole| >= |pat| {
      assert whole[..|pat|] != pat;
    }
  }

  /** A block in which only the front could start a match, and does not. */
  lemma StepPasses(e: JsString, b: JsString, pat: JsString, rep: JsString)
    requires e != [] && pat != [] && pat[0] !in e[1..] && !(pat <= e + b)
    ensures ReplaceAll(e + b, pat, rep) == e + ReplaceAll(b, pat, rep)
  {
    var a, tail := [e[0]], e[1..];
    assert e == a + tail;
    Regroup(a, tail, b);
    NoMatchStep(e[0], tail + b, pat, rep);
    ReplaceSkips(tail, b, pat, rep);
    Regroup(a, tail, ReplaceAll(b, pat, rep));
  }

  // ----- Escaping is the per-character map, because & goes first

  lemma {:induction false} EscapePass(s: JsString, k: set<CodeUnit>, c: CodeUnit)
    requires k <= SPECIALS && c in SPECIALS && c !in k
    requires c == AMP ==> k == {}
    ensures ReplaceAll(Encode(s, k), [c], Entity(c)) == Encode(s, k + {c})
  {
    if s != [] {
      EscapePass(s[1..], k, c);
      var tail := Encode(s[1..], k);
      if s[0] == c {
        ReplaceMatches(tail, [c], Entity(c));
      } else if s[0] in k {
        ReplaceSkips(Entity(s[0]), tail, [c], Entity(c));
      } else {
        ReplaceSkips([s[0]], tail, [c], Entity(c));
      }
    }
  }

  lemma {:induction false} EncodeNothing(s: JsString)
    ensures Encode(s, {}) == s
  {
    if s != [] {
      EncodeNothing(s[1..]);
    }
  }

  /** Five sequential passes equal one per-character map. */
  lemma EscapeIsCharacterMap(s: JsString)
    ensures EscapeXml(s) == Encode(s, SPECIALS)
  {
    EncodeNothing(s);
    EscapePass(s, {}, AMP);
    EscapePass(s, {AMP}, LT);
    EscapePass(s, {AMP, LT}, GT);
    EscapePass(s, {AMP, LT, GT}, QUOT);
    EscapePass(s, {AMP, LT, GT, QUOT}, APOS);
    assert {} + {AMP} == {AMP};
    assert {AMP} + {LT} == {AMP, LT};
    assert {AMP, LT} + {GT} == {AMP, LT, GT};
    assert {AMP, LT, GT} + {QUOT} == {AMP, LT, GT, QUOT};
    assert {AMP, LT, GT, QUOT} + {APOS} == SPECIALS;
  }

  // ----- What the passes look for

  /** The UTF-16 code units of an ASCII text. */
  function Units(text: string): JsString
    requires forall i :: 0 <= i < |text| ==> text[i] < 128 as char
  {
    seq(|text|, i requires 0 <= i < |text| => text[i] as int)
  }

  lemma Markup()
    ensures Entity(AMP) == Units("&amp;") && [AMP] == Units("&")
    ensures Entity(LT) == Units("&lt;") && [LT] == Units("<")
    ensures Entity(GT) == Units("&gt;") && [GT] == Units(">")
    ensures Entity(QUOT) == Units("&quot;") && [QUOT] == Units("\"")
    ensures Entity(APOS) == Units("&apos;") && [APOS] == Units("'")
    ensures Opener(true) == Units("&#x") && Opener(false) == Units("&#") && [SEMICOLON] == Units(";")
  {
  }

  /** The character c stands for the digit k, in either case. */
  predicate Shows(c: CodeUnit, k: nat) {
    if k < 10 then c == '0' as int + k else k < 16 && (c == 'a' as int + k - 10 || c == 'A' as int + k - 10)
  }

  /** The digits write the number v in base 16 or 10, with any number of leading zeros. */
  predicate Denotes(digits: JsString, v: nat, hex: bool) {
    if digits == [] then v == 0
    else
      var front, last := digits[..|digits| - 1], digits[|digits| - 1];
      if hex then Shows(last, v % 16) && Denotes(front, v / 16, hex)
      else Shows(last, v % 10) && Denotes(front, v / 10, hex)
  }

  /** The code units u, one of the basic plane or a surrogate pair, are read back as the code point v. */
  predicate Reads(u: JsString, v: nat) {
    || (|u| == 1 && v == u[0])
    || (|u| == 2 && 0xD800 <= u[0] < 0xDC00 <= u[1] < 0xE000
        && (var high: int, low: int := u[0], u[1]; v == 0x1_0000 + 0x400 * (high - 0xD800) + (low - 0xDC00)))
  }

  predicate AreDigits(s: JsString, hex: bool) {
    forall i :: 0 <= i < |s| ==> IsDigit(s[i], hex)
  }

  predicate IsReference(s: JsString, hex: bool) {
    var skip := |Opener(hex)|;
    && |s| > skip + 1 && Opener(hex) <= s && s[|s| - 1] == SEMICOLON
    && AreDigits(s[skip..|s| - 1], hex)
  }

  /** String.fromCodePoint gives the one text that reads back as v, and throws when there is none. */
  lemma CodePointExactly(v: nat, u: JsString)
    ensures Reads(u, v) <==> FromCodePoint(v) == Ok(u)
  {
    if Reads(u, v) && |u| == 2 {
      var high: int, low: int, k := u[0] - 0xD800, u[1] - 0xDC00, v - 0x1_0000;
      assert k / 0x400 == high && k % 0x400 == low;
    }
  }

  lemma {:induction false} DigitsDenote(digits: JsString, v: nat, hex: bool)
    ensures Denotes(digits, v, hex) <==> AreDigits(digits, hex) && DigitsValue(digits, hex) == v
  {
    if digits != [] {
      var front, last := digits[..|digits| - 1], digits[|digits| - 1];
      DigitsDenote(front, if hex then v / 16 else v / 10, hex);
      assert digits == front + [last];
    }
  }

  lemma {:induction false} DigitRunOf(digits: JsString, s: JsString, hex: bool)
    requires AreDigits(digits, hex) && (s == [] || !IsDigit(s[0], hex))
    ensures DigitRun(digits + s, hex) == |digits|
  {
    if digits == [] {
      assert digits + s == s;
    } else {
      DigitRunOf(digits[1..], s, hex);
      assert (digits + s)[1..] == digits[1..] + s;
    }
  }

  /** The search of a numeric pass succeeds at the front of a text exactly when a reference stands there. */
  lemma ReferenceFound(e: JsString, s: JsString, hex: bool)
    requires IsReference(e, hex)
    ensures NumericReference(e + s, hex) == |e|
  {
    var skip := |Opener(hex)|;
    var digits := e[skip..|e| - 1];
    var rest := [SEMICOLON] + s;
    DigitRunOf(digits, rest, hex);
    assert (e + s)[skip..] == digits + rest;
  }

  lemma FoundReference(s: JsString, hex: bool)
    requires NumericReference(s, hex) > 0
    ensures IsReference(s[..NumericReference(s, hex)], hex)
  {
    var skip := |Opener(hex)|;
    DigitRunTakesDigits(s[skip..], hex);
    var run := DigitRun(s[skip..], hex);
    var e := s[..skip + run + 1];
    assert NumericReference(s, hex) == |e|;
    assert e[skip..skip + run] == s[skip..][..run];
    assert e[..skip] == s[..skip];
  }

  lemma {:induction false} DigitRunTakesDigits(s: JsString, hex: bool)
    ensures AreDigits(s[..DigitRun(s, hex)], hex)
  {
    if s != [] && IsDigit(s[0], hex) {
      DigitRunTakesDigits(s[1..], hex);
      assert s[..DigitRun(s, hex)] == [s[0]] + s[1..][..DigitRun(s[1..], hex)];
    }
  }

  function Reference(digits: JsString, hex: bool): JsString {
    Opener(hex) + digits + [SEMICOLON]
  }

  /** A numeric reference, whatever its zeros and the case of its letters, is replaced by its code point. */
  lemma ReferenceDecodes(digits: JsString, v: nat, hex: bool, s: JsString)
    requires digits != [] && Denotes(digits, v, hex)
    ensures v > 0x10_FFFF ==> DecodeNumeric(Reference(digits, hex) + s, hex) == RangeError
    ensures v <= 0x10_FFFF ==>
              exists u ::
                Reads(u, v) && DecodeNumeric(Reference(digits, hex) + s, hex) == DecodeNumeric(s, hex).Prepend(u)
  {
    var e := Reference(digits, hex);
    DigitsDenote(digits, v, hex);
    assert e[|Opener(hex)|..|e| - 1] == digits;
    ReferenceFound(e, s, hex);
    assert (e + s)[|Opener(hex)|..|e| - 1] == digits && (e + s)[|e|..] == s;
    if v <= 0x10_FFFF {
      CodePointExactly(v, FromCodePoint(v).text);
    }
  }

  /** Every reference is the reference of one number. */
  lemma ReferenceHasOneNumber(e: JsString, hex: bool)
    requires IsReference(e, hex)
    ensures exists digits, v :: digits != [] && Denotes(digits, v, hex) && e == Reference(digits, hex)
    ensures forall digits, v, w :: Denotes(digits, v, hex) && Denotes(digits, w, hex) ==> v == w
  {
    var skip := |Opener(hex)|;
    var digits := e[skip..|e| - 1];
    DigitsDenote(digits, DigitsValue(digits, hex), hex);
    assert e == Reference(digits, hex);
    forall d, v, w | Denotes(d, v, hex) && Denotes(d, w, hex) ensures v == w {
      DigitsDenote(d, v, hex);
      DigitsDenote(d, w, hex);
    }
  }

  // ----- Text in which every character is written in one of the ways XML allows

  /** Text as it stands, a special character as its entity, or a character as a reference. */
  datatype Item =
    | Plain(text: JsString)
    | Named(c: CodeUnit)
    | Numbered(digits: JsString, v: nat, hex: bool, u: JsString)

  predicate ValidItem(x: Item) {
    match x
    case Plain(text) => true
    case Named(c) => c in SPECIALS
    case Numbered(digits, v, hex, u) => digits != [] && Denotes(digits, v, hex) && Reads(u, v)
  }

  function ItemText(x: Item): JsString {
    match x
    case Plain(text) => text
    case Named(c) => [c]
    case Numbered(_, _, _, u) => u
  }

  function Written(x: Item): JsString {
    match x
    case Plain(text) => text
    case Named(c) => if c in SPECIALS then Entity(c) else [c]
    case Numbered(digits, _, hex, _) => Reference(digits, hex)
  }

  function TextOf(xs: seq<Item>): JsString {
    if xs == [] then [] else ItemText(xs[0]) + TextOf(xs[1..])
  }

  function Spelling(xs: seq<Item>): JsString {
    if xs == [] then [] else Written(xs[0]) + Spelling(xs[1..])
  }

  predicate AreValid(xs: seq<Item>) {
    forall x :: x in xs ==> ValidItem(x)
  }

  /** No & stands as it is. */
  predicate AmpersandsWritten(xs: seq<Item>) {
    forall x :: x in xs && x.Plain? ==> AMP !in x.text
  }

  // ----- The numeric passes

  /** What one numeric pass leaves of an item. */
  function Decoded(x: Item, hex: bool): Item {
    if x.Numbered? && x.hex == hex then Plain(x.u) else x
  }

  function AllDecoded(xs: seq<Item>, hex: bool): (r: seq<Item>)
    ensures |r| == |xs| && forall i :: 0 <= i < |xs| ==> r[i] == Decoded(xs[i], hex)
  {
    if xs == [] then [] else [Decoded(xs[0], hex)] + AllDecoded(xs[1..], hex)
  }

  lemma NumericSkipsOne(a: CodeUnit, s: JsString, hex: bool)
    requires a != AMP
    ensures DecodeNumeric([a] + s, hex) == DecodeNumeric(s, hex).Prepend([a])
  {
    assert ([a] + s)[0] == a && ([a] + s)[1..] == s;
  }

  lemma {:induction false} NumericSkips(a: JsString, s: JsString, hex: bool)
    requires AMP !in a
    ensures DecodeNumeric(a + s, hex) == DecodeNumeric(s, hex).Prepend(a)
  {
    if a == [] {
      assert a + s == s;
      PrependNothing(DecodeNumeric(s, hex));
    } else {
      NumericSkips(a[1..], s, hex);
      NumericSkipsOne(a[0], a[1..] + s, hex);
      assert a == [a[0]] + a[1..];
      Regroup([a[0]], a[1..], s);
      PrependTwice(DecodeNumeric(s, hex), [a[0]], a[1..]);
    }
  }

  lemma PrependNothing(r: Outcome)
    ensures r.Prepend([]) == r
  {
    if r.Ok? {
      assert [] + r.text == r.text;
    }
  }

  lemma PrependTwice(r: Outcome, a: JsString, b: JsString)
    ensures r.Prepend(b).Prepend(a) == r.Prepend(a + b)
  {
    if r.Ok? {
      assert a + (b + r.text) == (a + b) + r.text;
    }
  }

  /** Markup that is not a reference of the pass goes through. */
  lemma NumericPasses(e: JsString, s: JsString, hex: bool)
    requires e != [] && AMP !in e[1..] && NumericReference(e + s, hex) == 0
    ensures DecodeNumeric(e + s, hex) == DecodeNumeric(s, hex).Prepend(e)
  {
    assert (e + s)[1..] == e[1..] + s;
    NumericSkips(e[1..], s, hex);
    PrependTwice(DecodeNumeric(s, hex), [e[0]], e[1..]);
    assert [e[0]] + e[1..] == e;
  }

  lemma EntityIsNoReference(c: CodeUnit, s: JsString, hex: bool)
    requires c in SPECIALS
    ensures NumericReference(Entity(c) + s, hex) == 0 && AMP !in Entity(c)[1..]
  {
    assert (Entity(c) + s)[1] == Entity(c)[1] != HASH;
  }

  lemma OtherReferencePasses(digits: JsString, hex: bool, s: JsString)
    requires digits != [] && AreDigits(digits, hex)
    ensures NumericReference(Reference(digits, hex) + s, !hex) == 0 && AMP !in Reference(digits, hex)[1..]
  {
    var e := Reference(digits, hex);
    if hex {
      assert (e + s)[2..][0] == LOWER_X;
    } else {
      assert e[2] == digits[0];
      assert (e + s)[2] == digits[0] != LOWER_X;
    }
  }

  lemma NumberedDecodes(x: Item, s: JsString)
    requires ValidItem(x) && x.Numbered?
    ensures DecodeNumeric(Written(x) + s, x.hex) == DecodeNumeric(s, x.hex).Prepend(x.u)
  {
    ReferenceDecodes(x.digits, x.v, x.hex, s);
    CodePointExactly(x.v, x.u);
    var u :| Reads(u, x.v) && DecodeNumeric(Written(x) + s, x.hex) == DecodeNumeric(s, x.hex).Prepend(u);
    CodePointExactly(x.v, u);
  }

  lemma ItemDecodes(x: Item, s: JsString, hex: bool)
    requires ValidItem(x) && (x.Plain? ==> AMP !in x.text)
    ensures DecodeNumeric(Written(x) + s, hex) == DecodeNumeric(s, hex).Prepend(Written(Decoded(x, hex)))
  {
    match x
    case Plain(text) => NumericSkips(text, s, hex);
    case Named(c) =>
      EntityIsNoReference(c, s, hex);
      NumericPasses(Entity(c), s, hex);
    case Numbered(digits, v, h, u) =>
      if h == hex {
        NumberedDecodes(x, s);
      } else {
        DigitsDenote(digits, v, h);
        OtherReferencePasses(digits, h, s);
        NumericPasses(Written(x), s, hex);
      }
  }

  /** A numeric pass decodes exactly the references of its base. */
  lemma {:induction false} NumericPass(xs: seq<Item>, hex: bool)
    requires AreValid(xs) && AmpersandsWritten(xs)
    ensures DecodeNumeric(Spelling(xs), hex) == Ok(Spelling(AllDecoded(xs, hex)))
  {
    if xs != [] {
      assert xs[0] in xs && forall x :: x in xs[1..] ==> x in xs;
      NumericPass(xs[1..], hex);
      ItemDecodes(xs[0], Spelling(xs[1..]), hex);
      assert AllDecoded(xs, hex)[1..] == AllDecoded(xs[1..], hex);
    }
  }

  lemma {:induction false} SameText(xs: seq<Item>, ys: seq<Item>)
    requires |xs| == |ys| && forall k :: 0 <= k < |xs| ==> ItemText(xs[k]) == ItemText(ys[k])
    ensures TextOf(xs) == TextOf(ys)
  {
    if xs != [] {
      SameText(xs[1..], ys[1..]);
    }
  }

  lemma {:induction false} PlainSpelling(xs: seq<Item>)
    requires forall x :: x in xs ==> x.Plain?
    ensures Spelling(xs) == TextOf(xs)
  {
    if xs != [] {
      assert xs[0] in xs;
      PlainSpelling(xs[1..]);
    }
  }

  // ----- The named passes, &amp; last

  function Settled(x: Item, c: CodeUnit): Item {
    if x == Named(c) then Plain([c]) else x
  }

  function AllSettled(xs: seq<Item>, c: CodeUnit): (r: seq<Item>)
    ensures |r| == |xs| && forall i :: 0 <= i < |xs| ==> r[i] == Settled(xs[i], c)
  {
    if xs == [] then [] else [Settled(xs[0], c)] + AllSettled(xs[1..], c)
  }

  /** Text and the entities of k are left, and no & stands as it is. */
  predicate OnlyNamed(xs: seq<Item>, k: set<CodeUnit>) {
    k <= SPECIALS && forall x :: x in xs ==> if x.Plain? then AMP !in x.text else x.Named? && x.c in k
  }

  lemma ItemSettles(x: Item, tail: JsString, c: CodeUnit)
    requires c in SPECIALS && if x.Plain? then AMP !in x.text else x.Named? && x.c in SPECIALS
    ensures ReplaceAll(Written(x) + tail, Entity(c), [c]) == Written(Settled(x, c)) + ReplaceAll(tail, Entity(c), [c])
  {
    if x.Plain? {
      ReplaceSkips(x.text, tail, Entity(c), [c]);
    } else if x.c == c {
      ReplaceMatches(tail, Entity(c), [c]);
    } else {
      OtherEntityPasses(x.c, c, tail);
    }
  }

  lemma {:induction false} NamedPass(xs: seq<Item>, k: set<CodeUnit>, c: CodeUnit)
    requires OnlyNamed(xs, k) && c in SPECIALS
    ensures ReplaceAll(Spelling(xs), Entity(c), [c]) == Spelling(AllSettled(xs, c))
    ensures TextOf(AllSettled(xs, c)) == TextOf(xs)
  {
    SameText(AllSettled(xs, c), xs);
    if xs != [] {
      assert OnlyNamed(xs[1..], k);
      NamedPass(xs[1..], k, c);
      assert xs[0] in xs;
      ItemSettles(xs[0], Spelling(xs[1..]), c);
      assert AllSettled(xs, c)[1..] == AllSettled(xs[1..], c);
    }
  }

  lemma SettledIsLess(xs: seq<Item>, k: set<CodeUnit>, c: CodeUnit)
    requires OnlyNamed(xs, k) && c in SPECIALS && c != AMP
    ensures OnlyNamed(AllSettled(xs, c), k - {c})
  {
  }

  lemma AllNamedDecode(xs: seq<Item>)
    requires OnlyNamed(xs, SPECIALS)
    ensures DecodeNamed(Spelling(xs)) == TextOf(xs)
  {
    var x1 := AllSettled(xs, LT);
    NamedPass(xs, SPECIALS, LT);
    SettledIsLess(xs, SPECIALS, LT);
    var x2 := AllSettled(x1, GT);
    NamedPass(x1, SPECIALS - {LT}, GT);
    SettledIsLess(x1, SPECIALS - {LT}, GT);
    var x3 := AllSettled(x2, QUOT);
    NamedPass(x2, SPECIALS - {LT} - {GT}, QUOT);
    SettledIsLess(x2, SPECIALS - {LT} - {GT}, QUOT);
    var x4 := AllSettled(x3, APOS);
    NamedPass(x3, SPECIALS - {LT} - {GT} - {QUOT}, APOS);
    SettledIsLess(x3, SPECIALS - {LT} - {GT} - {QUOT}, APOS);
    var k := SPECIALS - {LT} - {GT} - {QUOT} - {APOS};
    assert k == {AMP};
    NamedPass(x4, k, AMP);
    PlainSpelling(AllSettled(x4, AMP));
  }

  lemma DecodedIsValid(xs: seq<Item>, hex: bool)
    requires AreValid(xs) && AmpersandsWritten(xs)
    requires forall x :: x in xs && x.Numbered? ==> AMP !in x.u
    ensures var r := AllDecoded(xs, hex);
            && AreValid(r) && AmpersandsWritten(r)
            && (forall x :: x in r && x.Numbered? ==> AMP !in x.u && x.hex == !hex && x in xs)
  {
    var r := AllDecoded(xs, hex);
    forall x | x in r
      ensures ValidItem(x)
      ensures if x.Plain? then AMP !in x.text else x.Numbered? ==> AMP !in x.u && x.hex == !hex && x in xs
    {
      var i :| 0 <= i < |r| && r[i] == x;
      assert x == Decoded(xs[i], hex) && xs[i] in xs;
    }
  }

  lemma OnlyNamesAreLeft(xs: seq<Item>)
    requires AreValid(xs) && AmpersandsWritten(xs)
    requires forall x :: x in xs && x.Numbered? ==> AMP !in x.u && !x.hex
    ensures OnlyNamed(AllDecoded(xs, false), SPECIALS)
  {
    DecodedIsValid(xs, false);
    var r := AllDecoded(xs, false);
    forall x | x in r ensures if x.Plain? then AMP !in x.text else x.Named? && x.c in SPECIALS {
      assert ValidItem(x);
      assert x.Numbered? ==> x in xs;
    }
  }

  /**
   Every character may be written as it stands, as its entity or as a numeric reference in either base.  The
   text comes back whenever & is written only as &amp;.
   */
  lemma AnySpellingComesBack(xs: seq<Item>)
    requires AreValid(xs) && AmpersandsWritten(xs)
    requires forall x :: x in xs && x.Numbered? ==> AMP !in x.u
    ensures UnescapeXml(Spelling(xs)) == Ok(TextOf(xs))
  {
    NumericPass(xs, true);
    SameText(AllDecoded(xs, true), xs);
    DecodedIsValid(xs, true);
    var halfway := AllDecoded(xs, true);
    NumericPass(halfway, false);
    SameText(AllDecoded(halfway, false), halfway);
    OnlyNamesAreLeft(halfway);
    AllNamedDecode(AllDecoded(halfway, false));
  }

  /** Escaped text is one of these spellings. */
  lemma {:induction false} EncodingIsASpelling(s: JsString) returns (xs: seq<Item>)
    ensures AreValid(xs) && AmpersandsWritten(xs) && forall x :: x in xs ==> !x.Numbered?
    ensures Spelling(xs) == Encode(s, SPECIALS) && TextOf(xs) == s
  {
    if s == [] {
      xs := [];
    } else {
      var tail := EncodingIsASpelling(s[1..]);
      xs := [if s[0] in SPECIALS then Named(s[0]) else Plain([s[0]])] + tail;
      assert xs[1..] == tail;
    }
  }

  /** Unescaping undoes escaping, for every string of code units. */
  lemma UnescapeUndoesEscape(s: JsString)
    ensures UnescapeXml(EscapeXml(s)) == Ok(s)
  {
    EscapeIsCharacterMap(s);
    var xs := EncodingIsASpelling(s);
    AnySpellingComesBack(xs);
  }

  /** Escaped text holds none of < > " ' and so can stand inside an element or an attribute. */
  lemma {:induction false} EscapedTextIsInert(s: JsString)
    ensures forall c :: c in EscapeXml(s) ==> c !in SPECIALS - {AMP}
  {
    EscapeIsCharacterMap(s);
    EncodedTextIsInert(s);
  }

  lemma {:induction false} EncodedTextIsInert(s: JsString)
    ensures forall c :: c in Encode(s, SPECIALS) ==> c !in SPECIALS - {AMP}
  {
    if s != [] {
      EncodedTextIsInert(s[1..]);
      var head := if s[0] in SPECIALS then Entity(s[0]) else [s[0]];
      assert forall c :: c in head ==> c !in SPECIALS - {AMP};
    }
  }
}
