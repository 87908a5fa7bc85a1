/**
 Text of which every character is written as a numeric reference.  The passes decode one after the other, so
 what one of them makes can be decoded again by a later one.
 */
module XmlReferences {
  import opened XmlEscape

  ghost predicate Occurs(part: JsString, s: JsString) {
    exists i :: 0 <= i <= |s| && part <= s[i..]
  }

  ghost predicate HasEntity(s: JsString) {
    exists c :: c in SPECIALS && Occurs(Entity(c), s)
  }

  predicate AllPlain(xs: seq<Item>) {
    forall x :: x in xs ==> x.Plain?
  }

  /** Text that stands as it is makes up a decimal reference. */
  predicate TrapAt(xs: seq<Item>, i: int, j: int) {
    0 <= i < j <= |xs| && AllPlain(xs[i..j]) && IsReference(TextOf(xs[i..j]), false)
  }

  ghost predicate Trap(xs: seq<Item>) {
    exists i, j :: TrapAt(xs, i, j)
  }

  ghost predicate TrapAtFront(xs: seq<Item>) {
    exists j :: TrapAt(xs, 0, j)
  }

  lemma TrapMoves(xs: seq<Item>, i: int, j: int)
    requires xs != []
    ensures TrapAt(xs[1..], i, j) <==> i >= 0 && TrapAt(xs, i + 1, j + 1)
  {
    if 0 <= i < j < |xs| {
      assert xs[1..][i..j] == xs[i + 1..j + 1];
    }
  }

  lemma TrapStep(xs: seq<Item>)
    requires xs != []
    ensures Trap(xs) <==> TrapAtFront(xs) || Trap(xs[1..])
  {
    if i, j :| TrapAt(xs, i, j) && i > 0 {
      TrapMoves(xs, i - 1, j - 1);
    }
    if i, j :| TrapAt(xs[1..], i, j) {
      TrapMoves(xs, i, j);
    }
  }

  lemma Slices(xs: seq<Item>, j: nat)
    requires 0 < j <= |xs|
    ensures xs[..j][1..] == xs[1..][..j - 1] && xs[1..][j - 1..] == xs[j..] && xs[..j][0] == xs[0]
  {
  }

  lemma {:induction false} SpellingSplits(xs: seq<Item>, j: nat)
    requires j <= |xs|
    ensures Spelling(xs) == Spelling(xs[..j]) + Spelling(xs[j..])
  {
    if j == 0 {
      assert xs[j..] == xs;
    } else {
      SpellingSplits(xs[1..], j - 1);
      Slices(xs, j);
      Regroup(Written(xs[0]), Spelling(xs[1..][..j - 1]), Spelling(xs[j..]));
    }
  }

  lemma {:induction false} TextSplits(xs: seq<Item>, j: nat)
    requires j <= |xs|
    ensures TextOf(xs) == TextOf(xs[..j]) + TextOf(xs[j..])
  {
    if j == 0 {
      assert xs[j..] == xs;
    } else {
      TextSplits(xs[1..], j - 1);
      Slices(xs, j);
      Regroup(ItemText(xs[0]), TextOf(xs[1..][..j - 1]), TextOf(xs[j..]));
    }
  }

  /** A decoded character, or a decimal reference. */
  ghost predicate HalfDecoded(x: Item) {
    if x.Plain? then exists v :: Reads(x.text, v) else x.Numbered? && !x.hex && ValidItem(x)
  }

  ghost predicate AreHalfDecoded(xs: seq<Item>) {
    forall x :: x in xs ==> HalfDecoded(x)
  }

  lemma TrapIsFound(xs: seq<Item>)
    requires TrapAtFront(xs)
    ensures xs[0].Plain? && NumericReference(Spelling(xs), false) > 0
  {
    var j :| TrapAt(xs, 0, j);
    assert xs[0..j] == xs[..j];
    SpellingSplits(xs, j);
    PlainSpelling(xs[..j]);
    ReferenceFound(TextOf(xs[..j]), Spelling(xs[j..]), false);
    assert xs[..j][0] == xs[0] && xs[0] in xs[..j];
  }

  lemma PlainFromFront(xs: seq<Item>, n: nat)
    requires 0 < n <= |xs| && xs[0].Plain? && AllPlain(xs[1..][..n - 1])
    ensures AllPlain(xs[..n]) && TextOf(xs[..n]) == xs[0].text + TextOf(xs[1..][..n - 1])
  {
    Slices(xs, n);
    forall x | x in xs[..n] ensures x.Plain? {
      var i :| 0 <= i < n && xs[i] == x;
      assert i > 0 ==> x == xs[1..][..n - 1][i - 1];
    }
  }

  /** Below the surrogates and without &, what stands as it is was decoded one unit at a time. */
  lemma {:induction false} OneUnitEach(xs: seq<Item>, n: nat)
    requires AreHalfDecoded(xs) && n <= |Spelling(xs)|
    requires forall k :: 0 <= k < n ==> Spelling(xs)[k] != AMP && Spelling(xs)[k] < 0xD800
    ensures n <= |xs| && AllPlain(xs[..n]) && TextOf(xs[..n]) == Spelling(xs)[..n]
  {
    if n > 0 {
      var x, tail := xs[0], Spelling(xs[1..]);
      assert x in xs && HalfDecoded(x) && Spelling(xs)[0] == Written(x)[0];
      assert x.Plain? && |x.text| == 1;
      assert forall k :: 0 <= k < n - 1 ==> tail[k] == Spelling(xs)[k + 1];
      OneUnitEach(xs[1..], n - 1);
      PlainFromFront(xs, n);
      assert Spelling(xs)[..n] == x.text + tail[..n - 1];
    }
  }

  lemma ReferenceUnits(e: JsString)
    requires IsReference(e, false)
    ensures |e| >= 4 && e[0] == AMP && forall k :: 1 <= k < |e| ==> e[k] != AMP && e[k] < 0xD800
  {
    forall k | 2 <= k < |e| - 1 ensures e[k] < 58 && e[k] != AMP {
      assert e[k] == e[2..|e| - 1][k - 2];
    }
  }

  /** So a reference that begins with a decoded & is made up of decoded characters. */
  lemma FoundIsPlain(rest: seq<Item>, e: JsString)
    requires AreHalfDecoded(rest) && e <= [AMP] + Spelling(rest) && IsReference(e, false)
    ensures 4 <= |e| <= |rest| + 1 && AllPlain(rest[..|e| - 1])
    ensures e == [AMP] + TextOf(rest[..|e| - 1])
  {
    ReferenceUnits(e);
    TailIsPrefix(e, AMP, Spelling(rest));
    OneUnitEach(rest, |e| - 1);
  }

  lemma TailIsPrefix(e: JsString, a: CodeUnit, s: JsString)
    requires e != [] && e <= [a] + s
    ensures e == [a] + s[..|e| - 1] && forall k :: 0 <= k < |e| - 1 ==> s[k] == e[k + 1]
  {
    var whole := [a] + s;
    assert forall k :: 0 <= k < |s| ==> s[k] == whole[k + 1];
    assert e == whole[..|e|];
  }

  lemma FoundIsFront(xs: seq<Item>, e: JsString)
    requires AreHalfDecoded(xs) && xs != [] && xs[0] == Plain([AMP])
    requires e <= [AMP] + Spelling(xs[1..]) && IsReference(e, false)
    ensures 4 <= |e| <= |xs| && AllPlain(xs[..|e|]) && TextOf(xs[..|e|]) == e
  {
    TailIsHalfDecoded(xs);
    FoundIsPlain(xs[1..], e);
    PlainFromFront(xs, |e|);
  }

  lemma TailIsHalfDecoded(xs: seq<Item>)
    requires AreHalfDecoded(xs) && xs != []
    ensures AreHalfDecoded(xs[1..])
  {
    assert forall x :: x in xs[1..] ==> x in xs;
  }

  lemma FrontTraps(xs: seq<Item>, n: nat)
    requires 0 < n <= |xs| && AllPlain(xs[..n]) && IsReference(TextOf(xs[..n]), false)
    ensures TrapAtFront(xs)
  {
    assert xs[0..n] == xs[..n];
    assert TrapAt(xs, 0, n);
  }

  lemma FoundIsTrap(xs: seq<Item>)
    requires AreHalfDecoded(xs) && xs != [] && xs[0] == Plain([AMP])
    requires NumericReference(Spelling(xs), false) > 0
    ensures var n := NumericReference(Spelling(xs), false);
            && 4 <= n <= |xs| && TrapAtFront(xs)
            && |TextOf(xs)| == n + |TextOf(xs[n..])| && Spelling(xs)[n..] == Spelling(xs[n..])
  {
    var n := NumericReference(Spelling(xs), false);
    FoundReference(Spelling(xs), false);
    FoundIsFront(xs, Spelling(xs)[..n]);
    PlainFrontSplits(xs, n);
    FrontTraps(xs, n);
  }

  lemma PlainFrontSplits(xs: seq<Item>, n: nat)
    requires n <= |xs| && AllPlain(xs[..n])
    ensures |TextOf(xs)| == |TextOf(xs[..n])| + |TextOf(xs[n..])|
    ensures Spelling(xs) == TextOf(xs[..n]) + Spelling(xs[n..])
  {
    SpellingSplits(xs, n);
    TextSplits(xs, n);
    PlainSpelling(xs[..n]);
  }

  /** A decimal pass over half decoded text gives the text, or less than the text where there is a trap. */
  predicate PassedTo(r: Outcome, text: JsString, trapped: bool) {
    match r
    case Ok(t) => if trapped then |t| < |text| else t == text
    case RangeError => trapped
  }

  lemma PassedOn(r: Outcome, text: JsString, trapped: bool, head: JsString)
    requires PassedTo(r, text, trapped)
    ensures PassedTo(r.Prepend(head), head + text, trapped)
  {
  }

  /** A character that opens no reference, and a reference that is meant, give their text. */
  lemma ItemGoesOn(x: Item, s: JsString)
    requires HalfDecoded(x) && (x == Plain([AMP]) ==> NumericReference([AMP] + s, false) == 0)
    ensures DecodeNumeric(Written(x) + s, false) == DecodeNumeric(s, false).Prepend(ItemText(x))
  {
    if x.Numbered? {
      NumberedDecodes(x, s);
    } else if x.text == [AMP] {
      NumericPasses([AMP], s, false);
    } else {
      NumericSkips(x.text, s, false);
    }
  }

  /** A trap costs at least two code units. */
  lemma TrapShrinks(s: JsString, text: JsString)
    requires var n := NumericReference(s, false);
             && n >= 4
             && (DecodeNumeric(s[n..], false).Ok? ==> |DecodeNumeric(s[n..], false).text| + n <= |text|)
    ensures DecodeNumeric(s, false).Ok? ==> |DecodeNumeric(s, false).text| < |text|
  {
  }

  lemma TrapOpens(xs: seq<Item>)
    requires AreHalfDecoded(xs) && TrapAtFront(xs)
    ensures xs[0] == Plain([AMP]) && NumericReference(Spelling(xs), false) > 0
  {
    TrapIsFound(xs);
    assert xs[0] in xs && HalfDecoded(xs[0]);
    assert Spelling(xs)[0] == AMP == xs[0].text[0];
  }

  lemma {:induction false} DecimalPass(xs: seq<Item>)
    requires AreHalfDecoded(xs)
    ensures PassedTo(DecodeNumeric(Spelling(xs), false), TextOf(xs), Trap(xs))
    decreases |xs|
  {
    if xs != [] {
      var x, tail := xs[0], xs[1..];
      assert x in xs && HalfDecoded(x);
      TrapStep(xs);
      if x == Plain([AMP]) && NumericReference(Spelling(xs), false) > 0 {
        FoundIsTrap(xs);
        DecimalPass(xs[NumericReference(Spelling(xs), false)..]);
        TrapShrinks(Spelling(xs), TextOf(xs));
      } else {
        assert !TrapAtFront(xs) by {
          if TrapAtFront(xs) { TrapOpens(xs); }
        }
        DecimalPass(tail);
        PassedOn(DecodeNumeric(Spelling(tail), false), TextOf(tail), Trap(tail), ItemText(x));
        ItemGoesOn(x, Spelling(tail));
      }
    }
  }

  lemma {:induction false} ReplaceShrinks(s: JsString, pat: JsString, rep: JsString)
    requires |rep| < |pat|
    ensures if Occurs(pat, s) then |ReplaceAll(s, pat, rep)| < |s| else ReplaceAll(s, pat, rep) == s
  {
    if |s| < |pat| {
      assert !Occurs(pat, s);
    } else if s[..|pat|] == pat {
      assert pat <= s[0..];
      ReplaceShrinks(s[|pat|..], pat, rep);
    } else {
      ReplaceShrinks(s[1..], pat, rep);
      OccursLater(pat, s);
    }
  }

  lemma OccursLater(pat: JsString, s: JsString)
    requires s != [] && !(pat <= s)
    ensures Occurs(pat, s) <==> Occurs(pat, s[1..])
  {
    if Occurs(pat, s) {
      var i :| 0 <= i <= |s| && pat <= s[i..];
      assert i > 0 by {
        assert s[0..] == s;
      }
      assert s[1..][i - 1..] == s[i..];
    }
    if Occurs(pat, s[1..]) {
      var i :| 0 <= i <= |s| - 1 && pat <= s[1..][i..];
      assert s[i + 1..] == s[1..][i..];
    }
  }

  /** The named passes give a text back, or something shorter where the text holds an entity. */
  lemma NamedPassesShrink(s: JsString)
    ensures if HasEntity(s) then |DecodeNamed(s)| < |s| else DecodeNamed(s) == s
  {
    ReplaceShrinks(s, Entity(LT), [LT]);
    var s1 := ReplaceAll(s, Entity(LT), [LT]);
    ReplaceShrinks(s1, Entity(GT), [GT]);
    var s2 := ReplaceAll(s1, Entity(GT), [GT]);
    ReplaceShrinks(s2, Entity(QUOT), [QUOT]);
    var s3 := ReplaceAll(s2, Entity(QUOT), [QUOT]);
    ReplaceShrinks(s3, Entity(APOS), [APOS]);
    var s4 := ReplaceAll(s3, Entity(APOS), [APOS]);
    ReplaceShrinks(s4, Entity(AMP), [AMP]);
  }

  lemma HalfwayThere(xs: seq<Item>)
    requires AreValid(xs) && forall x :: x in xs ==> x.Numbered?
    ensures AreHalfDecoded(AllDecoded(xs, true))
  {
    var r := AllDecoded(xs, true);
    forall x | x in r ensures HalfDecoded(x) {
      var i :| 0 <= i < |r| && r[i] == x;
      assert xs[i] in xs && ValidItem(xs[i]) && x == Decoded(xs[i], true);
      if xs[i].hex {
        assert Reads(x.text, xs[i].v);
      }
    }
  }

  /** Neighbours written in hex spell out a decimal reference. */
  ghost predicate HexSpellsReference(xs: seq<Item>) {
    exists i, j ::
      && 0 <= i < j <= |xs|
      && (forall k :: i <= k < j ==> xs[k].Numbered? && xs[k].hex)
      && IsReference(TextOf(xs[i..j]), false)
  }

  lemma TrapIsSpelled(xs: seq<Item>)
    requires (forall x :: x in xs ==> x.Numbered?) && Trap(AllDecoded(xs, true))
    ensures HexSpellsReference(xs)
  {
    var r := AllDecoded(xs, true);
    var i, j :| TrapAt(r, i, j);
    SameSlice(xs, r, i, j);
    forall k | i <= k < j ensures xs[k].Numbered? && xs[k].hex {
      assert xs[k] in xs && r[i..j][k - i] == r[k] && r[k] in r[i..j];
    }
  }

  lemma SpelledIsTrap(xs: seq<Item>)
    requires HexSpellsReference(xs)
    ensures Trap(AllDecoded(xs, true))
  {
    var r := AllDecoded(xs, true);
    var i, j :| 0 <= i < j <= |xs| && (forall k :: i <= k < j ==> xs[k].Numbered? && xs[k].hex)
      && IsReference(TextOf(xs[i..j]), false);
    SameSlice(xs, r, i, j);
    assert TrapAt(r, i, j);
  }

  lemma SameSlice(xs: seq<Item>, ys: seq<Item>, i: nat, j: nat)
    requires i <= j <= |xs| == |ys| && forall k :: 0 <= k < |xs| ==> ItemText(xs[k]) == ItemText(ys[k])
    ensures TextOf(xs[i..j]) == TextOf(ys[i..j])
  {
    SameText(xs[i..j], ys[i..j]);
  }

  lemma ReferencesHaveNoPlain(xs: seq<Item>)
    requires forall x :: x in xs ==> x.Numbered?
    ensures AmpersandsWritten(xs)
  {
  }

  /**
   A text of which every character is written as a numeric reference comes back exactly when it holds no entity
   and no characters next to each other, all written in hex, make up a decimal reference: those are decoded again.
   */
  lemma ReferencesComeBackExactly(xs: seq<Item>)
    requires AreValid(xs) && forall x :: x in xs ==> x.Numbered?
    ensures UnescapeXml(Spelling(xs)) == Ok(TextOf(xs)) <==> !HasEntity(TextOf(xs)) && !HexSpellsReference(xs)
  {
    ReferencesHaveNoPlain(xs);
    NumericPass(xs, true);
    SameText(AllDecoded(xs, true), xs);
    HalfwayThere(xs);
    if Trap(AllDecoded(xs, true)) {
      TrapIsSpelled(xs);
    } else if HexSpellsReference(xs) {
      SpelledIsTrap(xs);
    }
    var r := DecodeNumeric(Spelling(AllDecoded(xs, true)), false);
    DecimalPass(AllDecoded(xs, true));
    if r.Ok? {
      NamedPassesShrink(r.text);
    }
  }

  /** Text written in decimal references still goes through the named passes. */
  lemma DecimalReferencesDecode(xs: seq<Item>)
    requires AreValid(xs) && forall x :: x in xs ==> x.Numbered? && !x.hex
    ensures UnescapeXml(Spelling(xs)) == Ok(DecodeNamed(TextOf(xs)))
  {
    NumericPass(xs, true);
    assert AllDecoded(xs, true) == xs;
    NumericPass(xs, false);
    SameText(AllDecoded(xs, false), xs);
    var r := AllDecoded(xs, false);
    forall x | x in r ensures x.Plain? {
      var i :| 0 <= i < |r| && r[i] == x;
      assert xs[i] in xs;
    }
    PlainSpelling(r);
  }

  function Decimal(digits: string, c: CodeUnit): Item
    requires forall i :: 0 <= i < |digits| ==> digits[i] < 128 as char
  {
    Numbered(Units(digits), c, false, [c])
  }

  /** The four characters &lt; written as &#38;&#108;&#116;&#59; */
  function FourReferences(): seq<Item> {
    [Decimal("38", 38), Decimal("108", 108), Decimal("116", 116), Decimal("59", 59)]
  }

  lemma FourCharacters()
    ensures AreValid(FourReferences()) && TextOf(FourReferences()) == Entity(LT)
    ensures forall x :: x in FourReferences() ==> x.Numbered? && !x.hex
  {
    TwoDigits("38", 38);
    ThreeDigits("108", 108);
    ThreeDigits("116", 116);
    TwoDigits("59", 59);
  }

  /** They come back as one, the < they name. */
  lemma DecodedTwice()
    ensures AreValid(FourReferences()) && TextOf(FourReferences()) == Units("&lt;")
    ensures UnescapeXml(Spelling(FourReferences())) == Ok(Units("<"))
  {
    FourCharacters();
    DecimalReferencesDecode(FourReferences());
    var named := [Named(LT)];
    assert Spelling(named) == Entity(LT) && TextOf(named) == [LT];
    AllNamedDecode(named);
    Markup();
  }

  lemma TwoDigits(d: string, v: nat)
    requires |d| == 2 && '0' <= d[0] <= '9' && '0' <= d[1] <= '9'
    requires v == 10 * (d[0] as int - '0' as int) + (d[1] as int - '0' as int)
    ensures Denotes(Units(d), v, false)
  {
    var u := Units(d);
    assert u[..1][..0] == [] && Denotes(u[..1], v / 10, false);
  }

  lemma ThreeDigits(d: string, v: nat)
    requires |d| == 3 && '0' <= d[0] <= '9' && '0' <= d[1] <= '9' && '0' <= d[2] <= '9'
    requires v == 100 * (d[0] as int - '0' as int) + 10 * (d[1] as int - '0' as int) + (d[2] as int - '0' as int)
    ensures Denotes(Units(d), v, false)
  {
    TwoDigits(d[..2], v / 10);
    assert Units(d)[..2] == Units(d[..2]);
  }
}
