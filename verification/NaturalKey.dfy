/** The natural sort key of requirement ids, and the expansion of id ranges. */
module NaturalKey {
  import opened Text

  // ---------- the key ----------

  /** `(0, 0, text)` or `(1, number, "")`: a maximal run of other characters, or of digits. */
  datatype Part = Word(text: string) | Number(value: nat)

  type Key = seq<Part>

  /** The key of a string one character longer. */
  function Extended(k: Key, c: char): Key {
    if IsDigit(c) then
      if k != [] && k[|k| - 1].Number? then k[..|k| - 1] + [Number(10 * k[|k| - 1].value + DigitValue(c))]
      else k + [Number(DigitValue(c))]
    else
      if k != [] && k[|k| - 1].Word? then k[..|k| - 1] + [Word(k[|k| - 1].text + [c])]
      else k + [Word([c])]
  }

  /** `natural_key`. */
  function KeyOf(s: string): Key {
    if s == [] then [] else Extended(KeyOf(s[..|s| - 1]), s[|s| - 1])
  }

  // ---------- the order ----------

  /** Negative, zero or positive as Python compares two strings from position `i` on. */
  function CompareText(s: string, t: string, i: nat): int
    requires i <= |s| && i <= |t|
    decreases |s| - i
  {
    if i == |s| then (if i == |t| then 0 else -1)
    else if i == |t| then 1
    else if s[i] != t[i] then s[i] as int - t[i] as int
    else CompareText(s, t, i + 1)
  }

  function ComparePart(a: Part, b: Part): int {
    match (a, b)
    case (Word(s), Word(t)) => CompareText(s, t, 0)
    case (Number(m), Number(n)) => m - n
    case (Word(_), Number(_)) => -1
    case (Number(_), Word(_)) => 1
  }

  /** As Python compares two tuples from position `i` on. */
  function CompareKey(a: Key, b: Key, i: nat): int
    requires i <= |a| && i <= |b|
    decreases |a| - i
  {
    if i == |a| then (if i == |b| then 0 else -1)
    else if i == |b| then 1
    else
      var c := ComparePart(a[i], b[i]);
      if c != 0 then c else CompareKey(a, b, i + 1)
  }

  /** `natural_key(s) <= natural_key(t)`. */
  predicate NaturalLeq(s: string, t: string) {
    CompareKey(KeyOf(s), KeyOf(t), 0) <= 0
  }

  predicate NaturalLess(s: string, t: string) {
    CompareKey(KeyOf(s), KeyOf(t), 0) < 0
  }

  lemma {:induction false} TextAntisymmetric(s: string, t: string, i: nat)
    requires i <= |s| && i <= |t| && s[..i] == t[..i]
    ensures CompareText(s, t, i) < 0 <==> CompareText(t, s, i) > 0
    ensures CompareText(s, t, i) == 0 <==> s == t
    decreases |s| - i
  {
    if i < |s| && i < |t| && s[i] == t[i] {
      assert s[..i + 1] == s[..i] + [s[i]] && t[..i + 1] == t[..i] + [t[i]];
      TextAntisymmetric(s, t, i + 1);
    } else if i == |s| {
      assert s == s[..i] && (i == |t| ==> t == t[..i]);
    }
  }

  lemma {:induction false} TextTransitive(s: string, t: string, u: string, i: nat)
    requires i <= |s| && i <= |t| && i <= |u|
    requires CompareText(s, t, i) <= 0 && CompareText(t, u, i) <= 0
    ensures CompareText(s, u, i) <= 0
    ensures CompareText(s, u, i) == 0 ==> CompareText(s, t, i) == 0 && CompareText(t, u, i) == 0
    decreases |s| - i
  {
    if i < |s| && i < |t| && i < |u| && s[i] == t[i] == u[i] {
      TextTransitive(s, t, u, i + 1);
    }
  }

  lemma {:induction false} PartAntisymmetric(a: Part, b: Part)
    ensures ComparePart(a, b) < 0 <==> ComparePart(b, a) > 0
    ensures ComparePart(a, b) == 0 <==> a == b
  {
    if a.Word? && b.Word? {
      TextAntisymmetric(a.text, b.text, 0);
    }
  }

  lemma {:induction false} PartTransitive(a: Part, b: Part, c: Part)
    requires ComparePart(a, b) <= 0 && ComparePart(b, c) <= 0
    ensures ComparePart(a, c) <= 0
    ensures ComparePart(a, c) == 0 ==> ComparePart(a, b) == 0 && ComparePart(b, c) == 0
  {
    if a.Word? && b.Word? && c.Word? {
      TextTransitive(a.text, b.text, c.text, 0);
    }
  }

  lemma {:induction false} KeyAntisymmetric(a: Key, b: Key, i: nat)
    requires i <= |a| && i <= |b| && a[..i] == b[..i]
    ensures CompareKey(a, b, i) < 0 <==> CompareKey(b, a, i) > 0
    ensures CompareKey(a, b, i) == 0 <==> a == b
    decreases |a| - i
  {
    if i < |a| && i < |b| {
      PartAntisymmetric(a[i], b[i]);
      PartAntisymmetric(b[i], a[i]);
      if a[i] == b[i] {
        assert a[..i + 1] == a[..i] + [a[i]] && b[..i + 1] == b[..i] + [b[i]];
        KeyAntisymmetric(a, b, i + 1);
      }
    } else if i == |a| {
      assert a == a[..i] && (i == |b| ==> b == b[..i]);
    }
  }

  lemma {:induction false} KeyTransitive(a: Key, b: Key, c: Key, i: nat)
    requires i <= |a| && i <= |b| && i <= |c|
    requires CompareKey(a, b, i) <= 0 && CompareKey(b, c, i) <= 0
    ensures CompareKey(a, c, i) <= 0
    ensures CompareKey(a, c, i) == 0 ==> CompareKey(a, b, i) == 0 && CompareKey(b, c, i) == 0
    decreases |a| - i
  {
    if i < |a| && i < |b| && i < |c| {
      PartTransitive(a[i], b[i], c[i]);
      if ComparePart(a[i], b[i]) == 0 && ComparePart(b[i], c[i]) == 0 {
        KeyTransitive(a, b, c, i + 1);
      }
    }
  }

  /** The order on ids is total and transitive; `NaturalLess` is its strict part. */
  lemma {:induction false} NaturalTotal(s: string, t: string)
    ensures NaturalLeq(s, t) || NaturalLeq(t, s)
    ensures NaturalLess(s, t) <==> !NaturalLeq(t, s)
    ensures NaturalLeq(s, t) && NaturalLeq(t, s) <==> KeyOf(s) == KeyOf(t)
  {
    KeyAntisymmetric(KeyOf(s), KeyOf(t), 0);
    KeyAntisymmetric(KeyOf(t), KeyOf(s), 0);
  }

  lemma {:induction false} NaturalTransitive(s: string, t: string, u: string)
    requires NaturalLeq(s, t) && NaturalLeq(t, u)
    ensures NaturalLeq(s, u)
  {
    KeyTransitive(KeyOf(s), KeyOf(t), KeyOf(u), 0);
  }

  // ---------- what the order compares ----------

  /** `s < t` for strings: a proper prefix, or a smaller character where they first differ. */
  ghost predicate TextLess(s: string, t: string) {
    exists k: nat :: k <= |s| && k < |t| && s[..k] == t[..k] && (k == |s| || s[k] < t[k])
  }

  lemma {:induction false} TextDecides(s: string, t: string, i: nat)
    requires i <= |s| && i <= |t| && s[..i] == t[..i]
    ensures CompareText(s, t, i) < 0 ==> TextLess(s, t)
    decreases |s| - i
  {
    if i < |s| && i < |t| && s[i] == t[i] {
      assert s[..i + 1] == s[..i] + [s[i]] && t[..i + 1] == t[..i] + [t[i]];
      TextDecides(s, t, i + 1);
    }
  }

  lemma {:induction false} SkipCommonText(s: string, t: string, j: nat, i: nat)
    requires j <= i <= |s| && i <= |t| && s[..i] == t[..i]
    ensures CompareText(s, t, j) == CompareText(s, t, i)
    decreases i - j
  {
    if j < i {
      assert s[j] == s[..i][j] == t[..i][j] == t[j];
      SkipCommonText(s, t, j + 1, i);
    }
  }

  lemma {:induction false} TextLessExactly(s: string, t: string)
    ensures CompareText(s, t, 0) < 0 <==> TextLess(s, t)
  {
    TextDecides(s, t, 0);
    if k: nat :| k <= |s| && k < |t| && s[..k] == t[..k] && (k == |s| || s[k] < t[k]) {
      SkipCommonText(s, t, 0, k);
    }
  }

  /** Text before numbers, numbers by value, text by character. */
  ghost predicate PartLess(a: Part, b: Part) {
    || (a.Word? && b.Number?)
    || (a.Number? && b.Number? && a.value < b.value)
    || (a.Word? && b.Word? && TextLess(a.text, b.text))
  }

  lemma {:induction false} SkipCommon(a: Key, b: Key, j: nat, i: nat)
    requires j <= i <= |a| && i <= |b| && a[..i] == b[..i]
    ensures CompareKey(a, b, j) == CompareKey(a, b, i)
    decreases i - j
  {
    if j < i {
      assert a[j] == a[..i][j] == b[..i][j] == b[j];
      PartAntisymmetric(a[j], b[j]);
      SkipCommon(a, b, j + 1, i);
    }
  }

  /** The first part in which two keys differ decides; a key that goes on is the greater one. */
  lemma {:induction false} FirstDifferenceDecides(s: string, t: string, i: nat)
    requires i <= |KeyOf(s)| && i <= |KeyOf(t)| && KeyOf(s)[..i] == KeyOf(t)[..i]
    requires i == |KeyOf(s)| || i == |KeyOf(t)| || KeyOf(s)[i] != KeyOf(t)[i]
    ensures NaturalLess(s, t) <==>
              i < |KeyOf(t)| && (i == |KeyOf(s)| || PartLess(KeyOf(s)[i], KeyOf(t)[i]))
  {
    var a, b := KeyOf(s), KeyOf(t);
    SkipCommon(a, b, 0, i);
    if i < |a| && i < |b| {
      PartAntisymmetric(a[i], b[i]);
      if a[i].Word? && b[i].Word? {
        TextLessExactly(a[i].text, b[i].text);
      }
    }
  }

  /** `"".join(pieces)`. */
  ghost function Glued(pieces: seq<string>): string {
    if pieces == [] then "" else Glued(pieces[..|pieces| - 1]) + pieces[|pieces| - 1]
  }

  ghost predicate NoDigits(s: string) {
    forall i :: 0 <= i < |s| ==> !IsDigit(s[i])
  }

  /** The part stands for a piece of the id: the piece itself if it has no digits, else its number. */
  ghost predicate StandsFor(part: Part, piece: string) {
    && piece != ""
    && match part
       case Word(text) => piece == text && NoDigits(piece)
       case Number(value) => AllDigits(piece) && NumberOf(piece) == value
  }

  /** Pieces that stand for the parts one by one, text and digits taking turns. */
  ghost predicate Spells(pieces: seq<string>, k: Key) {
    && |pieces| == |k|
    && (forall i :: 0 <= i < |k| ==> StandsFor(k[i], pieces[i]))
    && (forall i :: 0 < i < |k| ==> k[i].Number? != k[i - 1].Number?)
  }

  lemma {:induction false} GluedSnoc(pieces: seq<string>, piece: string)
    ensures Glued(pieces + [piece]) == Glued(pieces) + piece
  {
    assert (pieces + [piece])[..|pieces|] == pieces;
  }

  lemma {:induction false} PieceGrows(part: Part, piece: string, c: char)
    requires StandsFor(part, piece) && part.Number? == IsDigit(c)
    ensures StandsFor(
      if part.Number? then Number(10 * part.value + DigitValue(c)) else Word(part.text + [c]), piece + [c])
  {
    if part.Number? {
      assert AllDigits(piece + [c]);
      NumberOfSnoc(piece, c);
    }
  }

  lemma {:induction false} NewPiece(c: char)
    ensures StandsFor(if IsDigit(c) then Number(DigitValue(c)) else Word([c]), [c])
  {
    if IsDigit(c) {
      DigitDecimal(c);
      NumberOfDecimal(DigitValue(c));
    }
  }

  lemma {:induction false} LastPieceGrows(pieces: seq<string>, k: Key, c: char)
    requires Spells(pieces, k) && k != [] && k[|k| - 1].Number? == IsDigit(c)
    ensures Spells(pieces[..|k| - 1] + [pieces[|k| - 1] + [c]], Extended(k, c))
  {
    var n := |k| - 1;
    assert StandsFor(k[n], pieces[n]);
    PieceGrows(k[n], pieces[n], c);
    var grown := pieces[..n] + [pieces[n] + [c]];
    assert forall i :: 0 <= i < n ==> Extended(k, c)[i] == k[i] && grown[i] == pieces[i];
  }

  lemma {:induction false} PieceStarts(pieces: seq<string>, k: Key, c: char)
    requires Spells(pieces, k) && (k == [] || k[|k| - 1].Number? != IsDigit(c))
    ensures Spells(pieces + [[c]], Extended(k, c))
  {
    NewPiece(c);
    assert Extended(k, c) == k + [if IsDigit(c) then Number(DigitValue(c)) else Word([c])];
  }

  lemma {:induction false} PiecesGrow(pieces: seq<string>, k: Key, c: char) returns (more: seq<string>)
    requires Spells(pieces, k)
    ensures Glued(more) == Glued(pieces) + [c] && Spells(more, Extended(k, c))
  {
    if k != [] && k[|k| - 1].Number? == IsDigit(c) {
      LastPieceGrows(pieces, k, c);
      var front, last := pieces[..|k| - 1], pieces[|k| - 1];
      more := front + [last + [c]];
      assert pieces == front + [last];
      GluedSnoc(front, last);
      GluedSnoc(front, last + [c]);
      assert Glued(front) + (last + [c]) == Glued(front) + last + [c];
    } else {
      PieceStarts(pieces, k, c);
      GluedSnoc(pieces, [c]);
      more := pieces + [[c]];
    }
  }

  /** The key reads the id off piece by piece: maximal runs of digits by their value, the text between them as
      it is. */
  lemma {:induction false} KeyReadsOff(s: string) returns (pieces: seq<string>)
    ensures Glued(pieces) == s && Spells(pieces, KeyOf(s))
  {
    pieces := [];
    if s != [] {
      pieces := KeyReadsOff(s[..|s| - 1]);
      pieces := PiecesGrow(pieces, KeyOf(s[..|s| - 1]), s[|s| - 1]);
    }
  }

  // ---------- ties ----------

  /** The string ends in a digit run that is just "0". */
  predicate EndsInLoneZero(s: string) {
    && |s| > 0 && s[|s| - 1] == '0'
    && (|s| == 1 || !IsDigit(s[|s| - 2]))
  }

  /** One more character; a digit after a lone zero replaces it. */
  function Appended(s: string, c: char): string {
    if IsDigit(c) && EndsInLoneZero(s) then s[..|s| - 1] + [c] else s + [c]
  }

  /** The string without leading zeros in its digit runs. */
  function WithoutLeadingZeros(s: string): string {
    if s == [] then [] else Appended(WithoutLeadingZeros(s[..|s| - 1]), s[|s| - 1])
  }

  function RenderPart(p: Part): string {
    match p
    case Word(text) => text
    case Number(value) => Decimal(value)
  }

  function Render(k: Key): string {
    if k == [] then "" else Render(k[..|k| - 1]) + RenderPart(k[|k| - 1])
  }

  /** Words are not empty and end in no digit; numbers are not adjacent. */
  ghost predicate Alternating(k: Key) {
    && (forall i :: 0 <= i < |k| && k[i].Word? ==> |k[i].text| > 0 && !IsDigit(k[i].text[|k[i].text| - 1]))
    && (forall i :: 0 < i < |k| && k[i].Number? ==> k[i - 1].Word?)
  }

  lemma {:induction false} RenderSnoc(k: Key, p: Part)
    ensures Render(k + [p]) == Render(k) + RenderPart(p)
  {
    assert (k + [p])[..|k|] == k;
  }

  /** Before a number the rendering does not end in a digit. */
  lemma {:induction false} RenderEndsInWord(k: Key)
    requires Alternating(k) && (k == [] || k[|k| - 1].Word?)
    ensures Render(k) == [] || !IsDigit(Render(k)[|Render(k)| - 1])
  {
  }

  lemma {:induction false} DecimalEnds(v: nat)
    ensures |Decimal(v)| > 0
    ensures v > 0 ==> !(|Decimal(v)| == 1 && Decimal(v)[0] == '0')
    ensures |Decimal(v)| > 1 ==> IsDigit(Decimal(v)[|Decimal(v)| - 2])
  {
    DecimalDigits(v);
  }

  lemma {:induction false} LoneZeroAfter(front: string, v: nat)
    requires front == [] || !IsDigit(front[|front| - 1])
    ensures EndsInLoneZero(front + Decimal(v)) <==> v == 0
  {
    DecimalDigits(v);
    DecimalEnds(v);
  }

  lemma {:induction false} DigitAppended(front: string, v: nat, c: char)
    requires IsDigit(c) && (front == [] || !IsDigit(front[|front| - 1]))
    ensures Appended(front + Decimal(v), c) == front + Decimal(10 * v + DigitValue(c))
  {
    LoneZeroAfter(front, v);
    var d := DigitValue(c);
    assert [DigitChar(d)] == [c];
    if v == 0 {
      assert (front + Decimal(0))[..|front|] == front;
    } else {
      assert (10 * v + d) / 10 == v && (10 * v + d) % 10 == d;
    }
  }

  /** How one more character changes a key that ends in a number. */
  lemma {:induction false} ExtendNumber(front: Key, v: nat, c: char)
    ensures IsDigit(c) ==> Extended(front + [Number(v)], c) == front + [Number(10 * v + DigitValue(c))]
    ensures !IsDigit(c) ==> Extended(front + [Number(v)], c) == front + [Number(v)] + [Word([c])]
  {
    assert (front + [Number(v)])[..|front|] == front;
  }

  lemma {:induction false} ExtendWord(front: Key, text: string, c: char)
    ensures IsDigit(c) ==> Extended(front + [Word(text)], c) == front + [Word(text)] + [Number(DigitValue(c))]
    ensures !IsDigit(c) ==> Extended(front + [Word(text)], c) == front + [Word(text + [c])]
  {
    assert (front + [Word(text)])[..|front|] == front;
  }

  lemma {:induction false} RenderAfterNumber(front: Key, v: nat, c: char)
    requires Render(front) == [] || !IsDigit(Render(front)[|Render(front)| - 1])
    ensures Render(Extended(front + [Number(v)], c)) == Appended(Render(front) + Decimal(v), c)
  {
    ExtendNumber(front, v, c);
    if IsDigit(c) {
      DigitAppended(Render(front), v, c);
      RenderSnoc(front, Number(10 * v + DigitValue(c)));
    } else {
      RenderSnoc(front, Number(v));
      RenderSnoc(front + [Number(v)], Word([c]));
    }
  }

  lemma {:induction false} DigitDecimal(c: char)
    requires IsDigit(c)
    ensures Decimal(DigitValue(c)) == [c]
  {
  }

  lemma {:induction false} AppendedToText(out: string, text: string, c: char)
    requires |text| > 0 && !IsDigit(text[|text| - 1])
    ensures Appended(out + text, c) == out + text + [c]
  {
    assert (out + text)[|out + text| - 1] == text[|text| - 1];
  }

  lemma {:induction false} RenderAfterWord(front: Key, text: string, c: char)
    requires |text| > 0 && !IsDigit(text[|text| - 1])
    ensures Render(Extended(front + [Word(text)], c)) == Appended(Render(front) + text, c)
  {
    ExtendWord(front, text, c);
    AppendedToText(Render(front), text, c);
    if IsDigit(c) {
      RenderSnoc(front, Word(text));
      RenderSnoc(front + [Word(text)], Number(DigitValue(c)));
      DigitDecimal(c);
    } else {
      RenderSnoc(front, Word(text + [c]));
      assert Render(front) + (text + [c]) == Render(front) + text + [c];
    }
  }

  lemma {:induction false} RenderFirst(c: char)
    ensures Render(Extended([], c)) == [c] == Appended("", c)
  {
    var p := if IsDigit(c) then Number(DigitValue(c)) else Word([c]);
    assert Extended([], c) == [] + [p];
    RenderSnoc([], p);
  }

  lemma {:induction false} FrontAlternates(front: Key, last: Part)
    requires Alternating(front + [last])
    ensures Alternating(front) && (last.Number? ==> front == [] || front[|front| - 1].Word?)
    ensures last.Word? ==> |last.text| > 0 && !IsDigit(last.text[|last.text| - 1])
  {
    var k := front + [last];
    assert k[|front|] == last;
    assert forall i :: 0 <= i < |front| ==> front[i] == k[i];
    if front != [] {
      assert k[|front| - 1] == front[|front| - 1];
    }
  }

  lemma {:induction false} SnocAlternates(front: Key, last: Part)
    requires Alternating(front)
    requires if last.Number? then front == [] || front[|front| - 1].Word?
             else |last.text| > 0 && !IsDigit(last.text[|last.text| - 1])
    ensures Alternating(front + [last])
  {
  }

  lemma {:induction false} ExtendedAlternates(k: Key, c: char)
    requires Alternating(k)
    ensures Alternating(Extended(k, c))
  {
    if k == [] {
      SnocAlternates(k, if IsDigit(c) then Number(DigitValue(c)) else Word([c]));
    } else {
      var front, last := k[..|k| - 1], k[|k| - 1];
      assert k == front + [last];
      FrontAlternates(front, last);
      match last {
        case Number(v) =>
          ExtendNumber(front, v, c);
          if IsDigit(c) {
            SnocAlternates(front, Number(10 * v + DigitValue(c)));
          } else {
            SnocAlternates(k, Word([c]));
          }
        case Word(text) =>
          ExtendWord(front, text, c);
          if IsDigit(c) {
            SnocAlternates(k, Number(DigitValue(c)));
          } else {
            SnocAlternates(front, Word(text + [c]));
          }
      }
    }
  }

  lemma {:induction false} KeyAlternates(s: string)
    ensures Alternating(KeyOf(s))
  {
    if s != [] {
      KeyAlternates(s[..|s| - 1]);
      ExtendedAlternates(KeyOf(s[..|s| - 1]), s[|s| - 1]);
    }
  }

  lemma {:induction false} RenderExtended(k: Key, c: char)
    requires Alternating(k)
    ensures Render(Extended(k, c)) == Appended(Render(k), c)
  {
    if k == [] {
      RenderFirst(c);
    } else {
      var front, last := k[..|k| - 1], k[|k| - 1];
      assert k == front + [last];
      FrontAlternates(front, last);
      if last.Number? {
        RenderEndsInWord(front);
        RenderAfterNumber(front, last.value, c);
      } else {
        RenderAfterWord(front, last.text, c);
      }
    }
  }

  /** The key spells out the string without leading zeros. */
  lemma {:induction false} KeySpells(s: string)
    ensures Render(KeyOf(s)) == WithoutLeadingZeros(s)
  {
    if s != [] {
      KeySpells(s[..|s| - 1]);
      KeyAlternates(s[..|s| - 1]);
      RenderExtended(KeyOf(s[..|s| - 1]), s[|s| - 1]);
    }
  }

  lemma {:induction false} KeySnoc(s: string, c: char)
    ensures KeyOf(s + [c]) == Extended(KeyOf(s), c)
  {
    assert (s + [c])[..|s|] == s;
  }

  lemma {:induction false} ZeroReplaced(k: Key, c: char)
    requires IsDigit(c) && (k == [] || k[|k| - 1].Word?)
    ensures Extended(Extended(k, '0'), c) == Extended(k, c)
  {
    ExtendNumber(k, 0, c);
  }

  lemma {:induction false} KeyOfAppended(s: string, c: char)
    ensures KeyOf(Appended(s, c)) == Extended(KeyOf(s), c)
  {
    if IsDigit(c) && EndsInLoneZero(s) {
      var front := s[..|s| - 1];
      assert s == front + ['0'];
      KeySnoc(front, '0');
      KeySnoc(front, c);
      EndsInWord(front);
      ZeroReplaced(KeyOf(front), c);
    } else {
      KeySnoc(s, c);
    }
  }

  lemma {:induction false} EndsInWord(s: string)
    requires s == [] || !IsDigit(s[|s| - 1])
    ensures KeyOf(s) == [] || KeyOf(s)[|KeyOf(s)| - 1].Word?
  {
  }

  lemma {:induction false} LeadingZerosIgnored(s: string)
    ensures KeyOf(WithoutLeadingZeros(s)) == KeyOf(s)
  {
    if s != [] {
      LeadingZerosIgnored(s[..|s| - 1]);
      KeyOfAppended(WithoutLeadingZeros(s[..|s| - 1]), s[|s| - 1]);
    }
  }

  /** Two ids tie exactly when they are equal up to leading zeros in their digit runs. */
  lemma {:induction false} TiesExactly(s: string, t: string)
    ensures NaturalLeq(s, t) && NaturalLeq(t, s) <==> WithoutLeadingZeros(s) == WithoutLeadingZeros(t)
  {
    NaturalTotal(s, t);
    KeySpells(s);
    KeySpells(t);
    LeadingZerosIgnored(s);
    LeadingZerosIgnored(t);
  }

  // ---------- ranges ----------

  /** `f"{n:0{width}d}"` on the decimal rendering of n. */
  function Padded(digits: string, width: nat): string
    decreases width - |digits|
  {
    if |digits| >= width then digits else Padded("0" + digits, width)
  }

  /** The ids from `n` to `last`. */
  function IdsFrom(prefix: string, width: nat, n: nat, last: nat): seq<string>
    decreases last + 1 - n
  {
    if n > last then [] else [prefix + Padded(Decimal(n), width)] + IdsFrom(prefix, width, n + 1, last)
  }

  /** One match of the range pattern, `prefix start..end`; `None` leaves the text as it is. */
  function Expand(prefix: string, start: string, end: string): Option<seq<string>>
    requires AllDigits(start) && AllDigits(end)
  {
    var first, last := NumberOf(start), NumberOf(end);
    if last < first || last - first > 200 then None else Some(IdsFrom(prefix, |start|, first, last))
  }

  lemma {:induction false} ZeroInFront(d: string)
    requires AllDigits(d)
    ensures AllDigits("0" + d) && NumberOf("0" + d) == NumberOf(d)
  {
    if d == [] {
      assert "0" + d == "0" && "0"[..0] == [];
    } else {
      ZeroInFront(d[..|d| - 1]);
      assert ("0" + d)[..|d|] == "0" + d[..|d| - 1];
    }
  }

  lemma {:induction false} PaddedNumber(d: string, width: nat)
    requires AllDigits(d) && d != []
    ensures Padded(d, width) != [] && AllDigits(Padded(d, width)) && NumberOf(Padded(d, width)) == NumberOf(d)
    decreases width - |d|
  {
    if |d| < width {
      ZeroInFront(d);
      PaddedNumber("0" + d, width);
    }
  }

  lemma {:induction false} FirstDigit(prefix: string, c: char)
    requires IsDigit(c) && (prefix == [] || !IsDigit(prefix[|prefix| - 1]))
    ensures KeyOf(prefix + [c]) == KeyOf(prefix) + [Number(DigitValue(c))]
  {
    KeySnoc(prefix, c);
    EndsInWord(prefix);
  }

  lemma {:induction false} NumberOfSnoc(front: string, c: char)
    requires AllDigits(front + [c])
    ensures AllDigits(front) && IsDigit(c) && NumberOf(front + [c]) == 10 * NumberOf(front) + DigitValue(c)
  {
    var d := front + [c];
    assert d[|front|] == c && d[..|front|] == front;
    assert forall i :: 0 <= i < |front| ==> front[i] == d[i];
  }

  lemma {:induction false} NextDigit(prefix: string, front: string, c: char, v: nat)
    requires IsDigit(c) && KeyOf(prefix + front) == KeyOf(prefix) + [Number(v)]
    ensures KeyOf(prefix + (front + [c])) == KeyOf(prefix) + [Number(10 * v + DigitValue(c))]
  {
    assert prefix + (front + [c]) == (prefix + front) + [c];
    KeySnoc(prefix + front, c);
    ExtendNumber(KeyOf(prefix), v, c);
  }

  lemma {:induction false} OneDigitAtTheEnd(prefix: string, d: string)
    requires AllDigits(d) && |d| == 1 && (prefix == [] || !IsDigit(prefix[|prefix| - 1]))
    ensures KeyOf(prefix + d) == KeyOf(prefix) + [Number(NumberOf(d))]
  {
    assert d == [] + [d[0]];
    NumberOfSnoc([], d[0]);
    assert prefix + d == prefix + [d[0]];
    FirstDigit(prefix, d[0]);
  }

  lemma {:induction false} DigitsSplit(d: string, front: string, c: char)
    requires AllDigits(d) && |d| > 1 && front == d[..|d| - 1] && c == d[|d| - 1]
    ensures d == front + [c] && front != [] && AllDigits(front) && IsDigit(c)
    ensures NumberOf(d) == 10 * NumberOf(front) + DigitValue(c)
  {
    assert d == front + [c];
    NumberOfSnoc(front, c);
  }

  /** Digits after a text that ends in no digit become one number at the end of the key. */
  lemma {:induction false} DigitsAtTheEnd(prefix: string, d: string)
    requires AllDigits(d) && d != [] && (prefix == [] || !IsDigit(prefix[|prefix| - 1]))
    ensures KeyOf(prefix + d) == KeyOf(prefix) + [Number(NumberOf(d))]
    decreases |d|
  {
    if |d| == 1 {
      OneDigitAtTheEnd(prefix, d);
    } else {
      var front, c := d[..|d| - 1], d[|d| - 1];
      DigitsSplit(d, front, c);
      DigitsAtTheEnd(prefix, front);
      NextDigit(prefix, front, c, NumberOf(front));
    }
  }

  lemma {:induction false} IdKey(prefix: string, width: nat, n: nat)
    requires prefix == [] || !IsDigit(prefix[|prefix| - 1])
    ensures KeyOf(prefix + Padded(Decimal(n), width)) == KeyOf(prefix) + [Number(n)]
  {
    DecimalDigits(n);
    NumberOfDecimal(n);
    PaddedNumber(Decimal(n), width);
    DigitsAtTheEnd(prefix, Padded(Decimal(n), width));
  }

  lemma {:induction false} LastPartDecides(k: Key, a: Part, b: Part, i: nat)
    requires i <= |k|
    ensures CompareKey(k + [a], k + [b], i) == ComparePart(a, b)
    decreases |k| - i
  {
    if i < |k| {
      PartAntisymmetric(k[i], k[i]);
      LastPartDecides(k, a, b, i + 1);
    }
  }

  lemma {:induction false} KeysOrdered(k: Key, s: string, t: string, m: nat, n: nat)
    requires m < n && KeyOf(s) == k + [Number(m)] && KeyOf(t) == k + [Number(n)]
    ensures NaturalLess(s, t)
  {
    LastPartDecides(k, Number(m), Number(n), 0);
  }

  lemma {:induction false} LessDiffers(s: string, t: string)
    requires NaturalLess(s, t)
    ensures s != t
  {
    NaturalTotal(s, t);
  }

  lemma {:induction false} IdsOrdered(prefix: string, width: nat, m: nat, n: nat, s: string, t: string)
    requires prefix == [] || !IsDigit(prefix[|prefix| - 1])
    requires m < n && s == prefix + Padded(Decimal(m), width) && t == prefix + Padded(Decimal(n), width)
    ensures NaturalLess(s, t) && s != t
  {
    IdKey(prefix, width, m);
    IdKey(prefix, width, n);
    KeysOrdered(KeyOf(prefix), s, t, m, n);
    LessDiffers(s, t);
  }

  lemma {:induction false} IdAt(prefix: string, width: nat, n: nat, last: nat, i: nat)
    requires n <= last
    ensures |IdsFrom(prefix, width, n, last)| == last - n + 1
    ensures i <= last - n ==> IdsFrom(prefix, width, n, last)[i] == prefix + Padded(Decimal(n + i), width)
    decreases last - n
  {
    if n < last {
      IdAt(prefix, width, n + 1, last, if i > 0 then i - 1 else 0);
    }
  }

  /** The ids of a range: one per number, strictly increasing in natural order. */
  lemma {:induction false} IdsExactly(prefix: string, width: nat, a: nat, b: nat, ids: seq<string>, i: nat, j: nat)
    requires prefix == [] || !IsDigit(prefix[|prefix| - 1])
    requires a <= b && ids == IdsFrom(prefix, width, a, b)
    ensures |ids| == b - a + 1
    ensures i < j < |ids| ==> NaturalLess(ids[i], ids[j]) && ids[i] != ids[j]
  {
    IdAt(prefix, width, a, b, i);
    IdAt(prefix, width, a, b, j);
    if i < j < |ids| {
      IdsOrdered(prefix, width, a + i, a + j, ids[i], ids[j]);
    }
  }

  lemma {:induction false} ExpandUnfolds(prefix: string, start: string, end: string, a: nat, b: nat)
    requires AllDigits(start) && AllDigits(end) && a == NumberOf(start) && b == NumberOf(end)
    ensures Expand(prefix, start, end)
         == if a <= b <= a + 200 then Some(IdsFrom(prefix, |start|, a, b)) else None
  {
  }

  /** A range within bounds expands to one id per number, strictly increasing in natural order and so without
      repetition; any other range stays as it is. */
  lemma {:induction false} ExpandExactly(prefix: string, start: string, end: string, i: nat, j: nat)
    requires AllDigits(start) && AllDigits(end) && (prefix == [] || !IsDigit(prefix[|prefix| - 1]))
    ensures
      var a, b, r := NumberOf(start), NumberOf(end), Expand(prefix, start, end);
      && (r.Some? <==> a <= b <= a + 200)
      && (r.Some? ==> |r.value| == b - a + 1)
      && (r.Some? && i < j < |r.value| ==> NaturalLess(r.value[i], r.value[j]) && r.value[i] != r.value[j])
  {
    var a, b := NumberOf(start), NumberOf(end);
    ExpandUnfolds(prefix, start, end, a, b);
    if a <= b <= a + 200 {
      IdsExactly(prefix, |start|, a, b, IdsFrom(prefix, |start|, a, b), i, j);
    }
  }

  lemma {:induction false} PaddedLength(d: string, width: nat)
    ensures |Padded(d, width)| == if |d| < width then width else |d|
    decreases width - |d|
  {
    if |d| < width {
      PaddedLength("0" + d, width);
    }
  }

  lemma {:induction false} PaddedExactly(n: nat, width: nat, digits: string)
    requires digits == Padded(Decimal(n), width)
    ensures AllDigits(digits) && NumberOf(digits) == n
    ensures |digits| == width || (|digits| > width && digits == Decimal(n))
  {
    NumberOfDecimal(n);
    DecimalDigits(n);
    PaddedNumber(Decimal(n), width);
    PaddedLength(Decimal(n), width);
  }

  /** The `i`-th id of an expanded range: the prefix and the number `i` after the start, in decimal digits, as
      many as the start had or as many as the number needs. */
  lemma {:induction false} ExpandedIdExactly(
    prefix: string, start: string, end: string, a: nat, b: nat, ids: seq<string>, i: nat)
    returns (digits: string)
    requires AllDigits(start) && AllDigits(end) && a == NumberOf(start) && b == NumberOf(end)
    requires Expand(prefix, start, end) == Some(ids) && i < |ids|
    ensures ids[i] == prefix + digits && AllDigits(digits) && NumberOf(digits) == a + i
    ensures |digits| == |start| || (|digits| > |start| && digits == Decimal(a + i))
  {
    ExpandUnfolds(prefix, start, end, a, b);
    IdAt(prefix, |start|, a, b, i);
    digits := Padded(Decimal(a + i), |start|);
    PaddedExactly(a + i, |start|, digits);
  }

  // ---------- reading the expansion back ----------

  /** `", ".join(ids)`. */
  function Joined(ids: seq<string>): string {
    if ids == [] then "" else if |ids| == 1 then ids[0] else ids[0] + ", " + Joined(ids[1..])
  }

  /** `text.split(",")`, with `current` the segment read so far. */
  function SplitFrom(text: string, i: nat, current: string): seq<string>
    requires i <= |text|
    decreases |text| - i
  {
    if i == |text| then [current]
    else if text[i] == ',' then [current] + SplitFrom(text, i + 1, "")
    else SplitFrom(text, i + 1, current + [text[i]])
  }

  function Split(text: string): seq<string> {
    SplitFrom(text, 0, "")
  }

  ghost predicate CommaFree(s: string) {
    forall i :: 0 <= i < |s| ==> s[i] != ','
  }

  /** Characters other than commas go to the current segment. */
  lemma {:induction false} SplitScans(text: string, i: nat, k: nat, current: string)
    requires i <= k <= |text| && CommaFree(text[i..k])
    ensures SplitFrom(text, i, current) == SplitFrom(text, k, current + text[i..k])
    decreases k - i
  {
    if i < k {
      assert text[i] == text[i..k][0] && text[i] != ',';
      assert text[i + 1..k] == text[i..k][1..];
      SplitScans(text, i + 1, k, current + [text[i]]);
      assert current + [text[i]] + text[i + 1..k] == current + text[i..k];
    } else {
      assert current + text[i..k] == current;
    }
  }

  /** Splitting looks ahead only. */
  lemma {:induction false} SplitShifts(front: string, rest: string, i: nat, current: string)
    requires i <= |rest|
    ensures SplitFrom(front + rest, |front| + i, current) == SplitFrom(rest, i, current)
    decreases |rest| - i
  {
    if i < |rest| {
      assert (front + rest)[|front| + i] == rest[i];
      SplitShifts(front, rest, i + 1, if rest[i] == ',' then "" else current + [rest[i]]);
    }
  }

  lemma {:induction false} SplitSegment(head: string, rest: string)
    requires CommaFree(head)
    ensures Split(head + "," + rest) == [head] + Split(rest)
    ensures Split(head) == [head]
  {
    var text := head + "," + rest;
    assert text[0..|head|] == head && text[|head|] == ',';
    SplitScans(text, 0, |head|, "");
    assert "" + head == head;
    SplitShifts(head + ",", rest, 0, "");
    assert head[0..|head|] == head;
    SplitScans(head, 0, |head|, "");
  }

  /** The segments of a joined list: each id, all but the first after a blank. */
  function Spaced(ids: seq<string>, lead: string): seq<string> {
    if ids == [] then [] else [lead + ids[0]] + Spaced(ids[1..], " ")
  }

  /** Splitting the joined list gives its ids back, one segment each. */
  lemma {:induction false} SplitJoined(ids: seq<string>, lead: string)
    requires ids != [] && CommaFree(lead) && forall i :: 0 <= i < |ids| ==> CommaFree(ids[i])
    ensures Split(lead + Joined(ids)) == Spaced(ids, lead)
    decreases |ids|
  {
    assert CommaFree(ids[0]);
    assert CommaFree(lead + ids[0]);
    if |ids| == 1 {
      SplitSegment(lead + ids[0], "");
      assert Spaced(ids[1..], " ") == [];
    } else {
      var rest := " " + Joined(ids[1..]);
      assert lead + Joined(ids) == (lead + ids[0]) + "," + rest;
      SplitSegment(lead + ids[0], rest);
      assert forall i :: 0 <= i < |ids| - 1 ==> ids[1..][i] == ids[i + 1];
      SplitJoined(ids[1..], " ");
    }
  }

  lemma {:induction false} SpacedAt(ids: seq<string>, lead: string, i: nat)
    requires i < |ids| && (lead == "" || lead == " ") && forall k :: 0 <= k < |ids| ==> ids[k] != "" && Trimmed(ids[k])
    ensures |Spaced(ids, lead)| == |ids| && Strip(Spaced(ids, lead)[i]) == ids[i]
    decreases |ids|
  {
    if |ids| > 1 {
      assert forall k :: 0 <= k < |ids| - 1 ==> ids[1..][k] == ids[k + 1];
      SpacedAt(ids[1..], " ", if i > 0 then i - 1 else 0);
    }
    if i == 0 {
      StripBlank(ids[0]);
    }
  }

  lemma {:induction false} StripBlank(id: string)
    requires id != "" && Trimmed(id)
    ensures Strip("" + id) == id && Strip(" " + id) == id
  {
    assert "" + id == id;
    assert (" " + id)[1..] == id;
  }

  /** What the segments of a text hold, one id each. */
  function ReadIds(text: string): seq<string> {
    seq(|Split(text)|, i requires 0 <= i < |Split(text)| => Strip(Split(text)[i]))
  }

  ghost predicate Readable(id: string) {
    id != "" && Trimmed(id) && CommaFree(id)
  }

  lemma {:induction false} ReadJoined(ids: seq<string>)
    requires ids != [] && forall k :: 0 <= k < |ids| ==> Readable(ids[k])
    ensures ReadIds(Joined(ids)) == ids
  {
    assert "" + Joined(ids) == Joined(ids);
    SplitJoined(ids, "");
    SpacedAt(ids, "", 0);
    forall i | 0 <= i < |ids|
      ensures ReadIds(Joined(ids))[i] == ids[i]
    {
      SpacedAt(ids, "", i);
    }
  }

  /** What the range pattern's first group can be: it starts like an id, ends in a hyphen, holds no comma. */
  ghost predicate IsPrefix(prefix: string) {
    |prefix| > 0 && !IsSpace(prefix[0]) && CommaFree(prefix) && prefix[|prefix| - 1] == '-'
  }

  lemma {:induction false} DigitsReadable(prefix: string, d: string)
    requires IsPrefix(prefix) && AllDigits(d) && d != []
    ensures Readable(prefix + d)
  {
    var id := prefix + d;
    assert id[0] == prefix[0] && id[|id| - 1] == d[|d| - 1];
    assert IsDigit(d[|d| - 1]);
    forall i | 0 <= i < |id|
      ensures id[i] != ','
    {
      assert id[i] == if i < |prefix| then prefix[i] else d[i - |prefix|];
    }
  }

  lemma {:induction false} IdReadable(prefix: string, width: nat, n: nat)
    requires IsPrefix(prefix)
    ensures Readable(prefix + Padded(Decimal(n), width))
  {
    DecimalDigits(n);
    PaddedNumber(Decimal(n), width);
    DigitsReadable(prefix, Padded(Decimal(n), width));
  }

  lemma {:induction false} IdsReadable(prefix: string, width: nat, n: nat, last: nat, k: nat)
    requires IsPrefix(prefix) && n <= last && k <= last - n
    ensures |IdsFrom(prefix, width, n, last)| == last - n + 1 && Readable(IdsFrom(prefix, width, n, last)[k])
  {
    IdAt(prefix, width, n, last, k);
    IdReadable(prefix, width, n + k);
  }

  lemma {:induction false} IdsReadBack(prefix: string, width: nat, a: nat, b: nat, ids: seq<string>)
    requires IsPrefix(prefix) && a <= b && ids == IdsFrom(prefix, width, a, b)
    ensures ReadIds(Joined(ids)) == ids
  {
    IdAt(prefix, width, a, b, 0);
    forall k | 0 <= k < |ids|
      ensures Readable(ids[k])
    {
      IdsReadable(prefix, width, a, b, k);
    }
    ReadJoined(ids);
  }

  /** The text a range is rewritten to, split at its commas and read segment by segment, gives exactly the ids
      a..b: b-a+1 of them, pairwise distinct and strictly increasing in natural order. */
  lemma {:induction false} ExpansionReadsBack(prefix: string, start: string, end: string, i: nat, j: nat)
    requires IsPrefix(prefix) && AllDigits(start) && AllDigits(end)
    requires NumberOf(start) <= NumberOf(end) <= NumberOf(start) + 200
    ensures Expand(prefix, start, end).Some?
    ensures
      var a, b := NumberOf(start), NumberOf(end);
      var ids := ReadIds(Joined(Expand(prefix, start, end).value));
      && ids == Expand(prefix, start, end).value
      && |ids| == b - a + 1
      && (i < j < |ids| ==> NaturalLess(ids[i], ids[j]) && ids[i] != ids[j])
  {
    var a, b := NumberOf(start), NumberOf(end);
    ExpandUnfolds(prefix, start, end, a, b);
    var ids := IdsFrom(prefix, |start|, a, b);
    IdsReadBack(prefix, |start|, a, b, ids);
    IdsExactly(prefix, |start|, a, b, ids, i, j);
  }
}
