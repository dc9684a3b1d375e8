/** Values shared by every model: optional values, decimal numerals and the
    whitespace handling of Python strings. */
module Text {

  datatype Option<+T> = None | Some(value: T)

  // ---------- decimal numerals ----------

  predicate IsDigit(c: char) {
    '0' <= c <= '9'
  }

  ghost predicate AllDigits(s: string) {
    forall i :: 0 <= i < |s| ==> IsDigit(s[i])
  }

  function DigitValue(c: char): (d: nat)
    requires IsDigit(c)
    ensures d < 10
  {
    c as int - '0' as int
  }

  function DigitChar(d: nat): (c: char)
    requires d < 10
    ensures IsDigit(c) && DigitValue(c) == d
  {
    ('0' as int + d) as char
  }

  /** The decimal rendering of a number, as `str(n)` gives it. */
  function Decimal(n: nat): string {
    if n < 10 then [DigitChar(n)] else Decimal(n / 10) + [DigitChar(n % 10)]
  }

  lemma {:induction false} DecimalDigits(n: nat)
    ensures |Decimal(n)| > 0 && AllDigits(Decimal(n))
    ensures Decimal(n)[0] == '0' <==> n == 0
  {
    if n >= 10 {
      DecimalDigits(n / 10);
    }
  }

  /** The number a digit string denotes, as `int(s)` reads it. */
  function NumberOf(s: string): nat
    requires AllDigits(s)
  {
    if s == [] then 0 else 10 * NumberOf(s[..|s| - 1]) + DigitValue(s[|s| - 1])
  }

  lemma {:induction false} NumberOfDecimal(n: nat)
    ensures AllDigits(Decimal(n)) && NumberOf(Decimal(n)) == n
  {
    DecimalDigits(n);
    if n < 10 {
      assert Decimal(n)[..0] == [];
    } else {
      NumberOfDecimal(n / 10);
      assert Decimal(n)[..|Decimal(n)| - 1] == Decimal(n / 10);
    }
  }

  lemma {:induction false} DecimalInjective(m: nat, n: nat)
    requires Decimal(m) == Decimal(n)
    ensures m == n
  {
    NumberOfDecimal(m);
    NumberOfDecimal(n);
  }

  // ---------- whitespace ----------

  /** The characters `str.isspace` accepts. */
  predicate IsSpace(c: char) {
    || '\U{0009}' <= c <= '\U{000D}'
    || '\U{001C}' <= c <= '\U{0020}'
    || c == '\U{0085}' || c == '\U{00A0}' || c == '\U{1680}'
    || '\U{2000}' <= c <= '\U{200A}'
    || c == '\U{2028}' || c == '\U{2029}' || c == '\U{202F}' || c == '\U{205F}' || c == '\U{3000}'
  }

  /** `str.strip()`. */
  function Strip(s: string): (r: string)
    ensures r == [] || (!IsSpace(r[0]) && !IsSpace(r[|r| - 1]))
    ensures s == [] || (!IsSpace(s[0]) && !IsSpace(s[|s| - 1])) ==> r == s
    decreases |s|
  {
    if s == [] then []
    else if IsSpace(s[0]) then Strip(s[1..])
    else if IsSpace(s[|s| - 1]) then Strip(s[..|s| - 1])
    else s
  }

  ghost predicate AllSpace(s: string) {
    forall i :: 0 <= i < |s| ==> IsSpace(s[i])
  }

  ghost predicate Wraps(s: string, before: string, middle: string, after: string) {
    s == before + middle + after && AllSpace(before) && AllSpace(after)
  }

  lemma {:induction false} SpaceInFront(s: string, before: string, middle: string, after: string)
    requires s != [] && IsSpace(s[0]) && Wraps(s[1..], before, middle, after)
    ensures Wraps(s, [s[0]] + before, middle, after)
  {
    assert s == [s[0]] + s[1..];
  }

  lemma {:induction false} SpaceBehind(s: string, before: string, middle: string, after: string)
    requires s != [] && IsSpace(s[|s| - 1]) && Wraps(s[..|s| - 1], before, middle, after)
    ensures Wraps(s, before, middle, after + [s[|s| - 1]])
  {
    assert s == s[..|s| - 1] + [s[|s| - 1]];
  }

  lemma {:induction false} StripUnfolds(s: string, r: string)
    requires r == Strip(s)
    ensures s != [] && IsSpace(s[0]) ==> r == Strip(s[1..])
    ensures s != [] && !IsSpace(s[0]) && IsSpace(s[|s| - 1]) ==> r == Strip(s[..|s| - 1])
    ensures s == [] || (!IsSpace(s[0]) && !IsSpace(s[|s| - 1])) ==> r == s
  {
  }

  /** Stripping takes whitespace off both ends and nothing else. */
  lemma {:induction false} StripExactly(s: string, r: string) returns (before: string, after: string)
    requires r == Strip(s)
    ensures Wraps(s, before, r, after)
    decreases |s|
  {
    StripUnfolds(s, r);
    before, after := "", "";
    if s != [] && IsSpace(s[0]) {
      before, after := StripExactly(s[1..], r);
      SpaceInFront(s, before, r, after);
      before := [s[0]] + before;
    } else if s != [] && IsSpace(s[|s| - 1]) {
      before, after := StripExactly(s[..|s| - 1], r);
      SpaceBehind(s, before, r, after);
      after := after + [s[|s| - 1]];
    } else {
      assert s == "" + s + "";
    }
  }

  /** A string that stripping leaves alone. */
  predicate Trimmed(s: string) {
    s == [] || (!IsSpace(s[0]) && !IsSpace(s[|s| - 1]))
  }

  /** `str.lower` on ASCII letters; other characters are left alone. */
  function LowerChar(c: char): char {
    if 'A' <= c <= 'Z' then c - 'A' + 'a' else c
  }

  function Lower(s: string): string {
    seq(|s|, i requires 0 <= i < |s| => LowerChar(s[i]))
  }

  predicate StandsAt(hay: string, needle: string, k: nat) {
    k + |needle| <= |hay| && hay[k..k + |needle|] == needle
  }

  /** `needle in hay`. */
  predicate Contains(hay: string, needle: string) {
    exists k: nat :: k <= |hay| && StandsAt(hay, needle, k)
  }

  /** One text stands in another exactly when it can be cut out of it. */
  lemma {:induction false} ContainsExactly(hay: string, needle: string)
    ensures Contains(hay, needle) <==> exists before, after :: Pieces(hay, before, needle, after)
  {
    if k: nat :| k <= |hay| && StandsAt(hay, needle, k) {
      assert hay == hay[..k] + hay[k..k + |needle|] + hay[k + |needle|..];
      assert Pieces(hay, hay[..k], needle, hay[k + |needle|..]);
    }
    if before, after :| Pieces(hay, before, needle, after) {
      assert hay[|before|..|before| + |needle|] == needle;
      assert StandsAt(hay, needle, |before|);
    }
  }

  ghost predicate Pieces(hay: string, before: string, needle: string, after: string) {
    hay == before + needle + after
  }

  /** Lower-casing moves the capital letters 32 places up and leaves every other character. */
  lemma {:induction false} LowerExactly(s: string, i: nat)
    requires i < |s|
    ensures |Lower(s)| == |s|
    ensures 'A' <= s[i] <= 'Z' ==> Lower(s)[i] as int == s[i] as int + 32
    ensures !('A' <= s[i] <= 'Z') ==> Lower(s)[i] == s[i]
  {
  }

  // ---------- positions ----------

  /** Positions in ascending order. */
  ghost predicate Rising(at: seq<nat>) {
    forall j, k :: 0 <= j < k < |at| ==> at[j] < at[k]
  }

  /** `picked` holds, in order, the rows at exactly the chosen positions among the first `n`. */
  ghost predicate Picks<T>(rows: seq<T>, chosen: seq<bool>, n: nat, picked: seq<T>, at: seq<nat>)
    requires n <= |rows| == |chosen|
  {
    && Rising(at) && |at| == |picked|
    && (forall k :: 0 <= k < |at| ==> at[k] < n && picked[k] == rows[at[k]])
    && (forall i: nat :: i in at <==> i < n && chosen[i])
  }

  function Picked<T>(rows: seq<T>, chosen: seq<bool>, n: nat): seq<T>
    requires n <= |rows| == |chosen|
  {
    if n == 0 then [] else Picked(rows, chosen, n - 1) + if chosen[n - 1] then [rows[n - 1]] else []
  }

  lemma {:induction false} PicksMore<T>(rows: seq<T>, chosen: seq<bool>, n: nat, picked: seq<T>, at: seq<nat>)
    requires n < |rows| == |chosen| && Picks(rows, chosen, n, picked, at)
    ensures if chosen[n] then Picks(rows, chosen, n + 1, picked + [rows[n]], at + [n])
            else Picks(rows, chosen, n + 1, picked + [], at)
  {
  }

  lemma {:induction false} PickedPicks<T>(rows: seq<T>, chosen: seq<bool>, n: nat) returns (at: seq<nat>)
    requires n <= |rows| == |chosen|
    ensures Picks(rows, chosen, n, Picked(rows, chosen, n), at)
  {
    at := [];
    if n > 0 {
      at := PickedPicks(rows, chosen, n - 1);
      PicksMore(rows, chosen, n - 1, Picked(rows, chosen, n - 1), at);
      at := if chosen[n - 1] then at + [n - 1] else at;
    }
  }

  /** The marked positions from `i` on. */
  ghost function Marks(marked: seq<bool>, i: nat): set<nat> {
    set k: nat | i <= k < |marked| && marked[k]
  }

  lemma {:induction false} MarksNext(marked: seq<bool>, i: nat)
    requires i < |marked|
    ensures |Marks(marked, i)| == |Marks(marked, i + 1)| + if marked[i] then 1 else 0
  {
    if marked[i] {
      assert Marks(marked, i) == Marks(marked, i + 1) + {i};
    } else {
      assert Marks(marked, i) == Marks(marked, i + 1);
    }
  }
}
