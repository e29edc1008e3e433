/** The string operations the tracker applies to user input and stored fields:
    `str.strip()`, `str.lower()`, the substring test `q in s`, `int()` on a
    decimal text, the amount parse, and Python's ordering of strings. */
module Text {
  import opened Wrappers

  // ---------- strip ----------

  /** The characters for which Python's `str.isspace()` holds, which are the
      ones `str.strip()` removes from both ends. */
  predicate IsSpace(c: char) {
    var n := c as int;
    n == 0x20 || 0x09 <= n <= 0x0D || 0x1C <= n <= 0x1F || n == 0x85 || n == 0xA0
    || n == 0x1680 || 0x2000 <= n <= 0x200A || n == 0x2028 || n == 0x2029
    || n == 0x202F || n == 0x205F || n == 0x3000
  }

  /** Drops leading whitespace: what remains is a suffix that starts with a
      non-space, and everything dropped was whitespace. */
  function TrimStart(s: string): (r: string)
    ensures |r| <= |s| && r == s[|s| - |r|..]
    ensures r == [] || !IsSpace(r[0])
    ensures forall i :: 0 <= i < |s| - |r| ==> IsSpace(s[i])
  {
    if s != [] && IsSpace(s[0]) then TrimStart(s[1..]) else s
  }

  /** Drops trailing whitespace: what remains is a prefix that ends with a
      non-space, and everything dropped was whitespace. */
  function TrimEnd(s: string): (r: string)
    ensures |r| <= |s| && r == s[..|r|]
    ensures r == [] || !IsSpace(r[|r| - 1])
    ensures forall i :: |r| <= i < |s| ==> IsSpace(s[i])
  {
    if s != [] && IsSpace(s[|s| - 1]) then TrimEnd(s[..|s| - 1]) else s
  }

  /** Python's `s.strip()`. */
  function Strip(s: string): (r: string)
    ensures |r| <= |s|
    ensures r == [] || (!IsSpace(r[0]) && !IsSpace(r[|r| - 1]))
    ensures r == [] <==> forall i :: 0 <= i < |s| ==> IsSpace(s[i])
  {
    TrimEnd(TrimStart(s))
  }

  // ---------- lower ----------

  predicate IsUpper(c: char) { 'A' <= c <= 'Z' }

  function LowerChar(c: char): char {
    if IsUpper(c) then (c as int + 32) as char else c
  }

  /** Python's `s.lower()` on ASCII letters: same length, each letter lowered,
      every other character kept, and no upper-case letter left. */
  function Lower(s: string): (r: string)
    ensures |r| == |s|
    ensures forall i :: 0 <= i < |s| ==> r[i] == LowerChar(s[i])
    ensures forall i :: 0 <= i < |r| ==> !IsUpper(r[i])
  {
    if s == [] then [] else [LowerChar(s[0])] + Lower(s[1..])
  }

  /** Lowering twice is lowering once. */
  lemma LowerIdempotent(s: string)
    ensures Lower(Lower(s)) == Lower(s)
  {
  }

  lemma SpaceLower(c: char)
    ensures IsSpace(LowerChar(c)) == IsSpace(c)
  {
    if IsUpper(c) {
      assert 0x61 <= LowerChar(c) as int <= 0x7A;
    }
  }

  lemma {:induction false} TrimStartLower(s: string)
    ensures TrimStart(Lower(s)) == Lower(TrimStart(s))
  {
    if s != [] {
      var l := Lower(s);
      SpaceLower(s[0]);
      assert l[0] == LowerChar(s[0]);
      if IsSpace(s[0]) {
        assert l[1..] == Lower(s[1..]);
        TrimStartLower(s[1..]);
        assert TrimStart(l) == TrimStart(l[1..]);
      } else {
        assert TrimStart(l) == l;
      }
    }
  }

  lemma {:induction false} TrimEndLower(s: string)
    ensures TrimEnd(Lower(s)) == Lower(TrimEnd(s))
  {
    if s != [] {
      var l := Lower(s);
      var n := |s| - 1;
      SpaceLower(s[n]);
      assert l[n] == LowerChar(s[n]);
      if IsSpace(s[n]) {
        assert TrimEnd(s) == TrimEnd(s[..n]);
        assert l[..n] == Lower(s[..n]);
        assert TrimEnd(l) == TrimEnd(l[..n]);
        TrimEndLower(s[..n]);
      } else {
        assert TrimEnd(s) == s;
        assert TrimEnd(l) == l;
      }
    }
  }

  /** Lowering keeps whitespace where it is, so it commutes with stripping. */
  lemma StripLower(s: string)
    ensures Strip(Lower(s)) == Lower(Strip(s))
  {
    TrimStartLower(s);
    TrimEndLower(TrimStart(s));
  }

  // ---------- substring ----------

  predicate IsPrefix(p: string, s: string) {
    |p| <= |s| && p == s[..|p|]
  }

  /** Python's `q in s` for strings: `q` occurs in `s` at some position. */
  predicate Contains(s: string, q: string)
    decreases |s|
  {
    IsPrefix(q, s) || (s != [] && Contains(s[1..], q))
  }

  /** `q` sits in `s` at position `i`. */
  predicate OccursAt(s: string, q: string, i: int) {
    0 <= i <= |s| - |q| && s[i..i + |q|] == q
  }

  /** `Contains` agrees with the definition by position: some slice of `s` is `q`. */
  lemma {:induction false} ContainsIffOccurs(s: string, q: string)
    ensures Contains(s, q) <==> exists i :: OccursAt(s, q, i)
    decreases |s|
  {
    if IsPrefix(q, s) {
      assert OccursAt(s, q, 0);
    } else if s == [] {
      assert forall i :: !OccursAt(s, q, i);
    } else {
      ContainsIffOccurs(s[1..], q);
      if Contains(s[1..], q) {
        var i :| OccursAt(s[1..], q, i);
        assert s[i + 1..i + 1 + |q|] == s[1..][i..i + |q|];
        assert OccursAt(s, q, i + 1);
      }
      if exists i :: OccursAt(s, q, i) {
        var i :| OccursAt(s, q, i);
        assert i != 0;
        assert s[1..][i - 1..i - 1 + |q|] == s[i..i + |q|];
        assert OccursAt(s[1..], q, i - 1);
      }
    }
  }

  // ---------- decimal numbers ----------

  predicate IsDigit(c: char) { '0' <= c <= '9' }

  predicate AllDigits(s: string) {
    forall i :: 0 <= i < |s| ==> IsDigit(s[i])
  }

  function DigitValue(c: char): nat
    requires IsDigit(c)
  {
    c as int - '0' as int
  }

  function DigitChar(d: nat): (c: char)
    requires d < 10
    ensures IsDigit(c) && DigitValue(c) == d
  {
    ('0' as int + d) as char
  }

  /** The value of a run of decimal digits, most significant first. */
  function DigitsValue(s: string): nat
    requires AllDigits(s)
  {
    if s == [] then 0 else DigitsValue(s[..|s| - 1]) * 10 + DigitValue(s[|s| - 1])
  }

  /** The shortest decimal text of `n`, as `str(n)` writes it. */
  function NatText(n: nat): (s: string)
    ensures s != [] && AllDigits(s) && DigitsValue(s) == n
    ensures |s| > 1 ==> s[0] != '0'
  {
    if n < 10 then [DigitChar(n)]
    else
      var s := NatText(n / 10) + [DigitChar(n % 10)];
      assert s[..|s| - 1] == NatText(n / 10);
      s
  }

  /** `str(i)` for an integer. */
  function IntText(i: int): string {
    if i < 0 then "-" + NatText(-i) else NatText(i)
  }

  predicate IsSign(c: char) { c == '+' || c == '-' }

  /** A text with no whitespace at either end is its own `strip()`. */
  lemma StripUnspaced(s: string)
    requires s != [] && !IsSpace(s[0]) && !IsSpace(s[|s| - 1])
    ensures Strip(s) == s
  {
    assert TrimStart(s) == s;
  }

  /** Python's `int(s)` on an already stripped text: an optional sign and one
      or more decimal digits; anything else is the `ValueError` case. */
  function ParseInt(s: string): (r: Option<int>)
    ensures r.Some? <==> (s != [] && AllDigits(s)) || (|s| > 1 && IsSign(s[0]) && AllDigits(s[1..]))
  {
    if s != [] && IsSign(s[0]) then
      if |s| > 1 && AllDigits(s[1..]) then
        var v: int := DigitsValue(s[1..]);
        Some(if s[0] == '-' then -v else v)
      else None
    else if s != [] && AllDigits(s) then Some(DigitsValue(s))
    else None
  }

  /** `int(str(i)) == i`. */
  lemma IntTextRoundTrip(i: int)
    ensures ParseInt(IntText(i)) == Some(i)
  {
    if i < 0 {
      assert IntText(i)[1..] == NatText(-i);
    }
  }

  // ---------- amounts ----------

  /** Index of the first '.' in `s`, or `|s|` when there is none. */
  function DotIndex(s: string): (k: nat)
    ensures k <= |s|
    ensures k < |s| ==> s[k] == '.'
    ensures forall i :: 0 <= i < k ==> s[i] != '.'
  {
    if s == [] || s[0] == '.' then 0 else 1 + DotIndex(s[1..])
  }

  /** Hundredths denoted by up to two fraction digits ("" = 0, "5" = 50, "05" = 5). */
  function FractionValue(f: string): nat
    requires |f| <= 2 && AllDigits(f)
  {
    if |f| == 0 then 0
    else if |f| == 1 then DigitValue(f[0]) * 10
    else DigitValue(f[0]) * 10 + DigitValue(f[1])
  }

  /** `u` has its decimal point at `k`: digits before it, at most two digits
      after it, and at least one digit in all. */
  predicate DecimalPointAt(u: string, k: int) {
    0 <= k < |u| && u[k] == '.' && AllDigits(u[..k]) && AllDigits(u[k + 1..]) && |u| - k - 1 <= 2 && |u| > 1
  }

  /** The unsigned texts `float()` reads with at most two decimals: digits,
      or digits with a point followed by up to two digits. */
  predicate UnsignedAmountForm(u: string) {
    (u != [] && AllDigits(u)) || exists k | 0 <= k < |u| :: DecimalPointAt(u, k)
  }

  /** A text with its point at `k` has no point before `k`. */
  lemma DotIndexOfPoint(u: string, k: int)
    requires DecimalPointAt(u, k)
    ensures DotIndex(u) == k
  {
  }

  /** Every decimal point `u` can have is its first one. */
  lemma PointIsDotIndex(u: string)
    ensures forall k :: DecimalPointAt(u, k) ==> k == DotIndex(u)
  {
    forall k | DecimalPointAt(u, k) ensures k == DotIndex(u) {
      DotIndexOfPoint(u, k);
    }
  }

  /** An unsigned decimal amount in hundredths: digits with an optional point
      followed by at most two digits, with at least one digit in all. */
  function ParseUnsignedAmount(u: string): (r: Option<nat>)
    ensures r.Some? <==> UnsignedAmountForm(u)
  {
    var k := DotIndex(u);
    var whole, frac := u[..k], if k < |u| then u[k + 1..] else [];
    PointIsDotIndex(u);
    assert k < |u| && AllDigits(whole) && AllDigits(frac) && |frac| <= 2 && |whole| + |frac| > 0 ==> DecimalPointAt(u, k);
    assert k == |u| ==> whole == u;
    if AllDigits(whole) && AllDigits(frac) && |frac| <= 2 && |whole| + |frac| > 0 then
      Some(DigitsValue(whole) * 100 + FractionValue(frac))
    else None
  }

  /** Digits alone are a whole number of units. */
  lemma WholeUnsignedAmount(u: string)
    requires u != [] && AllDigits(u)
    ensures ParseUnsignedAmount(u) == Some(DigitsValue(u) * 100)
  {
    assert u[..|u|] == u;
  }

  /** Digits with a point at `k` are the units before it and the hundredths
      after it. */
  lemma PointedUnsignedAmount(u: string, k: int)
    requires DecimalPointAt(u, k)
    ensures ParseUnsignedAmount(u) == Some(DigitsValue(u[..k]) * 100 + FractionValue(u[k + 1..]))
  {
    DotIndexOfPoint(u, k);
  }

  /** The amount text as `float()` is applied to it, read in hundredths of the
      currency unit; `None` is the `ValueError` case. Accepted are an
      optional sign followed by an unsigned amount form. */
  function ParseAmount(s: string): (r: Option<int>)
    ensures r.Some? <==>
      if s != [] && IsSign(s[0]) then UnsignedAmountForm(s[1..]) else UnsignedAmountForm(s)
  {
    if s != [] && IsSign(s[0]) then
      match ParseUnsignedAmount(s[1..])
      case Some(v) =>
        var a: int := v;
        Some(if s[0] == '-' then -a else a)
      case None => None
    else ParseUnsignedAmount(s)
  }

  /** A whole number of currency units reads as that many hundreds of
      hundredths. */
  lemma WholeAmount(n: nat)
    ensures ParseAmount(NatText(n)) == Some(100 * n)
  {
    assert !IsSign(NatText(n)[0]);
    WholeUnsignedAmount(NatText(n));
  }

  /** "12" reads as 12.00. */
  lemma WholeAmountExample()
    ensures ParseAmount("12") == Some(1200)
  {
    assert NatText(12) == "12" by {
      assert NatText(12) == NatText(1) + [DigitChar(2)];
    }
    WholeAmount(12);
  }

  /** "1.5" reads as 1.50 and "1." as 1.00. */
  lemma PointedAmountExamples()
    ensures ParseAmount("1.5") == Some(150)
    ensures ParseAmount("1.") == Some(100)
  {
    assert DecimalPointAt("1.5", 1) && "1.5"[..1] == "1" && "1.5"[2..] == "5";
    PointedUnsignedAmount("1.5", 1);
    assert DecimalPointAt("1.", 1) && "1."[..1] == "1" && "1."[2..] == "";
    PointedUnsignedAmount("1.", 1);
  }

  /** ".5" reads as 0.50. */
  lemma FractionOnlyExample()
    ensures ParseAmount(".5") == Some(50)
  {
    assert DecimalPointAt(".5", 0) && ".5"[..0] == "" && ".5"[1..] == "5";
    PointedUnsignedAmount(".5", 0);
  }

  /** "-3.25" reads as -3.25. */
  lemma SignedAmountExample()
    ensures ParseAmount("-3.25") == Some(-325)
  {
    var n := "-3.25";
    assert n[0] == '-' && n[1..] == "3.25";
    ThreeTwentyFive();
  }

  lemma ThreeTwentyFive()
    ensures ParseUnsignedAmount("3.25") == Some(325)
  {
    assert DecimalPointAt("3.25", 1) && "3.25"[..1] == "3" && "3.25"[2..] == "25";
    PointedUnsignedAmount("3.25", 1);
    assert FractionValue("25") == 25;
  }

  /** "abc", "-" and "." are the `ValueError` case. */
  lemma RejectedAmountExamples()
    ensures ParseAmount("abc") == None
    ensures ParseAmount("-") == None
    ensures ParseAmount(".") == None
  {
    assert !IsDigit("abc"[0]);
    assert "-"[1..] == [];
    assert !IsDigit("."[0]);
  }

  /** The bound of the model, not of `float()`: "1.234" has three decimals,
      which `float()` reads as 1.234 but whole hundredths cannot hold, so the
      model rejects it. */
  lemma ThreeDecimalsRejected()
    ensures ParseAmount("1.234") == None
  {
    assert !IsDigit("1.234"[1]);
    PointIsDotIndex("1.234");
    assert DotIndex("1.234") == 1;
  }

  /** The digits of a non-negative amount with two decimals. */
  function AmountDigits(m: nat): string {
    NatText(m / 100) + "." + [DigitChar(m % 100 / 10), DigitChar(m % 10)]
  }

  /** An amount in hundredths as `f"{amount:.2f}"` shows it. */
  function AmountText(a: int): string {
    if a < 0 then "-" + AmountDigits(-a) else AmountDigits(a)
  }

  /** The first '.' of `w + "." + f` is the one after the digits `w`. */
  lemma DotAfterDigits(w: string, f: string)
    requires AllDigits(w)
    ensures DotIndex(w + "." + f) == |w|
  {
    var s := w + "." + f;
    var k := DotIndex(s);
    assert s[|w|] == '.';
  }

  lemma UnsignedAmountDigits(q: nat, d1: nat, d2: nat)
    requires d1 < 10 && d2 < 10
    ensures ParseUnsignedAmount(NatText(q) + "." + [DigitChar(d1), DigitChar(d2)]) == Some(q * 100 + d1 * 10 + d2)
  {
    var w := NatText(q);
    var f := [DigitChar(d1), DigitChar(d2)];
    var s := w + "." + f;
    DotAfterDigits(w, f);
    assert s[..|w|] == w;
    assert s[|w| + 1..] == f;
    assert DecimalPointAt(s, |w|);
    PointedUnsignedAmount(s, |w|);
    assert FractionValue(f) == d1 * 10 + d2;
  }

  /** Hundreds, tens and units of a number of hundredths. */
  lemma HundredthsSplit(m: nat)
    ensures m % 100 / 10 < 10 && m % 10 < 10
    ensures (m / 100) * 100 + (m % 100 / 10) * 10 + m % 10 == m
  {
    var q, r := m / 100, m % 100;
    assert m == q * 100 + r;
    assert m % 10 == r % 10 by {
      assert m == (q * 10 + r / 10) * 10 + r % 10;
    }
  }

  lemma UnsignedAmountRoundTrip(m: nat)
    ensures ParseUnsignedAmount(AmountDigits(m)) == Some(m)
    ensures IsDigit(AmountDigits(m)[0])
  {
    HundredthsSplit(m);
    UnsignedAmountDigits(m / 100, m % 100 / 10, m % 10);
    assert AmountDigits(m)[0] == NatText(m / 100)[0];
  }

  lemma PlainAmountRoundTrip(m: nat)
    ensures ParseAmount(AmountDigits(m)) == Some(m)
  {
    var t := AmountDigits(m);
    UnsignedAmountRoundTrip(m);
    assert !IsSign(t[0]);
  }

  lemma NegatedAmountRoundTrip(m: nat)
    ensures ParseAmount("-" + AmountDigits(m)) == Some(-(m as int))
  {
    var t := "-" + AmountDigits(m);
    UnsignedAmountRoundTrip(m);
    assert t[0] == '-' && t[1..] == AmountDigits(m) && |t| > 1;
    assert ParseUnsignedAmount(t[1..]) == Some(m);
  }

  /** Reading back the two-decimal display of an amount gives the amount. */
  lemma AmountTextRoundTrip(a: int)
    ensures ParseAmount(AmountText(a)) == Some(a)
  {
    if a < 0 {
      var m: nat := -a;
      assert AmountText(a) == "-" + AmountDigits(m);
      NegatedAmountRoundTrip(m);
    } else {
      assert AmountText(a) == AmountDigits(a);
      PlainAmountRoundTrip(a);
    }
  }

  // ---------- ordering ----------

  /** Python's `a < b` on strings: lexicographic by code point, a proper
      prefix coming first. */
  predicate LexLess(a: string, b: string)
    decreases |a|
  {
    if a == [] then b != []
    else if b == [] then false
    else if a[0] != b[0] then a[0] < b[0]
    else LexLess(a[1..], b[1..])
  }

  /** A common prefix does not change the order of two texts. */
  lemma {:induction false} LexCommonPrefix(p: string, a: string, b: string)
    ensures LexLess(p + a, p + b) <==> LexLess(a, b)
    decreases |p|
  {
    if p != [] {
      assert (p + a)[1..] == p[1..] + a && (p + b)[1..] == p[1..] + b;
      LexCommonPrefix(p[1..], a, b);
    } else {
      assert p + a == a && p + b == b;
    }
  }

  lemma {:induction false} LexIrreflexive(a: string)
    ensures !LexLess(a, a)
    decreases |a|
  {
    if a != [] { LexIrreflexive(a[1..]); }
  }

  lemma {:induction false} LexAsymmetric(a: string, b: string)
    ensures !(LexLess(a, b) && LexLess(b, a))
    decreases |a|
  {
    if a != [] && b != [] && a[0] == b[0] { LexAsymmetric(a[1..], b[1..]); }
  }

  lemma {:induction false} LexTransitive(a: string, b: string, c: string)
    requires LexLess(a, b) && LexLess(b, c)
    ensures LexLess(a, c)
    decreases |a|
  {
    if a != [] && a[0] == b[0] && b[0] == c[0] { LexTransitive(a[1..], b[1..], c[1..]); }
  }

  /** Any two different strings are ordered one way or the other. */
  lemma {:induction false} LexTotal(a: string, b: string)
    requires a != b
    ensures LexLess(a, b) || LexLess(b, a)
    decreases |a|
  {
    if a != [] && b != [] && a[0] == b[0] {
      assert a == [a[0]] + a[1..] && b == [b[0]] + b[1..];
      LexTotal(a[1..], b[1..]);
    }
  }

  /** "Not less than" is transitive, so it is a total preorder sorts can rely on. */
  lemma NotLessTransitive(a: string, b: string, c: string)
    requires !LexLess(a, b) && !LexLess(b, c)
    ensures !LexLess(a, c)
  {
    if LexLess(a, c) {
      if a == b {
      } else {
        LexTotal(a, b);
        LexTransitive(b, a, c);
      }
    }
  }

  /** Two strings neither of which is less than the other are equal. */
  lemma NotLessAntisymmetric(a: string, b: string)
    requires !LexLess(a, b) && !LexLess(b, a)
    ensures a == b
  {
    if a != b { LexTotal(a, b); }
  }
}
