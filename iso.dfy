/** Dates as the application stores them: ISO `YYYY-MM-DD` text, compared with
    JavaScript's string operators. */
module IsoText {
  import opened Options
  import opened Dates

  /** JavaScript's `<` on strings: lexicographic order of the characters. */
  predicate LexLess(a: string, b: string)
    decreases |a|
  {
    if |a| == 0 then |b| > 0
    else if |b| == 0 then false
    else if a[0] != b[0] then a[0] < b[0]
    else LexLess(a[1..], b[1..])
  }

  /** JavaScript's `<=` on strings. */
  predicate StrLe(a: string, b: string) {
    !LexLess(b, a)
  }

  /** `s.slice(0, n)`: the first n characters, or all of s when it is shorter. */
  function Slice(s: string, n: nat): (r: string)
    ensures |r| == if |s| <= n then |s| else n
    ensures r <= s
  {
    if |s| <= n then s else s[..n]
  }

  // ---- Properties of the string order ----

  lemma {:induction false} LexConcat(x: string, y: string, s: string, t: string)
    requires |x| == |y|
    ensures LexLess(x + s, y + t) <==> LexLess(x, y) || (x == y && LexLess(s, t))
    ensures x + s == y + t <==> x == y && s == t
    decreases |x|
  {
    if |x| == 0 {
      assert x + s == s && y + t == t;
    } else {
      assert (x + s)[0] == x[0] && (y + t)[0] == y[0];
      assert (x + s)[1..] == x[1..] + s && (y + t)[1..] == y[1..] + t;
      LexConcat(x[1..], y[1..], s, t);
      if x[0] == y[0] {
        assert x == y <==> x[1..] == y[1..] by {
          if x[1..] == y[1..] { assert x == [x[0]] + x[1..] && y == [y[0]] + y[1..]; }
        }
      }
      if x + s == y + t {
        assert x == (x + s)[..|x|] && y == (y + t)[..|y|];
        assert s == (x + s)[|x|..] && t == (y + t)[|y|..];
      }
    }
  }

  lemma {:induction false} LexIrreflexive(a: string)
    ensures !LexLess(a, a)
    decreases |a|
  {
    if |a| > 0 { LexIrreflexive(a[1..]); }
  }

  lemma {:induction false} LexTrichotomy(a: string, b: string)
    ensures a == b || LexLess(a, b) || LexLess(b, a)
    ensures !(LexLess(a, b) && LexLess(b, a))
    decreases |a|
  {
    if |a| > 0 && |b| > 0 {
      LexTrichotomy(a[1..], b[1..]);
      if a[0] == b[0] && a[1..] == b[1..] {
        assert a == [a[0]] + a[1..] && b == [b[0]] + b[1..];
      }
    }
  }

  lemma {:induction false} LexTransitive(a: string, b: string, c: string)
    requires LexLess(a, b) && LexLess(b, c)
    ensures LexLess(a, c)
    decreases |a|
  {
    if |a| > 0 && a[0] == b[0] && b[0] == c[0] {
      LexTransitive(a[1..], b[1..], c[1..]);
    }
  }

  /** `<=` on strings is a total preorder; JavaScript's sort order for dates relies on it. */
  lemma StrLeTotal(a: string, b: string)
    ensures StrLe(a, b) || StrLe(b, a)
    ensures StrLe(a, b) <==> a == b || LexLess(a, b)
  {
    LexTrichotomy(a, b);
    if a == b { LexIrreflexive(a); }
  }

  lemma StrLeAntisymmetric(a: string, b: string)
    requires StrLe(a, b) && StrLe(b, a)
    ensures a == b
  {
    LexTrichotomy(a, b);
  }

  lemma StrLeTransitive(a: string, b: string, c: string)
    requires StrLe(a, b) && StrLe(b, c)
    ensures StrLe(a, c)
  {
    StrLeTotal(a, b);
    StrLeTotal(b, c);
    StrLeTotal(a, c);
    if a != b && b != c { LexTransitive(a, b, c); }
    if LexLess(c, a) {
      if a == b { LexTrichotomy(b, c); } else if b == c { LexTrichotomy(a, b); }
      else { LexTransitive(a, b, c); LexTrichotomy(a, c); }
    }
  }

  // ---- Zero-padded decimal digits ----

  function Pow10(w: nat): (p: nat)
    ensures p >= 1
  {
    if w == 0 then 1 else 10 * Pow10(w - 1)
  }

  predicate IsDigit(c: char) {
    '0' <= c <= '9'
  }

  predicate AllDigits(s: string) {
    forall i :: 0 <= i < |s| ==> IsDigit(s[i])
  }

  function DigitChar(k: int): (c: char)
    requires 0 <= k <= 9
    ensures IsDigit(c)
  {
    ('0' as int + k) as char
  }

  function DigitValue(c: char): (k: int)
    requires IsDigit(c)
    ensures 0 <= k <= 9 && DigitChar(k) == c
  {
    c as int - '0' as int
  }

  /** n written with exactly w decimal digits, leading zeros included. */
  function Pad(n: nat, w: nat): (s: string)
    requires n < Pow10(w)
    ensures |s| == w
    decreases w
  {
    if w == 0 then "" else Pad(n / 10, w - 1) + [DigitChar(n % 10)]
  }

  /** The value of a string of decimal digits. */
  function Digits(s: string): (n: nat)
    requires AllDigits(s)
    ensures n < Pow10(|s|)
    decreases |s|
  {
    if s == [] then 0 else 10 * Digits(s[..|s| - 1]) + DigitValue(s[|s| - 1])
  }

  /** Fixed-width digit strings compare as their values do. */
  lemma {:induction false} PadOrder(a: nat, b: nat, w: nat)
    requires a < Pow10(w) && b < Pow10(w)
    ensures LexLess(Pad(a, w), Pad(b, w)) <==> a < b
    ensures Pad(a, w) == Pad(b, w) <==> a == b
    decreases w
  {
    if w > 0 {
      PadOrder(a / 10, b / 10, w - 1);
      var ca, cb := DigitChar(a % 10), DigitChar(b % 10);
      LexConcat(Pad(a / 10, w - 1), Pad(b / 10, w - 1), [ca], [cb]);
      assert LexLess([ca], [cb]) <==> a % 10 < b % 10 by {
        assert [ca][1..] == [] && [cb][1..] == [];
      }
    }
  }

  lemma {:induction false} DigitsOfPad(n: nat, w: nat)
    requires n < Pow10(w)
    ensures AllDigits(Pad(n, w)) && Digits(Pad(n, w)) == n
    decreases w
  {
    if w > 0 {
      DigitsOfPad(n / 10, w - 1);
      var s := Pad(n, w);
      assert s[..w - 1] == Pad(n / 10, w - 1);
    }
  }

  lemma {:induction false} PadOfDigits(s: string)
    requires AllDigits(s)
    ensures Pad(Digits(s), |s|) == s
    decreases |s|
  {
    if s != [] {
      var p := s[..|s| - 1];
      PadOfDigits(p);
      var n := Digits(s);
      assert n / 10 == Digits(p) && n % 10 == DigitValue(s[|s| - 1]);
      assert s == p + [s[|s| - 1]];
    }
  }

  // ---- ISO dates ----

  predicate Representable(d: Date) {
    Valid(d) && 0 <= d.year <= 9999
  }

  lemma WidthFacts()
    ensures Pow10(2) == 100 && Pow10(4) == 10000
  {
  }

  /** `toISOString().slice(0, 10)` at day resolution. */
  function Iso(d: Date): (s: string)
    requires Representable(d)
    ensures |s| == 10
  {
    WidthFacts();
    Pad(d.year, 4) + ("-" + (Pad(d.month, 2) + ("-" + Pad(d.day, 2))))
  }

  /** A `YYYY-MM` month key. */
  function IsoMonth(y: int, m: int): (s: string)
    requires 0 <= y <= 9999 && 1 <= m <= 12
    ensures |s| == 7
  {
    WidthFacts();
    Pad(y, 4) + ("-" + Pad(m, 2))
  }

  /** date-fns parseISO restricted to the calendar-date form `YYYY-MM-DD`;
      anything else, or a day the month does not have, is an invalid date. */
  function ParseIso(s: string): (r: Option<Date>)
    ensures r.Some? ==> Representable(r.value) && Iso(r.value) == s
  {
    if |s| == 10 && s[4] == '-' && s[7] == '-'
       && AllDigits(s[..4]) && AllDigits(s[5..7]) && AllDigits(s[8..])
    then
      var d := Date(Digits(s[..4]), Digits(s[5..7]), Digits(s[8..]));
      if Valid(d) then
        IsoOfFields(s);
        Some(d)
      else None
    else None
  }

  /** A `YYYY-MM-DD` text whose fields form a valid date is that date's text. */
  lemma IsoOfFields(s: string)
    requires |s| == 10 && s[4] == '-' && s[7] == '-'
    requires AllDigits(s[..4]) && AllDigits(s[5..7]) && AllDigits(s[8..])
    requires Valid(Date(Digits(s[..4]), Digits(s[5..7]), Digits(s[8..])))
    ensures Representable(Date(Digits(s[..4]), Digits(s[5..7]), Digits(s[8..])))
    ensures Iso(Date(Digits(s[..4]), Digits(s[5..7]), Digits(s[8..]))) == s
  {
    WidthFacts();
    PadOfDigits(s[..4]);
    PadOfDigits(s[5..7]);
    PadOfDigits(s[8..]);
    assert s == s[..4] + ("-" + (s[5..7] + ("-" + s[8..])));
  }

  /** Parsing undoes formatting. */
  lemma ParseIsoOfIso(d: Date)
    requires Representable(d)
    ensures ParseIso(Iso(d)) == Some(d)
  {
    WidthFacts();
    var s := Iso(d);
    assert s[..4] == Pad(d.year, 4);
    assert s[5..7] == Pad(d.month, 2);
    assert s[8..] == Pad(d.day, 2);
    DigitsOfPad(d.year, 4);
    DigitsOfPad(d.month, 2);
    DigitsOfPad(d.day, 2);
  }

  lemma IsoLess(a: Date, b: Date)
    requires Representable(a) && Representable(b)
    ensures LexLess(Iso(a), Iso(b)) <==> Before(a, b)
    ensures Iso(a) == Iso(b) <==> a == b
  {
    WidthFacts();
    var ya, ma, da := Pad(a.year, 4), Pad(a.month, 2), Pad(a.day, 2);
    var yb, mb, db := Pad(b.year, 4), Pad(b.month, 2), Pad(b.day, 2);
    PadOrder(a.year, b.year, 4);
    PadOrder(a.month, b.month, 2);
    PadOrder(a.day, b.day, 2);
    LexIrreflexive("-");
    LexConcat("-", "-", da, db);
    LexConcat(ma, mb, "-" + da, "-" + db);
    LexConcat("-", "-", ma + ("-" + da), mb + ("-" + db));
    LexConcat(ya, yb, "-" + (ma + ("-" + da)), "-" + (mb + ("-" + db)));
  }

  /** The text order of ISO dates is the calendar order; the application compares
      dates as strings and relies on this. */
  lemma IsoOrder(a: Date, b: Date)
    requires Representable(a) && Representable(b)
    ensures LexLess(Iso(a), Iso(b)) <==> Before(a, b)
    ensures StrLe(Iso(a), Iso(b)) <==> OnOrBefore(a, b)
    ensures Iso(a) == Iso(b) <==> a == b
  {
    IsoLess(a, b);
    IsoLess(b, a);
  }

  /** A parsed date string is the canonical text of its date, so its first seven
      characters are its month key. */
  lemma ParsedMonthKey(s: string)
    requires ParseIso(s).Some?
    ensures Slice(s, 7) == IsoMonth(ParseIso(s).value.year, ParseIso(s).value.month)
  {
    var d := ParseIso(s).value;
    assert Iso(d)[..7] == IsoMonth(d.year, d.month);
  }

  /** Month keys compare as the months do. */
  lemma IsoMonthOrder(y1: int, m1: int, y2: int, m2: int)
    requires 0 <= y1 <= 9999 && 1 <= m1 <= 12 && 0 <= y2 <= 9999 && 1 <= m2 <= 12
    ensures StrLe(IsoMonth(y1, m1), IsoMonth(y2, m2)) <==> y1 < y2 || (y1 == y2 && m1 <= m2)
    ensures IsoMonth(y1, m1) == IsoMonth(y2, m2) <==> y1 == y2 && m1 == m2
  {
    WidthFacts();
    PadOrder(y1, y2, 4);
    PadOrder(m1, m2, 2);
    LexConcat("-", "-", Pad(m1, 2), Pad(m2, 2));
    LexConcat("-", "-", Pad(m2, 2), Pad(m1, 2));
    LexConcat(Pad(y1, 4), Pad(y2, 4), "-" + Pad(m1, 2), "-" + Pad(m2, 2));
    LexConcat(Pad(y2, 4), Pad(y1, 4), "-" + Pad(m2, 2), "-" + Pad(m1, 2));
    LexIrreflexive("-");
    StrLeTotal(IsoMonth(y1, m1), IsoMonth(y2, m2));
  }
}
