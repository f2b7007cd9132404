/** Decimal numbers and ISO dates as text, and the order of such texts. */
module IsoText {
  import opened Prelude

  // ---------------------------------------------------------------------
  // Text order, as SQLite's BINARY collation compares ASCII text
  // ---------------------------------------------------------------------

  predicate LexLess(a: string, b: string) {
    b != [] && (a == [] || a[0] < b[0] || (a[0] == b[0] && LexLess(a[1..], b[1..])))
  }

  lemma {:induction false} LexIrreflexive(a: string)
    ensures !LexLess(a, a)
  {
    if a != [] { LexIrreflexive(a[1..]); }
  }

  lemma {:induction false} LexTransitive(a: string, b: string, c: string)
    requires LexLess(a, b) && LexLess(b, c)
    ensures LexLess(a, c)
  {
    if a != [] && a[0] == b[0] && b[0] == c[0] {
      LexTransitive(a[1..], b[1..], c[1..]);
    }
  }

  lemma {:induction false} LexTotal(a: string, b: string)
    ensures a == b || LexLess(a, b) || LexLess(b, a)
  {
    if a != [] && b != [] && a[0] == b[0] {
      LexTotal(a[1..], b[1..]);
      assert a == [a[0]] + a[1..] && b == [b[0]] + b[1..];
    }
  }

  /** Texts of equal-length beginnings compare beginning first. */
  lemma {:induction false} LexAppend(p: string, q: string, s: string, t: string)
    requires |p| == |q|
    ensures LexLess(p + s, q + t) <==> LexLess(p, q) || (p == q && LexLess(s, t))
  {
    if p == [] {
      assert p + s == s && q + t == t;
    } else {
      assert (p + s)[1..] == p[1..] + s && (q + t)[1..] == q[1..] + t;
      assert p == [p[0]] + p[1..] && q == [q[0]] + q[1..];
      LexAppend(p[1..], q[1..], s, t);
    }
  }

  // ---------------------------------------------------------------------
  // Digits
  // ---------------------------------------------------------------------

  predicate IsDigit(c: char) { '0' <= c <= '9' }

  function DigitChar(d: nat): (c: char)
    requires d < 10
    ensures IsDigit(c) && DigitValue(c) == d
  {
    '0' + d as char
  }

  function DigitValue(c: char): (d: nat)
    requires IsDigit(c)
    ensures d < 10
  {
    (c as int) - ('0' as int)
  }

  function Pow10(w: nat): nat { if w == 0 then 1 else 10 * Pow10(w - 1) }

  /** n zero-padded to w digits. */
  function Digits(n: nat, w: nat): (s: string)
    ensures |s| == w && forall i :: 0 <= i < w ==> IsDigit(s[i])
    decreases w
  {
    if w == 0 then "" else Digits(n / 10, w - 1) + [DigitChar(n % 10)]
  }

  /** The value of a run of digits; anything else has none. */
  function DigitsValue(s: string): Option<nat> {
    if s == [] then None
    else if !IsDigit(s[|s| - 1]) then None
    else if |s| == 1 then Some(DigitValue(s[0]))
    else match DigitsValue(s[..|s| - 1])
         case None => None
         case Some(v) => Some(10 * v + DigitValue(s[|s| - 1]))
  }

  lemma {:induction false} DigitsRoundTrip(n: nat, w: nat)
    requires w >= 1 && n < Pow10(w)
    ensures DigitsValue(Digits(n, w)) == Some(n)
  {
    var p, c := Digits(n / 10, w - 1), DigitChar(n % 10);
    assert Pow10(w) == 10 * Pow10(w - 1);
    assert (p + [c])[..w - 1] == p && (p + [c])[w - 1] == c;
    if w > 1 {
      DigitsRoundTrip(n / 10, w - 1);
      assert DigitsValue(p + [c]) == Some(10 * (n / 10) + DigitValue(c));
    } else {
      assert Pow10(0) == 1 && p + [c] == [c];
    }
  }

  /** Zero-padding makes text order numeric order. */
  lemma {:induction false} DigitsOrder(a: nat, b: nat, w: nat)
    requires a < Pow10(w) && b < Pow10(w)
    ensures LexLess(Digits(a, w), Digits(b, w)) <==> a < b
    ensures Digits(a, w) == Digits(b, w) <==> a == b
  {
    if w > 0 {
      DigitsOrder(a / 10, b / 10, w - 1);
      LexAppend(Digits(a / 10, w - 1), Digits(b / 10, w - 1), [DigitChar(a % 10)], [DigitChar(b % 10)]);
      LastDiffers(Digits(a / 10, w - 1), Digits(b / 10, w - 1), DigitChar(a % 10), DigitChar(b % 10));
      DigitCharOrder(a % 10, b % 10);
    }
  }

  lemma LastDiffers(p: string, q: string, c: char, d: char)
    requires |p| == |q|
    ensures p + [c] == q + [d] <==> p == q && c == d
  {
    if p + [c] == q + [d] {
      assert (p + [c])[..|p|] == p && (q + [d])[..|q|] == q;
      assert (p + [c])[|p|] == c && (q + [d])[|q|] == d;
    }
  }

  lemma DigitCharOrder(a: nat, b: nat)
    requires a < 10 && b < 10
    ensures LexLess([DigitChar(a)], [DigitChar(b)]) <==> a < b
    ensures DigitChar(a) == DigitChar(b) <==> a == b
  {
    var s, t := [DigitChar(a)], [DigitChar(b)];
    assert s[1..] == [] && t[1..] == [];
    assert DigitValue(DigitChar(a)) == a && DigitValue(DigitChar(b)) == b;
  }

  // ---------------------------------------------------------------------
  // Python's str(int) and int(str)
  // ---------------------------------------------------------------------

  function Decimal(n: int): string {
    if n < 0 then ['-'] + Natural(-n) else Natural(n)
  }

  function Natural(n: nat): (s: string)
    ensures s != [] && forall i :: 0 <= i < |s| ==> IsDigit(s[i])
  {
    if n < 10 then [DigitChar(n)] else Natural(n / 10) + [DigitChar(n % 10)]
  }

  predicate IsSpace(c: char) { c == ' ' || '\t' <= c <= '\r' || '\U{1c}' <= c <= '\U{1f}' }

  function Strip(s: string): string {
    if s == [] then []
    else if IsSpace(s[0]) then Strip(s[1..])
    else if IsSpace(s[|s| - 1]) then Strip(s[..|s| - 1])
    else s
  }

  /** Digits with single underscores between them. */
  function GroupedValue(s: string): Option<nat> {
    if s == [] then None
    else if !IsDigit(s[|s| - 1]) then None
    else if |s| == 1 then Some(DigitValue(s[0]))
    else
      var before := s[..|s| - 1];
      match GroupedValue(if before[|before| - 1] == '_' then before[..|before| - 1] else before)
      case None => None
      case Some(v) => Some(10 * v + DigitValue(s[|s| - 1]))
  }

  function ParseInt(text: string): Option<int> {
    var s := Strip(text);
    if s == [] then None
    else if s[0] == '-' then Negated(GroupedValue(s[1..]))
    else if s[0] == '+' then GroupedValue(s[1..])
    else GroupedValue(s)
  }

  function Negated(v: Option<int>): Option<int> { if v.None? then None else Some(-v.value) }

  lemma {:induction false} NaturalRoundTrip(n: nat)
    ensures GroupedValue(Natural(n)) == Some(n)
  {
    if n >= 10 {
      NaturalRoundTrip(n / 10);
      var s := Natural(n);
      assert s[..|s| - 1] == Natural(n / 10);
    }
  }

  /** int(str(n)) == n, for every integer. */
  lemma DecimalRoundTrip(n: int)
    ensures ParseInt(Decimal(n)) == Some(n)
  {
    var s := Decimal(n);
    assert Strip(s) == s;
    if n < 0 {
      assert s[1..] == Natural(-n);
      NaturalRoundTrip(-n);
    } else {
      NaturalRoundTrip(n);
    }
  }

  /** Digits with an underscore at most between two of them. */
  ghost predicate Grouped(s: string) {
    && s != [] && IsDigit(s[|s| - 1])
    && forall i :: 0 <= i < |s| && !IsDigit(s[i]) ==> s[i] == '_' && i > 0 && IsDigit(s[i - 1]) && i + 1 < |s| && IsDigit(s[i + 1])
  }

  ghost function Ungrouped(s: string): string {
    if s == [] then []
    else Ungrouped(s[..|s| - 1]) + if s[|s| - 1] == '_' then [] else [s[|s| - 1]]
  }

  /** The text before a last digit, less the underscore that may stand between. */
  ghost function Front(s: string): string
    requires |s| > 1
  {
    var before := s[..|s| - 1];
    if before[|before| - 1] == '_' then before[..|before| - 1] else before
  }

  lemma GroupedOneLess(s: string)
    requires |s| > 1 && IsDigit(s[|s| - 1])
    ensures Grouped(s) <==> Grouped(Front(s))
  {
    var before := s[..|s| - 1];
    var front := if before[|before| - 1] == '_' then before[..|before| - 1] else before;
    if Grouped(front) {
      forall i | 0 <= i < |s| && !IsDigit(s[i])
        ensures s[i] == '_' && i > 0 && IsDigit(s[i - 1]) && i + 1 < |s| && IsDigit(s[i + 1])
      {
        if i < |front| { assert front[i] == s[i]; }
        assert front[|front| - 1] == s[|front| - 1];
      }
    }
    if Grouped(s) {
      assert before[|before| - 1] == s[|s| - 2];
      assert front != [] && IsDigit(front[|front| - 1]);
      forall i | 0 <= i < |front| && !IsDigit(front[i])
        ensures front[i] == '_' && i > 0 && IsDigit(front[i - 1]) && i + 1 < |front| && IsDigit(front[i + 1])
      {
        assert front[i] == s[i];
      }
    }
  }

  lemma {:induction false} GroupedHasValue(s: string)
    requires Grouped(s)
    ensures GroupedValue(s).Some?
  {
    if |s| > 1 {
      GroupedOneLess(s);
      GroupedHasValue(Front(s));
    }
  }

  lemma UngroupedSnoc(s: string)
    requires |s| > 1 && IsDigit(s[|s| - 1])
    ensures Ungrouped(s) == Ungrouped(Front(s)) + [s[|s| - 1]]
  {
    var before := s[..|s| - 1];
    assert Ungrouped(s) == Ungrouped(before) + [s[|s| - 1]];
    if before[|before| - 1] == '_' { assert Ungrouped(before) == Ungrouped(Front(s)) + []; }
  }

  lemma DigitsSnoc(u: string, c: char)
    requires IsDigit(c) && DigitsValue(u).Some?
    ensures DigitsValue(u + [c]) == Some(10 * DigitsValue(u).value + DigitValue(c))
  {
    assert (u + [c])[..|u|] == u;
  }

  /** The grouped digits and no other text have a value: that of the digits alone. */
  lemma {:induction false} GroupedRead(s: string)
    ensures GroupedValue(s) == if Grouped(s) then DigitsValue(Ungrouped(s)) else None
  {
    hide DigitsValue, Ungrouped, Grouped;
    if |s| > 1 && IsDigit(s[|s| - 1]) {
      GroupedOneLess(s);
      GroupedRead(Front(s));
      UngroupedSnoc(s);
      if Grouped(s) {
        GroupedHasValue(Front(s));
        DigitsSnoc(Ungrouped(Front(s)), s[|s| - 1]);
      }
    } else {
      GroupedShort(s);
    }
  }

  lemma GroupedShort(s: string)
    requires |s| <= 1 || !IsDigit(s[|s| - 1])
    ensures Grouped(s) <==> |s| == 1 && IsDigit(s[0])
    ensures Grouped(s) ==> DigitsValue(Ungrouped(s)) == Some(DigitValue(s[0]))
  {
    if |s| == 1 {
      assert Ungrouped(s) == (if s[0] == '_' then [] else [s[0]]) by { assert s[..0] == []; }
    }
  }

  ghost predicate Blank(s: string) { forall i :: 0 <= i < |s| ==> IsSpace(s[i]) }

  lemma {:induction false} Stripped(left: string, s: string, right: string)
    requires Blank(left) && Blank(right) && s != [] && !IsSpace(s[0]) && !IsSpace(s[|s| - 1])
    ensures Strip(left + s + right) == s
    decreases |left| + |right|
  {
    var t := left + s + right;
    if left != [] {
      assert t[0] == left[0] && t[1..] == left[1..] + s + right;
      Stripped(left[1..], s, right);
    } else if right != [] {
      assert t[0] == s[0] && t[|t| - 1] == right[|right| - 1];
      assert t[..|t| - 1] == left + s + right[..|right| - 1];
      Stripped(left, s, right[..|right| - 1]);
    } else {
      assert t == s;
    }
  }

  /** int(): blanks around are dropped, one sign is read, and underscores may group the digits. */
  lemma IntRead(left: string, sign: string, digits: string, right: string)
    requires Blank(left) && Blank(right) && sign in {"", "+", "-"} && Grouped(digits)
    ensures DigitsValue(Ungrouped(digits)).Some?
    ensures var n: int := DigitsValue(Ungrouped(digits)).value;
      ParseInt(left + (sign + digits) + right) == Some(if sign == "-" then 0 - n else n)
  {
    hide DigitsValue, Ungrouped, Grouped, GroupedValue, Strip;
    var s := sign + digits;
    FirstIsDigit(digits);
    assert s[|s| - 1] == digits[|digits| - 1];
    assert sign == "" ==> s == digits;
    assert sign != "" ==> s[0] == sign[0] && s[1..] == digits;
    GroupedHasValue(digits);
    GroupedRead(digits);
    Stripped(left, s, right);
  }

  lemma {:induction false} StripParts(t: string) returns (left: string, right: string)
    ensures Blank(left) && Blank(right) && t == left + Strip(t) + right
  {
    left, right := "", "";
    if t != [] {
      if IsSpace(t[0]) {
        left, right := StripParts(t[1..]);
        left := [t[0]] + left;
      } else if IsSpace(t[|t| - 1]) {
        left, right := StripParts(t[..|t| - 1]);
        right := right + [t[|t| - 1]];
      }
    }
  }

  /** And nothing else is read as an integer. */
  lemma IntReadOnly(t: string) returns (left: string, sign: string, digits: string, right: string)
    requires ParseInt(t).Some?
    ensures Blank(left) && Blank(right) && sign in {"", "+", "-"} && Grouped(digits)
    ensures t == left + (sign + digits) + right
  {
    hide Grouped, GroupedValue, Strip;
    left, right := StripParts(t);
    var s := Strip(t);
    var signed := s[0] == '-' || s[0] == '+';
    sign, digits := if signed then s[..1] else "", if signed then s[1..] else s;
    assert s == sign + digits && (signed ==> sign == [s[0]]);
    GroupedRead(digits);
  }

  lemma FirstIsDigit(s: string)
    requires Grouped(s)
    ensures |s| > 0 && IsDigit(s[0]) && IsDigit(s[|s| - 1])
  {
  }

  // ---------------------------------------------------------------------
  // Civil dates
  // ---------------------------------------------------------------------

  datatype Date = Date(year: nat, month: nat, day: nat)

  predicate Leap(y: nat) { y % 4 == 0 && (y % 100 != 0 || y % 400 == 0) }

  function DaysIn(y: nat, m: nat): nat {
    if m == 2 then (if Leap(y) then 29 else 28)
    else if m in {4, 6, 9, 11} then 30
    else 31
  }

  /** The dates Python's datetime.date can hold. */
  predicate ValidDate(d: Date) {
    1 <= d.year <= 9999 && 1 <= d.month <= 12 && 1 <= d.day <= DaysIn(d.year, d.month)
  }

  predicate Before(a: Date, b: Date) {
    a.year < b.year || (a.year == b.year && (a.month < b.month || (a.month == b.month && a.day < b.day)))
  }

  /** date.isoformat(): YYYY-MM-DD. */
  function IsoDate(d: Date): (s: string)
    ensures |s| == 10
  {
    Digits(d.year, 4) + "-" + Digits(d.month, 2) + "-" + Digits(d.day, 2)
  }

  /** date.fromisoformat on the extended form; other texts and impossible dates are errors. */
  function FromIso(s: string): Option<Date> {
    if |s| != 10 || s[4] != '-' || s[7] != '-' then None
    else
      var y, m, d := DigitsValue(s[..4]), DigitsValue(s[5..7]), DigitsValue(s[8..]);
      if y.None? || m.None? || d.None? then None
      else
        var date := Date(y.value, m.value, d.value);
        if ValidDate(date) then Some(date) else None
  }

  /** datetime(y, m, d, tzinfo=UTC).isoformat(): the text of the date_create column. */
  function IsoMidnight(d: Date): string { IsoDate(d) + "T00:00:00+00:00" }

  lemma PowersOfTen()
    ensures Pow10(2) == 100 && Pow10(4) == 10000
  {
    assert Pow10(1) == 10 * Pow10(0) && Pow10(2) == 10 * Pow10(1);
    assert Pow10(3) == 10 * Pow10(2) && Pow10(4) == 10 * Pow10(3);
  }

  lemma IsoRoundTrip(d: Date)
    requires ValidDate(d)
    ensures FromIso(IsoDate(d)) == Some(d)
  {
    PowersOfTen();
    var s := IsoDate(d);
    assert s[..4] == Digits(d.year, 4) && s[5..7] == Digits(d.month, 2) && s[8..] == Digits(d.day, 2);
    DigitsRoundTrip(d.year, 4);
    DigitsRoundTrip(d.month, 2);
    DigitsRoundTrip(d.day, 2);
  }

  lemma IsoDateOrder(a: Date, b: Date)
    requires ValidDate(a) && ValidDate(b)
    ensures LexLess(IsoDate(a), IsoDate(b)) <==> Before(a, b)
    ensures IsoDate(a) == IsoDate(b) <==> a == b
  {
    PowersOfTen();
    var ya, yb := Digits(a.year, 4), Digits(b.year, 4);
    var ma, mb := Digits(a.month, 2), Digits(b.month, 2);
    DigitsOrder(a.year, b.year, 4);
    DigitsOrder(a.month, b.month, 2);
    DigitsOrder(a.day, b.day, 2);
    LexAppend(ya + "-" + ma + "-", yb + "-" + mb + "-", Digits(a.day, 2), Digits(b.day, 2));
    LexAppend(ya + "-" + ma, yb + "-" + mb, "-", "-");
    LexAppend(ya + "-", yb + "-", ma, mb);
    LexAppend(ya, yb, "-", "-");
    LexIrreflexive("-");
    SamePieces(ya, yb, ma, mb);
    assert IsoDate(a) == ya + "-" + ma + "-" + Digits(a.day, 2);
    assert IsoDate(b) == yb + "-" + mb + "-" + Digits(b.day, 2);
    IsoRoundTrip(a);
    IsoRoundTrip(b);
  }

  lemma SamePieces(ya: string, yb: string, ma: string, mb: string)
    requires |ya| == |yb| && |ma| == |mb|
    ensures ya + "-" == yb + "-" <==> ya == yb
    ensures ya + "-" + ma == yb + "-" + mb <==> ya == yb && ma == mb
    ensures ya + "-" + ma + "-" == yb + "-" + mb + "-" <==> ya == yb && ma == mb
  {
    Unprefix(ya, yb, "-", "-");
    Unprefix(ya + "-", yb + "-", ma, mb);
    Unprefix(ya + "-" + ma, yb + "-" + mb, "-", "-");
  }

  lemma Unprefix(p: string, q: string, s: string, t: string)
    requires |p| == |q|
    ensures p + s == q + t <==> p == q && s == t
  {
    if p + s == q + t {
      assert (p + s)[..|p|] == p && (q + t)[..|q|] == q;
      assert (p + s)[|p|..] == s && (q + t)[|q|..] == t;
    }
  }

  /** The column's text order is date order, and equal texts are equal dates. */
  lemma IsoOrderIsDateOrder(a: Date, b: Date)
    requires ValidDate(a) && ValidDate(b)
    ensures LexLess(IsoMidnight(a), IsoMidnight(b)) <==> Before(a, b)
    ensures IsoMidnight(a) == IsoMidnight(b) <==> a == b
  {
    var t := "T00:00:00+00:00";
    IsoDateOrder(a, b);
    LexAppend(IsoDate(a), IsoDate(b), t, t);
    LexIrreflexive(t);
    Unprefix(IsoDate(a), IsoDate(b), t, t);
  }

  /** The digits of a number, the last one by itself, and a minus sign in front if need be. */
  lemma NumberSpelled(n: nat, d: nat)
    requires d < 10
    ensures Decimal(d) == [('0' as int + d) as char]
    ensures n > 0 ==> Decimal(10 * n + d) == Decimal(n) + Decimal(d)
    ensures n > 0 ==> Decimal(0 - n as int) == "-" + Decimal(n)
  {
    assert (10 * n + d) / 10 == n && (10 * n + d) % 10 == d;
  }

  lemma TwoDigits(n: nat)
    requires n < 100
    ensures Digits(n, 2) == [DigitChar(n / 10), DigitChar(n % 10)]
  {
    assert Digits(n / 100, 0) == "";
    assert Digits(n / 10, 1) == "" + [DigitChar(n / 10 % 10)];
  }

  lemma FourDigits(n: nat)
    requires n < 10000
    ensures Digits(n, 4) == Digits(n / 100, 2) + Digits(n % 100, 2)
  {
    TwoDigits(n % 100);
    hide DigitChar;
    var tens, front := Digits(n / 10, 3), Digits(n / 10 / 10, 2);
    assert Digits(n, 4) == tens + [DigitChar(n % 10)];
    assert tens == front + [DigitChar(n / 10 % 10)];
    assert n / 10 / 10 == n / 100 && n % 100 / 10 == n / 10 % 10 && n % 100 % 10 == n % 10;
  }

  /** A date is spelled year, month, day, with dashes, each number padded with zeros. */
  lemma DateSpelled(d: Date)
    requires ValidDate(d)
    ensures IsoDate(d) == Digits(d.year / 100, 2) + Digits(d.year % 100, 2) + "-" + Digits(d.month, 2) + "-" + Digits(d.day, 2)
    ensures IsoMidnight(d) == IsoDate(d) + "T00:00:00+00:00"
  {
    hide Digits;
    FourDigits(d.year);
  }
}
