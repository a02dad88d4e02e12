/** The SQLite backend keeps arrival times as text written by
    `strftime("%Y-%m-%d %H:%M:%S")` and filters them against a date-only text
    `"%Y-%m-01"`; SQLite compares two texts character by character (the BINARY
    collation), a proper prefix sorting first. This module proves that, on
    such fixed-width texts, the character comparison is the time comparison. */
module TimestampText {
  import opened Clock

  /** SQLite's BINARY comparison of two texts: `a < b`. No text is below
      itself, and a proper prefix sorts before the text it begins. */
  predicate LexLess(a: string, b: string)
    ensures LexLess(a, b) ==> a != b
    ensures |a| < |b| && a == b[..|a|] ==> LexLess(a, b)
  {
    if a == [] then b != []
    else if b == [] then false
    else a[0] < b[0] || (a[0] == b[0] && LexLess(a[1..], b[1..]))
  }

  function Pow10(w: nat): (p: nat)
    ensures p >= 1
  {
    if w == 0 then 1 else 10 * Pow10(w - 1)
  }

  function DigitChar(d: nat): char
    requires d < 10
  {
    ('0' as int + d) as char
  }

  /** `n` written in decimal with exactly `width` digits, zero-padded on the left
      (the `%Y`, `%m`, `%d`, `%H`, `%M`, `%S` conversions). */
  function Pad(n: nat, width: nat): (s: string)
    ensures |s| == width
    ensures forall i :: 0 <= i < |s| ==> '0' <= s[i] <= '9'
  {
    if width == 0 then [] else Pad(n / 10, width - 1) + [DigitChar(n % 10)]
  }

  /** `"%Y-%m-%d"` */
  function DateText(year: nat, month: nat, day: nat): (s: string)
    ensures |s| == 10
  {
    Pad(year, 4) + "-" + Pad(month, 2) + "-" + Pad(day, 2)
  }

  /** `"%H:%M:%S"` */
  function ClockText(hour: nat, minute: nat, second: nat): (s: string)
    ensures |s| == 8
  {
    Pad(hour, 2) + ":" + Pad(minute, 2) + ":" + Pad(second, 2)
  }

  /** `t.strftime("%Y-%m-%d %H:%M:%S")`: the arrival text of a check-in. */
  function Format(t: DateTime): (s: string)
    requires Valid(t)
    ensures |s| == 19 && s[4] == '-' && s[7] == '-' && s[10] == ' ' && s[13] == ':' && s[16] == ':'
  {
    DateText(t.year, t.month, t.day) + " " + ClockText(t.hour, t.minute, t.second)
  }

  /** `now.replace(day=1, ...).strftime("%Y-%m-%d")`: the lower bound of the month filter. */
  function MonthStartText(now: DateTime): (s: string)
    requires Valid(now)
    ensures |s| == 10 && s[8..] == "01"
  {
    DateText(now.year, now.month, 1)
  }

  /** Comparing `a + c` with `b + d`, where `a` and `b` have the same length,
      decides on `a` and `b` first and looks at `c` and `d` only on a tie. */
  lemma {:induction false} LexLessAppend(a: string, b: string, c: string, d: string)
    requires |a| == |b|
    ensures LexLess(a + c, b + d) <==> LexLess(a, b) || (a == b && LexLess(c, d))
  {
    if a != [] {
      assert (a + c)[1..] == a[1..] + c;
      assert (b + d)[1..] == b[1..] + d;
      LexLessAppend(a[1..], b[1..], c, d);
      if a[0] == b[0] && a[1..] == b[1..] {
        assert a == [a[0]] + a[1..] && b == [b[0]] + b[1..];
      }
    } else {
      assert a + c == c && b + d == d;
    }
  }

  lemma {:induction false} NothingIsLessThanEmpty(a: string)
    ensures !LexLess(a, [])
  {
  }

  /** Zero-padded numbers of the same width compare as text exactly as they
      compare as numbers. */
  lemma {:induction false} PadOrder(n: nat, m: nat, width: nat)
    requires n < Pow10(width) && m < Pow10(width)
    ensures LexLess(Pad(n, width), Pad(m, width)) <==> n < m
    ensures Pad(n, width) == Pad(m, width) <==> n == m
  {
    if width > 0 {
      var p := Pow10(width - 1);
      assert n / 10 < p && m / 10 < p;
      PadOrder(n / 10, m / 10, width - 1);
      LexLessAppend(Pad(n / 10, width - 1), Pad(m / 10, width - 1), [DigitChar(n % 10)], [DigitChar(m % 10)]);
      var pn, pm := Pad(n, width), Pad(m, width);
      if pn == pm {
        assert pn[width - 1] == pm[width - 1];
        assert pn[..width - 1] == Pad(n / 10, width - 1);
        assert pm[..width - 1] == Pad(m / 10, width - 1);
      }
    }
  }

  /** Three same-width fields joined by the same separators compare field by
      field, most significant first. */
  lemma {:induction false} FieldsOrder(a1: string, b1: string, c1: string,
                                       a2: string, b2: string, c2: string, s: string, u: string)
    requires |a1| == |a2| && |b1| == |b2|
    ensures LexLess(a1 + s + b1 + u + c1, a2 + s + b2 + u + c2) <==>
              LexLess(a1, a2) || (a1 == a2 &&
              (LexLess(b1, b2) || (b1 == b2 && LexLess(c1, c2))))
    ensures a1 + s + b1 + u + c1 == a2 + s + b2 + u + c2 <==> a1 == a2 && b1 == b2 && c1 == c2
  {
    assert a1 + s + b1 + u + c1 == a1 + (s + (b1 + (u + c1)));
    assert a2 + s + b2 + u + c2 == a2 + (s + (b2 + (u + c2)));
    LexLessAppend(a1, a2, s + (b1 + (u + c1)), s + (b2 + (u + c2)));
    LexLessAppend(s, s, b1 + (u + c1), b2 + (u + c2));
    LexLessAppend(b1, b2, u + c1, u + c2);
    LexLessAppend(u, u, c1, c2);
    if a1 + s + b1 + u + c1 == a2 + s + b2 + u + c2 {
      var x, y := a1 + (s + (b1 + (u + c1))), a2 + (s + (b2 + (u + c2)));
      assert a1 == x[..|a1|] && a2 == y[..|a1|];
      assert b1 == x[|a1| + |s|..][..|b1|] && b2 == y[|a1| + |s|..][..|b1|];
      assert c1 == x[|a1| + |s| + |b1| + |u|..] && c2 == y[|a1| + |s| + |b1| + |u|..];
    }
  }

  /** Lexicographic order on triples such as (year, month, day) or (hour, minute, second). */
  predicate TripleBefore(y1: int, m1: int, d1: int, y2: int, m2: int, d2: int)
  {
    y1 < y2 || (y1 == y2 && (m1 < m2 || (m1 == m2 && d1 < d2)))
  }

  lemma DateTextOrder(y1: nat, m1: nat, d1: nat, y2: nat, m2: nat, d2: nat)
    requires y1 < 10000 && y2 < 10000 && m1 < 100 && m2 < 100 && d1 < 100 && d2 < 100
    ensures LexLess(DateText(y1, m1, d1), DateText(y2, m2, d2)) <==> TripleBefore(y1, m1, d1, y2, m2, d2)
    ensures DateText(y1, m1, d1) == DateText(y2, m2, d2) <==> y1 == y2 && m1 == m2 && d1 == d2
  {
    assert Pow10(2) == 100 && Pow10(4) == 10000;
    PadOrder(y1, y2, 4);
    PadOrder(m1, m2, 2);
    PadOrder(d1, d2, 2);
    FieldsOrder(Pad(y1, 4), Pad(m1, 2), Pad(d1, 2), Pad(y2, 4), Pad(m2, 2), Pad(d2, 2), "-", "-");
  }

  lemma ClockTextOrder(h1: nat, i1: nat, s1: nat, h2: nat, i2: nat, s2: nat)
    requires h1 < 100 && h2 < 100 && i1 < 100 && i2 < 100 && s1 < 100 && s2 < 100
    ensures LexLess(ClockText(h1, i1, s1), ClockText(h2, i2, s2)) <==> TripleBefore(h1, i1, s1, h2, i2, s2)
    ensures ClockText(h1, i1, s1) == ClockText(h2, i2, s2) <==> h1 == h2 && i1 == i2 && s1 == s2
  {
    assert Pow10(2) == 100;
    PadOrder(h1, h2, 2);
    PadOrder(i1, i2, 2);
    PadOrder(s1, s2, 2);
    FieldsOrder(Pad(h1, 2), Pad(i1, 2), Pad(s1, 2), Pad(h2, 2), Pad(i2, 2), Pad(s2, 2), ":", ":");
  }

  /** Two texts joined from same-width heads and one separator compare on
      their heads first and on their tails only on a tie. */
  lemma JoinedOrder(d1: string, c1: string, d2: string, c2: string, sep: string)
    requires |d1| == |d2|
    ensures LexLess(d1 + sep + c1, d2 + sep + c2) <==> LexLess(d1, d2) || (d1 == d2 && LexLess(c1, c2))
  {
    assert d1 + sep + c1 == d1 + (sep + c1) && d2 + sep + c2 == d2 + (sep + c2);
    LexLessAppend(d1, d2, sep + c1, sep + c2);
    LexLessAppend(sep, sep, c1, c2);
  }

  /** `ORDER BY chegada` on the stored texts is the order of the arrival
      instants, at the one-second resolution the texts keep. */
  lemma FormatOrder(a: DateTime, b: DateTime)
    requires Valid(a) && Valid(b)
    ensures LexLess(Format(a), Format(b)) <==> Before(a.(micro := 0), b.(micro := 0))
  {
    var da, db := DateText(a.year, a.month, a.day), DateText(b.year, b.month, b.day);
    var ca, cb := ClockText(a.hour, a.minute, a.second), ClockText(b.hour, b.minute, b.second);
    JoinedOrder(da, ca, db, cb, " ");
    DateTextOrder(a.year, a.month, a.day, b.year, b.month, b.day);
    ClockTextOrder(a.hour, a.minute, a.second, b.hour, b.minute, b.second);
  }

  /** A text that extends `a` compares with a text `b` of `a`'s length as `a` does. */
  lemma LexLessExtension(a: string, b: string, c: string)
    requires |a| == |b|
    ensures LexLess(a + c, b) <==> LexLess(a, b)
  {
    assert b + [] == b;
    LexLessAppend(a, b, c, []);
    NothingIsLessThanEmpty(c);
  }

  lemma DateLowerBoundText(date: string, rest: string, y: nat, m: nat, d: nat, ny: nat, nm: nat)
    requires 1 <= d < 100 && y < 10000 && ny < 10000 && m < 100 && nm < 100
    requires date == DateText(y, m, d)
    ensures !LexLess(date + rest, DateText(ny, nm, 1)) <==> y > ny || (y == ny && m >= nm)
  {
    LexLessExtension(date, DateText(ny, nm, 1), rest);
    DateTextOrder(y, m, d, ny, nm, 1);
  }

  /** The text filter `chegada >= 'YYYY-MM-01'` holds exactly for arrivals in
      the month of `now` or later. */
  lemma MonthFilterText(t: DateTime, now: DateTime)
    requires Valid(t) && Valid(now)
    ensures !LexLess(Format(t), MonthStartText(now)) <==> InMonthOrLater(t, now)
  {
    var dt := DateText(t.year, t.month, t.day);
    var rest := " " + ClockText(t.hour, t.minute, t.second);
    assert Format(t) == dt + rest by { }
    DateLowerBoundText(dt, rest, t.year, t.month, t.day, now.year, now.month);
  }
}
