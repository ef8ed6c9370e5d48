/**
 Dates and times are stored as TEXT and compared by SQLite's default BINARY
 collation, i.e. lexicographically.  Dafny's `char` is a Unicode scalar value,
 and comparing code points agrees with comparing their UTF-8 bytes, so `Le`
 below is that collation.
 */
module Times {

  /** `a <= b` as SQLite compares two TEXT values. */
  predicate Le(a: string, b: string)
    decreases |a|
  {
    if |a| == 0 then true
    else if |b| == 0 then false
    else if a[0] != b[0] then a[0] < b[0]
    else Le(a[1..], b[1..])
  }

  /** `a < b` as SQLite compares two TEXT values. */
  predicate Lt(a: string, b: string) {
    Le(a, b) && a != b
  }

  lemma {:induction false} LeReflexive(a: string)
    ensures Le(a, a)
    decreases |a|
  {
    if |a| > 0 {
      LeReflexive(a[1..]);
    }
  }

  lemma {:induction false} LeTotal(a: string, b: string)
    ensures Le(a, b) || Le(b, a)
    decreases |a|
  {
    if |a| > 0 && |b| > 0 && a[0] == b[0] {
      LeTotal(a[1..], b[1..]);
    }
  }

  lemma {:induction false} LeAntisymmetric(a: string, b: string)
    requires Le(a, b) && Le(b, a)
    ensures a == b
    decreases |a|
  {
    if |a| > 0 {
      LeAntisymmetric(a[1..], b[1..]);
      assert a == [a[0]] + a[1..];
      assert b == [b[0]] + b[1..];
    }
  }

  lemma {:induction false} LeTransitive(a: string, b: string, c: string)
    requires Le(a, b) && Le(b, c)
    ensures Le(a, c)
    decreases |a|
  {
    if |a| > 0 && |b| > 0 && |c| > 0 && a[0] == b[0] && b[0] == c[0] {
      LeTransitive(a[1..], b[1..], c[1..]);
    }
  }

  /** The collation is a total order: failing `a <= b` means `b < a`. */
  lemma NotLeIsGreater(a: string, b: string)
    ensures !Le(a, b) <==> Lt(b, a)
  {
    LeTotal(a, b);
    LeReflexive(a);
    if Le(a, b) && Lt(b, a) {
      LeAntisymmetric(a, b);
    }
  }

  predicate IsDigit(c: char) {
    '0' <= c <= '9'
  }

  function Digit(c: char): int {
    c as int - '0' as int
  }

  /**
   A zero-padded `HH:MM` clock reading whose minute field is below 60
   (the hour field may be any two digits).
   */
  predicate IsClock(s: string) {
    && |s| == 5
    && IsDigit(s[0]) && IsDigit(s[1])
    && s[2] == ':'
    && '0' <= s[3] <= '5' && IsDigit(s[4])
  }

  /** Minutes since midnight denoted by an `HH:MM` reading. */
  function Minutes(s: string): (m: nat)
    requires IsClock(s)
    ensures m < 100 * 60
  {
    (10 * Digit(s[0]) + Digit(s[1])) * 60 + 10 * Digit(s[3]) + Digit(s[4])
  }

  /** Comparing two five-character strings: lexicographic on their characters. */
  lemma LeFive(a: string, b: string)
    requires |a| == 5 && |b| == 5
    ensures Le(a, b) <==>
      if a[0] != b[0] then a[0] < b[0]
      else if a[1] != b[1] then a[1] < b[1]
      else if a[2] != b[2] then a[2] < b[2]
      else if a[3] != b[3] then a[3] < b[3]
      else a[4] <= b[4]
  {
    var a1, b1 := a[1..], b[1..];
    var a2, b2 := a1[1..], b1[1..];
    var a3, b3 := a2[1..], b2[1..];
    var a4, b4 := a3[1..], b3[1..];
    assert a1[0] == a[1] && a2[0] == a[2] && a3[0] == a[3] && a4[0] == a[4];
    assert b1[0] == b[1] && b2[0] == b[2] && b3[0] == b[3] && b4[0] == b[4];
    assert Le(a4, b4) <==> a[4] <= b[4] by {
      assert |a4[1..]| == 0;
    }
    assert Le(a3, b3) <==> if a[3] != b[3] then a[3] < b[3] else Le(a4, b4);
    assert Le(a2, b2) <==> if a[2] != b[2] then a[2] < b[2] else Le(a3, b3);
    assert Le(a1, b1) <==> if a[1] != b[1] then a[1] < b[1] else Le(a2, b2);
  }

  /**
   For well-formed zero-padded readings the text order used by the store is
   the numeric order of the times they denote.
   */
  lemma ClockOrderIsNumeric(a: string, b: string)
    requires IsClock(a) && IsClock(b)
    ensures Le(a, b) <==> Minutes(a) <= Minutes(b)
    ensures Lt(a, b) <==> Minutes(a) < Minutes(b)
  {
    LeFive(a, b);
    LeFive(b, a);
    if Le(a, b) && Le(b, a) {
      LeAntisymmetric(a, b);
    }
    if a == b {
      LeReflexive(a);
    }
  }

  /** Without zero padding the text order disagrees with the clock: "10:00" sorts before "9:00". */
  lemma UnpaddedHourMisorders()
    ensures Lt("10:00", "9:00") && !Le("9:00", "10:00")
  {
  }
}
