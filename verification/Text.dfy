/**
 Go's string operations, as far as the modelled code relies on them: the
 byte-wise order used by `<`, substring search, and `%d` / `%0wd` formatting.
 */
module Text {

  /** `strings.Contains(s, sub)`. */
  predicate Contains(s: string, sub: string) {
    exists i :: 0 <= i <= |s| - |sub| && OccursAt(s, sub, i)
  }

  predicate OccursAt(s: string, sub: string, i: int)
    requires 0 <= i <= |s| - |sub|
  {
    s[i..i + |sub|] == sub
  }

  lemma ContainsSelf(prefix: string, s: string)
    ensures Contains(prefix + s, s)
  {
    assert OccursAt(prefix + s, s, |prefix|);
  }

  lemma ContainsTrans(a: string, b: string, c: string)
    requires Contains(a, b) && Contains(b, c)
    ensures Contains(a, c)
  {
    var i :| 0 <= i <= |a| - |b| && OccursAt(a, b, i);
    var j :| 0 <= j <= |b| - |c| && OccursAt(b, c, j);
    forall k | 0 <= k < |c| ensures a[i + j..i + j + |c|][k] == c[k] {
      assert a[i..i + |b|][j + k] == b[j..j + |c|][k];
    }
    assert a[i + j..i + j + |c|] == c;
    assert OccursAt(a, c, i + j);
  }

  lemma StraddlesSeparator(a: string, sep: char, b: string, sub: string, i: nat)
    requires i <= |a| < i + |sub| <= |a| + 1 + |b|
    requires OccursAt(a + [sep] + b, sub, i)
    ensures sep in sub
  {
    var s := a + [sep] + b;
    assert sub[|a| - i] == s[i..i + |sub|][|a| - i] == sep;
  }

  /** A text without the separator occurs in `a + [sep] + b` on one side of it. */
  lemma ContainsSplit(a: string, sep: char, b: string, sub: string)
    requires sep !in sub
    ensures Contains(a + [sep] + b, sub) <==> Contains(a, sub) || Contains(b, sub)
  {
    var s := a + [sep] + b;
    if Contains(s, sub) {
      var i :| 0 <= i <= |s| - |sub| && OccursAt(s, sub, i);
      if i <= |a| < i + |sub| {
        StraddlesSeparator(a, sep, b, sub, i);
        assert false;
      } else if i > |a| {
        assert s[i..i + |sub|] == b[i - |a| - 1..i - |a| - 1 + |sub|];
        assert OccursAt(b, sub, i - |a| - 1);
      } else {
        assert s[i..i + |sub|] == a[i..i + |sub|];
        assert OccursAt(a, sub, i);
      }
    }
    if Contains(a, sub) {
      assert s == a + ([sep] + b);
      var i :| 0 <= i <= |a| - |sub| && OccursAt(a, sub, i);
      assert s[i..i + |sub|] == a[i..i + |sub|];
      assert OccursAt(s, sub, i);
    }
    if Contains(b, sub) {
      ContainsSelf(a + [sep], b);
      ContainsTrans(s, b, sub);
    }
  }

  /** Go's `a < b` on strings. */
  predicate LexLess(a: string, b: string) {
    b != [] && (a == [] || a[0] < b[0] || (a[0] == b[0] && LexLess(a[1..], b[1..])))
  }

  lemma {:induction false} LexIrreflexive(a: string)
    ensures !LexLess(a, a)
  {
    if a != [] {
      LexIrreflexive(a[1..]);
    }
  }

  lemma {:induction false} LexTransitive(a: string, b: string, c: string)
    requires LexLess(a, b) && LexLess(b, c)
    ensures LexLess(a, c)
  {
    if a != [] && a[0] == b[0] == c[0] {
      LexTransitive(a[1..], b[1..], c[1..]);
    }
  }

  lemma {:induction false} LexTotal(a: string, b: string)
    ensures a == b || LexLess(a, b) || LexLess(b, a)
  {
    if a != [] && b != [] && a[0] == b[0] {
      LexTotal(a[1..], b[1..]);
      assert a == [a[0]] + a[1..] && b == [b[0]] + b[1..];
    }
  }

  /** Texts that start with equally long parts are ordered by those parts first. */
  lemma {:induction false} LexConcat(a: string, x: string, b: string, y: string)
    requires |a| == |b|
    ensures LexLess(a + x, b + y) <==> LexLess(a, b) || (a == b && LexLess(x, y))
  {
    if a == [] {
      assert a + x == x && b + y == y;
    } else {
      LexConcat(a[1..], x, b[1..], y);
      assert (a + x)[1..] == a[1..] + x && (b + y)[1..] == b[1..] + y;
      assert a == [a[0]] + a[1..] && b == [b[0]] + b[1..];
    }
  }

  /** One decimal digit. */
  function Digit(d: nat): (c: char)
    requires d < 10
    ensures '0' <= c <= '9' && c as int - '0' as int == d
  {
    ('0' as int + d) as char
  }

  /** `%d` of a non-negative number. */
  function Decimal(n: nat): (s: string)
    ensures |s| > 0 && forall i :: 0 <= i < |s| ==> '0' <= s[i] <= '9'
  {
    if n < 10 then [Digit(n)] else Decimal(n / 10) + [Digit(n % 10)]
  }

  function Pow10(k: nat): (p: nat)
    ensures p > 0
  {
    if k == 0 then 1 else 10 * Pow10(k - 1)
  }

  /** `%0wd` of a number that fits into `w` digits. */
  function Padded(n: nat, w: nat): (s: string)
    ensures |s| == w && forall i :: 0 <= i < |s| ==> '0' <= s[i] <= '9'
  {
    if w == 0 then "" else Padded(n / 10, w - 1) + [Digit(n % 10)]
  }

  /** Fixed-width decimals are ordered as texts exactly as they are as numbers. */
  lemma {:induction false} PaddedOrder(a: nat, b: nat, w: nat)
    requires a < Pow10(w) && b < Pow10(w)
    ensures LexLess(Padded(a, w), Padded(b, w)) <==> a < b
    ensures Padded(a, w) == Padded(b, w) <==> a == b
  {
    if w > 0 {
      PaddedOrder(a / 10, b / 10, w - 1);
      LastDigitOrder(Padded(a / 10, w - 1), Padded(b / 10, w - 1), a % 10, b % 10);
    }
  }

  /** Equally long texts with a digit more. */
  lemma LastDigitOrder(x: string, y: string, c: nat, d: nat)
    requires |x| == |y| && c < 10 && d < 10
    ensures LexLess(x + [Digit(c)], y + [Digit(d)]) <==> LexLess(x, y) || (x == y && c < d)
    ensures x + [Digit(c)] == y + [Digit(d)] <==> x == y && c == d
  {
    LexConcat(x, [Digit(c)], y, [Digit(d)]);
    if x + [Digit(c)] == y + [Digit(d)] {
      assert x == (x + [Digit(c)])[..|x|] == (y + [Digit(d)])[..|y|] == y;
      assert (x + [Digit(c)])[|x|] == (y + [Digit(d)])[|y|];
    }
  }

  /** A number of exactly `w` digits prints the same with `%d` and with `%0wd`. */
  lemma {:induction false} DecimalIsPadded(n: nat, w: nat)
    requires w > 0 && n < Pow10(w) && (w == 1 || Pow10(w - 1) <= n)
    ensures Decimal(n) == Padded(n, w)
  {
    if w == 1 {
      assert Padded(n / 10, 0) == "";
    } else {
      assert Pow10(w - 1) == 10 * Pow10(w - 2);
      DecimalIsPadded(n / 10, w - 1);
    }
  }
}
