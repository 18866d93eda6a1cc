/** Names as Python compares and prints them: code-point lexicographic
    order of strings (what `sorted` uses on directory listings) and the
    fixed-width decimal digits that strftime("%Y%m%d%H%M%S") produces. */
module Names {

  /** Python's `a < b` on str. */
  predicate LexLess(a: string, b: string)
  {
    if |a| == 0 then |b| > 0
    else if |b| == 0 then false
    else if a[0] != b[0] then a[0] < b[0]
    else LexLess(a[1..], b[1..])
  }

  /** Strictly ascending, hence without duplicates. */
  predicate StrictlySorted(s: seq<string>)
  {
    forall i, j :: 0 <= i < j < |s| ==> LexLess(s[i], s[j])
  }

  lemma {:induction false} LexLessIrreflexive(a: string)
    ensures !LexLess(a, a)
  {
    if |a| > 0 {
      LexLessIrreflexive(a[1..]);
    }
  }

  lemma {:induction false} LexLessTransitive(a: string, b: string, c: string)
    requires LexLess(a, b) && LexLess(b, c)
    ensures LexLess(a, c)
  {
    if |a| > 0 && |b| > 0 && |c| > 0 && a[0] == b[0] == c[0] {
      LexLessTransitive(a[1..], b[1..], c[1..]);
    }
  }

  lemma {:induction false} LexLessTotal(a: string, b: string)
    requires a != b
    ensures LexLess(a, b) || LexLess(b, a)
  {
    if |a| > 0 && |b| > 0 && a[0] == b[0] {
      assert a == [a[0]] + a[1..] && b == [b[0]] + b[1..];
      LexLessTotal(a[1..], b[1..]);
    }
  }

  /** A common prefix does not change the order. */
  lemma {:induction false} LexLessCommonPrefix(p: string, a: string, b: string)
    ensures LexLess(p + a, p + b) <==> LexLess(a, b)
  {
    if |p| > 0 {
      assert (p + a)[1..] == p[1..] + a;
      assert (p + b)[1..] == p[1..] + b;
      LexLessCommonPrefix(p[1..], a, b);
    } else {
      assert p + a == a && p + b == b;
    }
  }

  /** Strings of one length keep their order whatever follows them. */
  lemma {:induction false} LexLessExtend(a: string, b: string, x: string, y: string)
    requires |a| == |b| && LexLess(a, b)
    ensures LexLess(a + x, b + y)
  {
    if a[0] == b[0] {
      assert (a + x)[1..] == a[1..] + x;
      assert (b + y)[1..] == b[1..] + y;
      LexLessExtend(a[1..], b[1..], x, y);
    }
  }

  /** Equal prefixes: the first differing character decides. */
  lemma LexLessLastChar(a: string, x: char, y: char)
    requires x < y
    ensures LexLess(a + [x], a + [y])
  {
    LexLessCommonPrefix(a, [x], [y]);
  }

  function Pow10(n: nat): (p: nat)
    ensures p > 0
  {
    if n == 0 then 1 else 10 * Pow10(n - 1)
  }

  function DigitChar(d: nat): (c: char)
    requires d < 10
    ensures '0' <= c <= '9'
  {
    "0123456789"[d]
  }

  /** The last `width` decimal digits of `n`, zero-padded on the left. */
  function Digits(n: nat, width: nat): (s: string)
    ensures |s| == width
    ensures forall i :: 0 <= i < |s| ==> '0' <= s[i] <= '9'
  {
    if width == 0 then "" else Digits(n / 10, width - 1) + [DigitChar(n % 10)]
  }

  /** Fixed-width zero-padded numerals sort as the numbers they denote. */
  lemma {:induction false} DigitsOrdered(n: nat, m: nat, width: nat)
    requires n < m < Pow10(width)
    ensures LexLess(Digits(n, width), Digits(m, width))
  {
    var w := width - 1;
    assert m / 10 < Pow10(w);
    if n / 10 < m / 10 {
      DigitsOrdered(n / 10, m / 10, w);
      LexLessExtend(Digits(n / 10, w), Digits(m / 10, w), [DigitChar(n % 10)], [DigitChar(m % 10)]);
    } else {
      assert n % 10 < m % 10;
      LexLessLastChar(Digits(n / 10, w), DigitChar(n % 10), DigitChar(m % 10));
    }
  }

  /** sorted(names) for a set of distinct names: every name once, ascending. */
  method Sort(names: set<string>) returns (r: seq<string>)
    ensures StrictlySorted(r)
    ensures forall n :: n in r <==> n in names
    ensures |r| == |names|
  {
    r := [];
    var rest := names;
    while rest != {}
      invariant rest <= names
      invariant forall n :: n in r <==> n in names && n !in rest
      invariant StrictlySorted(r)
      invariant forall i, n :: 0 <= i < |r| && n in rest ==> LexLess(r[i], n)
      invariant |r| + |rest| == |names|
      decreases rest
    {
      var m := Least(rest);
      r := r + [m];
      rest := rest - {m};
    }
  }

  /** min(names) under Python's string order. */
  method Least(names: set<string>) returns (m: string)
    requires names != {}
    ensures m in names
    ensures forall n :: n in names && n != m ==> LexLess(m, n)
  {
    m :| m in names;
    var todo := names - {m};
    while todo != {}
      invariant todo <= names && m in names && m !in todo
      invariant forall n :: n in names - todo && n != m ==> LexLess(m, n)
      decreases todo
    {
      var x :| x in todo;
      if LexLess(x, m) {
        forall n | n in names - todo && n != x
          ensures LexLess(x, n)
        {
          if n != m {
            LexLessTransitive(x, m, n);
          }
        }
        m := x;
      } else {
        LexLessTotal(x, m);
      }
      todo := todo - {x};
    }
  }
}
