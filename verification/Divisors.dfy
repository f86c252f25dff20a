// The divisor search of the process stage.
module Divisors {
  import opened Arithmetic
  import opened Sequences

  predicate Divides(d: int, n: int)
    requires d != 0
  {
    n % d == 0
  }

  // The divisors of n in 1..k, in increasing order.
  function DivisorsUpTo(n: int, k: nat): seq<int> {
    if k == 0 then []
    else DivisorsUpTo(n, k - 1) + (if Divides(k, n) then [k] else [])
  }

  // The specification of the search: every d with 1 <= d < n that divides n.
  function ProperDivisors(n: int): seq<int> {
    if n <= 1 then [] else DivisorsUpTo(n, n - 1)
  }

  lemma {:induction false} DivisorsUpToExact(n: int, k: nat)
    ensures Increasing(DivisorsUpTo(n, k))
    ensures forall d :: d in DivisorsUpTo(n, k) <==> 1 <= d <= k && Divides(d, n)
  {
    if k > 0 {
      DivisorsUpToExact(n, k - 1);
      var s, r := DivisorsUpTo(n, k - 1), DivisorsUpTo(n, k);
      forall i | 0 <= i < |s| ensures s[i] < k { assert s[i] in s; }
      assert forall d :: d in r <==> d in s || (d == k && Divides(k, n));
    }
  }

  lemma ProperDivisorsExact(n: int)
    ensures Increasing(ProperDivisors(n))
    ensures forall d :: d in ProperDivisors(n) <==> 1 <= d < n && Divides(d, n)
  {
    if n > 1 { DivisorsUpToExact(n, n - 1); }
  }

  // An increasing sequence is determined by its elements.
  lemma {:induction false} IncreasingUnique(s: seq<int>, t: seq<int>)
    requires Increasing(s) && Increasing(t)
    requires forall d :: d in s <==> d in t
    ensures s == t
  {
    HeadIsElement(t);
    if s != [] {
      var m, n := |s| - 1, |t| - 1;
      assert s[m] in s && s[m] in t;
      assert t[n] in t && t[n] in s;
      forall d ensures d in s[..m] <==> d in t[..n] {
        if d in s[..m] { assert d in t && d != t[n]; }
        if d in t[..n] { assert d in s && d != s[m]; }
      }
      IncreasingUnique(s[..m], t[..n]);
      assert s == s[..m] + [s[m]] && t == t[..n] + [t[n]];
    }
  }

  // `int(n ** 0.5)` and Math.floor(Math.sqrt(n)).
  function SquareRoot(n: nat): (r: nat)
    ensures r * r <= n < (r + 1) * (r + 1)
  {
    if n == 0 then 0
    else
      var r := SquareRoot(n - 1);
      if (r + 1) * (r + 1) == n then r + 1 else r
  }

  function Reversed(s: seq<int>): (r: seq<int>)
    ensures |r| == |s|
    ensures forall i :: 0 <= i < |s| ==> r[i] == s[|s| - 1 - i]
  {
    seq(|s|, i requires 0 <= i < |s| => s[|s| - 1 - i])
  }

  // ---------------------------------------------------------------------
  // Cofactors
  // ---------------------------------------------------------------------

  lemma Cofactor(n: int, d: int)
    requires n > 0 && d > 0 && Divides(d, n)
    ensures var q := n / d; q > 0 && d * q == n && Divides(q, n) && n / q == d
  {
    var q := n / d;
    assert n == d * q;
    MultipleDivides(d, q);
  }

  lemma ProductDivides(n: int, d: int, q: int)
    requires d > 0 && q > 0 && d * q == n
    ensures Divides(d, n) && n / d == q
  {
    MultipleDivides(q, d);
  }

  lemma CofactorOrder(n: int, c: int, d: int)
    requires n > 0 && 0 < c < d && Divides(c, n) && Divides(d, n)
    ensures n / d < n / c
  {
    Cofactor(n, c);
    Cofactor(n, d);
    if n / c <= n / d {
      ProductLess(n / c, c, n / d, d);
      assert false;
    }
  }

  // One of two cofactors lies on each side of the square root.
  lemma CofactorSides(n: int, d: int, limit: nat)
    requires n > 0 && d > 0 && Divides(d, n)
    requires limit * limit <= n < (limit + 1) * (limit + 1)
    ensures d > limit ==> n / d <= limit
    ensures d <= limit && n / d != d ==> n / d > limit
  {
    Cofactor(n, d);
    var q := n / d;
    if d > limit && q > limit {
      if d == limit + 1 && q == limit + 1 { assert false; }
      if d > limit + 1 { ProductLess(limit + 1, limit + 1, q, d); assert false; }
      ProductLess(limit + 1, limit + 1, d, q);
      assert false;
    }
    if d <= limit && q <= limit && q < d {
      ProductLess(d, q, limit, limit);
      assert false;
    }
    if d <= limit && q <= limit && d < q {
      ProductLess(q, d, limit, limit);
      assert false;
    }
  }

  // ---------------------------------------------------------------------
  // The search
  // ---------------------------------------------------------------------

  // What `large` holds once the candidates below i have been tried.
  ghost predicate LargeSoFar(n: int, i: int, large: seq<int>) {
    && (forall j, k :: 0 <= j < k < |large| ==> large[j] > large[k])
    && (forall e :: e in large <==> e > 0 && Divides(e, n) && 1 < n / e < i && n / e != e)
  }

  lemma OnlyCofactor(n: int, i: int)
    requires n > 1
    ensures forall e :: e > 0 && Divides(e, n) && n / e == i ==> i > 0 && Divides(i, n) && n / i == e
  {
    forall e | e > 0 && Divides(e, n) && n / e == i
      ensures i > 0 && Divides(i, n) && n / i == e
    {
      Cofactor(n, e);
    }
  }

  // A divisor whose cofactor is another number than itself and n adds that cofactor.
  lemma LargeTakes(n: int, i: int, large: seq<int>)
    requires n > 1 && 1 <= i && LargeSoFar(n, i, large)
    requires Divides(i, n) && n / i != i && n / i != n
    ensures LargeSoFar(n, i + 1, large + [n / i])
  {
    Cofactor(n, i);
    forall j | 0 <= j < |large| ensures large[j] > n / i {
      assert large[j] in large;
      Cofactor(n, large[j]);
      CofactorOrder(n, n / large[j], i);
    }
    OnlyCofactor(n, i);
  }

  // Any other candidate adds nothing.
  lemma LargeSkips(n: int, i: int, large: seq<int>)
    requires n > 1 && 1 <= i && LargeSoFar(n, i, large)
    requires !(Divides(i, n) && n / i != i && n / i != n)
    ensures LargeSoFar(n, i + 1, large)
  {
    OnlyCofactor(n, i);
    if Divides(i, n) && n / i == n {
      Cofactor(n, i);
      FactorsEqual(n, i, 1);
    }
  }

  lemma ReversedIncreasing(s: seq<int>)
    requires forall j, k :: 0 <= j < k < |s| ==> s[j] > s[k]
    ensures Increasing(Reversed(s))
    ensures forall d :: d in Reversed(s) <==> d in s
  {
    forall d | d in s ensures d in Reversed(s) {
      var j :| 0 <= j < |s| && s[j] == d;
      assert Reversed(s)[|s| - 1 - j] == d;
    }
  }

  lemma JoinedIncreasing(s: seq<int>, t: seq<int>, bound: int)
    requires Increasing(s) && Increasing(t)
    requires forall d :: d in s ==> d <= bound
    requires forall d :: d in t ==> d > bound
    ensures Increasing(s + t)
  {
    assert forall i :: 0 <= i < |s| ==> s[i] in s;
    assert forall i :: 0 <= i < |t| ==> t[i] in t;
  }

  lemma LargeIsProper(n: int, limit: nat, large: seq<int>, e: int)
    requires n > 1 && limit * limit <= n < (limit + 1) * (limit + 1)
    requires LargeSoFar(n, limit + 1, large) && e in large
    ensures limit < e < n && Divides(e, n)
  {
    Cofactor(n, e);
    CofactorSides(n, n / e, limit);
    ProductLess(1, e, n / e, e + 1);
    CofactorOrder(n, 1, n / e);
  }

  lemma MissingIsLarge(n: int, limit: nat, large: seq<int>, d: int)
    requires n > 1 && limit * limit <= n < (limit + 1) * (limit + 1)
    requires LargeSoFar(n, limit + 1, large)
    requires limit < d < n && Divides(d, n)
    ensures d in large
  {
    Cofactor(n, d);
    CofactorSides(n, d, limit);
    CofactorOrder(n, d, n);
  }

  // At the end of the loop the two accumulators hold all proper divisors.
  lemma SearchComplete(n: int, limit: nat, large: seq<int>, r: seq<int>)
    requires n > 1 && limit < n && limit * limit <= n < (limit + 1) * (limit + 1)
    requires LargeSoFar(n, limit + 1, large)
    requires r == DivisorsUpTo(n, limit) + Reversed(large)
    ensures r == ProperDivisors(n)
  {
    var small := DivisorsUpTo(n, limit);
    DivisorsUpToExact(n, limit);
    ProperDivisorsExact(n);
    forall e | e in large ensures limit < e < n && Divides(e, n) {
      LargeIsProper(n, limit, large, e);
    }
    forall d | limit < d < n && Divides(d, n) ensures d in large {
      MissingIsLarge(n, limit, large, d);
    }
    ReversedIncreasing(large);
    JoinedIncreasing(small, Reversed(large), limit);
    forall d ensures d in r <==> d in ProperDivisors(n) {
      assert d in r <==> d in small || d in Reversed(large);
    }
    IncreasingUnique(r, ProperDivisors(n));
  }

  lemma RootBelow(n: int, limit: nat)
    requires n > 1 && limit * limit <= n < (limit + 1) * (limit + 1)
    ensures 1 <= limit < n
  {
    if limit >= n {
      ProductLess(n, 1, limit, n);
      ProductLess(n - 1, n - 1, limit, limit);
      assert false;
    }
  }

  method DoFactor(n: int) returns (r: seq<int>)
    ensures r == ProperDivisors(n)
  {
    if n <= 1 {
      return [];
    }
    var small: seq<int>, large: seq<int> := [], [];
    var limit := SquareRoot(n);
    RootBelow(n, limit);
    var i := 1;
    while i <= limit
      invariant 1 <= i <= limit + 1
      invariant small == DivisorsUpTo(n, i - 1)
      invariant LargeSoFar(n, i, large)
    {
      if n % i == 0 && n / i != i && n / i != n {
        LargeTakes(n, i, large);
      } else {
        LargeSkips(n, i, large);
      }
      if n % i == 0 {
        if i != n {
          small := small + [i];
        }
        var other := n / i;
        if other != i && other != n {
          large := large + [other];
        }
      }
      i := i + 1;
    }
    r := small + Reversed(large);
    SearchComplete(n, limit, large, r);
  }

  // ---------------------------------------------------------------------
  // Pairing
  // ---------------------------------------------------------------------

  lemma FirstIsOne(n: int)
    requires n > 1
    ensures var r := ProperDivisors(n); r != [] && r[0] == 1 && Increasing(r[1..])
    ensures forall d :: d in ProperDivisors(n)[1..] <==> 1 < d < n && Divides(d, n)
  {
    ProperDivisorsExact(n);
    var r := ProperDivisors(n);
    assert 1 in r;
    assert r[0] in r;
    forall d ensures d in r[1..] <==> 1 < d < n && Divides(d, n) {
      if d in r && d != 1 {
        var i :| 0 <= i < |r| && r[i] == d;
        assert r[1..][i - 1] == d;
      }
      if d in r[1..] {
        var i :| 0 <= i < |r[1..]| && r[1..][i] == d;
        assert r[i + 1] == d && r[0] < r[i + 1];
      }
    }
  }

  // The cofactors, last first.
  function Mirror(n: int, s: seq<int>): (t: seq<int>)
    requires forall i :: 0 <= i < |s| ==> s[i] > 0
    ensures |t| == |s| && forall i :: 0 <= i < |s| ==> t[i] == n / s[|s| - 1 - i]
  {
    seq(|s|, i requires 0 <= i < |s| => n / s[|s| - 1 - i])
  }

  lemma InnerCofactor(n: int, d: int)
    requires 1 < d < n && Divides(d, n)
    ensures 1 < n / d < n && Divides(n / d, n) && n / (n / d) == d && d * (n / d) == n
  {
    Cofactor(n, d);
    CofactorOrder(n, 1, d);
    CofactorOrder(n, d, n);
  }

  // The divisors strictly between 1 and n are their own mirror.
  lemma MirrorIsSame(n: int, s: seq<int>)
    requires n > 1 && Increasing(s)
    requires forall d :: d in s <==> 1 < d < n && Divides(d, n)
    ensures forall i :: 0 <= i < |s| ==> s[i] > 0
    ensures Mirror(n, s) == s
  {
    forall i | 0 <= i < |s| ensures 1 < s[i] < n && Divides(s[i], n) { assert s[i] in s; }
    var t := Mirror(n, s);
    forall i, k | 0 <= i < k < |t| ensures t[i] < t[k] {
      CofactorOrder(n, s[|s| - 1 - k], s[|s| - 1 - i]);
    }
    forall d ensures d in t <==> d in s {
      if d in t {
        var i :| 0 <= i < |t| && t[i] == d;
        InnerCofactor(n, s[|s| - 1 - i]);
      }
      if d in s {
        InnerCofactor(n, d);
        var i :| 0 <= i < |s| && s[i] == n / d;
        assert t[|s| - 1 - i] == d;
      }
    }
    IncreasingUnique(t, s);
  }

  lemma DivisorPairing(n: int, j: nat)
    requires n > 1 && 0 < j < |ProperDivisors(n)|
    ensures var r := ProperDivisors(n); r[j] * r[|r| - j] == n
  {
    var r := ProperDivisors(n);
    FirstIsOne(n);
    var s := r[1..];
    MirrorIsSame(n, s);
    var d := s[|s| - j];
    assert d in s && d == r[|r| - j];
    assert r[j] == s[j - 1] == n / d;
    Cofactor(n, d);
  }

  predicate SquareOf(s: int, n: int) {
    1 <= s && s * s == n
  }

  ghost predicate IsSquare(n: int) {
    exists s :: SquareOf(s, n)
  }

  ghost predicate IsPrime(n: int) {
    n > 1 && forall d :: 1 < d < n ==> !Divides(d, n)
  }

  // A square root appears once, so the list is even exactly at the perfect squares.
  lemma EvenLengthIffSquare(n: int)
    requires n > 1
    ensures |ProperDivisors(n)| % 2 == 0 <==> IsSquare(n)
  {
    var r := ProperDivisors(n);
    FirstIsOne(n);
    ProperDivisorsExact(n);
    if |r| % 2 == 0 {
      var j := |r| / 2;
      DivisorPairing(n, j);
      assert r[j] in r;
      assert SquareOf(r[j], n);
    }
    if IsSquare(n) {
      var s :| SquareOf(s, n);
      assert s != 1;
      ProductLess(1, s, s, s + 1);
      ProductLess(s, 1, s, s);
      ProductDivides(n, s, s);
      var j :| 0 <= j < |r| && r[j] == s;
      DivisorPairing(n, j);
      FactorsEqual(s, s, r[|r| - j]);
    }
  }

  // The report selects the rows whose result has length 1: exactly the prime factors.
  lemma LengthOneIffPrime(n: int)
    ensures |ProperDivisors(n)| == 1 <==> IsPrime(n)
  {
    if n > 1 {
      var r := ProperDivisors(n);
      FirstIsOne(n);
      if |r| == 1 {
        forall d | 1 < d < n ensures !Divides(d, n) { assert d !in r[1..]; }
      } else {
        assert r[1..][0] in r[1..];
      }
    }
  }
}
