/** Decimal numbers of any length (hello_srs.c): digits in an array, lowest first, length in front. */
module Bignum {

  // ----- values of digit strings -----

  function Pow(k: nat): (p: int)
    ensures p >= 1
  {
    if k == 0 then 1 else 10 * Pow(k - 1)
  }

  /** The number written by these digits, lowest first; "digits" may be too large. */
  function Val(s: seq<int>): int {
    if s == [] then 0 else s[0] + 10 * Val(s[1..])
  }

  predicate Digits(s: seq<int>) {
    forall i :: 0 <= i < |s| ==> 0 <= s[i] <= 9
  }

  predicate NonNeg(s: seq<int>) {
    forall i :: 0 <= i < |s| ==> 0 <= s[i]
  }

  lemma {:induction false} PowSum(a: nat, b: nat)
    ensures Pow(a + b) == Pow(a) * Pow(b)
  {
    if a > 0 {
      PowSum(a - 1, b);
      Mul3(10, Pow(a - 1), Pow(b));
    }
  }

  lemma Mul3(x: int, y: int, z: int)
    ensures x * (y * z) == (x * y) * z
  {
  }

  lemma Mul4(a: int, b: int, p: int, q: int)
    ensures (a * b) * (p * q) == (a * p) * (b * q)
  {
  }

  lemma {:induction false} ValAppend(s: seq<int>, t: seq<int>)
    ensures Val(s + t) == Val(s) + Pow(|s|) * Val(t)
    decreases |s|
  {
    if s == [] {
      assert s + t == t;
    } else {
      assert (s + t)[1..] == s[1..] + t;
      ValAppend(s[1..], t);
      Mul3(10, Pow(|s| - 1), Val(t));
    }
  }

  lemma ValOne(x: int)
    ensures Val([x]) == x
  {
    assert [x][1..] == [];
  }

  /** One more digit on top. */
  lemma ValTop(s: seq<int>, x: int)
    ensures Val(s + [x]) == Val(s) + Pow(|s|) * x
  {
    ValAppend(s, [x]);
    ValOne(x);
  }

  /** Adding to a digit. */
  lemma {:induction false} ValAdd(s: seq<int>, k: nat, x: int)
    requires k < |s|
    ensures Val(s[k := s[k] + x]) == Val(s) + x * Pow(k)
    decreases |s|
  {
    var t := s[k := s[k] + x];
    if k == 0 {
      assert t[1..] == s[1..];
    } else {
      assert t[1..] == s[1..][k - 1 := s[1..][k - 1] + x];
      ValAdd(s[1..], k - 1, x);
      Mul3(10, x, Pow(k - 1));
      Mul3(x, 10, Pow(k - 1));
    }
  }

  lemma {:induction false} ValDigits(s: seq<int>)
    requires Digits(s)
    ensures 0 <= Val(s) < Pow(|s|)
  {
    if s != [] {
      ValDigits(s[1..]);
    }
  }

  lemma {:induction false} ValZeros(s: seq<int>)
    requires forall i :: 0 <= i < |s| ==> s[i] == 0
    ensures Val(s) == 0
  {
    if s != [] {
      ValZeros(s[1..]);
    }
  }

  /** A digit is worth no more than the whole number. */
  lemma {:induction false} ValAtLeast(s: seq<int>, k: nat)
    requires NonNeg(s) && k < |s|
    ensures s[k] * Pow(k) <= Val(s)
    decreases |s|
  {
    ValNonNeg(s[1..]);
    if k > 0 {
      ValAtLeast(s[1..], k - 1);
      Mul3(s[k], 10, Pow(k - 1));
      Mul3(10, s[k], Pow(k - 1));
    }
  }

  lemma {:induction false} ValNonNeg(s: seq<int>)
    requires NonNeg(s)
    ensures 0 <= Val(s)
  {
    if s != [] {
      ValNonNeg(s[1..]);
    }
  }

  // ----- numbers in arrays -----

  /** A positive number: its length in front, then its digits without a leading zero. */
  ghost predicate Number(a: seq<int>) {
    |a| > 0 && 1 <= a[0] < |a| && Digits(a[1..a[0] + 1]) && a[a[0]] != 0
  }

  ghost function Value(a: seq<int>): int
    requires |a| > 0 && 0 <= a[0] < |a|
  {
    Val(a[1..a[0] + 1])
  }

  /** A number of `n` digits lies between two powers of ten. */
  lemma NumberBounds(a: seq<int>)
    requires Number(a)
    ensures Pow(a[0] - 1) <= Value(a) < Pow(a[0])
  {
    hide Val, Pow;
    var s := a[1..a[0] + 1];
    ValDigits(s);
    ValAtLeast(s, |s| - 1);
    AtLeastOnce(s[|s| - 1], Pow(|s| - 1));
  }

  lemma AtLeastOnce(d: int, p: int)
    requires d >= 1 && p >= 1
    ensures p <= d * p
  {
  }

  ghost predicate Zeroed(c: seq<int>) {
    forall i :: 0 <= i < |c| ==> c[i] == 0
  }

  // ----- multiplication -----

  /** Row `i` of the schoolbook product: the digit `x` times `b`, added `i - 1` places up. */
  method AddRow(b: array<int>, c: array<int>, x: int, i: nat, ghost n: nat)
    requires b != c && b.Length > 0 && Number(b[..]) && 1 <= i && i + b[0] <= n < c.Length && 0 <= x <= 9
             && NonNeg(c[..])
    modifies c
    ensures Val(c[1..n + 1]) == old(Val(c[1..n + 1])) + (x * Pow(i - 1)) * Value(b[..])
    ensures NonNeg(c[..]) && c[0] == old(c[0]) && forall k :: n < k < c.Length ==> c[k] == old(c[k])
    ensures forall k :: 0 <= k < c.Length ==> c[k] <= old(c[k]) + 81
  {
    hide Val, Pow;
    ghost var r, v := x * Pow(i - 1), Val(c[1..n + 1]);
    var j := 1;
    RowStart(b[..], r);
    while j <= b[0]
      invariant 1 <= j <= b[0] + 1 && NonNeg(c[..]) && c[0] == old(c[0])
      invariant Val(c[1..n + 1]) == v + r * Val(b[1..j])
      invariant forall k :: 0 <= k < c.Length ==> c[k] <= old(c[k]) + if k < i + j - 1 then 81 else 0
      invariant forall k :: n < k < c.Length ==> c[k] == old(c[k])
    {
      ghost var s, y := c[1..n + 1], x * b[j];
      var p := i + j - 1;
      ProductNonNeg(x, b[..], j);
      c[p] := c[p] + x * b[j];
      assert c[1..n + 1] == s[p - 1 := s[p - 1] + y];
      ValAdd(s, p - 1, y);
      RowStep(b[..], x, i, j);
      j := j + 1;
    }
  }

  lemma RowStart(b: seq<int>, r: int)
    requires Number(b)
    ensures r * Val(b[1..1]) == 0
  {
  }

  lemma ProductNonNeg(x: int, b: seq<int>, j: nat)
    requires Number(b) && 0 <= x <= 9 && 1 <= j <= b[0]
    ensures 0 <= x * b[j] <= 81
  {
    assert b[1..b[0] + 1][j - 1] == b[j];
    DigitProduct(x, b[j]);
  }

  lemma DigitProduct(x: int, y: int)
    requires 0 <= x <= 9 && 0 <= y <= 9
    ensures 0 <= x * y <= 81
  {
    assert x * y <= 9 * y;
  }

  lemma RowStep(b: seq<int>, x: int, i: nat, j: nat)
    requires Number(b) && 1 <= i && 1 <= j <= b[0]
    ensures (x * Pow(i - 1)) * Val(b[1..j + 1]) == (x * Pow(i - 1)) * Val(b[1..j]) + (x * b[j]) * Pow(i + j - 2)
  {
    var r, d := x * Pow(i - 1), b[1..j];
    assert b[1..j + 1] == d + [b[j]];
    ValTop(d, b[j]);
    PowSum(i - 1, j - 1);
    Mul4(x, b[j], Pow(i - 1), Pow(j - 1));
    Distribute(r, Val(d), Pow(j - 1), b[j]);
  }

  lemma Distribute(r: int, v: int, p: int, d: int)
    ensures r * (v + p * d) == r * v + r * (d * p)
  {
  }

  /** Multiply(): onto a zeroed accumulator, the digit sums of the product. */
  method Multiply(a: array<int>, b: array<int>, c: array<int>)
    requires c != a && c != b && a.Length > 0 && b.Length > 0 && Number(a[..]) && Number(b[..])
    requires a[0] + b[0] + 1 < c.Length && Zeroed(c[..])
    modifies c
    ensures c[0] == a[0] + b[0] + 1 && NonNeg(c[..]) && forall k :: c[0] < k < c.Length ==> c[k] == 0
    ensures Val(c[1..c[0] + 1]) == Value(a[..]) * Value(b[..])
    ensures forall k :: 1 <= k < c.Length ==> c[k] <= 81 * a[0]
  {
    hide Val, Pow;
    ghost var n, vb := a[0] + b[0] + 1, Value(b[..]);
    var i := 1;
    MultiplyStart(a[..], c[..], n, vb);
    while i <= a[0]
      invariant 1 <= i <= a[0] + 1 && NonNeg(c[..]) && c[0] == 0
      invariant Val(c[1..n + 1]) == Val(a[1..i]) * vb
      invariant forall k :: 0 <= k < c.Length ==> c[k] <= 81 * (i - 1)
      invariant forall k :: n < k < c.Length ==> c[k] == 0
    {
      assert a[1..a[0] + 1][i - 1] == a[i];
      AddRow(b, c, a[i], i, n);
      NextDigit(a[..], i, vb);
      i := i + 1;
    }
    ghost var t := c[1..n + 1];
    c[0] := a[0] + b[0] + 1;
    assert c[1..n + 1] == t;
  }

  lemma MultiplyStart(a: seq<int>, c: seq<int>, n: nat, vb: int)
    requires Zeroed(c) && n < |c| && |a| > 1
    ensures Val(c[1..n + 1]) == Val(a[1..1]) * vb
  {
    ValZeros(c[1..n + 1]);
  }

  lemma NextDigit(a: seq<int>, i: nat, vb: int)
    requires 1 <= i < |a|
    ensures Val(a[1..i + 1]) * vb == Val(a[1..i]) * vb + (a[i] * Pow(i - 1)) * vb
  {
    assert a[1..i + 1] == a[1..i] + [a[i]];
    ValTop(a[1..i], a[i]);
  }

  // ----- carrying -----

  /** Moving tens up one place changes no value. */
  lemma CarryOnce(s: seq<int>, k: nat, q: int)
    requires k + 1 < |s|
    ensures Val(s[k + 1 := s[k + 1] + q][k := s[k] - 10 * q]) == Val(s)
  {
    var t := s[k + 1 := s[k + 1] + q];
    ValAdd(s, k + 1, q);
    ValAdd(t, k, -(10 * q));
    assert t[k] == s[k];
    TensUp(q, Pow(k));
  }

  lemma TensUp(q: int, p: int)
    ensures q * (10 * p) + (-(10 * q)) * p == 0
  {
  }

  /** The top place of a product is empty, so nothing is carried past it. */
  lemma TopEmpty(s: seq<int>)
    requires s != [] && NonNeg(s) && Val(s) < Pow(|s| - 1)
    ensures s[|s| - 1] == 0
  {
    ValAtLeast(s, |s| - 1);
    if s[|s| - 1] >= 1 {
      AtLeastOnce(s[|s| - 1], Pow(|s| - 1));
    }
  }

  /** The first loop of Carry(): every place becomes a digit. */
  method CarryUp(c: array<int>, n: nat)
    requires 1 <= n < c.Length && c[0] == n && NonNeg(c[..]) && Val(c[1..n + 1]) < Pow(n - 1)
    modifies c
    ensures c[0] == n && Digits(c[1..n + 1]) && Val(c[1..n + 1]) == old(Val(c[1..n + 1]))
    ensures forall k :: n < k < c.Length ==> c[k] == old(c[k])
  {
    hide Val, Pow;
    ghost var v := Val(c[1..n + 1]);
    var i := 1;
    while i <= c[0]
      invariant 1 <= i <= n + 1 && c[0] == n && NonNeg(c[..]) && Val(c[1..n + 1]) == v
      invariant forall k :: 1 <= k < i ==> c[k] <= 9
      invariant forall k :: n < k < c.Length ==> c[k] == old(c[k])
    {
      ghost var s := c[1..n + 1];
      if i == n {
        TopEmpty(s);
      }
      if c[i] >= 10 {
        var q := c[i] / 10;
        CarryOnce(s, i - 1, q);
        c[i + 1] := c[i + 1] + q;
        c[i] := c[i] % 10;
        assert c[1..n + 1] == s[i := s[i] + q][i - 1 := s[i - 1] - 10 * q];
      }
      i := i + 1;
    }
  }

  lemma DropZero(s: seq<int>)
    requires s != [] && s[|s| - 1] == 0
    ensures Val(s[..|s| - 1]) == Val(s)
  {
    assert s == s[..|s| - 1] + [0];
    ValTop(s[..|s| - 1], 0);
  }

  /** Carry(): the same number in normal form; what is above its length is zero. */
  method Carry(c: array<int>)
    requires c.Length > 0 && 1 <= c[0] < c.Length && NonNeg(c[..]) && 0 < Val(c[1..c[0] + 1]) < Pow(c[0] - 1)
    modifies c
    ensures Number(c[..]) && Value(c[..]) == old(Val(c[1..c[0] + 1])) && c[0] <= old(c[0])
    ensures forall k :: c[0] < k < c.Length ==> c[k] == if k <= old(c[0]) then 0 else old(c[k])
  {
    hide Val, Pow;
    var length := c[0];
    ghost var n, v := length, Val(c[1..length + 1]);
    CarryUp(c, length);
    while c[length] == 0
      invariant 1 <= length <= n && c[0] == length && Digits(c[1..length + 1]) && Val(c[1..length + 1]) == v
      invariant forall k :: length < k < c.Length ==> c[k] == if k <= n then 0 else old(c[k])
      decreases length
    {
      ghost var s := c[1..length + 1];
      DropZero(s);
      NotEmpty(s[..|s| - 1]);
      length := length - 1;
      c[0] := length;
      assert c[1..length + 1] == s[..|s| - 1];
    }
  }

  lemma NotEmpty(s: seq<int>)
    requires Val(s) > 0
    ensures s != []
  {
  }

  // ----- assignment -----

  /** Assigment(): the number moves over and leaves the accumulator zeroed. */
  method Assignment(a: array<int>, c: array<int>)
    requires a != c && a.Length > 0 && c.Length > 0 && Number(c[..]) && c[0] < a.Length
    requires forall k :: c[0] < k < c.Length ==> c[k] == 0
    modifies a, c
    ensures Number(a[..]) && Value(a[..]) == old(Value(c[..])) && a[0] == old(c[0]) && Zeroed(c[..])
  {
    hide Val;
    ghost var s := c[..];
    var i := 1;
    while i <= c[0]
      invariant 1 <= i <= s[0] + 1 && c[0] == s[0]
      invariant forall k :: 1 <= k < i ==> a[k] == s[k] && c[k] == 0
      invariant forall k :: i <= k < c.Length ==> c[k] == s[k]
    {
      a[i] := c[i];
      c[i] := 0;
      i := i + 1;
    }
    a[0] := c[0];
    c[0] := 0;
    assert a[1..a[0] + 1] == s[1..s[0] + 1];
    assert a[..][1..a[0] + 1] == a[1..a[0] + 1];
  }

  // ----- one step of the product -----

  lemma ProductBounds(x: int, y: int, p: int, q: int)
    requires 0 < x < p && 0 < y < q
    ensures 0 < x * y < p * q
  {
  }

  lemma {:induction false} PowLess(a: nat, b: nat)
    requires Pow(a) < Pow(b)
    ensures a < b
  {
    if b > 0 && a > 0 {
      PowLess(a - 1, b - 1);
    }
  }

  /** Length of a number that is below a power of ten. */
  lemma NumberLength(a: seq<int>, k: nat)
    requires Number(a) && Value(a) < Pow(k)
    ensures a[0] <= k
  {
    hide Val, Pow;
    NumberBounds(a);
    PowLess(a[0] - 1, k);
  }

  /** Multiply(), Carry() and Assigment() replace `a` by `a` times `b`, for every product that fits; the
      accumulator is zero again. */
  method MultiplyBy(a: array<int>, b: array<int>, c: array<int>)
    requires a != b && b != c && c != a && a.Length > 0 && b.Length > 0 && Number(a[..]) && Number(b[..])
             && Zeroed(c[..])
    requires Value(a[..]) * Value(b[..]) < Pow(a.Length - 1) && a[0] + b[0] + 1 < c.Length
    modifies a, c
    ensures Number(a[..]) && Value(a[..]) == old(Value(a[..])) * Value(b[..]) && Zeroed(c[..])
    ensures a[0] <= old(a[0]) + b[0]
  {
    hide Val, Pow, Digits;
    ghost var x, y, la, lb := Value(a[..]), Value(b[..]), a[0], b[0];
    ProductFits(a[..], b[..]);
    Multiply(a, b, c);
    Carry(c);
    assert c[..][1..c[0] + 1] == c[1..c[0] + 1];
    NumberLength(c[..], la + lb);
    NumberLength(c[..], a.Length - 1);
    Assignment(a, c);
  }

  lemma ProductFits(a: seq<int>, b: seq<int>)
    requires Number(a) && Number(b)
    ensures 0 < Value(a) * Value(b) < Pow(a[0] + b[0])
  {
    hide Val, Pow;
    NumberBounds(a);
    NumberBounds(b);
    PowSum(a[0], b[0]);
    ProductBounds(Value(a), Value(b), Pow(a[0]), Pow(b[0]));
  }

  // ----- reading a number -----

  /** What sprintf() prints, highest digit first. */
  function Printed(n: nat): (s: seq<int>)
    ensures |s| > 0
  {
    if n < 10 then [n] else Printed(n / 10) + [n % 10]
  }

  function LowFirst(n: nat): (s: seq<int>)
    ensures |s| == |Printed(n)|
  {
    if n < 10 then [n] else [n % 10] + LowFirst(n / 10)
  }

  lemma {:induction false} PrintedReversed(n: nat, k: nat)
    requires k < |LowFirst(n)|
    ensures Printed(n)[|Printed(n)| - 1 - k] == LowFirst(n)[k]
  {
    if n >= 10 && k > 0 {
      PrintedReversed(n / 10, k - 1);
    }
  }

  lemma {:induction false} LowFirstValue(n: nat)
    ensures Val(LowFirst(n)) == n && Digits(LowFirst(n)) && (n > 0 ==> LowFirst(n)[|LowFirst(n)| - 1] != 0)
  {
    if n >= 10 {
      LowFirstValue(n / 10);
      assert LowFirst(n)[1..] == LowFirst(n / 10);
    } else {
      ValOne(n);
    }
  }

  /** Read(): the digits of a number, lowest first. */
  method Read(numb: nat, a: array<int>)
    requires |Printed(numb)| < a.Length
    modifies a
    ensures a[0] == |Printed(numb)| && a[1..a[0] + 1] == LowFirst(numb)
    ensures Value(a[..]) == numb && (numb > 0 ==> Number(a[..]))
  {
    hide Val, Printed, LowFirst;
    var number := Printed(numb);
    var index := 1;
    var i := |number| - 1;
    while i >= 0
      invariant -1 <= i < |number| && index == |number| - i
      invariant forall k :: 1 <= k < index ==> a[k] == LowFirst(numb)[k - 1]
    {
      PrintedReversed(numb, index - 1);
      a[index] := number[i];
      index := index + 1;
      i := i - 1;
    }
    a[0] := |number|;
    LowFirstValue(numb);
    assert a[..][1..a[0] + 1] == LowFirst(numb);
  }

  // ----- factorials -----

  function Fact(n: nat): (f: nat)
    ensures f >= 1
  {
    if n == 0 then 1 else n * Fact(n - 1)
  }

  lemma {:induction false} FactGrows(m: nat, n: nat)
    requires m <= n
    ensures Fact(m) <= Fact(n)
    decreases n - m
  {
    if m < n {
      FactGrows(m, n - 1);
      AtLeastOnce(n, Fact(n - 1));
    }
  }

  /** A number and its printed length. */
  lemma PrintedLength(n: nat, k: nat)
    requires 0 < n < Pow(k)
    ensures |Printed(n)| <= k
  {
    hide Val, Pow, Printed, LowFirst;
    LowFirstValue(n);
    var a := [|LowFirst(n)|] + LowFirst(n);
    assert a[1..a[0] + 1] == LowFirst(n);
    NumberLength(a, k);
  }

  /** The loop of hello_srs_main(): the digits of `n`!, for every `n` whose factorial fits. */
  method Factorial(n: nat, a: array<int>, b: array<int>, c: array<int>)
    requires a != b && b != c && c != a && Zeroed(c[..]) && b.Length == a.Length && c.Length == 2 * a.Length
    requires a.Length > 1 && Fact(n) < Pow(a.Length - 1)
    modifies a, b, c
    ensures Number(a[..]) && Value(a[..]) == Fact(n) && Zeroed(c[..])
  {
    hide Val, Pow, Digits, Fact, Printed;
    ghost var k := a.Length - 1;
    FactOne();
    FactGrows(0, n);
    PrintedLength(1, k);
    Read(1, a);
    var i := 2;
    while i <= n
      invariant 2 <= i && (i <= n + 1 || n < 2) && Number(a[..]) && Value(a[..]) == Fact(i - 1) && Zeroed(c[..])
      invariant n < 2 ==> i == 2
    {
      FactStep(i);
      FactGrows(i, n);
      AtLeastOnce(Fact(i - 1), i);
      PrintedLength(i, k);
      Read(i, b);
      MultiplyBy(a, b, c);
      i := i + 1;
    }
  }

  lemma FactOne()
    ensures Fact(0) == 1 && Fact(1) == 1
  {
  }

  lemma FactStep(i: nat)
    requires i >= 1
    ensures Fact(i) == Fact(i - 1) * i
  {
  }
}
