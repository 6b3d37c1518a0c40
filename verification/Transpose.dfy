/** transpose_array: an odometer over any number of dimensions that moves every element
    between its column-major and its row-major position. */
module Transpose {
  predicate Positive(d: seq<nat>) {
    forall i :: 0 <= i < |d| ==> d[i] > 0
  }

  predicate IsIndex(d: seq<nat>, m: seq<nat>) {
    |m| == |d| && forall i :: 0 <= i < |d| ==> m[i] < d[i]
  }

  function Product(d: seq<nat>): (n: nat) {
    if d == [] then 1 else Product(d[..|d| - 1]) * d[|d| - 1]
  }

  lemma {:induction false} ProductPositive(d: seq<nat>)
    requires Positive(d)
    ensures Product(d) > 0
  {
    if d != [] {
      ProductPositive(d[..|d| - 1]);
      MulPositive(Product(d[..|d| - 1]), d[|d| - 1]);
    }
  }

  /** The last dimension varies fastest. */
  function RowPos(d: seq<nat>, m: seq<nat>): nat
    requires |m| == |d|
  {
    var k := |d| - 1;
    if d == [] then 0 else RowPos(d[..k], m[..k]) * d[k] + m[k]
  }

  /** The first dimension varies fastest. */
  function ColPos(d: seq<nat>, m: seq<nat>): nat
    requires |m| == |d|
  {
    if d == [] then 0 else m[0] + d[0] * ColPos(d[1..], m[1..])
  }

  function RowIndex(d: seq<nat>, p: nat): (m: seq<nat>)
    requires Positive(d)
    ensures |m| == |d|
  {
    var k := |d| - 1;
    if d == [] then [] else RowIndex(d[..k], p / d[k]) + [p % d[k]]
  }

  function ColIndex(d: seq<nat>, p: nat): (m: seq<nat>)
    requires Positive(d)
    ensures |m| == |d|
  {
    if d == [] then [] else [p % d[0]] + ColIndex(d[1..], p / d[0])
  }

  // ----- arithmetic

  lemma MulPositive(a: nat, b: nat)
    requires a > 0 && b > 0
    ensures a * b > 0
  {
  }

  lemma MulLess(a: nat, b: nat, k: nat, r: nat)
    requires a < b && r < k
    ensures a * k + r < b * k
  {
    assert (a + 1) * k <= b * k;
  }

  lemma DivMod(q: nat, r: nat, k: nat)
    requires r < k
    ensures (q * k + r) / k == q && (q * k + r) % k == r
  {
    var n := q * k + r;
    assert n == n / k * k + n % k;
    if n / k < q {
      MulLess(n / k, q, k, n % k);
    } else if n / k > q {
      MulLess(q, n / k, k, r);
    }
  }

  lemma DivLess(p: nat, a: nat, k: nat)
    requires k > 0 && p < a * k
    ensures p / k < a
  {
  }

  lemma DivSum(p: nat, k: nat)
    requires k > 0
    ensures p % k + k * (p / k) == p && p % k < k
  {
  }

  lemma Distribute(a: nat, c: nat, p: nat, m: nat)
    ensures a * (c + p * m) == a * c + a * p * m
  {
    assert a * (c + p * m) == a * c + a * (p * m);
    MulAssoc(a, p, m);
  }

  lemma {:induction false} ProductSplit(d: seq<nat>)
    requires d != []
    ensures Product(d) == d[0] * Product(d[1..])
  {
    var k := |d| - 1;
    if k == 0 {
      assert d[..0] == [] && d[1..] == [];
    } else {
      ProductSplit(d[..k]);
      assert d[..k][1..] == d[1..][..k - 1];
      MulAssoc(d[0], Product(d[1..k]), d[k]);
      assert d[1..k] == d[1..][..k - 1];
    }
  }

  lemma MulAssoc(a: nat, b: nat, c: nat)
    ensures (a * b) * c == a * (b * c)
  {
  }

  // ----- both orders number the indices 0 .. product - 1

  lemma {:induction false} RowBijection(d: seq<nat>, m: seq<nat>)
    requires Positive(d) && IsIndex(d, m)
    ensures RowPos(d, m) < Product(d) && RowIndex(d, RowPos(d, m)) == m
  {
    if d != [] {
      var k := |d| - 1;
      RowBijection(d[..k], m[..k]);
      MulLess(RowPos(d[..k], m[..k]), Product(d[..k]), d[k], m[k]);
      DivMod(RowPos(d[..k], m[..k]), m[k], d[k]);
      assert m == m[..k] + [m[k]];
    }
  }

  lemma {:induction false} RowInverse(d: seq<nat>, p: nat)
    requires Positive(d) && p < Product(d)
    ensures IsIndex(d, RowIndex(d, p)) && RowPos(d, RowIndex(d, p)) == p
  {
    if d != [] {
      var k := |d| - 1;
      DivLess(p, Product(d[..k]), d[k]);
      RowInverse(d[..k], p / d[k]);
      assert RowIndex(d, p)[..k] == RowIndex(d[..k], p / d[k]);
    }
  }

  lemma {:induction false} ColBijection(d: seq<nat>, m: seq<nat>)
    requires Positive(d) && IsIndex(d, m)
    ensures ColPos(d, m) < Product(d) && ColIndex(d, ColPos(d, m)) == m
  {
    if d != [] {
      ColBijection(d[1..], m[1..]);
      ProductSplit(d);
      MulLess(ColPos(d[1..], m[1..]), Product(d[1..]), d[0], m[0]);
      DivMod(ColPos(d[1..], m[1..]), m[0], d[0]);
      assert m == [m[0]] + m[1..];
    }
  }

  lemma {:induction false} ColInverse(d: seq<nat>, p: nat)
    requires Positive(d) && p < Product(d)
    ensures IsIndex(d, ColIndex(d, p)) && ColPos(d, ColIndex(d, p)) == p
  {
    if d != [] {
      hide Product;
      ProductSplit(d);
      DivLess(p, Product(d[1..]), d[0]);
      ColInverse(d[1..], p / d[0]);
      DivSum(p, d[0]);
      assert ColIndex(d, p)[1..] == ColIndex(d[1..], p / d[0]);
    }
  }

  /** Stepping the last index moves a column-major position by the product of the others. */
  lemma {:induction false} ColLast(d: seq<nat>, m: seq<nat>)
    requires d != [] && |m| == |d|
    ensures var k := |d| - 1; ColPos(d, m) == ColPos(d[..k], m[..k]) + Product(d[..k]) * m[k]
  {
    var k := |d| - 1;
    if k == 0 {
      assert d[..0] == [] && d[1..] == [];
    } else {
      ColLast(d[1..], m[1..]);
      assert d[1..][..k - 1] == d[..k][1..] && m[1..][..k - 1] == m[..k][1..];
      hide Product;
      ProductSplit(d[..k]);
      Distribute(d[0], ColPos(d[..k][1..], m[..k][1..]), Product(d[..k][1..]), m[k]);
    }
  }

  // ----- what a transposition is

  /** The element of the source that belongs at position p of the result. */
  function Origin(d: seq<nat>, columnMajor: bool, p: nat): nat
    requires Positive(d)
  {
    if columnMajor then ColPos(d, RowIndex(d, p)) else RowPos(d, ColIndex(d, p))
  }

  ghost predicate Transposed<T(!new), U(!new)>(d: seq<nat>, columnMajor: bool, conv: T -> U, src: seq<T>, dest: seq<U>)
    requires Positive(d)
  {
    && Product(d) <= |src| && Product(d) <= |dest|
    && forall m :: IsIndex(d, m) ==> Carried(d, columnMajor, conv, src, dest, m)
  }

  /** The element with multi-index m went from one order to the other. */
  ghost predicate Carried<T, U>(d: seq<nat>, columnMajor: bool, conv: T -> U, src: seq<T>, dest: seq<U>, m: seq<nat>)
    requires |m| == |d|
  {
    var col, row := ColPos(d, m), RowPos(d, m);
    var to, from := if columnMajor then row else col, if columnMajor then col else row;
    to < |dest| && from < |src| && dest[to] == conv(src[from])
  }

  /** Every position of the result is determined. */
  lemma TransposedAt<T(!new), U(!new)>(d: seq<nat>, columnMajor: bool, conv: T -> U, src: seq<T>, dest: seq<U>, p: nat)
    requires Positive(d) && Transposed(d, columnMajor, conv, src, dest) && p < Product(d)
    ensures Origin(d, columnMajor, p) < Product(d) && dest[p] == conv(src[Origin(d, columnMajor, p)])
  {
    var m := if columnMajor then RowIndex(d, p) else ColIndex(d, p);
    RowInverse(d, p);
    ColInverse(d, p);
    RowBijection(d, m);
    ColBijection(d, m);
    assert Carried(d, columnMajor, conv, src, dest, m);
  }

  /** One way and back restores every element. */
  lemma RoundTrip<T(!new), U(!new)>(d: seq<nat>, columnMajor: bool, conv: T -> U, back: U -> T, s: seq<T>, t: seq<U>, u: seq<T>)
    requires Positive(d) && Transposed(d, columnMajor, conv, s, t) && Transposed(d, !columnMajor, back, t, u)
    requires forall x: T :: back(conv(x)) == x
    ensures u[..Product(d)] == s[..Product(d)]
  {
    forall p: nat | p < Product(d)
      ensures u[p] == s[p]
    {
      var m := if columnMajor then ColIndex(d, p) else RowIndex(d, p);
      RowInverse(d, p);
      ColInverse(d, p);
      assert Carried(d, columnMajor, conv, s, t, m);
      assert Carried(d, !columnMajor, back, t, u, m);
    }
  }

  // ----- what the two orders are

  /** The next index in dimension k lies as many places on as one index there has elements: in
      row-major order those of the dimensions after it, in column-major order of those before. */
  lemma {:induction false} RowStep(d: seq<nat>, m: seq<nat>, k: nat)
    requires |m| == |d| && k < |d|
    ensures RowPos(d, m[k := m[k] + 1]) == RowPos(d, m) + Product(d[k + 1..])
  {
    var n := |d| - 1;
    var m1 := m[k := m[k] + 1];
    if k == n {
      assert m1[..n] == m[..n] && d[k + 1..] == [];
    } else {
      RowStep(d[..n], m[..n], k);
      assert m1[..n] == m[..n][k := m[k] + 1];
      assert d[k + 1..][..n - k - 1] == d[..n][k + 1..];
      AddTimes(RowPos(d[..n], m[..n]), Product(d[..n][k + 1..]), d[n]);
    }
  }

  lemma AddTimes(a: nat, b: nat, c: nat)
    ensures (a + b) * c == a * c + b * c
  {
  }

  lemma {:induction false} ColStep(d: seq<nat>, m: seq<nat>, k: nat)
    requires |m| == |d| && k < |d|
    ensures ColPos(d, m[k := m[k] + 1]) == ColPos(d, m) + Product(d[..k])
  {
    var m1 := m[k := m[k] + 1];
    if k == 0 {
      assert m1[1..] == m[1..] && d[..0] == [];
    } else {
      ColStep(d[1..], m[1..], k - 1);
      assert m1[1..] == m[1..][k - 1 := m[k] + 1];
      ProductSplit(d[..k]);
      assert d[..k][1..] == d[1..][..k - 1];
      ColUnfold(d, m);
      ColUnfold(d, m1);
      hide Product, ColPos;
      TimesAdd(d[0], ColPos(d[1..], m[1..]), Product(d[1..][..k - 1]));
    }
  }

  lemma ColUnfold(d: seq<nat>, m: seq<nat>)
    requires |m| == |d| && d != []
    ensures ColPos(d, m) == m[0] + d[0] * ColPos(d[1..], m[1..])
  {
  }

  lemma TimesAdd(a: nat, b: nat, c: nat)
    ensures a * (b + c) == a * b + a * c
  {
  }

  lemma {:induction false} StartsAtZero(d: seq<nat>, m: seq<nat>)
    requires |m| == |d| && forall i :: 0 <= i < |m| ==> m[i] == 0
    ensures RowPos(d, m) == 0 && ColPos(d, m) == 0
  {
    if d != [] {
      StartsAtZero(d[..|d| - 1], m[..|d| - 1]);
      StartsAtZero(d[1..], m[1..]);
    }
  }

  /** A matrix of r rows and c columns: what was stored by columns is stored by rows. */
  lemma Matrix<T(!new), U(!new)>(r: nat, c: nat, columnMajor: bool, conv: T -> U, src: seq<T>, dest: seq<U>, i: nat, j: nat)
    requires r > 0 && c > 0 && Transposed([r, c], columnMajor, conv, src, dest) && i < r && j < c
    ensures i * c + j < r * c && j * r + i < r * c && r * c <= |src| && r * c <= |dest|
    ensures if columnMajor then dest[i * c + j] == conv(src[j * r + i]) else dest[j * r + i] == conv(src[i * c + j])
  {
    var d, m := [r, c], [i, j];
    hide Transposed;
    MatrixPos(r, c, i, j);
    MulLess(i, r, c, j);
    MulLess(j, c, r, i);
    OneCarried(d, columnMajor, conv, src, dest, m);
  }

  lemma OneCarried<T(!new), U(!new)>(d: seq<nat>, columnMajor: bool, conv: T -> U, src: seq<T>, dest: seq<U>, m: seq<nat>)
    requires Positive(d) && Transposed(d, columnMajor, conv, src, dest) && IsIndex(d, m)
    ensures Carried(d, columnMajor, conv, src, dest, m) && Product(d) <= |src| && Product(d) <= |dest|
  {
  }

  lemma MatrixPos(r: nat, c: nat, i: nat, j: nat)
    ensures RowPos([r, c], [i, j]) == i * c + j && ColPos([r, c], [i, j]) == j * r + i && Product([r, c]) == r * c
  {
    assert [r, c][..1] == [r] && [i, j][..1] == [i] && [r][..0] == [] && [i][..0] == [];
    assert RowPos([], []) == 0 && Product([]) == 1;
    assert RowPos([r], [i]) == i && Product([r]) == r;
    assert [r, c][1..] == [c] && [i, j][1..] == [j] && [c][1..] == [] && [j][1..] == [];
    assert ColPos([c], [j]) == j;
  }

  /** The same in three dimensions. */
  lemma Cube<T(!new), U(!new)>(r: nat, c: nat, l: nat, columnMajor: bool, conv: T -> U, src: seq<T>, dest: seq<U>, i: nat, j: nat, k: nat, row: nat, col: nat)
    requires r > 0 && c > 0 && l > 0 && Transposed([r, c, l], columnMajor, conv, src, dest) && i < r && j < c && k < l
    requires row == (i * c + j) * l + k && col == i + r * (j + c * k)
    ensures row < |dest| && col < |dest| && row < |src| && col < |src|
    ensures if columnMajor then dest[row] == conv(src[col]) else dest[col] == conv(src[row])
  {
    var d, m := [r, c, l], [i, j, k];
    CubePos(r, c, l, i, j, k);
    hide Transposed, Product, RowPos, ColPos, RowIndex, ColIndex;
    assert IsIndex(d, m) && Positive(d);
    OneCarried(d, columnMajor, conv, src, dest, m);
    RowBijection(d, m);
    ColBijection(d, m);
  }

  lemma CubePos(r: nat, c: nat, l: nat, i: nat, j: nat, k: nat)
    ensures RowPos([r, c, l], [i, j, k]) == (i * c + j) * l + k && ColPos([r, c, l], [i, j, k]) == i + r * (j + c * k)
  {
    assert [r, c, l][..2] == [r, c] && [i, j, k][..2] == [i, j];
    MatrixPos(r, c, i, j);
    assert [r, c, l][1..] == [c, l] && [i, j, k][1..] == [j, k];
    MatrixPos(c, l, j, k);
  }

  // ----- the odometer

  /** The list of dimensions ends at its first zero. */
  function Dimensions(a: seq<nat>): (d: seq<nat>)
    ensures Positive(d) && d <= a
  {
    if a == [] || a[0] == 0 then [] else [a[0]] + Dimensions(a[1..])
  }

  lemma {:induction false} DimensionsAre(a: seq<nat>, n: nat)
    requires n < |a| && a[n] == 0 && Positive(a[..n])
    ensures Dimensions(a) == a[..n]
  {
    if n > 0 {
      assert a[1..][..n - 1] == a[..n][1..];
      DimensionsAre(a[1..], n - 1);
    }
  }

  /** Only the index at `cur` may have run over; those after it are zero. */
  ghost predicate Odometer(d: seq<nat>, m: seq<nat>, cur: nat) {
    && |m| == |d| && cur < |d| && m[cur] <= d[cur] && m[|d| - 1] == 0
    && (forall k :: 0 <= k < cur ==> m[k] < d[k])
    && (forall k :: cur < k < |d| ==> m[k] == 0)
  }

  /** Carrying into the next index leaves the position. */
  lemma {:induction false} Carry(d: seq<nat>, m: seq<nat>, cur: nat)
    requires |m| == |d| && 0 < cur < |d| && m[cur] == d[cur]
    ensures RowPos(d, m[cur := 0][cur - 1 := m[cur - 1] + 1]) == RowPos(d, m)
  {
    var k := |d| - 1;
    var c := m[cur := 0][cur - 1 := m[cur - 1] + 1];
    if cur < k {
      assert c[..k] == m[..k][cur := 0][cur - 1 := m[cur - 1] + 1];
      Carry(d[..k], m[..k], cur);
    } else {
      assert c[..k] == m[..k][k - 1 := m[k - 1] + 1];
      Bump(d[..k], m[..k]);
      assert RowPos(d, m) == RowPos(d[..k], m[..k]) * d[k] + d[k];
    }
  }

  lemma Bump(d: seq<nat>, m: seq<nat>)
    requires |m| == |d| > 0
    ensures RowPos(d, m[|d| - 1 := m[|d| - 1] + 1]) == RowPos(d, m) + 1
  {
    var k := |d| - 1;
    assert m[k := m[k] + 1][..k] == m[..k];
  }

  /** Finishing a run along the last dimension. */
  lemma RunDone(d: seq<nat>, m: seq<nat>)
    requires |m| == |d| >= 2 && m[|d| - 1] == 0
    ensures var k := |d| - 1; RowPos(d, m[k - 1 := m[k - 1] + 1]) == RowPos(d, m) + d[k]
  {
    var k := |d| - 1;
    var c := m[k - 1 := m[k - 1] + 1];
    assert c[..k] == m[..k][k - 1 := m[k - 1] + 1];
    Bump(d[..k], m[..k]);
  }

  lemma {:induction false} Zeros(d: seq<nat>, m: seq<nat>)
    requires |m| == |d| && forall k :: 0 <= k < |d| ==> m[k] == 0
    ensures RowPos(d, m) == 0
  {
    if d != [] {
      Zeros(d[..|d| - 1], m[..|d| - 1]);
    }
  }

  /** When the first index has run over, every element has been passed. */
  lemma {:induction false} AllPassed(d: seq<nat>, m: seq<nat>)
    requires |m| == |d| > 0 && m[0] == d[0] && forall k :: 0 < k < |d| ==> m[k] == 0
    ensures RowPos(d, m) == Product(d)
  {
    var k := |d| - 1;
    if k > 0 {
      AllPassed(d[..k], m[..k]);
    } else {
      assert d[..0] == [];
    }
  }

  /** Along a run the row position goes up by 1, the column position by the stride. */
  lemma Run(d: seq<nat>, m: seq<nat>, i: nat)
    requires Positive(d) && IsIndex(d, m) && d != [] && m[|d| - 1] == 0 && i < d[|d| - 1]
    ensures var k := |d| - 1; var r := RowIndex(d, RowPos(d, m) + i);
      && r == m[k := i] && RowPos(d, m) + i < Product(d) && RowPos(d, r) == RowPos(d, m) + i
      && ColPos(d, r) == ColPos(d, m) + Product(d[..k]) * i
  {
    hide Product;
    var k := |d| - 1;
    var r := m[k := i];
    assert IsIndex(d, r);
    assert r[..k] == m[..k];
    RowBijection(d, r);
    ColLast(d, m);
    ColLast(d, r);
  }

  function Target(d: seq<nat>, columnMajor: bool, m: seq<nat>): nat
    requires |m| == |d|
  {
    if columnMajor then RowPos(d, m) else ColPos(d, m)
  }

  lemma TargetsDiffer(d: seq<nat>, columnMajor: bool, p: nat, q: nat)
    requires Positive(d) && p < Product(d) && q < Product(d) && p != q
    ensures Target(d, columnMajor, RowIndex(d, p)) != Target(d, columnMajor, RowIndex(d, q))
    ensures Target(d, columnMajor, RowIndex(d, p)) < Product(d)
  {
    RowInverse(d, p);
    RowInverse(d, q);
    ColBijection(d, RowIndex(d, p));
    ColBijection(d, RowIndex(d, q));
  }

  /** The elements numbered lo to hi in row order have been carried. */
  ghost predicate Filled<T(!new), U(!new)>(d: seq<nat>, columnMajor: bool, conv: T -> U, src: seq<T>, dest: seq<U>, lo: nat, hi: nat)
    requires Positive(d)
  {
    forall p: nat :: lo <= p < hi ==> Carried(d, columnMajor, conv, src, dest, RowIndex(d, p))
  }

  /** Only the targets of elements lo to hi changed. */
  ghost predicate OnlyTargets<U(!new)>(d: seq<nat>, columnMajor: bool, before: seq<U>, after: seq<U>, lo: nat, hi: nat)
    requires Positive(d)
  {
    && |after| == |before|
    && forall q :: 0 <= q < |before| && (forall p: nat :: lo <= p < hi ==> Target(d, columnMajor, RowIndex(d, p)) != q) ==> after[q] == before[q]
  }

  lemma FilledMore<T(!new), U(!new)>(d: seq<nat>, columnMajor: bool, conv: T -> U, src: seq<T>, before: seq<U>, after: seq<U>, lo: nat, hi: nat)
    requires Positive(d) && lo <= hi <= Product(d)
    requires Filled(d, columnMajor, conv, src, before, 0, lo) && OnlyTargets(d, columnMajor, before, after, lo, hi)
    requires Filled(d, columnMajor, conv, src, after, lo, hi)
    ensures Filled(d, columnMajor, conv, src, after, 0, hi)
    ensures forall q :: Product(d) <= q < |before| ==> after[q] == before[q]
  {
    hide Product, RowPos, ColPos, RowIndex;
    forall p: nat | p < lo
      ensures Carried(d, columnMajor, conv, src, after, RowIndex(d, p))
    {
      assert Carried(d, columnMajor, conv, src, before, RowIndex(d, p));
      forall r: nat | lo <= r < hi
        ensures Target(d, columnMajor, RowIndex(d, r)) != Target(d, columnMajor, RowIndex(d, p))
      {
        TargetsDiffer(d, columnMajor, p, r);
      }
    }
    forall q | Product(d) <= q < |before|
      ensures after[q] == before[q]
    {
      forall r: nat | lo <= r < hi
        ensures Target(d, columnMajor, RowIndex(d, r)) != q
      {
        TargetBelow(d, columnMajor, r);
      }
    }
  }

  lemma TargetBelow(d: seq<nat>, columnMajor: bool, p: nat)
    requires Positive(d) && p < Product(d)
    ensures Target(d, columnMajor, RowIndex(d, p)) < Product(d)
  {
    RowInverse(d, p);
    ColBijection(d, RowIndex(d, p));
  }

  lemma FilledAll<T(!new), U(!new)>(d: seq<nat>, columnMajor: bool, conv: T -> U, src: seq<T>, dest: seq<U>)
    requires Positive(d) && Filled(d, columnMajor, conv, src, dest, 0, Product(d)) && Product(d) <= |src| && Product(d) <= |dest|
    ensures Transposed(d, columnMajor, conv, src, dest)
  {
    forall m | IsIndex(d, m)
      ensures Carried(d, columnMajor, conv, src, dest, m)
    {
      RowBijection(d, m);
      assert Carried(d, columnMajor, conv, src, dest, RowIndex(d, RowPos(d, m)));
    }
  }

  /** The moves of n elements from number lo on, in row order: where to, and where from. */
  function Moves(d: seq<nat>, columnMajor: bool, lo: nat, n: nat): seq<(nat, nat)>
    requires Positive(d)
  {
    seq(n, i requires 0 <= i => (Target(d, columnMajor, RowIndex(d, lo + i)), Target(d, !columnMajor, RowIndex(d, lo + i))))
  }

  lemma MovesJoin(d: seq<nat>, columnMajor: bool, lo: nat, n: nat, k: nat)
    requires Positive(d)
    ensures Moves(d, columnMajor, lo, n) + Moves(d, columnMajor, lo + n, k) == Moves(d, columnMajor, lo, n + k)
  {
    hide RowIndex, Target;
  }

  /** A whole list of moves writes every position of the result once and reads every position
      of the source once. */
  lemma MovesOnce(d: seq<nat>, columnMajor: bool, p: nat)
    requires Positive(d) && p < Product(d)
    ensures var all := Moves(d, columnMajor, 0, Product(d));
      && (exists i :: 0 <= i < |all| && all[i].0 == p) && (exists i :: 0 <= i < |all| && all[i].1 == p)
      && forall i, j :: 0 <= i < j < |all| ==> all[i].0 != all[j].0 && all[i].1 != all[j].1
  {
    hide Product, RowIndex, ColIndex, RowPos, ColPos;
    var all := Moves(d, columnMajor, 0, Product(d));
    forall i, j | 0 <= i < j < |all|
      ensures all[i].0 != all[j].0 && all[i].1 != all[j].1
    {
      TargetsDiffer(d, columnMajor, i, j);
      TargetsDiffer(d, !columnMajor, i, j);
    }
    var c := ColIndex(d, p);
    RowInverse(d, p);
    ColInverse(d, p);
    RowBijection(d, c);
    assert all[p] == (Target(d, columnMajor, RowIndex(d, p)), Target(d, !columnMajor, RowIndex(d, p)));
    var q := RowPos(d, c);
    assert all[q] == (Target(d, columnMajor, RowIndex(d, q)), Target(d, !columnMajor, RowIndex(d, q)));
  }

  method CountDimensions(dimens: seq<nat>) returns (n: nat)
    requires 0 in dimens
    ensures n < |dimens| && Dimensions(dimens) == dimens[..n]
  {
    n := 0;
    while dimens[n] != 0
      invariant n < |dimens| && Positive(dimens[..n]) && 0 in dimens[n..]
      decreases |dimens| - n
    {
      assert dimens[n..] == [dimens[n]] + dimens[n + 1..];
      n := n + 1;
    }
    DimensionsAre(dimens, n);
  }

  /** Column and row position of an index whose last component is 0. */
  method Bases(d: seq<nat>, m: seq<nat>) returns (col: nat, row: nat)
    requires 2 <= |d| == |m| && m[|d| - 1] == 0
    ensures col == ColPos(d, m) && row == RowPos(d, m)
  {
    col := m[|d| - 1];
    var i: nat := |d|;
    while i > 0
      invariant i <= |d| && col == ColPos(d[i..], m[i..])
    {
      i := i - 1;
      assert d[i..][1..] == d[i + 1..] && m[i..][1..] == m[i + 1..];
      col := col * d[i] + m[i];
    }
    assert d[0..] == d && m[0..] == m;
    row := m[0];
    assert d[..1][..0] == [] && m[..1][..0] == [];
    i := 1;
    while i < |d|
      invariant 1 <= i <= |d| && row == RowPos(d[..i], m[..i])
    {
      assert d[..i + 1][..i] == d[..i] && m[..i + 1][..i] == m[..i];
      row := row * d[i] + m[i];
      i := i + 1;
    }
    assert d[..|d|] == d && m[..|d|] == m;
  }

  /** Convert the elements of one run along the last dimension. */
  method MoveRun<T(!new), U(!new)>(d: seq<nat>, m: seq<nat>, src: seq<T>, dest: array<U>, columnMajor: bool, conv: T -> U, jump: nat) returns (moves: seq<(nat, nat)>)
    requires Positive(d) && 2 <= |d| && IsIndex(d, m) && m[|d| - 1] == 0 && jump == Product(d[..|d| - 1])
    requires Product(d) <= |src| && Product(d) <= dest.Length
    modifies dest
    ensures var lo := RowPos(d, m); var hi := lo + d[|d| - 1];
      && hi <= Product(d) && moves == Moves(d, columnMajor, lo, d[|d| - 1]) && Filled(d, columnMajor, conv, src, dest[..], lo, hi)
      && OnlyTargets(d, columnMajor, old(dest[..]), dest[..], lo, hi)
  {
    hide Product, RowIndex, ColIndex, RowPos, ColPos;
    var col, row := Bases(d, m);
    var to, from := if columnMajor then row else col, if columnMajor then col else row;
    ghost var lo := RowPos(d, m);
    var last := d[|d| - 1];
    Run(d, m, last - 1);
    moves := [];
    var i: nat := 0;
    while i < last
      invariant moves == Moves(d, columnMajor, lo, i)
      invariant i <= last && OnlyTargets(d, columnMajor, old(dest[..]), dest[..], lo, lo + i)
      invariant Filled(d, columnMajor, conv, src, dest[..], lo, lo + i)
      invariant to == (if columnMajor then RowPos(d, m) + i else ColPos(d, m) + jump * i)
      invariant from == (if columnMajor then ColPos(d, m) + jump * i else RowPos(d, m) + i)
    {
      Run(d, m, i);
      TargetBelow(d, columnMajor, lo + i);
      SourceBelow(d, columnMajor, lo + i);
      ghost var before := dest[..];
      dest[to] := conv(src[from]);
      moves := moves + [(to, from)];
      StepRun(d, columnMajor, conv, src, old(dest[..]), before, dest[..], lo, lo + i);
      MulStep(jump, i);
      if columnMajor {
        to := to + 1;
        from := from + jump;
      } else {
        to := to + jump;
        from := from + 1;
      }
      i := i + 1;
    }
  }

  lemma MulStep(j: nat, i: nat)
    ensures j * (i + 1) == j * i + j
  {
  }

  lemma SourceBelow(d: seq<nat>, columnMajor: bool, p: nat)
    requires Positive(d) && p < Product(d)
    ensures Target(d, !columnMajor, RowIndex(d, p)) < Product(d)
  {
    TargetBelow(d, !columnMajor, p);
  }

  lemma StepRun<T(!new), U(!new)>(d: seq<nat>, columnMajor: bool, conv: T -> U, src: seq<T>, first: seq<U>, before: seq<U>, after: seq<U>, lo: nat, p: nat)
    requires Positive(d) && lo <= p < Product(d) <= |src| && Product(d) <= |before|
    requires Filled(d, columnMajor, conv, src, before, lo, p) && OnlyTargets(d, columnMajor, first, before, lo, p)
    requires var m := RowIndex(d, p); var to, from := Target(d, columnMajor, m), Target(d, !columnMajor, m);
      to < |before| && from < |src| && after == before[to := conv(src[from])]
    ensures Filled(d, columnMajor, conv, src, after, lo, p + 1) && OnlyTargets(d, columnMajor, first, after, lo, p + 1)
  {
    hide Product, RowIndex, RowPos, ColPos;
    forall q: nat | lo <= q < p + 1
      ensures Carried(d, columnMajor, conv, src, after, RowIndex(d, q))
    {
      if q < p {
        assert Carried(d, columnMajor, conv, src, before, RowIndex(d, q));
        TargetsDiffer(d, columnMajor, q, p);
      }
    }
    forall q | 0 <= q < |first| && forall r: nat :: lo <= r < p + 1 ==> Target(d, columnMajor, RowIndex(d, r)) != q
      ensures after[q] == first[q]
    {
      assert Target(d, columnMajor, RowIndex(d, p)) != q;
    }
  }

  // ----- the three moves of the odometer

  lemma Turned(d: seq<nat>, m: seq<nat>)
    requires Positive(d) && |d| >= 2 && Odometer(d, m, |d| - 1)
    ensures IsIndex(d, m) && m[|d| - 1] == 0
    ensures var c := m[|d| - 2 := m[|d| - 2] + 1];
      Odometer(d, c, |d| - 2) && RowPos(d, c) == RowPos(d, m) + d[|d| - 1]
  {
    hide RowPos;
    RunDone(d, m);
  }

  lemma Overflowed(d: seq<nat>, m: seq<nat>, cur: nat)
    requires Odometer(d, m, cur) && m[cur] == d[cur] && cur < |d| - 1 && m[0] < d[0]
    ensures cur > 0
    ensures var c := m[cur := 0][cur - 1 := m[cur - 1] + 1];
      Odometer(d, c, cur - 1) && RowPos(d, c) == RowPos(d, m)
  {
    hide RowPos;
    Carry(d, m, cur);
  }

  lemma Deeper(d: seq<nat>, m: seq<nat>, cur: nat)
    requires Positive(d) && Odometer(d, m, cur) && m[cur] != d[cur] && cur < |d| - 1
    ensures Odometer(d, m, cur + 1) && m[cur + 1] != d[cur + 1]
  {
  }

  lemma Finished(d: seq<nat>, m: seq<nat>, cur: nat)
    requires Odometer(d, m, cur) && m[0] >= d[0]
    ensures RowPos(d, m) == Product(d)
  {
    hide RowPos, Product;
    assert cur == 0;
    AllPassed(d, m);
  }

  method Stride(d: seq<nat>) returns (jump: nat)
    requires d != []
    ensures jump == Product(d[..|d| - 1])
  {
    jump := 1;
    for i := 0 to |d| - 1
      invariant jump == Product(d[..i])
    {
      assert d[..i + 1][..i] == d[..i];
      jump := jump * d[i];
    }
  }

  /** Main result. For two or more dimensions every element is moved and converted, once
      each; with fewer dimensions, or elements of a type that cannot be converted, nothing is. */
  method TransposeArray<T(!new), U(!new)>(dimens: seq<nat>, src: seq<T>, dest: array<U>, columnMajor: bool, convertible: bool, conv: T -> U) returns (moves: seq<(nat, nat)>)
    requires 0 in dimens
    requires |Dimensions(dimens)| >= 2 ==> Product(Dimensions(dimens)) <= |src| && Product(Dimensions(dimens)) <= dest.Length
    modifies dest
    ensures var d := Dimensions(dimens);
      if |d| <= 1 || !convertible then dest[..] == old(dest[..]) && moves == []
      else
        && Transposed(d, columnMajor, conv, src, dest[..])
        && (forall q :: Product(d) <= q < dest.Length ==> dest[q] == old(dest[q]))
        && moves == Moves(d, columnMajor, 0, Product(d))
  {
    hide Product, RowIndex, ColIndex, RowPos, ColPos, Filled, OnlyTargets, Transposed, Odometer, IsIndex, Positive, Moves;
    moves := [];
    var n := CountDimensions(dimens);
    if n <= 1 { return; }
    var d := dimens[..n];
    var index := new nat[n](_ => 0);
    var cur: int := 0;
    var jump := Stride(d);
    AtStart(d, index[..], conv, src, dest[..], columnMajor);
    ghost var before := dest[..];
    while index[0] < d[0]
      invariant 0 <= cur < n && Odometer(d, index[..], cur)
      invariant moves == Moves(d, columnMajor, 0, RowPos(d, index[..])) && RowPos(d, index[..]) <= Product(d)
      invariant convertible || (dest[..] == before && moves == [])
      invariant Filled(d, columnMajor, conv, src, dest[..], 0, RowPos(d, index[..]))
      invariant forall q :: Product(d) <= q < dest.Length ==> dest[q] == before[q]
      decreases Product(d) - RowPos(d, index[..]), if index[cur] == d[cur] then n + cur + 1 else n - cur
    {
      var m := index[..];
      if cur == n - 1 {
        if !convertible { return; }
        ghost var was := dest[..];
        Turned(d, m);
        var run := MoveRun(d, m, src, dest, columnMajor, conv, jump);
        FilledMore(d, columnMajor, conv, src, was, dest[..], RowPos(d, m), RowPos(d, m) + d[n - 1]);
        MovesJoin(d, columnMajor, 0, RowPos(d, m), d[n - 1]);
        moves := moves + run;
        cur := cur - 1;
        index[cur] := index[cur] + 1;
        assert index[..] == m[n - 2 := m[n - 2] + 1];
        LastPositive(d);
      } else if index[cur] == d[cur] {
        Overflowed(d, m, cur);
        index[cur] := 0;
        cur := cur - 1;
        index[cur] := index[cur] + 1;
        assert index[..] == m[cur + 1 := 0][cur := m[cur] + 1];
      } else {
        Deeper(d, m, cur);
        cur := cur + 1;
      }
    }
    Finished(d, index[..], cur);
    FilledAll(d, columnMajor, conv, src, dest[..]);
  }

  lemma LastPositive(d: seq<nat>)
    requires Positive(d) && d != []
    ensures d[|d| - 1] > 0
  {
  }

  lemma AtStart<T(!new), U(!new)>(d: seq<nat>, m: seq<nat>, conv: T -> U, src: seq<T>, dest: seq<U>, columnMajor: bool)
    requires Positive(d) && d != [] && |m| == |d| && forall k :: 0 <= k < |m| ==> m[k] == 0
    ensures Odometer(d, m, 0) && RowPos(d, m) == 0 && Filled(d, columnMajor, conv, src, dest, 0, 0) && Moves(d, columnMajor, 0, 0) == []
  {
    Zeros(d, m);
  }
}
