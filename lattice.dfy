/**
 * Lattice indexing from `src/simulator.rs`: the bounds check `filter_indices` and the
 * conversions `index` / `deindex` between a D-dimensional coordinate vector and the
 * flat row-major offset into a SIZE^D lattice (last axis fastest). The dimension count
 * D of the crate's `Vector` type is the length of the coordinate vector here.
 */
module Lattice {
  import opened Wrappers
  import Vector

  /** `usize::pow` without overflow; `0^0 == 1` as in Rust. */
  function Pow(b: nat, e: nat): (r: nat)
    ensures r > 0 <==> b > 0 || e == 0
  {
    if e == 0 then 1 else b * Pow(b, e - 1)
  }

  /** The stride vector `from_idx(|i| SIZE.pow(DIMS - 1 - i))`. */
  function Strides(size: nat, dims: nat): (r: seq<nat>)
    ensures |r| == dims
    ensures forall i :: 0 <= i < dims ==> r[i] == Pow(size, dims - 1 - i)
    ensures dims > 0 ==> r[dims - 1] == 1
    ensures forall i :: 0 <= i < dims - 1 ==> r[i] == size * r[i + 1]
  {
    Vector.FromIdx(dims, i requires i < dims => Pow(size, dims - 1 - i))
  }

  /** Every component of `c` lies in `[0, size)`. */
  predicate InRange(size: nat, c: seq<int>)
  {
    forall i :: 0 <= i < |c| ==> 0 <= c[i] < size
  }

  /**
   * `filter_indices`: the coordinates as unsigned values when every one is in range,
   * `None` otherwise.
   */
  function FilterIndices(size: nat, indices: seq<int>): (r: Option<seq<nat>>)
    ensures r.Some? <==> InRange(size, indices)
    ensures r.Some? ==> |r.value| == |indices|
    ensures r.Some? ==> forall i :: 0 <= i < |indices| ==> r.value[i] == indices[i]
  {
    if Vector.All(Vector.Map(indices, (x: int) => 0 <= x < size)) then
      Some(Vector.Map(indices, (x: int) requires 0 <= x => x as nat))
    else
      None
  }

  /** `index`: the flat offset `sum(c[i] * SIZE^(D-1-i))` of an in-range coordinate. */
  function Index(size: nat, indices: seq<int>): (r: Option<nat>)
    ensures r.None? <==> exists i :: 0 <= i < |indices| && (indices[i] < 0 || indices[i] >= size)
  {
    match FilterIndices(size, indices)
    case Some(u) => Some(Vector.Sum(Vector.Mul(u, Strides(size, |indices|))))
    case None => None
  }

  /**
   * `deindex`: for `k` in `[0, SIZE^D)` the coordinate whose component `i` is digit `i`
   * of `k` written in base SIZE with D digits, most significant first.
   */
  function Deindex(size: nat, dims: nat, k: int): (r: Option<seq<nat>>)
    ensures r.None? <==> k < 0 || k >= Pow(size, dims)
    ensures r.Some? ==> |r.value| == dims
    ensures r.Some? ==> size > 0 || dims == 0
    ensures r.Some? ==> forall i :: 0 <= i < dims ==> r.value[i] == (k / Pow(size, dims - 1 - i)) % size
  {
    if 0 <= k < Pow(size, dims) then
      Some(Vector.Mod(Vector.Div(Vector.Broadcast(dims, k as nat), Strides(size, dims)),
                      Vector.Broadcast(dims, size)))
    else
      None
  }

  /**
   * Reference layout: the position of cell `c` in nested arrays `[[_; SIZE]; SIZE]...`,
   * i.e. the offset of the prefix scaled by SIZE plus the last coordinate.
   */
  function RowMajor(size: nat, c: seq<int>): int
  {
    if |c| == 0 then 0 else RowMajor(size, c[..|c| - 1]) * size + c[|c| - 1]
  }

  // ---- arithmetic helpers ----

  lemma MulLeq(a: int, b: int, c: int)
    requires a <= b && c >= 0
    ensures a * c <= b * c
  {
  }

  lemma DivModUnique(a: int, m: int, q: int, r: int)
    requires m > 0 && 0 <= r < m && a == q * m + r
    ensures a / m == q && a % m == r
  {
    var q', r' := a / m, a % m;
    assert a == q' * m + r';
    if q' < q {
      MulLeq(q' + 1, q, m);
      assert false;
    } else if q < q' {
      MulLeq(q + 1, q', m);
      assert false;
    }
  }

  lemma DivDiv(a: nat, b: nat, c: nat)
    requires b > 0 && c > 0
    ensures a / (b * c) == (a / b) / c
  {
    var q1, r1 := a / b, a % b;
    var q2, r2 := q1 / c, q1 % c;
    assert a == (q2 * c + r2) * b + r1;
    assert a == q2 * (b * c) + (r2 * b + r1);
    MulLeq(r2, c - 1, b);
    DivModUnique(a, b * c, q2, r2 * b + r1);
  }

  lemma PowStep(b: nat, e: nat)
    ensures Pow(b, e + 1) == Pow(b, e) * b
  {
  }

  // ---- properties ----

  /** The strided sum that `index` computes is the nested-array offset. */
  lemma {:induction false} StridedSumIsRowMajor(size: nat, u: seq<nat>)
    ensures Vector.Sum(Vector.Mul(u, Strides(size, |u|))) == RowMajor(size, u)
  {
    var n := |u|;
    if n > 0 {
      var m := Vector.Mul(u, Strides(size, n));
      var u' := u[..n - 1];
      var m' := Vector.Mul(u', Strides(size, n - 1));
      StridesPeel(size, u);
      SumScale(m[..n - 1], m', size);
      StridedSumIsRowMajor(size, u');
      assert Vector.Sum(m) == Vector.Sum(m[..n - 1]) + m[n - 1];
    }
  }

  /** Without its last axis, the strided product is SIZE times the product one dimension down. */
  lemma StridesPeel(size: nat, u: seq<nat>)
    requires |u| > 0
    ensures Vector.Mul(u, Strides(size, |u|))[|u| - 1] == u[|u| - 1]
    ensures forall i :: 0 <= i < |u| - 1 ==>
      Vector.Mul(u, Strides(size, |u|))[i] == size * Vector.Mul(u[..|u| - 1], Strides(size, |u| - 1))[i]
  {
    var n := |u|;
    var m := Vector.Mul(u, Strides(size, n));
    var m' := Vector.Mul(u[..n - 1], Strides(size, n - 1));
    assert m[n - 1] == u[n - 1] * Pow(size, 0);
    forall i | 0 <= i < n - 1
      ensures m[i] == size * m'[i]
    {
      var p := Pow(size, n - 2 - i);
      assert Pow(size, n - 1 - i) == size * p;
      assert m'[i] == u[i] * p;
      MulComm3(u[i], size, p);
    }
  }

  lemma MulComm3(a: int, b: int, c: int)
    ensures a * (b * c) == b * (a * c)
  {
  }

  lemma {:induction false} SumScale(a: seq<nat>, b: seq<nat>, s: nat)
    requires |a| == |b|
    requires forall i :: 0 <= i < |a| ==> a[i] == s * b[i]
    ensures Vector.Sum(a) == s * Vector.Sum(b)
  {
    if |a| > 0 {
      SumScale(a[..|a| - 1], b[..|b| - 1], s);
    }
  }

  /** An in-range coordinate has a flat offset below SIZE^D. */
  lemma {:induction false} RowMajorBound(size: nat, c: seq<int>)
    requires InRange(size, c)
    ensures 0 <= RowMajor(size, c) < Pow(size, |c|)
  {
    if |c| > 0 {
      var n := |c| - 1;
      var c' := c[..n];
      assert InRange(size, c');
      RowMajorBound(size, c');
      assert RowMajor(size, c) == RowMajor(size, c') * size + c[n];
      DigitBound(RowMajor(size, c'), Pow(size, n), c[n], size);
      PowStep(size, n);
    }
  }

  /** Appending a digit below `m` to an offset below `p` gives an offset below `p * m`. */
  lemma DigitBound(q: int, p: int, r: int, m: int)
    requires 0 <= q < p && 0 <= r < m
    ensures 0 <= q * m + r < p * m
  {
    MulLeq(0, q, m);
    MulLeq(q, p - 1, m);
  }

  /**
   * For an in-range coordinate `index` succeeds with the row-major offset, and that
   * offset lies in `[0, SIZE^D)`.
   */
  lemma IndexIsRowMajor(size: nat, c: seq<int>)
    requires InRange(size, c)
    ensures Index(size, c).Some?
    ensures Index(size, c).value == RowMajor(size, c)
    ensures Index(size, c).value < Pow(size, |c|)
  {
    var u := FilterIndices(size, c).value;
    assert u == c;
    StridedSumIsRowMajor(size, u);
    RowMajorBound(size, c);
  }

  /** Peeling the last digit: `deindex` in D+1 digits is `deindex(k / SIZE)` in D digits, then `k % SIZE`. */
  lemma DeindexStep(size: nat, d: nat, k: int)
    requires size > 0 && 0 <= k < Pow(size, d + 1)
    ensures 0 <= k / size < Pow(size, d)
    ensures Deindex(size, d + 1, k).value == Deindex(size, d, k / size).value + [k % size]
  {
    var q := k / size;
    PowStep(size, d);
    QuotientBound(k, size, Pow(size, d));
    var lhs := Deindex(size, d + 1, k).value;
    var rhs := Deindex(size, d, q).value + [k % size];
    forall i | 0 <= i < d + 1
      ensures lhs[i] == rhs[i]
    {
      if i < d {
        DeindexDigit(size, d, k, i);
      } else {
        assert lhs[i] == (k / Pow(size, 0)) % size;
      }
    }
  }

  /** Dropping the last digit of an offset below `p * m` leaves one below `p`. */
  lemma QuotientBound(k: int, m: int, p: int)
    requires m > 0 && 0 <= k < p * m
    ensures 0 <= k / m < p
  {
    DivModSplit(k, m);
    if k / m >= p {
      MulLeq(p, k / m, m);
    }
  }

  /** Digit `i < d` of `k` in d+1 digits is digit `i` of `k / size` in d digits. */
  lemma DeindexDigit(size: nat, d: nat, k: int, i: nat)
    requires size > 0 && 0 <= k < Pow(size, d + 1) && 0 <= k / size < Pow(size, d) && i < d
    ensures Deindex(size, d + 1, k).value[i] == Deindex(size, d, k / size).value[i]
  {
    var p := Pow(size, d - 1 - i);
    assert Pow(size, d - i) == size * p;
    DivDiv(k, size, p);
    assert Deindex(size, d + 1, k).value[i] == (k / (size * p)) % size;
    assert Deindex(size, d, k / size).value[i] == ((k / size) / p) % size;
  }

  /** Round trip: `deindex(index(c)) == Some(c)` for every in-range coordinate. */
  lemma {:induction false} DeindexIndex(size: nat, c: seq<int>)
    requires InRange(size, c)
    ensures Index(size, c).Some?
    ensures Deindex(size, |c|, Index(size, c).value).Some?
    ensures Deindex(size, |c|, Index(size, c).value).value == c
  {
    IndexIsRowMajor(size, c);
    DeindexRowMajor(size, c);
  }

  /** `deindex` recovers every in-range coordinate from its row-major offset. */
  lemma {:induction false} DeindexRowMajor(size: nat, c: seq<int>)
    requires InRange(size, c)
    ensures Deindex(size, |c|, RowMajor(size, c)) == Some(c)
  {
    RowMajorBound(size, c);
    if |c| > 0 {
      var n := |c| - 1;
      var c' := c[..n];
      assert InRange(size, c');
      var k := RowMajor(size, c);
      var k' := RowMajor(size, c');
      assert k == k' * size + c[n];
      DivModUnique(k, size, k', c[n]);
      assert k / size == k' && k % size == c[n];
      DeindexStep(size, n, k);
      DeindexRowMajor(size, c');
      assert Deindex(size, n + 1, k).value == c' + [c[n]];
      assert c == c' + [c[n]];
    }
  }

  /** Round trip: `index(deindex(k)) == Some(k)` for every `k` in `[0, SIZE^D)`. */
  lemma {:induction false} IndexDeindex(size: nat, dims: nat, k: int)
    requires 0 <= k < Pow(size, dims)
    ensures Deindex(size, dims, k).Some?
    ensures Index(size, Deindex(size, dims, k).value) == Some(k)
  {
    var c := Deindex(size, dims, k).value;
    assert InRange(size, c);
    IndexIsRowMajor(size, c);
    RowMajorOfDeindex(size, dims, k);
  }

  /** The digits `deindex` produces spell `k` back in the row-major layout. */
  lemma {:induction false} RowMajorOfDeindex(size: nat, dims: nat, k: int)
    requires 0 <= k < Pow(size, dims)
    ensures RowMajor(size, Deindex(size, dims, k).value) == k
  {
    if dims > 0 {
      var c := Deindex(size, dims, k).value;
      var q := k / size;
      DeindexStep(size, dims - 1, k);
      var c' := Deindex(size, dims - 1, q).value;
      RowMajorOfDeindex(size, dims - 1, q);
      RowMajorSnoc(size, c', k % size);
      DivModSplit(k, size);
    }
  }

  lemma RowMajorSnoc(size: nat, c: seq<int>, x: int)
    ensures RowMajor(size, c + [x]) == RowMajor(size, c) * size + x
  {
    assert (c + [x])[..|c|] == c;
  }

  lemma DivModSplit(k: int, m: int)
    requires m > 0
    ensures k == (k / m) * m + k % m
  {
  }

  /** In two dimensions `index([i, j])` is the offset `i * SIZE + j` of `grid[i][j]`. */
  lemma Index2(size: nat, i: int, j: int)
    requires 0 <= i < size && 0 <= j < size
    ensures Index(size, [i, j]) == Some(i * size + j)
  {
    IndexIsRowMajor(size, [i, j]);
    RowMajorSnoc(size, [], i);
    RowMajorSnoc(size, [i], j);
    assert [] + [i] == [i] && [i] + [j] == [i, j];
  }

  /** In three dimensions `index([i, j, l])` is `(i * SIZE + j) * SIZE + l`. */
  lemma Index3(size: nat, i: int, j: int, l: int)
    requires 0 <= i < size && 0 <= j < size && 0 <= l < size
    ensures Index(size, [i, j, l]) == Some((i * size + j) * size + l)
  {
    RowMajorSnoc(size, [], i);
    assert [] + [i] == [i];
    assert RowMajor(size, [i]) == i;
    RowMajorSnoc(size, [i], j);
    assert [i] + [j] == [i, j];
    assert RowMajor(size, [i, j]) == i * size + j;
    RowMajorSnoc(size, [i, j], l);
    assert [i, j] + [l] == [i, j, l];
    assert RowMajor(size, [i, j, l]) == (i * size + j) * size + l;
    IndexIsRowMajor(size, [i, j, l]);
  }

  /** One coordinate out of range is enough for `index` to fail. */
  lemma IndexRejects(size: nat, c: seq<int>, i: nat)
    requires i < |c| && (c[i] < 0 || c[i] >= size)
    ensures Index(size, c).None?
  {
  }

  /** The two-dimensional in-range examples of the crate's `test_index`. */
  lemma IndexExamples2()
    ensures Index(100, [2, 10]) == Some(210)
    ensures Index(10, [9, 9]) == Some(99) && Index(10, [0, 0]) == Some(0)
  {
    Index2(100, 2, 10);
    Index2(10, 9, 9);
    Index2(10, 0, 0);
  }

  /** The two-dimensional out-of-range examples of the crate's `test_index`. */
  lemma IndexRejections2()
    ensures Index(10, [2, 10]).None? && Index(10, [10, 2]).None?
    ensures Index(10, [-1, 2]).None? && Index(10, [2, -1]).None? && Index(10, [-1, -1]).None?
  {
    IndexRejects(10, [2, 10], 1);
    IndexRejects(10, [10, 2], 0);
    IndexRejects(10, [-1, 2], 0);
    IndexRejects(10, [2, -1], 1);
    IndexRejects(10, [-1, -1], 0);
  }

  /** The three-dimensional in-range examples of the crate's `test_index`. */
  lemma IndexExamples3()
    ensures Index(100, [2, 10, 5]) == Some(21005)
    ensures Index(10, [9, 9, 9]) == Some(999) && Index(10, [0, 0, 0]) == Some(0)
  {
    Index3(100, 2, 10, 5);
    Index3(10, 9, 9, 9);
    Index3(10, 0, 0, 0);
  }

  /** The three-dimensional out-of-range examples of the crate's `test_index`. */
  lemma IndexRejections3()
    ensures Index(10, [2, 10, 2]).None? && Index(10, [10, 2, 2]).None?
    ensures Index(10, [-1, 2, 2]).None? && Index(10, [2, -1, 2]).None? && Index(10, [-1, 2, -1]).None?
  {
    IndexRejects(10, [2, 10, 2], 1);
    IndexRejects(10, [10, 2, 2], 0);
    IndexRejects(10, [-1, 2, 2], 0);
    IndexRejects(10, [2, -1, 2], 1);
    IndexRejects(10, [-1, 2, -1], 0);
  }

  /** In two dimensions `deindex(k)` is `[(k / SIZE) % SIZE, k % SIZE]`. */
  lemma Deindex2(size: nat, k: int)
    requires 0 <= k < size * size
    ensures Deindex(size, 2, k) == Some([(k / size) % size, k % size])
  {
    PowSmall(size);
    var c := Deindex(size, 2, k).value;
    assert c[0] == (k / Pow(size, 1)) % size;
    assert c[1] == (k / Pow(size, 0)) % size;
    assert c == [(k / size) % size, k % size];
  }

  /** In three dimensions `deindex(k)` is `[(k / SIZE^2) % SIZE, (k / SIZE) % SIZE, k % SIZE]`. */
  lemma Deindex3(size: nat, k: int)
    requires 0 <= k < size * size * size
    ensures Deindex(size, 3, k) == Some([(k / (size * size)) % size, (k / size) % size, k % size])
  {
    PowSmall(size);
    var c := Deindex(size, 3, k).value;
    assert c[0] == (k / Pow(size, 2)) % size;
    assert c[1] == (k / Pow(size, 1)) % size;
    assert c[2] == (k / Pow(size, 0)) % size;
    assert c == [(k / (size * size)) % size, (k / size) % size, k % size];
  }

  lemma PowSmall(b: nat)
    ensures Pow(b, 0) == 1 && Pow(b, 1) == b && Pow(b, 2) == b * b && Pow(b, 3) == b * b * b
  {
    assert Pow(b, 1) == b * Pow(b, 0);
    assert Pow(b, 2) == b * Pow(b, 1);
    assert Pow(b, 3) == b * Pow(b, 2);
  }

  /** The examples of the crate's `test_deindex`. */
  lemma DeindexExamples()
    ensures Deindex(100, 2, 210) == Some([2, 10])
    ensures Deindex(10, 2, 99) == Some([9, 9]) && Deindex(10, 2, 0) == Some([0, 0])
    ensures Deindex(5, 3, 99) == Some([3, 4, 4])
    ensures Deindex(100, 2, 10000).None? && Deindex(100, 2, -1).None?
    ensures Deindex(100, 3, 1000000).None? && Deindex(100, 3, -1).None?
  {
    Deindex2(100, 210);
    Deindex2(10, 99);
    Deindex2(10, 0);
    Deindex3(5, 99);
    assert Pow(100, 2) == 10000;
    assert Pow(100, 3) == 1000000;
  }
}
