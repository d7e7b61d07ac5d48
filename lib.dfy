/** The crate root: the dimension count and the neighbour stencil. */
module Lib {
  import Vector

  /** `DIMS`: the lattice is two-dimensional. */
  const DIMS: nat := 2

  /**
   * `stencil::<DIMS>()`: for every axis a pair of unit offsets, +1 and then -1 along
   * that axis and 0 elsewhere. Built in a local table, one axis per loop iteration.
   */
  method Stencil(dims: nat) returns (stencil: seq<seq<seq<int>>>)
    ensures |stencil| == dims
    ensures forall a :: 0 <= a < dims ==>
      |stencil[a]| == 2 && |stencil[a][0]| == dims && |stencil[a][1]| == dims
    ensures forall a, e :: 0 <= a < dims && 0 <= e < dims ==>
      stencil[a][0][e] == (if e == a then 1 else 0)
    ensures forall a, e :: 0 <= a < dims && 0 <= e < dims ==>
      stencil[a][1][e] == (if e == a then -1 else 0)
    ensures forall a :: 0 <= a < dims ==>
      Vector.Add(stencil[a][0], stencil[a][1]) == Vector.Broadcast(dims, 0)
  {
    var table := new seq<int>[dims, 2]((_, _) => Vector.Broadcast(dims, 0));
    var i := 0;
    while i < dims
      invariant 0 <= i <= dims
      invariant forall a, t :: 0 <= a < dims && 0 <= t < 2 ==> |table[a, t]| == dims
      invariant forall a, e :: 0 <= a < i && 0 <= e < dims ==>
        table[a, 0][e] == (if e == a then 1 else 0) && table[a, 1][e] == (if e == a then -1 else 0)
      invariant forall a, e :: i <= a < dims && 0 <= e < dims ==>
        table[a, 0][e] == 0 && table[a, 1][e] == 0
    {
      table[i, 0] := table[i, 0][i := 1];
      table[i, 1] := table[i, 1][i := -1];
      i := i + 1;
    }
    stencil := seq(dims, a requires 0 <= a < dims reads table => [table[a, 0], table[a, 1]]);
    forall a | 0 <= a < dims
      ensures Vector.Add(stencil[a][0], stencil[a][1]) == Vector.Broadcast(dims, 0)
    {
      assert forall e :: 0 <= e < dims ==> Vector.Add(stencil[a][0], stencil[a][1])[e] == 0;
    }
  }

  /** `STENCIL`: the stencil for `DIMS = 2`, the four von Neumann neighbour offsets. */
  method StencilConstant() returns (stencil: seq<seq<seq<int>>>)
    ensures stencil == [[[1, 0], [-1, 0]], [[0, 1], [0, -1]]]
  {
    stencil := Stencil(DIMS);
    assert stencil[0][0] == [1, 0] && stencil[0][1] == [-1, 0];
    assert stencil[1][0] == [0, 1] && stencil[1][1] == [0, -1];
    assert stencil[0] == [[1, 0], [-1, 0]];
    assert stencil[1] == [[0, 1], [0, -1]];
  }
}
