/**
 * The simulation engine of `src/simulator.rs`: the builder, the state of a SIZE x SIZE
 * lattice of point masses, and the force pass that recomputes every cell's acceleration
 * from the positions through springs to the origin and to the in-bounds neighbours.
 */
module Simulator {
  import opened Wrappers
  import Vector
  import Lib
  import Lattice

  /** A physical vector `Vector<T, DIMS>`, with `real` components. */
  type Vec = v: seq<real> | |v| == Lib.DIMS witness [0.0, 0.0]

  // ---------------------------------------------------------------- builder

  /** `SimulationBuilder`: the two optional spring coefficients. */
  datatype SimulationBuilder = SimulationBuilder(stiffness: Option<real>, originStiffness: Option<real>)
  {
    /** `stiffness(v)`: records the neighbour coupling, replacing any earlier value. */
    function Stiffness(value: real): (b: SimulationBuilder)
      ensures b.stiffness == Some(value)
      ensures b.originStiffness == originStiffness
    {
      this.(stiffness := Some(value))
    }

    /** `origin_stiffness(v)`: records the pull to the origin, replacing any earlier value. */
    function OriginStiffness(value: real): (b: SimulationBuilder)
      ensures b.originStiffness == Some(value)
      ensures b.stiffness == stiffness
    {
      this.(originStiffness := Some(value))
    }

    /** The neighbour coupling `finish` uses: the recorded value, else 1. */
    function FinalStiffness(): (k: real)
      ensures stiffness.Some? ==> k == stiffness.value
      ensures stiffness.None? ==> k == 1.0
    {
      stiffness.GetOr(1.0)
    }

    /** The origin coupling `finish` uses: the recorded value, else 1. */
    function FinalOriginStiffness(): (k: real)
      ensures originStiffness.Some? ==> k == originStiffness.value
      ensures originStiffness.None? ==> k == 1.0
    {
      originStiffness.GetOr(1.0)
    }

    /**
     * `finish`: a simulation of side `size` with the resolved coefficients and every
     * grid zero-filled.
     */
    method Finish(size: nat) returns (sim: Simulation)
      ensures fresh(sim) && sim.Valid() && sim.size == size
      ensures sim.state.stiffness == FinalStiffness()
      ensures sim.state.originStiffness == FinalOriginStiffness()
      ensures fresh(sim.state.pos) && fresh(sim.state.vel) && fresh(sim.state.acc) && fresh(sim.tmpAcc)
      ensures AllZero(sim.state.pos) && AllZero(sim.state.vel)
      ensures AllZero(sim.state.acc) && AllZero(sim.tmpAcc)
    {
      sim := new Simulation(size, FinalStiffness(), FinalOriginStiffness());
    }
  }

  /** One setter call in a chain `build().stiffness(..).origin_stiffness(..)...`. */
  datatype Setting = SetStiffness(value: real) | SetOriginStiffness(value: real)

  /** The builder after the chain of calls `calls`, applied first to last. */
  function Configure(b: SimulationBuilder, calls: seq<Setting>): SimulationBuilder
    decreases |calls|
  {
    if |calls| == 0 then b
    else
      var next := match calls[0]
        case SetStiffness(v) => b.Stiffness(v)
        case SetOriginStiffness(v) => b.OriginStiffness(v);
      Configure(next, calls[1..])
  }

  /** The value of the last `stiffness` call in `calls`, if any. */
  function LastStiffness(calls: seq<Setting>): Option<real>
  {
    if |calls| == 0 then None
    else if LastStiffness(calls[1..]).Some? then LastStiffness(calls[1..])
    else if calls[0].SetStiffness? then Some(calls[0].value)
    else None
  }

  /** The value of the last `origin_stiffness` call in `calls`, if any. */
  function LastOriginStiffness(calls: seq<Setting>): Option<real>
  {
    if |calls| == 0 then None
    else if LastOriginStiffness(calls[1..]).Some? then LastOriginStiffness(calls[1..])
    else if calls[0].SetOriginStiffness? then Some(calls[0].value)
    else None
  }

  /** Last write wins: a chain of setters leaves each field at its last recorded value. */
  lemma {:induction false} LastWriteWins(b: SimulationBuilder, calls: seq<Setting>)
    ensures Configure(b, calls).stiffness ==
      (if LastStiffness(calls).Some? then LastStiffness(calls) else b.stiffness)
    ensures Configure(b, calls).originStiffness ==
      (if LastOriginStiffness(calls).Some? then LastOriginStiffness(calls) else b.originStiffness)
    decreases |calls|
  {
    if |calls| > 0 {
      var next := match calls[0]
        case SetStiffness(v) => b.Stiffness(v)
        case SetOriginStiffness(v) => b.OriginStiffness(v);
      LastWriteWins(next, calls[1..]);
    }
  }

  /**
   * A chain started from `build()` finishes with the last value set for each
   * coefficient, or 1 for a coefficient never set.
   */
  lemma ChainDefaults(calls: seq<Setting>)
    ensures Configure(Simulation.Build(), calls).FinalStiffness() == LastStiffness(calls).GetOr(1.0)
    ensures Configure(Simulation.Build(), calls).FinalOriginStiffness() == LastOriginStiffness(calls).GetOr(1.0)
  {
    LastWriteWins(Simulation.Build(), calls);
  }

  // ---------------------------------------------------------------- lattice cells

  /** `a` is a `size` x `size` grid. */
  predicate IsSquare<T>(a: array2<T>, size: nat)
  {
    a.Length0 == size && a.Length1 == size
  }

  /** Every cell of `a` is the zero vector. */
  ghost predicate AllZero(a: array2<Vec>)
    reads a
  {
    forall i, j :: 0 <= i < a.Length0 && 0 <= j < a.Length1 ==> a[i, j] == Vector.Zero(Lib.DIMS)
  }

  /** `c` is a two-dimensional cell coordinate inside a `size` x `size` lattice. */
  predicate InGrid(size: nat, c: seq<int>)
  {
    |c| == 2 && 0 <= c[0] < size && 0 <= c[1] < size
  }

  /** For a two-dimensional coordinate, the bounds check of `filter_indices` is `InGrid`. */
  lemma InGridIsInRange(size: nat, c: seq<int>)
    requires |c| == 2
    ensures InGrid(size, c) <==> Lattice.InRange(size, c)
  {
  }

  /** The candidate neighbours of cell (i, j): +1 and -1 along the first axis, then along the second. */
  function Candidates(i: int, j: int): seq<seq<int>>
  {
    [[i + 1, j], [i - 1, j], [i, j + 1], [i, j - 1]]
  }

  /** The cells of `cs` that lie in the lattice, in order. */
  function InBounds(size: nat, cs: seq<seq<int>>): (r: seq<seq<int>>)
    ensures forall t :: 0 <= t < |r| ==> InGrid(size, r[t])
  {
    if |cs| == 0 then []
    else
      assert cs == cs[..|cs| - 1] + [cs[|cs| - 1]];
      InBounds(size, cs[..|cs| - 1]) + (if InGrid(size, cs[|cs| - 1]) then [cs[|cs| - 1]] else [])
  }

  /** The in-bounds lattice neighbours of cell (i, j): free boundaries, no wrap-around. */
  function Neighbours(size: nat, i: int, j: int): seq<seq<int>>
  {
    InBounds(size, Candidates(i, j))
  }

  /** The sum of the positions of `cells`, added left to right from zero. */
  ghost function NeighbourSum(pos: array2<Vec>, cells: seq<seq<int>>): Vec
    reads pos
    requires pos.Length0 == pos.Length1
    requires forall t :: 0 <= t < |cells| ==> InGrid(pos.Length0, cells[t])
  {
    if |cells| == 0 then Vector.Zero(Lib.DIMS)
    else
      var c := cells[|cells| - 1];
      assert InGrid(pos.Length0, c);
      Vector.AddReal(NeighbourSum(pos, cells[..|cells| - 1]), pos[c[0], c[1]])
  }

  /**
   * The coupling term of a cell whose in-bounds neighbours are `cells`: starting from
   * zero, `stiffness * p` is subtracted for the position `p` of each neighbour in turn.
   */
  ghost function Coupling(pos: array2<Vec>, stiffness: real, cells: seq<seq<int>>): Vec
    reads pos
    requires pos.Length0 == pos.Length1
    requires forall t :: 0 <= t < |cells| ==> InGrid(pos.Length0, cells[t])
  {
    if |cells| == 0 then Vector.Zero(Lib.DIMS)
    else
      var c := cells[|cells| - 1];
      assert InGrid(pos.Length0, c);
      Vector.SubReal(Coupling(pos, stiffness, cells[..|cells| - 1]), Vector.Scale(pos[c[0], c[1]], stiffness))
  }

  /**
   * The acceleration of cell (i, j): the origin term `-(origin_stiffness * p)` for its
   * own position `p` plus the coupling term over its in-bounds neighbours.
   */
  ghost function Force(pos: array2<Vec>, stiffness: real, originStiffness: real, i: nat, j: nat): Vec
    reads pos
    requires pos.Length0 == pos.Length1 && i < pos.Length0 && j < pos.Length1
  {
    Vector.AddReal(Vector.NegReal(Vector.Scale(pos[i, j], originStiffness)),
                   Coupling(pos, stiffness, Neighbours(pos.Length0, i, j)))
  }

  function Abs(x: int): nat
  {
    if x < 0 then -x else x
  }

  // ---------------------------------------------------------------- properties of the force

  lemma InBoundsStep(size: nat, cs: seq<seq<int>>, m: nat)
    requires m < |cs|
    ensures InBounds(size, cs[..m + 1]) ==
      InBounds(size, cs[..m]) + (if InGrid(size, cs[m]) then [cs[m]] else [])
  {
    assert cs[..m + 1][..m] == cs[..m];
  }

  /** `InBounds` keeps exactly the in-bounds cells of its argument. */
  lemma {:induction false} InBoundsMembers(size: nat, cs: seq<seq<int>>, c: seq<int>)
    ensures c in InBounds(size, cs) <==> c in cs && InGrid(size, c)
  {
    if |cs| > 0 {
      var n := |cs| - 1;
      InBoundsMembers(size, cs[..n], c);
      assert cs == cs[..n] + [cs[n]];
    }
  }

  /** A neighbour is exactly an in-bounds cell at Manhattan distance 1. */
  lemma NeighboursAreAdjacent(size: nat, i: int, j: int, c: seq<int>)
    ensures c in Neighbours(size, i, j) <==> InGrid(size, c) && Abs(c[0] - i) + Abs(c[1] - j) == 1
  {
    InBoundsMembers(size, Candidates(i, j), c);
    if InGrid(size, c) && Abs(c[0] - i) + Abs(c[1] - j) == 1 {
      assert c == [c[0], c[1]];
    }
  }

  /**
   * Free boundaries: a cell has one neighbour on each side of each axis that is not a
   * lattice border. With more than one cell per side a corner cell therefore has 2
   * coupling terms, a non-corner edge cell 3 and an interior cell 4; the single cell
   * of a 1 x 1 lattice has none.
   */
  lemma NeighbourCount(size: nat, i: nat, j: nat)
    requires i < size && j < size
    ensures |Neighbours(size, i, j)| ==
      (if 0 < i then 1 else 0) + (if i < size - 1 then 1 else 0) +
      (if 0 < j then 1 else 0) + (if j < size - 1 then 1 else 0)
    ensures 1 < size ==>
      |Neighbours(size, i, j)| == (if 0 < i < size - 1 then 2 else 1) + (if 0 < j < size - 1 then 2 else 1)
    ensures 1 < size && (i == 0 || i == size - 1) && (j == 0 || j == size - 1) ==> |Neighbours(size, i, j)| == 2
    ensures 0 < i < size - 1 && 0 < j < size - 1 ==> |Neighbours(size, i, j)| == 4
    ensures size == 1 ==> |Neighbours(size, i, j)| == 0
  {
    var cs := Candidates(i, j);
    InBoundsStep(size, cs, 0);
    InBoundsStep(size, cs, 1);
    InBoundsStep(size, cs, 2);
    InBoundsStep(size, cs, 3);
    assert cs[..0] == [] && cs[..4] == cs;
    assert InGrid(size, cs[0]) <==> i < size - 1;
    assert InGrid(size, cs[1]) <==> 0 < i;
    assert InGrid(size, cs[2]) <==> j < size - 1;
    assert InGrid(size, cs[3]) <==> 0 < j;
  }

  /** The coupling term is `-stiffness` times the sum of the neighbours' positions. */
  lemma {:induction false} CouplingIsScaledSum(pos: array2<Vec>, stiffness: real, cells: seq<seq<int>>)
    requires pos.Length0 == pos.Length1
    requires forall t :: 0 <= t < |cells| ==> InGrid(pos.Length0, cells[t])
    ensures Coupling(pos, stiffness, cells) == Vector.NegReal(Vector.Scale(NeighbourSum(pos, cells), stiffness))
  {
    if |cells| > 0 {
      var n := |cells| - 1;
      var c := cells[n];
      CouplingIsScaledSum(pos, stiffness, cells[..n]);
      assert InGrid(pos.Length0, c);
      ScaledStep(stiffness, NeighbourSum(pos, cells[..n]), pos[c[0], c[1]], Coupling(pos, stiffness, cells[..n]));
    }
  }

  /** One step of the two folds: subtracting `k * p` keeps "minus `k` times the sum". */
  lemma ScaledStep(k: real, before: Vec, p: Vec, prev: Vec)
    requires prev == Vector.NegReal(Vector.Scale(before, k))
    ensures Vector.SubReal(prev, Vector.Scale(p, k)) == Vector.NegReal(Vector.Scale(Vector.AddReal(before, p), k))
  {
    var lhs := Vector.SubReal(prev, Vector.Scale(p, k));
    var rhs := Vector.NegReal(Vector.Scale(Vector.AddReal(before, p), k));
    forall e | 0 <= e < Lib.DIMS
      ensures lhs[e] == rhs[e]
    {
      Distribute(k, before[e], p[e], prev[e], before[e] + p[e], lhs[e]);
    }
  }

  /**
   * Closed form of the force: component `e` of the acceleration of cell (i, j) is
   * `-origin_stiffness * p[e] - stiffness * s[e]`, with `p` the cell's position and `s`
   * the sum of the positions of its in-bounds neighbours.
   */
  lemma ForceClosedForm(pos: array2<Vec>, stiffness: real, originStiffness: real, i: nat, j: nat, e: nat)
    requires pos.Length0 == pos.Length1 && i < pos.Length0 && j < pos.Length1 && e < Lib.DIMS
    ensures Force(pos, stiffness, originStiffness, i, j)[e] ==
      -originStiffness * pos[i, j][e] - stiffness * NeighbourSum(pos, Neighbours(pos.Length0, i, j))[e]
  {
    var cells := Neighbours(pos.Length0, i, j);
    CouplingIsScaledSum(pos, stiffness, cells);
    ForceComponent(stiffness, originStiffness, pos[i, j], NeighbourSum(pos, cells), Coupling(pos, stiffness, cells), e);
  }

  /** Component `e` of `-(ko * p) + c` when `c` is `-(k * s)`. */
  lemma ForceComponent(k: real, ko: real, p: Vec, s: Vec, c: Vec, e: nat)
    requires e < Lib.DIMS && c == Vector.NegReal(Vector.Scale(s, k))
    ensures Vector.AddReal(Vector.NegReal(Vector.Scale(p, ko)), c)[e] == -ko * p[e] - k * s[e]
  {
  }

  lemma {:induction false} CouplingOfZeros(pos: array2<Vec>, stiffness: real, cells: seq<seq<int>>)
    requires pos.Length0 == pos.Length1 && AllZero(pos)
    requires forall t :: 0 <= t < |cells| ==> InGrid(pos.Length0, cells[t])
    ensures Coupling(pos, stiffness, cells) == Vector.Zero(Lib.DIMS)
  {
    if |cells| > 0 {
      CouplingOfZeros(pos, stiffness, cells[..|cells| - 1]);
      var c := cells[|cells| - 1];
      assert InGrid(pos.Length0, c);
      var p := pos[c[0], c[1]];
      var z := Vector.Zero(Lib.DIMS);
      assert p == z;
      var r := Vector.SubReal(z, Vector.Scale(p, stiffness));
      forall e | 0 <= e < Lib.DIMS
        ensures r[e] == z[e]
      {
        assert p[e] == 0.0;
      }
      assert r == z;
    }
  }

  lemma {:induction false} CouplingWithoutStiffness(pos: array2<Vec>, cells: seq<seq<int>>)
    requires pos.Length0 == pos.Length1
    requires forall t :: 0 <= t < |cells| ==> InGrid(pos.Length0, cells[t])
    ensures Coupling(pos, 0.0, cells) == Vector.Zero(Lib.DIMS)
  {
    if |cells| > 0 {
      CouplingWithoutStiffness(pos, cells[..|cells| - 1]);
      var c := cells[|cells| - 1];
      assert Vector.SubReal(Vector.Zero(Lib.DIMS), Vector.Scale(pos[c[0], c[1]], 0.0)) == Vector.Zero(Lib.DIMS);
    }
  }

  /** Rest state: with every position zero, every acceleration is zero, whatever the coefficients. */
  lemma RestState(pos: array2<Vec>, stiffness: real, originStiffness: real)
    requires pos.Length0 == pos.Length1 && AllZero(pos)
    ensures forall i: nat, j: nat :: i < pos.Length0 && j < pos.Length1 ==>
      Force(pos, stiffness, originStiffness, i, j) == Vector.Zero(Lib.DIMS)
  {
    forall i: nat, j: nat | i < pos.Length0 && j < pos.Length1
      ensures Force(pos, stiffness, originStiffness, i, j) == Vector.Zero(Lib.DIMS)
    {
      CouplingOfZeros(pos, stiffness, Neighbours(pos.Length0, i, j));
      assert Vector.NegReal(Vector.Scale(pos[i, j], originStiffness)) == Vector.Zero(Lib.DIMS);
    }
  }

  /**
   * Origin-only regime: with no neighbour coupling and a single displaced cell
   * (i0, j0), that cell's acceleration is `-origin_stiffness * p` and every other
   * cell's is zero.
   */
  lemma OriginOnly(pos: array2<Vec>, originStiffness: real, i0: nat, j0: nat)
    requires pos.Length0 == pos.Length1 && i0 < pos.Length0 && j0 < pos.Length1
    requires forall i, j :: 0 <= i < pos.Length0 && 0 <= j < pos.Length1 && (i != i0 || j != j0) ==>
      pos[i, j] == Vector.Zero(Lib.DIMS)
    ensures forall i: nat, j: nat, e :: i < pos.Length0 && j < pos.Length1 && 0 <= e < Lib.DIMS ==>
      Force(pos, 0.0, originStiffness, i, j)[e] ==
        if i == i0 && j == j0 then -originStiffness * pos[i0, j0][e] else 0.0
  {
    forall i: nat, j: nat | i < pos.Length0 && j < pos.Length1
      ensures Force(pos, 0.0, originStiffness, i, j) == Vector.NegReal(Vector.Scale(pos[i, j], originStiffness))
    {
      CouplingWithoutStiffness(pos, Neighbours(pos.Length0, i, j));
    }
  }

  // ---------------------------------------------------------------- the simulation

  /** `SimulationState`: the coefficients and the position, velocity and acceleration grids. */
  datatype SimulationState = SimulationState(
    stiffness: real,
    originStiffness: real,
    pos: array2<Vec>,
    vel: array2<Vec>,
    acc: array2<Vec>)

  /** `bytemuck::zeroed_box()`: a fresh zero-filled `size` x `size` grid. */
  method ZeroedGrid(size: nat) returns (g: array2<Vec>)
    ensures fresh(g) && IsSquare(g, size) && AllZero(g)
  {
    g := new Vec[size, size]((_, _) => Vector.Zero(Lib.DIMS));
  }

  /** `Simulation`: the state plus the scratch grid the force pass writes into. */
  class Simulation {
    const size: nat
    var state: SimulationState
    var tmpAcc: array2<Vec>

    /** All grids are `size` x `size` and no two of them are the same buffer. */
    ghost predicate Valid()
      reads this
    {
      IsSquare(state.pos, size) && IsSquare(state.vel, size) &&
      IsSquare(state.acc, size) && IsSquare(tmpAcc, size) &&
      tmpAcc != state.acc && tmpAcc != state.pos && tmpAcc != state.vel &&
      state.acc != state.pos && state.acc != state.vel && state.pos != state.vel
    }

    /** The struct literal of `finish`, with its four zero-filled grids. */
    constructor (size: nat, stiffness: real, originStiffness: real)
      ensures Valid() && this.size == size
      ensures state.stiffness == stiffness && state.originStiffness == originStiffness
      ensures fresh(state.pos) && fresh(state.vel) && fresh(state.acc) && fresh(tmpAcc)
      ensures AllZero(state.pos) && AllZero(state.vel) && AllZero(state.acc) && AllZero(tmpAcc)
    {
      var pos := ZeroedGrid(size);
      var vel := ZeroedGrid(size);
      var acc := ZeroedGrid(size);
      var scratch := ZeroedGrid(size);
      this.size := size;
      state := SimulationState(stiffness, originStiffness, pos, vel, acc);
      tmpAcc := scratch;
    }

    /** `Simulation::build()`: a builder with neither coefficient set. */
    static function Build(): (b: SimulationBuilder)
      ensures b.stiffness.None? && b.originStiffness.None?
    {
      SimulationBuilder(None, None)
    }

    /**
     * `update(dt)`: recomputes the acceleration field into the scratch grid and swaps
     * the two buffers. `dt` plays no part; positions, velocities and coefficients stay.
     */
    method Update(dt: real)
      requires Valid()
      modifies this, tmpAcc
      ensures Valid()
      ensures state == old(state).(acc := old(tmpAcc))
      ensures tmpAcc == old(state.acc)
      ensures unchanged(state.pos, state.vel, tmpAcc)
      ensures forall i: nat, j: nat :: i < size && j < size ==>
        state.acc[i, j] == Force(state.pos, state.stiffness, state.originStiffness, i, j)
      ensures AllZero(state.pos) ==> AllZero(state.acc)
    {
      ComputeAcc();
      state, tmpAcc := state.(acc := tmpAcc), state.acc;
      if AllZero(state.pos) {
        RestState(state.pos, state.stiffness, state.originStiffness);
      }
    }

    /**
     * `compute_acc`: writes the force of every cell into the scratch grid, reading only
     * the positions; nothing else changes.
     */
    method ComputeAcc()
      requires Valid()
      modifies tmpAcc
      ensures unchanged(this, state.pos, state.vel, state.acc)
      ensures forall i: nat, j: nat :: i < size && j < size ==>
        tmpAcc[i, j] == Force(state.pos, state.stiffness, state.originStiffness, i, j)
    {
      var SimulationState(stiffness, originStiffness, pos, _, _) := state;
      var tmpAcc := this.tmpAcc;
      for i := 0 to size
        invariant forall i': nat, j': nat :: i' < i && j' < size ==>
          tmpAcc[i', j'] == Force(pos, stiffness, originStiffness, i', j')
      {
        for j := 0 to size
          invariant forall i': nat, j': nat :: (i' < i || (i' == i && j' < j)) && j' < size ==>
            tmpAcc[i', j'] == Force(pos, stiffness, originStiffness, i', j')
        {
          var a := CellAcc(pos, stiffness, originStiffness, i, j);
          tmpAcc[i, j] := a;
        }
      }
    }
  }

  /**
   * The body of the cell loop of `compute_acc`: the origin term of cell (i, j) plus the
   * coupling term accumulated over the stencil offsets whose cell passes
   * `filter_indices`.
   */
  method CellAcc(pos: array2<Vec>, stiffness: real, originStiffness: real, i: nat, j: nat) returns (acc: Vec)
    requires pos.Length0 == pos.Length1 && i < pos.Length0 && j < pos.Length1
    ensures acc == Force(pos, stiffness, originStiffness, i, j)
  {
    var size := pos.Length0;
    var stencil := Lib.StencilConstant();
    var positionHere := pos[i, j];
    var originAcc := Vector.NegReal(Vector.Map(positionHere, (x: real) => x * originStiffness));
    var coupledAcc := Vector.Zero(Lib.DIMS);
    ghost var cs := Candidates(i, j);
    for a := 0 to Lib.DIMS
      invariant coupledAcc == Coupling(pos, stiffness, InBounds(size, cs[..2 * a]))
    {
      for s := 0 to 2
        invariant coupledAcc == Coupling(pos, stiffness, InBounds(size, cs[..2 * a + s]))
      {
        coupledAcc := CoupleOffset(pos, stiffness, i, j, stencil, a, s, coupledAcc);
      }
    }
    assert cs[..2 * Lib.DIMS] == cs;
    assert originAcc == Vector.NegReal(Vector.Scale(positionHere, originStiffness));
    acc := Vector.AddReal(originAcc, coupledAcc);
  }

  /**
   * One stencil offset of the cell loop: the neighbour `indices + stencil[a][s]` is
   * passed through `filter_indices`, and when it is kept, `stiffness` times its
   * position is subtracted from the running coupling term.
   */
  method CoupleOffset(pos: array2<Vec>, stiffness: real, i: nat, j: nat, stencil: seq<seq<seq<int>>>,
                      a: nat, s: nat, coupledAcc: Vec) returns (next: Vec)
    requires pos.Length0 == pos.Length1 && i < pos.Length0 && j < pos.Length1
    requires stencil == [[[1, 0], [-1, 0]], [[0, 1], [0, -1]]] && a < 2 && s < 2
    requires coupledAcc == Coupling(pos, stiffness, InBounds(pos.Length0, Candidates(i, j)[..2 * a + s]))
    ensures next == Coupling(pos, stiffness, InBounds(pos.Length0, Candidates(i, j)[..2 * a + s + 1]))
  {
    var size := pos.Length0;
    ghost var cs := Candidates(i, j);
    ghost var m := 2 * a + s;
    CouplingPrefixStep(pos, stiffness, cs, m);
    var neighbour := Vector.Add([i as int, j as int], stencil[a][s]);
    OffsetIsCandidate(i, j, a, s);
    assert neighbour == cs[m];
    InGridIsInRange(size, cs[m]);
    match Lattice.FilterIndices(size, neighbour)
    case Some(n) =>
      assert InGrid(size, cs[m]);
      assert n[0] == cs[m][0] && n[1] == cs[m][1];
      var positionStencil := pos[n[0], n[1]];
      var scaled := Vector.Map(positionStencil, (x: real) => x * stiffness);
      assert scaled == Vector.Scale(positionStencil, stiffness);
      next := Vector.SubReal(coupledAcc, scaled);
    case None =>
      assert !InGrid(size, cs[m]);
      next := coupledAcc;
  }

  /** Extending the candidate prefix by one cell subtracts its term exactly when it is in bounds. */
  lemma CouplingPrefixStep(pos: array2<Vec>, stiffness: real, cs: seq<seq<int>>, m: nat)
    requires pos.Length0 == pos.Length1 && m < |cs|
    ensures InGrid(pos.Length0, cs[m]) ==>
      (Coupling(pos, stiffness, InBounds(pos.Length0, cs[..m + 1])) ==
       Vector.SubReal(Coupling(pos, stiffness, InBounds(pos.Length0, cs[..m])), Vector.Scale(pos[cs[m][0], cs[m][1]], stiffness)))
    ensures !InGrid(pos.Length0, cs[m]) ==>
      (Coupling(pos, stiffness, InBounds(pos.Length0, cs[..m + 1])) ==
       Coupling(pos, stiffness, InBounds(pos.Length0, cs[..m])))
  {
    InBoundsStep(pos.Length0, cs, m);
    if InGrid(pos.Length0, cs[m]) {
      CouplingStep(pos, stiffness, InBounds(pos.Length0, cs[..m]), cs[m]);
    } else {
      assert InBounds(pos.Length0, cs[..m + 1]) == InBounds(pos.Length0, cs[..m]);
    }
  }

  /** Unfolding `Coupling` at its last cell. */
  lemma CouplingStep(pos: array2<Vec>, stiffness: real, cells: seq<seq<int>>, c: seq<int>)
    requires pos.Length0 == pos.Length1
    requires forall t :: 0 <= t < |cells| ==> InGrid(pos.Length0, cells[t])
    requires InGrid(pos.Length0, c)
    ensures Coupling(pos, stiffness, cells + [c]) ==
      Vector.SubReal(Coupling(pos, stiffness, cells), Vector.Scale(pos[c[0], c[1]], stiffness))
  {
    assert (cells + [c])[..|cells|] == cells;
  }

  /** One step of `CouplingIsScaledSum` on the real components. */
  lemma Distribute(k: real, x: real, y: real, prev: real, sum: real, r: real)
    requires prev == -k * x && sum == x + y && r == prev - y * k
    ensures r == -k * sum
  {
  }

  /** Adding stencil entry `[a][s]` to cell (i, j) gives candidate neighbour `2 * a + s`. */
  lemma OffsetIsCandidate(i: int, j: int, a: nat, s: nat)
    requires a < 2 && s < 2
    ensures Vector.Add([i, j], [[[1, 0], [-1, 0]], [[0, 1], [0, -1]]][a][s]) == Candidates(i, j)[2 * a + s]
  {
  }
}
