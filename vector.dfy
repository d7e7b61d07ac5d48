/**
 * The fixed-length vector `Vector<T, D>` of the crate, reduced to the operations the
 * simulator calls. A vector is a `seq` whose length is its dimension count; binary
 * operations demand equal lengths, which the crate guarantees through its const-generic type.
 * Coordinate vectors hold `int` (isize) or `nat` (usize) components, physical
 * vectors hold `real` components.
 */
module Vector {

  /** `Vector::map`: applies `f` to every component. */
  function Map<A, B>(v: seq<A>, f: A --> B): (r: seq<B>)
    requires forall i :: 0 <= i < |v| ==> f.requires(v[i])
    ensures |r| == |v|
    ensures forall i :: 0 <= i < |v| ==> r[i] == f(v[i])
  {
    seq(|v|, i requires 0 <= i < |v| => f(v[i]))
  }

  /** `Vector::all`: whether every component is true. */
  function All(v: seq<bool>): (r: bool)
    ensures r <==> forall i :: 0 <= i < |v| ==> v[i]
  {
    if |v| == 0 then true else v[0] && All(v[1..])
  }

  /** `Vector::from_idx`: the vector whose component `i` is `f(i)`. */
  function FromIdx<A>(d: nat, f: nat --> A): (r: seq<A>)
    requires forall i :: 0 <= i < d ==> f.requires(i)
    ensures |r| == d
    ensures forall i :: 0 <= i < d ==> r[i] == f(i)
  {
    seq(d, i requires 0 <= i < d => f(i))
  }

  /** `Vector::broadcast`: `d` copies of `x`. */
  function Broadcast<A>(d: nat, x: A): (r: seq<A>)
    ensures |r| == d
    ensures forall i :: 0 <= i < d ==> r[i] == x
  {
    seq(d, _ => x)
  }

  /** `+` on isize coordinate vectors. */
  function Add(a: seq<int>, b: seq<int>): (r: seq<int>)
    requires |a| == |b|
    ensures |r| == |a|
    ensures forall i :: 0 <= i < |a| ==> r[i] == a[i] + b[i]
  {
    seq(|a|, i requires 0 <= i < |a| => a[i] + b[i])
  }

  /** `*` on usize vectors. */
  function Mul(a: seq<nat>, b: seq<nat>): (r: seq<nat>)
    requires |a| == |b|
    ensures |r| == |a|
    ensures forall i :: 0 <= i < |a| ==> r[i] == a[i] * b[i]
  {
    seq(|a|, i requires 0 <= i < |a| => a[i] * b[i])
  }

  /** `/` on usize vectors; a zero divisor would panic, so it is excluded. */
  function Div(a: seq<nat>, b: seq<nat>): (r: seq<nat>)
    requires |a| == |b|
    requires forall i :: 0 <= i < |b| ==> b[i] > 0
    ensures |r| == |a|
    ensures forall i :: 0 <= i < |a| ==> r[i] == a[i] / b[i]
  {
    seq(|a|, i requires 0 <= i < |a| => a[i] / b[i])
  }

  /** `%` on usize vectors; a zero divisor would panic, so it is excluded. */
  function Mod(a: seq<nat>, b: seq<nat>): (r: seq<nat>)
    requires |a| == |b|
    requires forall i :: 0 <= i < |b| ==> b[i] > 0
    ensures |r| == |a|
    ensures forall i :: 0 <= i < |a| ==> r[i] == a[i] % b[i]
  {
    seq(|a|, i requires 0 <= i < |a| => a[i] % b[i])
  }

  /** `Vector::sum` on usize vectors: a left-to-right fold from 0. */
  function Sum(v: seq<nat>): nat
  {
    if |v| == 0 then 0 else Sum(v[..|v| - 1]) + v[|v| - 1]
  }

  /** `Vector::zero` for physical vectors. */
  function Zero(d: nat): (r: seq<real>)
    ensures r == Broadcast(d, 0.0)
  {
    Broadcast(d, 0.0)
  }

  /** `+` on physical vectors. */
  function AddReal(a: seq<real>, b: seq<real>): (r: seq<real>)
    requires |a| == |b|
    ensures |r| == |a|
    ensures forall i :: 0 <= i < |a| ==> r[i] == a[i] + b[i]
  {
    seq(|a|, i requires 0 <= i < |a| => a[i] + b[i])
  }

  /** `-` on physical vectors. */
  function SubReal(a: seq<real>, b: seq<real>): (r: seq<real>)
    requires |a| == |b|
    ensures |r| == |a|
    ensures forall i :: 0 <= i < |a| ==> r[i] == a[i] - b[i]
  {
    seq(|a|, i requires 0 <= i < |a| => a[i] - b[i])
  }

  /** `v.map(|x| x * k)`: every component multiplied by `k`. */
  function Scale(v: seq<real>, k: real): (r: seq<real>)
    ensures |r| == |v|
    ensures forall i :: 0 <= i < |v| ==> r[i] == v[i] * k
  {
    seq(|v|, i requires 0 <= i < |v| => v[i] * k)
  }

  /** Unary `-` on physical vectors. */
  function NegReal(a: seq<real>): (r: seq<real>)
    ensures |r| == |a|
    ensures forall i :: 0 <= i < |a| ==> r[i] == -a[i]
  {
    seq(|a|, i requires 0 <= i < |a| => -a[i])
  }
}
