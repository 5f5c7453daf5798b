/** Neighbour selection, truncated pair forces and the reflecting box. */
module Physics {
  import opened Vectors
  import opened TensorOps
  import opened Particle

  /** Distances and column indices of each particle's nearest neighbours, one
      row per particle, like the two tensors `find_k_nearest` returns. */
  datatype Neighbours = Neighbours(distances: seq<seq<real>>, indices: seq<seq<nat>>)

  /** Python's `s[1:]`: everything but the first entry, empty for an empty
      sequence. */
  function DropFirst(s: seq<nat>): (r: seq<nat>)
    ensures |r| == if s == [] then 0 else |s| - 1
    ensures forall c :: 0 <= c < |r| ==> r[c] == s[c + 1]
  {
    if s == [] then [] else s[1..]
  }

  /** The column of the smallest entry of a row (the lowest such index on a
      tie): the entry that the selection puts in column 0. */
  function Nearest(row: seq<real>): (j: nat)
    requires |row| > 0
    ensures j < |row|
    ensures forall e :: 0 <= e < |row| && e != j ==> Before(row, j, e)
  {
    NearestFacts(row);
    TopK(row, 1)[0]
  }

  lemma NearestFacts(row: seq<real>)
    requires |row| > 0
    ensures forall e :: 0 <= e < |row| && e != TopK(row, 1)[0] ==> Before(row, TopK(row, 1)[0], e)
  {
    var t := TopK(row, 1);
    forall e | 0 <= e < |row| && e != t[0] ensures Before(row, t[0], e) {
      assert e !in t;
    }
  }

  /** Row `row` of `topk(..., m, largest=False)` with column 0 removed: the
      `m - 1` columns after the row's minimum, in ascending order. Every column
      left out, other than the minimum, comes after every one kept. */
  function NearestColumns(row: seq<real>, m: nat): (cols: seq<nat>)
    requires m <= |row|
    ensures |cols| == if m == 0 then 0 else m - 1
    ensures forall c :: 0 <= c < |cols| ==> cols[c] < |row|
    ensures forall c, e :: 0 <= c < e < |cols| ==> Before(row, cols[c], cols[e])
    ensures m > 0 ==> Nearest(row) !in cols
    ensures m > 0 ==> forall j :: 0 <= j < |row| && j !in cols && j != Nearest(row) ==>
                        forall c :: 0 <= c < |cols| ==> Before(row, cols[c], j)
  {
    if m == 0 then []
    else
      FirstIsNearest(row, m);
      AllOmittedAfterSelected(row, m);
      DropFirst(TopK(row, m))
  }

  /** Column 0 of the selection is the row minimum, and no other column of the
      selection repeats it. */
  lemma FirstIsNearest(row: seq<real>, m: nat)
    requires 0 < m <= |row|
    ensures TopK(row, m)[0] == Nearest(row)
    ensures forall c :: 1 <= c < m ==> TopK(row, m)[c] != Nearest(row)
  {
    var t := TopK(row, m);
    forall c | 1 <= c < m ensures t[c] != t[0] {
      assert Before(row, t[0], t[c]);
    }
  }

  lemma AllOmittedAfterSelected(row: seq<real>, m: nat)
    requires 0 < m <= |row|
    ensures forall j :: 0 <= j < |row| && j !in DropFirst(TopK(row, m)) && j != TopK(row, m)[0] ==>
      forall c :: 0 <= c < |DropFirst(TopK(row, m))| ==> Before(row, DropFirst(TopK(row, m))[c], j)
  {
    forall j | 0 <= j < |row| && j !in DropFirst(TopK(row, m)) && j != TopK(row, m)[0]
      ensures forall c :: 0 <= c < |DropFirst(TopK(row, m))| ==> Before(row, DropFirst(TopK(row, m))[c], j)
    {
      OmittedAfterSelected(row, m, j);
    }
  }

  /** Every column omitted from the selection comes after every selected
      column, the row minimum included. */
  lemma OmittedAfterSelected(row: seq<real>, m: nat, j: nat)
    requires 0 < m <= |row| && j < |row|
    requires j !in DropFirst(TopK(row, m)) && j != TopK(row, m)[0]
    ensures j !in TopK(row, m)
    ensures forall c :: 0 <= c < |DropFirst(TopK(row, m))| ==> Before(row, DropFirst(TopK(row, m))[c], j)
  {
    var t := TopK(row, m);
    var cols := DropFirst(t);
    assert j !in t;
    forall c | 0 <= c < |cols| ensures Before(row, cols[c], j) {
      assert cols[c] == t[c + 1];
    }
  }

  /** Entry `row[cols[c]]` for every `c`, indexing a row by a list of columns. */
  function Gather(row: seq<real>, cols: seq<nat>): (r: seq<real>)
    requires forall c :: 0 <= c < |cols| ==> cols[c] < |row|
    ensures |r| == |cols|
  {
    seq(|cols|, c requires 0 <= c < |cols| => row[cols[c]])
  }

  /** `find_k_nearest`: for each particle the `min(k + 1, n) - 1` nearest
      other particles, excluding the row minimum (the particle itself when no
      other particle shares its position), with their distances ascending.
      A `k` below -1 makes the tensor library reject the call. */
  function FindKNearest(positions: seq<Vec3>, k: int, sqrt: real -> real): (r: Neighbours)
    requires k >= -1
    ensures |r.distances| == |positions| && |r.indices| == |positions|
    ensures forall i :: 0 <= i < |positions| ==>
      |r.indices[i]| == |r.distances[i]| == if Min(k + 1, |positions|) == 0 then 0 else Min(k + 1, |positions|) - 1
    ensures forall i, c :: 0 <= i < |positions| && 0 <= c < |r.indices[i]| ==>
      r.indices[i][c] < |positions| &&
      r.distances[i][c] == Norm(Sub(positions[i], positions[r.indices[i][c]]), sqrt)
    ensures forall i, c, e :: 0 <= i < |positions| && 0 <= c < e < |r.indices[i]| ==>
      r.indices[i][c] != r.indices[i][e] && r.distances[i][c] <= r.distances[i][e]
    ensures forall i :: 0 <= i < |positions| && k >= 0 ==>
      Nearest(CDist(positions, sqrt)[i]) !in r.indices[i]
    ensures forall i, j :: 0 <= i < |positions| && 0 <= j < |positions| && k >= 0 &&
                           j !in r.indices[i] && j != Nearest(CDist(positions, sqrt)[i]) ==>
      forall c :: 0 <= c < |r.distances[i]| ==> r.distances[i][c] <= CDist(positions, sqrt)[i][j]
  {
    var m := Min(k + 1, |positions|);
    SelectFacts(positions, m, sqrt);
    Select(CDist(positions, sqrt), m)
  }

  /** The `m - 1` columns after the minimum of every row of `d`, and the
      entries at those columns. */
  function Select(d: seq<seq<real>>, m: nat): Neighbours
    requires forall i :: 0 <= i < |d| ==> m <= |d[i]|
  {
    var idx := seq(|d|, i requires 0 <= i < |d| => NearestColumns(d[i], m));
    Neighbours(seq(|d|, i requires 0 <= i < |d| => Gather(d[i], idx[i])), idx)
  }

  lemma SelectFacts(positions: seq<Vec3>, m: nat, sqrt: real -> real)
    requires m <= |positions|
    ensures var r := Select(CDist(positions, sqrt), m);
      && |r.distances| == |positions| && |r.indices| == |positions|
      && (forall i :: 0 <= i < |positions| ==>
            |r.indices[i]| == |r.distances[i]| == if m == 0 then 0 else m - 1)
      && (forall i, c :: 0 <= i < |positions| && 0 <= c < |r.indices[i]| ==>
            r.indices[i][c] < |positions| &&
            r.distances[i][c] == Norm(Sub(positions[i], positions[r.indices[i][c]]), sqrt))
      && (forall i, c, e :: 0 <= i < |positions| && 0 <= c < e < |r.indices[i]| ==>
            r.indices[i][c] != r.indices[i][e] && r.distances[i][c] <= r.distances[i][e])
      && (forall i :: 0 <= i < |positions| && m > 0 ==>
            Nearest(CDist(positions, sqrt)[i]) !in r.indices[i])
      && (forall i, j :: 0 <= i < |positions| && 0 <= j < |positions| && m > 0 &&
                         j !in r.indices[i] && j != Nearest(CDist(positions, sqrt)[i]) ==>
            forall c :: 0 <= c < |r.distances[i]| ==> r.distances[i][c] <= CDist(positions, sqrt)[i][j])
  {
  }

  /** With `compute_forces`'s `k = min(k, n - 1)`, every row holds exactly
      `min(k, n - 1)` neighbours. */
  lemma NeighbourCount(positions: seq<Vec3>, k: int, sqrt: real -> real, i: nat)
    requires k >= 0 && i < |positions|
    ensures |FindKNearest(positions, Min(k, |positions| - 1), sqrt).indices[i]| == Min(k, |positions| - 1)
  {
  }

  /** The returned distances are non-negative. */
  lemma NeighbourDistancesNonNegative(positions: seq<Vec3>, k: int, sqrt: real -> real, i: nat, c: nat)
    requires IsSqrtFn(sqrt) && k >= -1 && i < |positions|
    requires c < |FindKNearest(positions, k, sqrt).distances[i]|
    ensures FindKNearest(positions, k, sqrt).distances[i][c] >= 0.0
  {
  }

  /** A particle whose position no other particle shares is the minimum of its
      own distance row, and so never appears among its own neighbours. */
  lemma SelfExcluded(positions: seq<Vec3>, k: int, sqrt: real -> real, i: nat)
    requires IsSqrtFn(sqrt) && k >= 0 && i < |positions|
    requires forall j :: 0 <= j < |positions| && j != i ==> positions[j] != positions[i]
    ensures i !in FindKNearest(positions, k, sqrt).indices[i]
  {
    NearestIsSelf(positions, sqrt, i);
  }

  lemma NearestIsSelf(positions: seq<Vec3>, sqrt: real -> real, i: nat)
    requires IsSqrtFn(sqrt) && i < |positions|
    requires forall j :: 0 <= j < |positions| && j != i ==> positions[j] != positions[i]
    ensures Nearest(CDist(positions, sqrt)[i]) == i
  {
    IsolatedRow(positions, sqrt, i);
    RowMinimumAtZero(positions, sqrt, i);
  }

  lemma RowMinimumAtZero(positions: seq<Vec3>, sqrt: real -> real, i: nat)
    requires i < |positions|
    requires CDist(positions, sqrt)[i][i] == 0.0
    requires forall j :: 0 <= j < |positions| && j != i ==> CDist(positions, sqrt)[i][j] > 0.0
    ensures Nearest(CDist(positions, sqrt)[i]) == i
  {
    NearestOfUniqueZero(CDist(positions, sqrt)[i], i);
  }

  /** A row whose only zero is at `i`, all else positive, has its minimum at `i`. */
  lemma NearestOfUniqueZero(row: seq<real>, i: nat)
    requires i < |row| && row[i] == 0.0
    requires forall j :: 0 <= j < |row| && j != i ==> row[j] > 0.0
    ensures Nearest(row) == i
  {
    var j := Nearest(row);
    assert j == i || Before(row, j, i);
  }

  /** The separation used by the force terms: the distance clamped from below
      at 1e-2, `torch.clamp(r, min=1e-2)`, so it is never zero. */
  function Separation(a: Vec3, b: Vec3, sqrt: real -> real): (r: real)
    ensures r >= 0.01 && r >= Norm(Sub(a, b), sqrt)
    ensures r == 0.01 || r == Norm(Sub(a, b), sqrt)
  {
    MaxReal(Norm(Sub(a, b), sqrt), 0.01)
  }

  lemma SeparationSymmetric(a: Vec3, b: Vec3, sqrt: real -> real)
    ensures Separation(a, b, sqrt) == Separation(b, a, sqrt)
  {
    assert Dot(Sub(a, b), Sub(a, b)) == Dot(Sub(b, a), Sub(b, a));
  }

  /** Lorentz-Berthelot combination of the well depths: the geometric mean. */
  function MixedEpsilon(ei: real, ej: real, sqrt: real -> real): (e: real)
    ensures IsSqrtFn(sqrt) && ei * ej >= 0.0 ==> e >= 0.0 && e * e == ei * ej
  {
    sqrt(ei * ej)
  }

  /** Lorentz-Berthelot combination of the diameters: the arithmetic mean. */
  function MixedSigma(si: real, sj: real): (s: real)
    ensures (si <= s <= sj) || (sj <= s <= si)
    ensures s - si == sj - s
  {
    0.5 * (si + sj)
  }

  /** `x ** n` for a natural exponent. */
  function Pow(x: real, n: nat): real {
    if n == 0 then 1.0 else x * Pow(x, n - 1)
  }

  lemma {:induction false} PowOne(n: nat)
    ensures Pow(1.0, n) == 1.0
  {
    if n > 0 {
      PowOne(n - 1);
    }
  }

  /** The Lennard-Jones force magnitude `24 eps (2 (sigma/r)^12 - (sigma/r)^6) / r`. */
  function LennardJones(eps: real, sigma: real, r: real): real
    requires r != 0.0
  {
    var sr6 := Pow(sigma / r, 6);
    24.0 * eps * (2.0 * Sq(sr6) - sr6) / r
  }

  /** The Coulomb force magnitude `k_e q_i q_j / r^2`. */
  function Coulomb(coulombK: real, qi: real, qj: real, r: real): real
    requires r != 0.0
  {
    SqNonNegative(r);
    coulombK * qi * qj / Sq(r)
  }

  /** The force that particle `j` exerts on particle `i`: the total magnitude
      along the unit direction from `j` to `i`. */
  function PairForce(positions: seq<Vec3>, charges: seq<real>, epsilons: seq<real>, sigmas: seq<real>,
                     i: nat, j: nat, coulombK: real, sqrt: real -> real): Vec3
    requires i < |positions| && j < |positions|
    requires |charges| == |positions| && |epsilons| == |positions| && |sigmas| == |positions|
  {
    var r := Separation(positions[i], positions[j], sqrt);
    var direction := Div(Sub(positions[i], positions[j]), r);
    var magnitude := LennardJones(MixedEpsilon(epsilons[i], epsilons[j], sqrt), MixedSigma(sigmas[i], sigmas[j]), r)
                     + Coulomb(coulombK, charges[i], charges[j], r);
    Scale(direction, magnitude)
  }

  function SumVecs(vs: seq<Vec3>): Vec3 {
    if vs == [] then Zero else Add(vs[0], SumVecs(vs[1..]))
  }

  /** Particle `i`'s force: the sum of the pair forces over its neighbour list. */
  function NetForce(positions: seq<Vec3>, charges: seq<real>, epsilons: seq<real>, sigmas: seq<real>,
                    i: nat, neighbours: seq<nat>, coulombK: real, sqrt: real -> real): Vec3
    requires i < |positions|
    requires |charges| == |positions| && |epsilons| == |positions| && |sigmas| == |positions|
    requires forall c :: 0 <= c < |neighbours| ==> neighbours[c] < |positions|
  {
    SumVecs(seq(|neighbours|, c requires 0 <= c < |neighbours| =>
      PairForce(positions, charges, epsilons, sigmas, i, neighbours[c], coulombK, sqrt)))
  }

  /** `compute_forces`: one force per particle, each summed over the
      particle's own `min(k, n - 1)` nearest neighbours. */
  function ComputeForces(positions: seq<Vec3>, charges: seq<real>, epsilons: seq<real>, sigmas: seq<real>,
                         k: int, coulombK: real, sqrt: real -> real): (forces: seq<Vec3>)
    requires k >= -1
    requires |charges| == |positions| && |epsilons| == |positions| && |sigmas| == |positions|
    ensures |forces| == |positions|
  {
    var n := |positions|;
    var nb := FindKNearest(positions, Min(k, n - 1), sqrt);
    seq(n, i requires 0 <= i < n => NetForce(positions, charges, epsilons, sigmas, i, nb.indices[i], coulombK, sqrt))
  }

  /** The combination rules are symmetric in the two particles. */
  lemma MixingSymmetric(ei: real, ej: real, si: real, sj: real, sqrt: real -> real)
    ensures MixedEpsilon(ei, ej, sqrt) == MixedEpsilon(ej, ei, sqrt)
    ensures MixedSigma(si, sj) == MixedSigma(sj, si)
  {
    assert ei * ej == ej * ei;
  }

  /** Newton's third law for one pair: the force of `j` on `i` is the
      opposite of the force of `i` on `j`. */
  lemma PairForceAntisymmetric(positions: seq<Vec3>, charges: seq<real>, epsilons: seq<real>, sigmas: seq<real>,
                               i: nat, j: nat, coulombK: real, sqrt: real -> real)
    requires i < |positions| && j < |positions|
    requires |charges| == |positions| && |epsilons| == |positions| && |sigmas| == |positions|
    ensures Add(PairForce(positions, charges, epsilons, sigmas, i, j, coulombK, sqrt),
                PairForce(positions, charges, epsilons, sigmas, j, i, coulombK, sqrt)) == Zero
  {
    SeparationSymmetric(positions[i], positions[j], sqrt);
    MixingSymmetric(epsilons[i], epsilons[j], sigmas[i], sigmas[j], sqrt);
    var r := Separation(positions[i], positions[j], sqrt);
    var m := LennardJones(MixedEpsilon(epsilons[i], epsilons[j], sqrt), MixedSigma(sigmas[i], sigmas[j]), r)
             + Coulomb(coulombK, charges[i], charges[j], r);
    assert Coulomb(coulombK, charges[i], charges[j], r) == Coulomb(coulombK, charges[j], charges[i], r);
    OppositeDirections(Sub(positions[i], positions[j]), Sub(positions[j], positions[i]), r, m);
  }

  lemma OppositeDirections(a: Vec3, b: Vec3, r: real, m: real)
    requires r != 0.0 && b == Sub(Zero, a)
    ensures Add(Scale(Div(a, r), m), Scale(Div(b, r), m)) == Zero
  {
    assert (a.x / r) * m + ((0.0 - a.x) / r) * m == 0.0;
    assert (a.y / r) * m + ((0.0 - a.y) / r) * m == 0.0;
    assert (a.z / r) * m + ((0.0 - a.z) / r) * m == 0.0;
  }

  /** An uncharged particle feels no Coulomb force. */
  lemma CoulombWithoutCharge(coulombK: real, qi: real, qj: real, r: real)
    requires r != 0.0 && (qi == 0.0 || qj == 0.0)
    ensures Coulomb(coulombK, qi, qj, r) == 0.0
  {
    SqNonNegative(r);
    var s := Sq(r);
    assert coulombK * qi * qj == 0.0;
    calc { Coulomb(coulombK, qi, qj, r); == (coulombK * qi * qj) / s; == 0.0 / s; == 0.0; }
  }

  /** Like charges repel and opposite charges attract: for a positive constant
      the magnitude along the direction from `j` to `i` has the sign of
      `q_i q_j`. */
  lemma CoulombSign(coulombK: real, qi: real, qj: real, r: real)
    requires r != 0.0 && coulombK > 0.0
    ensures qi * qj > 0.0 ==> Coulomb(coulombK, qi, qj, r) > 0.0
    ensures qi * qj < 0.0 ==> Coulomb(coulombK, qi, qj, r) < 0.0
  {
    SqNonNegative(r);
    var q, s := qi * qj, Sq(r);
    assert coulombK * qi * qj == coulombK * q;
    if q > 0.0 {
      assert coulombK * q > 0.0;
      assert (coulombK * q) / s > 0.0;
    } else if q < 0.0 {
      assert coulombK * q < 0.0;
      assert (coulombK * q) / s < 0.0;
    }
  }

  /** At `r == sigma` the Lennard-Jones magnitude is `24 eps / sigma`, not
      zero: the force vanishes where `(sigma / r)^6 == 1/2` instead. */
  lemma LennardJonesAtSigma(eps: real, sigma: real)
    requires sigma != 0.0
    ensures LennardJones(eps, sigma, sigma) == 24.0 * eps / sigma
  {
    assert sigma / sigma == 1.0;
    PowOne(6);
  }

  lemma LennardJonesZero(eps: real, sigma: real, r: real)
    requires r != 0.0 && Pow(sigma / r, 6) == 0.5
    ensures LennardJones(eps, sigma, r) == 0.0
  {
    assert 2.0 * Sq(0.5) - 0.5 == 0.0;
  }

  /** With no neighbours to interact with (a single particle, or `k <= 0`)
      every force is zero. */
  lemma NoNeighboursNoForce(positions: seq<Vec3>, charges: seq<real>, epsilons: seq<real>, sigmas: seq<real>,
                            k: int, coulombK: real, sqrt: real -> real)
    requires -1 <= k <= 0 || |positions| <= 1
    requires k >= -1
    requires |charges| == |positions| && |epsilons| == |positions| && |sigmas| == |positions|
    ensures forall i :: 0 <= i < |positions| ==> ComputeForces(positions, charges, epsilons, sigmas, k, coulombK, sqrt)[i] == Zero
  {
    var n := |positions|;
    var nb := FindKNearest(positions, Min(k, n - 1), sqrt);
    forall i | 0 <= i < n
      ensures ComputeForces(positions, charges, epsilons, sigmas, k, coulombK, sqrt)[i] == Zero
    {
      assert |nb.indices[i]| == 0;
    }
  }

  /** Two particles at distinct positions, each the other's only neighbour:
      their forces cancel, so the total force on the pair is zero. */
  lemma TwoParticleForcesBalance(positions: seq<Vec3>, charges: seq<real>, epsilons: seq<real>, sigmas: seq<real>,
                                 k: int, coulombK: real, sqrt: real -> real)
    requires IsSqrtFn(sqrt) && k >= 1
    requires |positions| == 2 && positions[0] != positions[1]
    requires |charges| == 2 && |epsilons| == 2 && |sigmas| == 2
    ensures var f := ComputeForces(positions, charges, epsilons, sigmas, k, coulombK, sqrt);
            Add(f[0], f[1]) == Zero
  {
    var nb := FindKNearest(positions, 1, sqrt);
    SelfExcluded(positions, 1, sqrt, 0);
    SelfExcluded(positions, 1, sqrt, 1);
    assert nb.indices[0] == [1] && nb.indices[1] == [0];
    var p01 := PairForce(positions, charges, epsilons, sigmas, 0, 1, coulombK, sqrt);
    var p10 := PairForce(positions, charges, epsilons, sigmas, 1, 0, coulombK, sqrt);
    var f := ComputeForces(positions, charges, epsilons, sigmas, k, coulombK, sqrt);
    assert f[0] == NetForce(positions, charges, epsilons, sigmas, 0, [1], coulombK, sqrt);
    assert f[1] == NetForce(positions, charges, epsilons, sigmas, 1, [0], coulombK, sqrt);
    SingleNeighbour(positions, charges, epsilons, sigmas, 0, 1, coulombK, sqrt);
    SingleNeighbour(positions, charges, epsilons, sigmas, 1, 0, coulombK, sqrt);
    PairForceAntisymmetric(positions, charges, epsilons, sigmas, 0, 1, coulombK, sqrt);
  }

  /** With a single neighbour the net force is that neighbour's pair force. */
  lemma SingleNeighbour(positions: seq<Vec3>, charges: seq<real>, epsilons: seq<real>, sigmas: seq<real>,
                        i: nat, j: nat, coulombK: real, sqrt: real -> real)
    requires i < |positions| && j < |positions|
    requires |charges| == |positions| && |epsilons| == |positions| && |sigmas| == |positions|
    ensures NetForce(positions, charges, epsilons, sigmas, i, [j], coulombK, sqrt)
            == PairForce(positions, charges, epsilons, sigmas, i, j, coulombK, sqrt)
  {
    var p := PairForce(positions, charges, epsilons, sigmas, i, j, coulombK, sqrt);
    var terms := seq(1, c requires 0 <= c < 1 => PairForce(positions, charges, epsilons, sigmas, i, [j][c], coulombK, sqrt));
    assert terms == [p];
    SumOfOne(p);
  }

  lemma SumOfOne(v: Vec3)
    ensures SumVecs([v]) == v
  {
    assert [v][1..] == [];
  }

  // ---------------------------------------------------------------------
  // Reflecting boundary

  /** One coordinate and its velocity component after the two masked writes of
      one axis: the masks `x < 0` and `x > b` are both taken from the original
      coordinate, then the lower write and then the upper write happen. */
  function ReflectCoord(x: real, v: real, b: real, restitution: real): (real, real) {
    var lower, upper := x < 0.0, x > b;
    if lower && upper then (b, Rebound(Rebound(v, restitution), restitution))
    else if lower then (0.0, Rebound(v, restitution))
    else if upper then (b, Rebound(v, restitution))
    else (x, v)
  }

  /** A velocity component reversed at a wall and damped, `v * -restitution`. */
  function Rebound(v: real, restitution: real): real {
    v * -restitution
  }

  /** A coordinate in `[0, b]` and its velocity are left as they are; one
      below 0 or above `b >= 0` is clamped to the violated wall and its
      velocity component is reversed and damped. */
  lemma ReflectCoordCases(x: real, v: real, b: real, restitution: real)
    ensures 0.0 <= x <= b ==> ReflectCoord(x, v, b, restitution) == (x, v)
    ensures x < 0.0 && b >= 0.0 ==> ReflectCoord(x, v, b, restitution) == (0.0, Rebound(v, restitution))
    ensures x > b && b >= 0.0 ==> ReflectCoord(x, v, b, restitution) == (b, Rebound(v, restitution))
    ensures b >= 0.0 ==> 0.0 <= ReflectCoord(x, v, b, restitution).0 <= b
  {
  }

  /** The masked writes along axis `d`, applied to every particle. */
  function ReflectAxis(ps: seq<Vec3>, vs: seq<Vec3>, d: nat, b: real, restitution: real): (res: (seq<Vec3>, seq<Vec3>))
    requires |ps| == |vs| && d < 3
    ensures |res.0| == |ps| && |res.1| == |ps|
  {
    (seq(|ps|, i requires 0 <= i < |ps| => ps[i].With(d, ReflectCoord(ps[i].At(d), vs[i].At(d), b, restitution).0)),
     seq(|ps|, i requires 0 <= i < |ps| => vs[i].With(d, ReflectCoord(ps[i].At(d), vs[i].At(d), b, restitution).1)))
  }

  /** The first `upTo` iterations of `for dim in range(3)`. */
  function ReflectAxes(ps: seq<Vec3>, vs: seq<Vec3>, box: Vec3, restitution: real, upTo: nat): (res: (seq<Vec3>, seq<Vec3>))
    requires |ps| == |vs| && upTo <= 3
    ensures |res.0| == |ps| && |res.1| == |ps|
    decreases upTo
  {
    if upTo == 0 then (ps, vs)
    else
      var prev := ReflectAxes(ps, vs, box, restitution, upTo - 1);
      ReflectAxis(prev.0, prev.1, upTo - 1, box.At(upTo - 1), restitution)
  }

  /** Positions and velocities after `apply_boundary`. */
  function Boundary(ps: seq<Vec3>, vs: seq<Vec3>, box: Vec3, restitution: real): (res: (seq<Vec3>, seq<Vec3>))
    requires |ps| == |vs|
    ensures |res.0| == |ps| && |res.1| == |ps|
  {
    ReflectAxes(ps, vs, box, restitution, 3)
  }

  lemma {:induction false} ReflectAxesComponents(ps: seq<Vec3>, vs: seq<Vec3>, box: Vec3, restitution: real,
                                                 upTo: nat, i: nat, d: nat)
    requires |ps| == |vs| && upTo <= 3 && i < |ps| && d < 3
    ensures var res := ReflectAxes(ps, vs, box, restitution, upTo);
            var c := ReflectCoord(ps[i].At(d), vs[i].At(d), box.At(d), restitution);
            (d < upTo ==> res.0[i].At(d) == c.0 && res.1[i].At(d) == c.1) &&
            (d >= upTo ==> res.0[i].At(d) == ps[i].At(d) && res.1[i].At(d) == vs[i].At(d))
    decreases upTo
  {
    if upTo > 0 {
      ReflectAxesComponents(ps, vs, box, restitution, upTo - 1, i, d);
      var prev := ReflectAxes(ps, vs, box, restitution, upTo - 1);
      var res := ReflectAxes(ps, vs, box, restitution, upTo);
      var e := upTo - 1;
      var c := ReflectCoord(prev.0[i].At(e), prev.1[i].At(e), box.At(e), restitution);
      assert res.0[i] == prev.0[i].With(e, c.0);
      assert res.1[i] == prev.1[i].With(e, c.1);
      if d == e {
        ReflectAxesComponents(ps, vs, box, restitution, e, i, e);
      }
    }
  }

  /** Axis independence: each coordinate of every particle, with its velocity
      component, is reflected on its own axis from its original values. */
  lemma BoundaryComponents(ps: seq<Vec3>, vs: seq<Vec3>, box: Vec3, restitution: real, i: nat, d: nat)
    requires |ps| == |vs| && i < |ps| && d < 3
    ensures (Boundary(ps, vs, box, restitution).0[i].At(d), Boundary(ps, vs, box, restitution).1[i].At(d))
            == ReflectCoord(ps[i].At(d), vs[i].At(d), box.At(d), restitution)
  {
    ReflectAxesComponents(ps, vs, box, restitution, 3, i, d);
  }

  /** Two vectors with the same three components are equal. */
  lemma Vec3Ext(a: Vec3, b: Vec3)
    requires forall d :: 0 <= d < 3 ==> a.At(d) == b.At(d)
    ensures a == b
  {
    assert a.At(0) == b.At(0) && a.At(1) == b.At(1) && a.At(2) == b.At(2);
  }

  ghost predicate BoxNonNegative(box: Vec3) {
    forall d :: 0 <= d < 3 ==> box.At(d) >= 0.0
  }

  ghost predicate InBox(ps: seq<Vec3>, box: Vec3) {
    forall i, d :: 0 <= i < |ps| && 0 <= d < 3 ==> 0.0 <= ps[i].At(d) <= box.At(d)
  }

  /** In a box with non-negative extents every particle ends up inside. */
  lemma BoundaryInBox(ps: seq<Vec3>, vs: seq<Vec3>, box: Vec3, restitution: real)
    requires |ps| == |vs| && BoxNonNegative(box)
    ensures InBox(Boundary(ps, vs, box, restitution).0, box)
  {
    var res := Boundary(ps, vs, box, restitution);
    forall i, d | 0 <= i < |ps| && 0 <= d < 3 ensures 0.0 <= res.0[i].At(d) <= box.At(d) {
      BoundaryComponents(ps, vs, box, restitution, i, d);
      ReflectCoordCases(ps[i].At(d), vs[i].At(d), box.At(d), restitution);
    }
  }

  /** A coordinate already inside `[0, b_d]` keeps its value and its velocity
      component. */
  lemma BoundaryKeepsInside(ps: seq<Vec3>, vs: seq<Vec3>, box: Vec3, restitution: real, i: nat, d: nat)
    requires |ps| == |vs| && i < |ps| && d < 3
    requires 0.0 <= ps[i].At(d) <= box.At(d)
    ensures Boundary(ps, vs, box, restitution).0[i].At(d) == ps[i].At(d)
    ensures Boundary(ps, vs, box, restitution).1[i].At(d) == vs[i].At(d)
  {
    BoundaryComponents(ps, vs, box, restitution, i, d);
    ReflectCoordCases(ps[i].At(d), vs[i].At(d), box.At(d), restitution);
  }

  /** Particles all inside the box are not touched at all. */
  lemma BoundaryInsideIsIdentity(ps: seq<Vec3>, vs: seq<Vec3>, box: Vec3, restitution: real)
    requires |ps| == |vs| && InBox(ps, box)
    ensures Boundary(ps, vs, box, restitution) == (ps, vs)
  {
    var res := Boundary(ps, vs, box, restitution);
    forall i | 0 <= i < |ps| ensures res.0[i] == ps[i] && res.1[i] == vs[i] {
      forall d | 0 <= d < 3 ensures res.0[i].At(d) == ps[i].At(d) && res.1[i].At(d) == vs[i].At(d) {
        BoundaryKeepsInside(ps, vs, box, restitution, i, d);
      }
      Vec3Ext(res.0[i], ps[i]);
      Vec3Ext(res.1[i], vs[i]);
    }
    assert res.0 == ps && res.1 == vs;
  }

  /** Applying the boundary twice is the same as applying it once. */
  lemma BoundaryIdempotent(ps: seq<Vec3>, vs: seq<Vec3>, box: Vec3, restitution: real)
    requires |ps| == |vs| && BoxNonNegative(box)
    ensures var once := Boundary(ps, vs, box, restitution);
            Boundary(once.0, once.1, box, restitution) == once
  {
    var once := Boundary(ps, vs, box, restitution);
    BoundaryInBox(ps, vs, box, restitution);
    BoundaryInsideIsIdentity(once.0, once.1, box, restitution);
  }

  /** A particle at x = -1 moving at -2 along x, restitution 0.8, box 50:
      it lands on the wall x = 0 moving at +1.6; y and z are untouched. */
  lemma BoundaryExample()
    ensures Boundary([Vec3(-1.0, 5.0, 5.0)], [Vec3(-2.0, 0.0, 0.0)], Vec3(50.0, 50.0, 50.0), 0.8)
            == ([Vec3(0.0, 5.0, 5.0)], [Vec3(1.6, 0.0, 0.0)])
  {
    var ps, vs, box := [Vec3(-1.0, 5.0, 5.0)], [Vec3(-2.0, 0.0, 0.0)], Vec3(50.0, 50.0, 50.0);
    var res := Boundary(ps, vs, box, 0.8);
    forall d | 0 <= d < 3
      ensures res.0[0].At(d) == Vec3(0.0, 5.0, 5.0).At(d) && res.1[0].At(d) == Vec3(1.6, 0.0, 0.0).At(d)
    {
      BoundaryComponents(ps, vs, box, 0.8, 0, d);
    }
    Vec3Ext(res.0[0], Vec3(0.0, 5.0, 5.0));
    Vec3Ext(res.1[0], Vec3(1.6, 0.0, 0.0));
    assert res.0 == [res.0[0]] && res.1 == [res.1[0]];
  }

  /** `apply_boundary`: for each axis in turn, both masks are computed from
      the current coordinates, then the lower masked writes and then the upper
      masked writes update positions and velocities in place. */
  method ApplyBoundary(particles: ParticleSystem, boundarySize: Vec3, restitution: real)
    requires particles.Valid()
    modifies particles`positions, particles`velocities
    ensures particles.Valid()
    ensures (particles.positions, particles.velocities)
            == Boundary(old(particles.positions), old(particles.velocities), boundarySize, restitution)
  {
    for dim := 0 to 3
      invariant particles.Valid()
      invariant (particles.positions, particles.velocities)
                == ReflectAxes(old(particles.positions), old(particles.velocities), boundarySize, restitution, dim)
    {
      var n := |particles.positions|;
      var b := boundarySize.At(dim);
      var ps, vs := particles.positions, particles.velocities;
      var lower := seq(n, i requires 0 <= i < n => ps[i].At(dim) < 0.0);
      var upper := seq(n, i requires 0 <= i < n => ps[i].At(dim) > b);

      var ps1 := seq(n, i requires 0 <= i < n => if lower[i] then ps[i].With(dim, 0.0) else ps[i]);
      var vs1 := seq(n, i requires 0 <= i < n => if lower[i] then vs[i].With(dim, Rebound(vs[i].At(dim), restitution)) else vs[i]);
      var ps2 := seq(n, i requires 0 <= i < n => if upper[i] then ps1[i].With(dim, b) else ps1[i]);
      var vs2 := seq(n, i requires 0 <= i < n => if upper[i] then vs1[i].With(dim, Rebound(vs1[i].At(dim), restitution)) else vs1[i]);
      particles.positions, particles.velocities := ps2, vs2;

      ghost var next := ReflectAxis(ps, vs, dim, b, restitution);
      forall i | 0 <= i < n ensures ps2[i] == next.0[i] && vs2[i] == next.1[i] {
        WritesReflect(ps[i], vs[i], dim, b, restitution);
        assert lower[i] == (ps[i].At(dim) < 0.0) && upper[i] == (ps[i].At(dim) > b);
        assert ps1[i] == if lower[i] then ps[i].With(dim, 0.0) else ps[i];
        assert vs1[i] == if lower[i] then vs[i].With(dim, Rebound(vs[i].At(dim), restitution)) else vs[i];
      }
      assert ps2 == next.0 && vs2 == next.1;
    }
  }

  /** The four masked writes of one axis, on one particle, are `ReflectCoord`. */
  lemma WritesReflect(p: Vec3, v: Vec3, d: nat, b: real, restitution: real)
    requires d < 3
    ensures var lower, upper := p.At(d) < 0.0, p.At(d) > b;
            var p1 := if lower then p.With(d, 0.0) else p;
            var v1 := if lower then v.With(d, Rebound(v.At(d), restitution)) else v;
            var c := ReflectCoord(p.At(d), v.At(d), b, restitution);
            (if upper then p1.With(d, b) else p1) == p.With(d, c.0) &&
            (if upper then v1.With(d, Rebound(v1.At(d), restitution)) else v1) == v.With(d, c.1)
  {
    var lower, upper := p.At(d) < 0.0, p.At(d) > b;
    if lower && upper {
      WithTwice(p, d, 0.0, b);
      WithTwice(v, d, Rebound(v.At(d), restitution), Rebound(Rebound(v.At(d), restitution), restitution));
    } else if !lower && !upper {
      WithSame(p, d);
      WithSame(v, d);
    }
  }

  /** Writing component `d` twice keeps only the second write. */
  lemma WithTwice(a: Vec3, d: nat, u: real, w: real)
    requires d < 3
    ensures a.With(d, u).With(d, w) == a.With(d, w)
  {
  }

  /** Writing a component's own value back changes nothing. */
  lemma WithSame(a: Vec3, d: nat)
    requires d < 3
    ensures a.With(d, a.At(d)) == a
  {
  }
}
