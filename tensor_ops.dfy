/** Explicit definitions of the tensor library calls the physics relies on:
    `torch.cdist` over one point cloud and `torch.topk(..., largest=False)`
    along a row. `torch.topk` promises no order among equal values; this model
    breaks ties by the lower column index. */
module TensorOps {
  import opened Vectors

  /** `torch.cdist(p, p)`: the matrix of pairwise Euclidean distances. */
  function CDist(ps: seq<Vec3>, sqrt: real -> real): (d: seq<seq<real>>)
    ensures |d| == |ps|
    ensures forall i :: 0 <= i < |ps| ==> |d[i]| == |ps|
  {
    seq(|ps|, i requires 0 <= i < |ps| => seq(|ps|, j requires 0 <= j < |ps| => Norm(Sub(ps[i], ps[j]), sqrt)))
  }

  /** The distance matrix is non-negative, zero exactly on coinciding points
      (so on the diagonal) and symmetric. */
  lemma CDistFacts(ps: seq<Vec3>, sqrt: real -> real, i: nat, j: nat)
    requires IsSqrtFn(sqrt)
    requires i < |ps| && j < |ps|
    ensures CDist(ps, sqrt)[i][j] >= 0.0
    ensures CDist(ps, sqrt)[i][j] == 0.0 <==> ps[i] == ps[j]
    ensures CDist(ps, sqrt)[i][j] == CDist(ps, sqrt)[j][i]
  {
    var d := CDist(ps, sqrt);
    NormZeroIff(Sub(ps[i], ps[j]), sqrt);
    assert Sub(ps[i], ps[j]) == Zero <==> ps[i] == ps[j];
    assert Dot(Sub(ps[i], ps[j]), Sub(ps[i], ps[j])) == Dot(Sub(ps[j], ps[i]), Sub(ps[j], ps[i]));
  }

  /** The distance row of a particle whose position no other particle shares
      is zero at the particle itself and positive elsewhere. */
  lemma IsolatedRow(positions: seq<Vec3>, sqrt: real -> real, i: nat)
    requires IsSqrtFn(sqrt) && i < |positions|
    requires forall j :: 0 <= j < |positions| && j != i ==> positions[j] != positions[i]
    ensures forall j :: 0 <= j < |positions| && j != i ==> CDist(positions, sqrt)[i][j] > 0.0
    ensures CDist(positions, sqrt)[i][i] == 0.0
  {
    CDistFacts(positions, sqrt, i, i);
    forall j | 0 <= j < |positions| && j != i ensures CDist(positions, sqrt)[i][j] > 0.0 {
      CDistFacts(positions, sqrt, i, j);
    }
  }

  /** Column `a` comes before column `b` in an ascending selection over `row`:
      a smaller value, or an equal value and a lower index. */
  predicate Before(row: seq<real>, a: nat, b: nat) {
    a < |row| && b < |row| && (row[a] < row[b] || (row[a] == row[b] && a < b))
  }

  /** Every entry is a column of `row`, and the entries are strictly ordered by
      `Before` (so ascending in value and pairwise distinct). */
  ghost predicate Ascending(row: seq<real>, s: seq<nat>) {
    && (forall c :: 0 <= c < |s| ==> s[c] < |row|)
    && (forall c, e :: 0 <= c < e < |s| ==> Before(row, s[c], s[e]))
  }

  ghost predicate Distinct(s: seq<nat>) {
    forall c, e :: 0 <= c < e < |s| ==> s[c] != s[e]
  }

  /** The column indices 0 .. n-1, `torch.arange(n)`. */
  function Range(n: nat): (r: seq<nat>)
    ensures |r| == n
    ensures forall c :: 0 <= c < n ==> r[c] == c
  {
    seq(n, c => c)
  }

  /** Insertion of column `j` into an ascending list of columns. */
  function Insert(row: seq<real>, j: nat, s: seq<nat>): seq<nat>
    decreases |s|
  {
    if s == [] then [j]
    else if Before(row, j, s[0]) then [j] + s
    else [s[0]] + Insert(row, j, s[1..])
  }

  /** All given columns in ascending order (insertion sort). */
  function SortColumns(row: seq<real>, s: seq<nat>): seq<nat>
    decreases |s|
  {
    if s == [] then [] else Insert(row, s[0], SortColumns(row, s[1..]))
  }

  /** A column before every entry of an ascending list extends it. */
  lemma ConsAscending(row: seq<real>, a: nat, t: seq<nat>)
    requires a < |row| && Ascending(row, t)
    requires forall c :: 0 <= c < |t| ==> Before(row, a, t[c])
    ensures Ascending(row, [a] + t)
  {
    var r := [a] + t;
    forall c, e | 0 <= c < e < |r| ensures Before(row, r[c], r[e]) {
      assert r[e] == t[e - 1];
      if c > 0 {
        assert r[c] == t[c - 1];
      }
    }
  }

  /** The tail of an ascending list is ascending and follows its head. */
  lemma TailAscending(row: seq<real>, s: seq<nat>)
    requires s != [] && Ascending(row, s)
    ensures Ascending(row, s[1..])
    ensures forall c :: 0 <= c < |s[1..]| ==> Before(row, s[0], s[1..][c])
  {
    var t := s[1..];
    forall c, e | 0 <= c < e < |t| ensures Before(row, t[c], t[e]) {
      assert t[c] == s[c + 1] && t[e] == s[e + 1];
    }
    forall c | 0 <= c < |t| ensures Before(row, s[0], t[c]) {
      assert t[c] == s[c + 1];
    }
  }

  lemma {:induction false} InsertAscending(row: seq<real>, j: nat, s: seq<nat>)
    requires j < |row| && j !in s
    requires Ascending(row, s)
    ensures Ascending(row, Insert(row, j, s))
    ensures multiset(Insert(row, j, s)) == multiset(s) + multiset{j}
    decreases |s|
  {
    if s == [] {
    } else if Before(row, j, s[0]) {
      InsertAtHead(row, j, s);
    } else {
      assert s == [s[0]] + s[1..];
      TailAscending(row, s);
      InsertAscending(row, j, s[1..]);
      InsertAfterHead(row, j, s, Insert(row, j, s[1..]));
    }
  }

  lemma InsertAtHead(row: seq<real>, j: nat, s: seq<nat>)
    requires s != [] && Ascending(row, s) && Before(row, j, s[0])
    ensures Ascending(row, [j] + s)
  {
    forall c | 0 <= c < |s| ensures Before(row, j, s[c]) {
      if c > 0 {
        assert Before(row, s[0], s[c]);
      }
    }
    ConsAscending(row, j, s);
  }

  lemma InsertAfterHead(row: seq<real>, j: nat, s: seq<nat>, tail: seq<nat>)
    requires s != [] && j < |row| && j != s[0] && !Before(row, j, s[0])
    requires Ascending(row, s)
    requires Ascending(row, tail) && multiset(tail) == multiset(s[1..]) + multiset{j}
    ensures Ascending(row, [s[0]] + tail)
  {
    TailAscending(row, s);
    assert Before(row, s[0], j);
    forall c | 0 <= c < |tail| ensures Before(row, s[0], tail[c]) {
      var x := tail[c];
      assert x in multiset(tail);
      if x != j {
        assert x in multiset(s[1..]);
        var p :| 0 <= p < |s[1..]| && s[1..][p] == x;
      }
    }
    ConsAscending(row, s[0], tail);
  }

  lemma {:induction false} SortColumnsAscending(row: seq<real>, s: seq<nat>)
    requires Distinct(s)
    requires forall c :: 0 <= c < |s| ==> s[c] < |row|
    ensures Ascending(row, SortColumns(row, s))
    ensures multiset(SortColumns(row, s)) == multiset(s)
    decreases |s|
  {
    if s != [] {
      var rest := SortColumns(row, s[1..]);
      SortColumnsAscending(row, s[1..]);
      assert s == [s[0]] + s[1..];
      assert s[0] !in multiset(s[1..]);
      assert s[0] !in rest;
      InsertAscending(row, s[0], rest);
    }
  }

  /** `torch.topk(row, m, largest=False)`: the columns of the `m` smallest
      values, in ascending order. */
  function TopK(row: seq<real>, m: nat): (r: seq<nat>)
    requires m <= |row|
    ensures |r| == m
    ensures Ascending(row, r)
    ensures forall j :: 0 <= j < |row| && j !in r ==> forall c :: 0 <= c < m ==> Before(row, r[c], j)
  {
    var all := SortColumns(row, Range(|row|));
    SortColumnsAscending(row, Range(|row|));
    SortedIsPermutation(row, all);
    PrefixAscending(row, all, m);
    all[..m]
  }

  /** Every column appears in the sorted list of all columns. */
  lemma SortedIsPermutation(row: seq<real>, all: seq<nat>)
    requires all == SortColumns(row, Range(|row|))
    requires multiset(all) == multiset(Range(|row|))
    ensures |all| == |row|
    ensures forall j :: 0 <= j < |row| ==> j in all
  {
    assert |all| == |multiset(all)| == |multiset(Range(|row|))| == |row|;
    forall j | 0 <= j < |row| ensures j in all {
      assert Range(|row|)[j] == j;
      assert j in multiset(Range(|row|));
    }
  }

  /** A prefix of an ascending list of all columns is ascending, and every
      column left out of the prefix comes after every column in it. */
  lemma PrefixAscending(row: seq<real>, all: seq<nat>, m: nat)
    requires Ascending(row, all) && m <= |all|
    requires forall j :: 0 <= j < |row| ==> j in all
    ensures Ascending(row, all[..m])
    ensures forall j :: 0 <= j < |row| && j !in all[..m] ==> forall c :: 0 <= c < m ==> Before(row, all[..m][c], j)
  {
    var pre := all[..m];
    forall c, e | 0 <= c < e < |pre| ensures Before(row, pre[c], pre[e]) {
      assert pre[c] == all[c] && pre[e] == all[e];
    }
    forall j | 0 <= j < |row| && j !in pre ensures forall c :: 0 <= c < m ==> Before(row, pre[c], j) {
      assert j in all;
      var p :| 0 <= p < |all| && all[p] == j;
      forall c | 0 <= c < m ensures Before(row, pre[c], j) {
        assert pre[c] == all[c];
      }
    }
  }
}
