/**
 The module heatmap of the ticket graph: a triangular double loop over the
 nodes that counts, per pair of modules, the unordered pairs of nodes.
 */
module Heatmap {
  import opened Common

  /** How many nodes belong to module m. */
  function NodesIn(mods: seq<nat>, m: nat): nat {
    Count<nat>(mods, m)
  }

  /** 1 + 2 + ... + k. */
  function Triangle(k: nat): nat {
    if k == 0 then 0 else Triangle(k - 1) + k
  }

  lemma {:induction false} TriangleClosedForm(k: nat)
    ensures Triangle(k) == k * (k + 1) / 2
  {
    if k > 0 {
      TriangleClosedForm(k - 1);
      assert k * (k + 1) == (k - 1) * k + 2 * k;
    }
  }

  /** Unordered pairs (with repetition when a == b) of nodes of modules a and b. */
  function Pairs(mods: seq<nat>, a: nat, b: nat): nat {
    if a == b then Triangle(NodesIn(mods, a)) else NodesIn(mods, a) * NodesIn(mods, b)
  }

  /** In the numbers of nodes per module: k(k+1)/2 on the diagonal, products elsewhere. */
  lemma PairsMeaning(mods: seq<nat>, a: nat, b: nat)
    ensures a == b ==> Pairs(mods, a, b) == multiset(mods)[a] * (multiset(mods)[a] + 1) / 2
    ensures a != b ==> Pairs(mods, a, b) == multiset(mods)[a] * multiset(mods)[b]
  {
    CountIsMultiplicity<nat>(mods, a);
    CountIsMultiplicity<nat>(mods, b);
    TriangleClosedForm(NodesIn(mods, a));
  }

  /** What the inner loop adds to cell (a, b) for a row of module m over the remaining columns. */
  function RowShare(m: nat, columns: seq<nat>, a: nat, b: nat): nat {
    if a == b then (if m == a then NodesIn(columns, a) else 0)
    else (if m == a then NodesIn(columns, b) else 0) + (if m == b then NodesIn(columns, a) else 0)
  }

  /** The pairs of a list are those of its head, the head's own cell included, and those of its tail. */
  lemma PairsOfHead(mods: seq<nat>, a: nat, b: nat)
    requires mods != []
    ensures Pairs(mods, a, b) == RowShare(mods[0], mods, a, b) + Pairs(mods[1..], a, b)
  {
    var m, ka, kb := mods[0], NodesIn(mods[1..], a), NodesIn(mods[1..], b);
    if a != b && m == a {
      assert (ka + 1) * kb == ka * kb + kb;
    } else if a != b && m == b {
      assert ka * (kb + 1) == ka * kb + ka;
    }
  }

  lemma PairsFrom(mods: seq<nat>, i: nat)
    requires i < |mods|
    ensures forall a: nat, b: nat ::
      Pairs(mods[i..], a, b) == RowShare(mods[i], mods[i..], a, b) + Pairs(mods[i + 1..], a, b)
  {
    forall a: nat, b: nat
      ensures Pairs(mods[i..], a, b) == RowShare(mods[i], mods[i..], a, b) + Pairs(mods[i + 1..], a, b)
    {
      PairsOfHead(mods[i..], a, b);
      assert mods[i..][1..] == mods[i + 1..];
    }
  }

  /** What one column adds to cell (a, b) in a row of module m. */
  function PairShare(m: nat, column: nat, same: bool, a: nat, b: nat): nat {
    (if a == m && b == column then 1 else 0) + (if !same && m != column && a == column && b == m then 1 else 0)
  }

  /** Node pair of modules m and column: one cell, or the two mirrored ones. */
  method CountPair(cells: array2<int>, m: nat, column: nat, same: bool)
    requires m < cells.Length0 == cells.Length1 && column < cells.Length0 && (same ==> m == column)
    modifies cells
    ensures forall a: nat, b: nat :: a < cells.Length0 && b < cells.Length1 ==>
      cells[a, b] == old(cells[a, b]) + PairShare(m, column, same, a, b)
  {
    if same {
      cells[m, m] := cells[m, m] + 1;
    } else {
      cells[m, column] := cells[m, column] + 1;
      if m != column {
        cells[column, m] := cells[column, m] + 1;
      }
    }
  }

  /** The loops end with the closed form: k(k+1)/2 on the diagonal, products elsewhere. */
  method BuildCells(mods: seq<nat>, size: nat) returns (cells: array2<int>)
    requires forall i :: 0 <= i < |mods| ==> mods[i] < size
    ensures fresh(cells) && cells.Length0 == size && cells.Length1 == size
    ensures forall a, b :: 0 <= a < size && 0 <= b < size ==> cells[a, b] == Pairs(mods, a, b)
    ensures forall a: nat :: a < size ==> cells[a, a] == multiset(mods)[a] * (multiset(mods)[a] + 1) / 2
    ensures forall a: nat, b: nat :: a < size && b < size && a != b ==>
      cells[a, b] == multiset(mods)[a] * multiset(mods)[b]
  {
    cells := new int[size, size]((_, _) => 0);
    var n := |mods|;
    for i := 0 to n
      invariant forall a, b :: 0 <= a < size && 0 <= b < size ==>
        cells[a, b] + Pairs(mods[i..], a, b) == Pairs(mods, a, b)
    {
      var mi := mods[i];
      PairsFrom(mods, i);
      for j := i to n
        invariant forall a, b :: 0 <= a < size && 0 <= b < size ==>
          cells[a, b] + RowShare(mi, mods[j..], a, b) + Pairs(mods[i + 1..], a, b) == Pairs(mods, a, b)
      {
        CountPair(cells, mi, mods[j], i == j);
      }
    }
    forall a: nat, b: nat
      ensures a == b ==> Pairs(mods, a, b) == multiset(mods)[a] * (multiset(mods)[a] + 1) / 2
      ensures a != b ==> Pairs(mods, a, b) == multiset(mods)[a] * multiset(mods)[b]
    {
      PairsMeaning(mods, a, b);
    }
  }

  lemma PairsSymmetric(mods: seq<nat>, a: nat, b: nat)
    ensures Pairs(mods, a, b) == Pairs(mods, b, a)
  {
    assert NodesIn(mods, a) * NodesIn(mods, b) == NodesIn(mods, b) * NodesIn(mods, a);
  }

  // ---- The upper triangle counts every unordered pair of nodes once ----

  /** Nodes of the modules below m. */
  function NodesBelow(mods: seq<nat>, m: nat): nat {
    if m == 0 then 0 else NodesBelow(mods, m - 1) + NodesIn(mods, m - 1)
  }

  /** Column b of the matrix, rows 0 up to a. */
  function ColumnSum(mods: seq<nat>, a: nat, b: nat): nat {
    if a == 0 then 0 else ColumnSum(mods, a - 1, b) + Pairs(mods, a - 1, b)
  }

  /** The upper triangle with its diagonal, over the columns below m. */
  function UpperSum(mods: seq<nat>, m: nat): nat {
    if m == 0 then 0 else UpperSum(mods, m - 1) + ColumnSum(mods, m, m - 1)
  }

  lemma {:induction false} ColumnAboveDiagonal(mods: seq<nat>, a: nat, b: nat)
    requires a <= b
    ensures ColumnSum(mods, a, b) == NodesBelow(mods, a) * NodesIn(mods, b)
  {
    if a > 0 {
      ColumnAboveDiagonal(mods, a - 1, b);
      var p, k, c := NodesBelow(mods, a - 1), NodesIn(mods, a - 1), NodesIn(mods, b);
      assert Pairs(mods, a - 1, b) == k * c;
      assert NodesBelow(mods, a) == p + k;
    }
  }

  lemma {:induction false} TriangleOfSum(p: nat, k: nat)
    ensures Triangle(p + k) == Triangle(p) + Triangle(k) + p * k
  {
    if k > 0 {
      TriangleOfSum(p, k - 1);
      assert p * k == p * (k - 1) + p;
    }
  }

  lemma {:induction false} UpperTriangle(mods: seq<nat>, m: nat)
    ensures UpperSum(mods, m) == Triangle(NodesBelow(mods, m))
  {
    if m > 0 {
      UpperTriangle(mods, m - 1);
      ColumnAboveDiagonal(mods, m - 1, m - 1);
      var p, k := NodesBelow(mods, m - 1), NodesIn(mods, m - 1);
      TriangleOfSum(p, k);
      assert ColumnSum(mods, m, m - 1) == p * k + Triangle(k);
    }
  }

  lemma {:induction false} NodesBelowHead(mods: seq<nat>, m: nat)
    requires mods != []
    ensures NodesBelow(mods, m) == (if mods[0] < m then 1 else 0) + NodesBelow(mods[1..], m)
  {
    if m > 0 {
      NodesBelowHead(mods, m - 1);
    }
  }

  lemma {:induction false} AllNodesBelow(mods: seq<nat>, size: nat)
    requires forall i :: 0 <= i < |mods| ==> mods[i] < size
    ensures NodesBelow(mods, size) == |mods|
  {
    if mods != [] {
      NodesBelowHead(mods, size);
      AllNodesBelow(mods[1..], size);
    } else {
      NoNodes(size);
    }
  }

  lemma {:induction false} NoNodes(m: nat)
    ensures NodesBelow([], m) == 0
  {
    if m > 0 {
      NoNodes(m - 1);
    }
  }

  /** Conservation: the upper triangle with diagonal sums to n(n+1)/2. */
  lemma UpperTriangleTotal(mods: seq<nat>, size: nat)
    requires forall i :: 0 <= i < |mods| ==> mods[i] < size
    ensures UpperSum(mods, size) == Triangle(|mods|)
  {
    UpperTriangle(mods, size);
    AllNodesBelow(mods, size);
  }
}
