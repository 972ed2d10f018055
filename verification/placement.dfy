/**
 * Where `insertElementByPosition` puts a new child among existing children,
 * given each child's position (`getElementPosition`): a row's number, a
 * cell's column, or for other elements a stand-in described where it is used.
 * Also the renumbering of rows the insertion of a row causes.
 */
module Placement {

  /** The first index `j >= from` whose position is at least `pos`, or `|ps|`. */
  function FirstAtLeast(ps: seq<int>, pos: int, from: nat): (j: nat)
    ensures j <= |ps|
    ensures from <= |ps| ==> from <= j
    ensures forall i :: from <= i < j ==> ps[i] < pos
    ensures j < |ps| ==> pos <= ps[j]
    decreases |ps| - from
  {
    if from >= |ps| then |ps|
    else if pos <= ps[from] then from
    else FirstAtLeast(ps, pos, from + 1)
  }

  /**
   * The index the new child takes: before the first child when `pos` is below
   * its position; otherwise before the first later child whose position is
   * at least `pos`; otherwise at the end. The first child itself is only
   * compared strictly, so a new child at the first child's own position goes
   * after it.
   */
  function InsertIndex(ps: seq<int>, pos: int): (k: nat)
    ensures k <= |ps|
  {
    if |ps| == 0 || pos < ps[0] then 0 else FirstAtLeast(ps, pos, 1)
  }

  /**
   * The placement loop of `insertElementByPosition`, child by child. `bound`
   * tells whether it stopped at a child by the first test (`$position <` the
   * child's position), which only the first child can meet: the placement is
   * then a PHP reference to the loop variable itself, not to a child.
   */
  method InsertPosition(ps: seq<int>, pos: int) returns (k: nat, bound: bool)
    ensures k == InsertIndex(ps, pos)
    ensures bound <==> |ps| > 0 && pos < ps[0]
  {
    var ix := 0;
    while ix < |ps|
      invariant 0 <= ix <= |ps|
      invariant ix > 0 ==> InsertIndex(ps, pos) == FirstAtLeast(ps, pos, ix + 1)
      invariant ix > 0 ==> ps[0] <= pos
      invariant ix > 0 && ix < |ps| ==> ps[ix] < pos
    {
      if pos < ps[ix] {
        return ix, true;
      }
      if ix + 1 < |ps| && pos <= ps[ix + 1] {
        return ix + 1, false;
      }
      ix := ix + 1;
    }
    return |ps|, false;
  }

  /** What the placement means: every child before the new one is below it, save possibly the first. */
  lemma InsertIndexMeaning(ps: seq<int>, pos: int)
    ensures var k := InsertIndex(ps, pos);
      && (k == 0 <==> |ps| == 0 || pos < ps[0])
      && (forall i :: 1 <= i < k ==> ps[i] < pos)
      && (k > 0 ==> ps[0] <= pos)
      && (k < |ps| ==> pos <= ps[k])
  {
  }

  /** A new child positioned past every existing child is appended. */
  lemma InsertPastAll(ps: seq<int>, pos: int)
    requires forall i :: 0 <= i < |ps| ==> ps[i] < pos
    ensures InsertIndex(ps, pos) == |ps|
  {
  }

  /** Children that all report position 0 take a new child at 0 second, not first. */
  lemma InsertAtZeroAmongZeros(ps: seq<int>)
    requires |ps| >= 2 && forall i :: 0 <= i < |ps| ==> ps[i] == 0
    ensures InsertIndex(ps, 0) == 1
  {
  }

  function Insert<T>(s: seq<T>, k: nat, x: T): (r: seq<T>)
    requires k <= |s|
    ensures |r| == |s| + 1 && r[k] == x
    ensures forall i :: 0 <= i < k ==> r[i] == s[i]
    ensures forall i :: k < i < |r| ==> r[i] == s[i - 1]
  {
    s[..k] + [x] + s[k..]
  }

  /** A row number after a row is inserted at `pos`: rows at or below it move down one. */
  function Bump(p: int, pos: int): int
  {
    if p >= pos then p + 1 else p
  }

  function Shifted(ps: seq<int>, pos: int): (qs: seq<int>)
    ensures |qs| == |ps|
    ensures forall i :: 0 <= i < |ps| ==> qs[i] == Bump(ps[i], pos)
  {
    if |ps| == 0 then [] else [Bump(ps[0], pos)] + Shifted(ps[1..], pos)
  }

  predicate Increasing(ps: seq<int>)
  {
    forall i, j :: 0 <= i < j < |ps| ==> ps[i] < ps[j]
  }

  /**
   * The index a new ROW takes. When the placement loop stopped at the first
   * row, the placement is a reference to the loop variable, and the loop that
   * renumbers rows then assigns every row to that variable in turn: the new
   * row goes in before the LAST row. Elements other than rows have no such
   * second loop and take `InsertIndex`.
   */
  function RowInsertIndex(ps: seq<int>, pos: int): (k: nat)
    ensures k <= |ps|
  {
    if |ps| > 0 && pos < ps[0] then |ps| - 1 else InsertIndex(ps, pos)
  }

  /**
   * A row goes where `InsertIndex` intends except when it is numbered below
   * the first of two or more rows; then it goes before the last one.
   */
  lemma RowInsertIndexMeaning(ps: seq<int>, pos: int)
    ensures RowInsertIndex(ps, pos) == InsertIndex(ps, pos) <==> !(|ps| >= 2 && pos < ps[0])
    ensures |ps| >= 2 && pos < ps[0] ==> RowInsertIndex(ps, pos) == |ps| - 1
  {
  }

  /** Rows 2 and 3 with row 1 inserted: renumbered 3 and 4, with 1 between them. */
  lemma RowBelowFirstGoesBeforeLast()
    ensures Insert(Shifted([2, 3], 1), RowInsertIndex([2, 3], 1), 1) == [3, 1, 4]
  {
    assert Shifted([2, 3], 1) == [3, 4];
  }

  /**
   * As written, inserting a row into rows in increasing order keeps them in
   * increasing order exactly when there were no rows, the new number is past
   * the first row's, or it is below the only row's.
   */
  lemma RowInsertOrderAsWritten(ps: seq<int>, pos: int)
    requires Increasing(ps)
    ensures Increasing(Insert(Shifted(ps, pos), RowInsertIndex(ps, pos), pos))
        <==> (|ps| == 0 || pos > ps[0] || (|ps| == 1 && pos < ps[0]))
  {
    var k := RowInsertIndex(ps, pos);
    var r := Insert(Shifted(ps, pos), k, pos);
    if |ps| >= 2 && pos < ps[0] {
      assert k >= 1 && r[0] == ps[0] + 1 && r[k] == pos;
    } else {
      RowInsertOrder(ps, pos);
    }
  }

  /**
   * The intended placement: inserting a row into rows in increasing order
   * keeps them in increasing order exactly when the new row's number differs
   * from the first row's.
   */
  lemma RowInsertOrder(ps: seq<int>, pos: int)
    requires Increasing(ps)
    ensures Increasing(Insert(Shifted(ps, pos), InsertIndex(ps, pos), pos)) <==> (|ps| == 0 || pos != ps[0])
  {
    var k := InsertIndex(ps, pos);
    var r := Insert(Shifted(ps, pos), k, pos);
    InsertIndexMeaning(ps, pos);
    if |ps| > 0 && pos == ps[0] {
      assert k >= 1 && r[0] == pos + 1 && r[k] == pos;
    } else {
      forall i, j | 0 <= i < j < |r|
        ensures r[i] < r[j]
      {
        RowInsertPair(ps, pos, i, j);
      }
    }
  }

  lemma RowInsertPair(ps: seq<int>, pos: int, i: nat, j: nat)
    requires Increasing(ps) && (|ps| == 0 || pos != ps[0])
    requires i < j < |ps| + 1
    ensures var r := Insert(Shifted(ps, pos), InsertIndex(ps, pos), pos); r[i] < r[j]
  {
    var k := InsertIndex(ps, pos);
    InsertIndexMeaning(ps, pos);
    var ri := InsertedRowAt(ps, pos, i);
    var rj := InsertedRowAt(ps, pos, j);
    if j < k {
      assert ps[i] < ps[j];
    } else if i > k {
      assert ps[i - 1] < ps[j - 1];
    } else if i == k {
      assert ps[k] <= ps[j - 1];
    } else if j > k {
      assert ps[i] < pos <= ps[j - 1];
    }
  }

  /** The number at index `t` after a row numbered `pos` is inserted. */
  lemma InsertedRowAt(ps: seq<int>, pos: int, t: nat) returns (v: int)
    requires Increasing(ps) && (|ps| == 0 || pos != ps[0])
    requires t < |ps| + 1
    ensures v == Insert(Shifted(ps, pos), InsertIndex(ps, pos), pos)[t]
    ensures var k := InsertIndex(ps, pos);
      v == if t < k then ps[t] else if t == k then pos else ps[t - 1] + 1
  {
    var k := InsertIndex(ps, pos);
    InsertIndexMeaning(ps, pos);
    var qs := Shifted(ps, pos);
    v := Insert(qs, k, pos)[t];
    if t < k {
      assert ps[t] < pos;
    } else if t > k {
      assert ps[t - 1] >= ps[k] >= pos;
    }
  }

  /** Inserting a cell at a column no cell has keeps the columns in increasing order. */
  lemma CellInsertOrder(ps: seq<int>, pos: int)
    requires Increasing(ps)
    requires forall i :: 0 <= i < |ps| ==> ps[i] != pos
    ensures Increasing(Insert(ps, InsertIndex(ps, pos), pos))
  {
    var k := InsertIndex(ps, pos);
    var r := Insert(ps, k, pos);
    InsertIndexMeaning(ps, pos);
    forall i, j | 0 <= i < j < |r|
      ensures r[i] < r[j]
    {
      if j < k {
      } else if j == k {
        assert r[i] == ps[i];
      } else if i > k {
        assert r[i] == ps[i - 1] && r[j] == ps[j - 1];
      } else if i == k {
        assert ps[j - 1] >= ps[k];
      } else {
        assert r[i] == ps[i] && r[j] == ps[j - 1];
      }
    }
  }
}
