/** The occupied stretch of a ring of cells, wherever it starts and however it wraps. */
module RingWindow {
  import opened Bytes

  datatype Cell = Cell(hasData: bool, item: seq<byte>)

  const EMPTY_CELL := Cell(false, [])

  /** Position `x` of a ring of `n` cells, for `x` at most once around. */
  function Wrap(n: nat, x: nat): nat {
    if x >= n then x - n else x
  }

  /** How far behind position `from` position `i` lies on a ring of `n` cells. */
  function Distance(n: nat, from: nat, i: nat): nat
    requires from < n && i < n
  {
    if i >= from then i - from else i + n - from
  }

  /** What the cell at distance `d` from the front has to be when the ring holds `q`. */
  function Expected(q: seq<seq<byte>>, d: nat): Cell {
    if d < |q| then Cell(true, q[d]) else EMPTY_CELL
  }

  /** From `out` on the cells hold `q` in order; every other cell is empty. */
  ghost predicate Window(cells: seq<Cell>, out: nat, q: seq<seq<byte>>) {
    && |q| <= |cells|
    && (if cells == [] then out == 0 else out < |cells|)
    && forall i :: 0 <= i < |cells| ==> cells[i] == Expected(q, Distance(|cells|, out, i))
  }

  lemma Push(cells: seq<Cell>, out: nat, q: seq<seq<byte>>, item: seq<byte>)
    requires Window(cells, out, q) && |q| < |cells|
    ensures var i := Wrap(|cells|, out + |q|);
      && i < |cells|
      && cells[i] == EMPTY_CELL
      && Window(cells[i := Cell(true, item)], out, q + [item])
      && Wrap(|cells|, i + 1) == Wrap(|cells|, out + |q + [item]|)
  {
  }

  lemma Pop(cells: seq<Cell>, out: nat, q: seq<seq<byte>>)
    requires Window(cells, out, q) && q != []
    ensures out < |cells| && cells[out] == Cell(true, q[0])
    ensures var out' := Wrap(|cells|, out + 1);
      && Window(cells[out := EMPTY_CELL], out', q[1..])
      && Wrap(|cells|, out + |q|) == Wrap(|cells|, out' + |q[1..]|)
  {
  }

  /** With some but not all cells taken, the next cell in is not the next cell out. */
  lemma EndsApart(n: nat, out: nat, size: nat)
    requires 0 < size < n && out < n
    ensures Wrap(n, out + size) != out
  {
  }
}
