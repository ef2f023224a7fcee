/** The circular array of reusable cells. */
module RingQueue {
  import opened Bytes
  import opened Fifo
  import opened RingWindow

  /** A cell: a vector that only grows, and how much of it is in use. */
  class Bag {
    var data: seq<byte>
    var dataSize: nat
    var hasData: bool

    ghost predicate Valid()
      reads this
    {
      dataSize <= |data| && (!hasData ==> dataSize == 0)
    }

    ghost function Held(): seq<byte>
      requires Valid()
      reads this
    {
      data[..dataSize]
    }

    constructor (initCellSize: nat)
      ensures Valid() && !hasData && |data| == initCellSize
    {
      data := seq(initCellSize, _ => 0);
      dataSize, hasData := 0, false;
    }

    method Put(inData: seq<byte>) returns (n: nat)
      requires Valid()
      modifies this
      ensures Valid() && hasData && Held() == inData && n == |inData|
      ensures |data| == if |old(data)| < |inData| then |inData| else |old(data)|
    {
      if |data| < |inData| {
        data := data + seq(|inData| - |data|, _ => 0);
      }
      data := inData + data[|inData|..];
      hasData, dataSize := true, |inData|;
      n := |inData|;
    }

    method Get(out: array<byte>, size: nat) returns (n: nat)
      requires Valid() && size <= out.Length
      modifies this, out
      ensures Valid() && !hasData && |data| == |old(data)|
      ensures n == |Prefix(old(Held()), size)| <= out.Length
      ensures out[..n] == Prefix(old(Held()), size) && out[n..] == old(out[..])[n..]
    {
      n := Peek(out, size);
      hasData, dataSize := false, 0;
    }

    method Peek(out: array<byte>, size: nat) returns (n: nat)
      requires Valid() && size <= out.Length
      modifies out
      ensures n == |Prefix(Held(), size)|
      ensures n <= out.Length && out[..n] == Prefix(Held(), size) && out[n..] == old(out[..])[n..]
    {
      if !hasData {
        return 0;
      }
      n := if size < dataSize then size else dataSize;
      forall i | 0 <= i < n {
        out[i] := data[i];
      }
    }
  }

  /** The cells are distinct, sound, and read as `view`. */
  ghost predicate Mirrors(cells: seq<Bag>, view: seq<Cell>)
    reads cells
  {
    && |view| == |cells|
    && (forall i, j :: 0 <= i < j < |cells| ==> cells[i] != cells[j])
    && (forall i :: 0 <= i < |cells| ==> cells[i].Valid() && view[i] == Cell(cells[i].hasData, cells[i].Held()))
  }

  lemma MirrorsSize(cells: seq<Bag>, view: seq<Cell>)
    requires Mirrors(cells, view)
    ensures |view| == |cells|
  {
  }

  /** `m_ring_vector->at(i)->put(...)`: one cell changes, in the array and in its view. */
  method FillCell(cells: seq<Bag>, ghost view: seq<Cell>, i: nat, buf: seq<byte>)
    returns (n: nat, ghost view': seq<Cell>)
    requires Mirrors(cells, view) && i < |cells|
    modifies cells[i]
    ensures view' == view[i := Cell(true, buf)] && Mirrors(cells, view')
    ensures n == |buf|
  {
    n := cells[i].Put(buf);
    view' := view[i := Cell(true, buf)];
  }

  /** `m_ring_vector->at(i)->get(...)`: the bytes are copied out and the cell is free again. */
  method DrainCell(cells: seq<Bag>, ghost view: seq<Cell>, i: nat, out: array<byte>, room: nat)
    returns (n: nat, ghost view': seq<Cell>)
    requires Mirrors(cells, view) && i < |cells| && room <= out.Length
    modifies cells[i], out
    ensures view' == view[i := EMPTY_CELL] && Mirrors(cells, view')
    ensures n == |Prefix(view[i].item, room)| <= out.Length
    ensures out[..n] == Prefix(view[i].item, room) && out[n..] == old(out[..])[n..]
  {
    n := cells[i].Get(out, room);
    view' := view[i := EMPTY_CELL];
  }

  class RingQueue {
    const cells: seq<Bag>
    /** `QueueBase::m_total_count`: hidden by the ring's own count and never set. */
    const baseTotalCount: nat := 0

    var indexIn: nat
    var indexOut: nat
    var size: nat
    var status: Status

    /** The cells as values, the queue they stand for, and every call with its reply. */
    ghost var view: seq<Cell>
    ghost var contents: seq<seq<byte>>
    ghost var log: seq<Entry>

    /**
      The occupied cells are the `size` cells from `indexOut` on; they hold the
      contents in order, and no other cell has data.  The history is a legal one.
     */
    ghost predicate Valid()
      reads this, cells
    {
      && Mirrors(cells, view)
      && Window(view, indexOut, contents)
      && size == |contents|
      && indexIn == Wrap(|cells|, indexOut + size)
      && Legal(|cells|, log) && Replay(|cells|, log) == contents
    }

    constructor (count: nat, cellSize: nat)
      ensures Valid() && fresh(cells) && |cells| == count
      ensures contents == [] && log == [] && status == Ok
    {
      var bags: seq<Bag> := [];
      for i := 0 to count
        invariant |bags| == i && fresh(bags)
        invariant forall j :: 0 <= j < i ==> bags[j].Valid() && !bags[j].hasData
        invariant forall j, k :: 0 <= j < k < i ==> bags[j] != bags[k]
      {
        var bag := new Bag(cellSize);
        bags := bags + [bag];
      }
      cells := bags;
      indexIn, indexOut, size, status := 0, 0, 0, Ok;
      view, contents, log := seq(count, _ => EMPTY_CELL), [], [];
    }

    /** What `capacity()` answers: the hidden count, whatever the number of cells. */
    function Capacity(): (c: nat)
      ensures c == 0
    {
      baseTotalCount
    }

    method Put(buf: seq<byte>) returns (ret: nat)
      requires Valid() && |buf| <= MAX_U16
      modifies this, cells
      ensures Valid()
      ensures contents == After(|cells|, old(contents), Fifo.Put(buf))
      ensures Reply([], ret, status) == Answer(|cells|, old(contents), Fifo.Put(buf))
      ensures log == old(log) + [Entry(Fifo.Put(buf), Reply([], ret, status))]
      ensures ret <= MAX_U16
    {
      hide Legal, Replay, Window, Mirrors;
      MirrorsSize(cells, view);
      status := Ok;
      if size < |cells| {
        Push(view, indexOut, contents, buf);
        ret, view := FillCell(cells, view, indexIn, buf);
        contents := contents + [buf];
        indexIn := indexIn + 1;
        if indexIn == |cells| {
          indexIn := 0;
        }
        size := size + 1;
      } else {
        status := Full;
        ret := 0;
      }
      Record(Entry(Fifo.Put(buf), Reply([], ret, status)));
    }

    method Get(out: array<byte>, room: nat) returns (ret: nat)
      requires Valid() && room <= out.Length && room <= MAX_U16
      modifies this, cells, out
      ensures Valid()
      ensures contents == After(|cells|, old(contents), Fifo.Get(room))
      ensures ret <= out.Length && ret <= MAX_U16
      ensures Reply(out[..ret], ret, status) == Answer(|cells|, old(contents), Fifo.Get(room))
      ensures out[ret..] == old(out[..])[ret..]
      ensures log == old(log) + [Entry(Fifo.Get(room), Reply(out[..ret], ret, status))]
    {
      hide Legal, Replay, Window, Mirrors, Prefix;
      MirrorsSize(cells, view);
      status := Ok;
      if size > 0 {
        Pop(view, indexOut, contents);
        ret, view := DrainCell(cells, view, indexOut, out, room);
        contents := contents[1..];
        indexOut := indexOut + 1;
        if indexOut == |cells| {
          indexOut := 0;
        }
        size := size - 1;
      } else {
        status := Empty;
        ret := 0;
      }
      Record(Entry(Fifo.Get(room), Reply(out[..ret], ret, status)));
    }

    method Peek(out: array<byte>, room: nat) returns (ret: nat)
      requires Valid() && room <= out.Length && room <= MAX_U16
      modifies this, out
      ensures Valid() && contents == old(contents)
      ensures ret <= out.Length && ret <= MAX_U16
      ensures Reply(out[..ret], ret, status) == Answer(|cells|, old(contents), Fifo.Peek(room))
      ensures out[ret..] == old(out[..])[ret..]
      ensures log == old(log) + [Entry(Fifo.Peek(room), Reply(out[..ret], ret, status))]
    {
      hide Legal, Replay, Window;
      status := Ok;
      if size > 0 {
        Pop(view, indexOut, contents);
        ret := cells[indexOut].Peek(out, room);
      } else {
        status := Empty;
        ret := 0;
      }
      Record(Entry(Fifo.Peek(room), Reply(out[..ret], ret, status)));
    }

    /** Note the call in the history. */
    ghost method Record(e: Entry)
      requires Legal(|cells|, log)
      requires e.reply == Answer(|cells|, Replay(|cells|, log), e.op)
      modifies `log
      ensures log == old(log) + [e]
      ensures Legal(|cells|, log) && Replay(|cells|, log) == After(|cells|, Replay(|cells|, old(log)), e.op)
    {
      LegalSnoc(|cells|, log, e);
      log := log + [e];
    }
  }
}
