/** Byte strings and the few facts about them the other modules share. */
module Bytes {

  type byte = b: int | 0 <= b < 256

  /** Largest value of a `uint16_t`, the width of every length the queues and frames carry. */
  const MAX_U16: nat := 65535

  /** The bytes a copy of at most `n` bytes out of `s` delivers. */
  function Prefix(s: seq<byte>, n: nat): (r: seq<byte>)
    ensures r <= s && |r| <= n && (|r| == n || r == s)
  {
    if n < |s| then s[..n] else s
  }

  /** All parts of `ss`, one after the other. */
  function Flat(ss: seq<seq<byte>>): seq<byte> {
    if ss == [] then [] else ss[0] + Flat(ss[1..])
  }

  lemma {:induction false} FlatAppend(a: seq<seq<byte>>, b: seq<seq<byte>>)
    ensures Flat(a + b) == Flat(a) + Flat(b)
  {
    if a == [] {
      assert a + b == b;
    } else {
      var tail := a[1..];
      FlatAppend(tail, b);
      assert (a + b)[1..] == tail + b && (a + b)[0] == a[0];
      assert Flat(a + b) == a[0] + (Flat(tail) + Flat(b)) == (a[0] + Flat(tail)) + Flat(b);
    }
  }

  lemma FlatSnoc(a: seq<seq<byte>>, x: seq<byte>)
    ensures Flat(a + [x]) == Flat(a) + x
  {
    FlatAppend(a, [x]);
    assert [x][1..] == [];
  }
}
