/**
  The frame format and what a whole byte stream means.

  `Parse` is the recursive reference reading of a stream: look at the front,
  drop one byte, take one frame, or stop.  The loop in `ParserExample` is proved
  against it, and the laws of the stream are proved about it.

  The parameter `k` is the smallest size field the header check lets through.
  The source writes `sizeof(head)` there, the size of a pointer.
 */
module Frames {
  import opened Bytes

  const HEAD_SIZE: nat := 12
  const MAIN_WORD: nat := 0xffff_ffff

  /** `sizeof(head)` on a 64-bit host, the value the header check compares with. */
  const POINTER_SIZE: nat := 8

  /** The packed header; a little-endian host is assumed, as the source does. */
  datatype DataHead = DataHead(mainWord: nat, msgType: nat, msgVer: nat, size: nat, reserv: nat) {
    predicate Fits() {
      mainWord <= MAIN_WORD && msgType <= MAX_U16 && msgVer <= MAX_U16 && size <= MAX_U16 && reserv <= MAX_U16
    }
  }

  function Le16(x: nat): seq<byte>
    requires x <= MAX_U16
  {
    [x % 256, x / 256]
  }

  function Le32(x: nat): seq<byte>
    requires x <= MAIN_WORD
  {
    Le16(x % 65536) + Le16(x / 65536)
  }

  function U16At(s: seq<byte>, i: nat): (x: nat)
    requires i + 2 <= |s|
    ensures x <= MAX_U16
  {
    s[i] as int + 256 * (s[i + 1] as int)
  }

  function U32At(s: seq<byte>, i: nat): (x: nat)
    requires i + 4 <= |s|
    ensures x <= MAIN_WORD
  {
    U16At(s, i) + 65536 * U16At(s, i + 2)
  }

  /** The twelve bytes `memcpy` moves out of a header. */
  function HeadBytes(h: DataHead): (s: seq<byte>)
    requires h.Fits()
    ensures |s| == HEAD_SIZE
  {
    Le32(h.mainWord) + Le16(h.msgType) + Le16(h.msgVer) + Le16(h.size) + Le16(h.reserv)
  }

  /** The header a cast of the first twelve bytes sees. */
  function ReadHead(s: seq<byte>): (h: DataHead)
    requires |s| >= HEAD_SIZE
    ensures h.Fits()
  {
    DataHead(U32At(s, 0), U16At(s, 4), U16At(s, 6), U16At(s, 8), U16At(s, 10))
  }

  lemma HeadRoundTrip(h: DataHead, rest: seq<byte>)
    requires h.Fits()
    ensures ReadHead(HeadBytes(h) + rest) == h
  {
    var s := HeadBytes(h) + rest;
    assert s[..4] == Le32(h.mainWord);
    assert s[0] == h.mainWord % 65536 % 256 && s[1] == h.mainWord % 65536 / 256;
    assert s[2] == h.mainWord / 65536 % 256 && s[3] == h.mainWord / 65536 / 256;
  }

  /** Only the first twelve bytes decide what the header says. */
  lemma ReadHeadStable(s: seq<byte>, t: seq<byte>)
    requires |s| >= HEAD_SIZE && |t| >= HEAD_SIZE && s[..HEAD_SIZE] == t[..HEAD_SIZE]
    ensures ReadHead(s) == ReadHead(t)
  {
    assert forall i :: 0 <= i < HEAD_SIZE ==> s[i] == s[..HEAD_SIZE][i] == t[i];
  }

  /** The check `_receiving_header` makes, with `k` for `sizeof(head)`. */
  predicate GoodHead(k: nat, s: seq<byte>) {
    |s| >= HEAD_SIZE && ReadHead(s).mainWord == MAIN_WORD && ReadHead(s).size >= k
  }

  /** The source looks at the first byte alone before it builds the header. */
  lemma FirstByteDecides(k: nat, s: seq<byte>)
    requires |s| >= HEAD_SIZE && s[0] != 0xff
    ensures !GoodHead(k, s)
  {
    assert ReadHead(s).mainWord == U16At(s, 0) + 65536 * U16At(s, 2);
  }

  /** The check on the bytes: four of 0xff, and a size field, low byte first, of `k` or more. No other byte matters. */
  lemma GoodHeadBytes(k: nat, s: seq<byte>)
    ensures GoodHead(k, s) <==>
      && |s| >= 12
      && s[0] == 0xff && s[1] == 0xff && s[2] == 0xff && s[3] == 0xff
      && s[8] as int + 256 * (s[9] as int) >= k
  {
    if |s| >= HEAD_SIZE {
      var low, high := U16At(s, 0), U16At(s, 2);
      assert low + 65536 * high == MAIN_WORD <==> low == MAX_U16 && high == MAX_U16;
    }
  }

  /** What the parser does with a buffer that starts with `s`. */
  datatype Verdict = NeedMore | Drop | Emit(n: nat) | Fault

  /** `Fault`: the frame is shorter than its own header, and the copy range runs backwards. */
  function Look(k: nat, s: seq<byte>): (v: Verdict)
    ensures v != NeedMore ==> |s| >= HEAD_SIZE
    ensures v.Emit? ==> HEAD_SIZE <= v.n <= |s| && v.n <= MAX_U16
  {
    if |s| < HEAD_SIZE then NeedMore
    else if !GoodHead(k, s) then Drop
    else if |s| < ReadHead(s).size then NeedMore
    else if ReadHead(s).size < HEAD_SIZE then Fault
    else Emit(ReadHead(s).size)
  }

  datatype Outcome = Outcome(datagrams: seq<seq<byte>>, residue: seq<byte>, fault: bool)

  /** The reference reading of a whole stream. */
  function Parse(k: nat, s: seq<byte>): Outcome
    decreases |s|
  {
    match Look(k, s)
    case NeedMore => Outcome([], s, false)
    case Fault => Outcome([], s, true)
    case Drop => Parse(k, s[1..])
    case Emit(n) =>
      var rest := Parse(k, s[n..]);
      rest.(datagrams := [s[..n]] + rest.datagrams)
  }

  /** A frame for `payload`, or nothing when its length does not fit the size field. */
  function Encode(payload: seq<byte>): seq<byte> {
    if |payload| > MAX_U16 - HEAD_SIZE then []
    else HeadBytes(DataHead(MAIN_WORD, 1, 1, HEAD_SIZE + |payload|, 0)) + payload
  }

  /** The frame byte for byte: marker, type 1, version 1, the whole length low byte first, reserved 0, payload. */
  lemma EncodeBytes(payload: seq<byte>)
    ensures Encode(payload) ==
      if |payload| > 65523 then []
      else
        var n := 12 + |payload|;
        [0xff, 0xff, 0xff, 0xff, 1, 0, 1, 0, n % 256, n / 256, 0, 0] + payload
  {
  }
}
