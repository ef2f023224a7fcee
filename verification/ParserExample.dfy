/** The six-state parser loop and the encoder, as the source runs them. */
module ParserExample {
  import opened Bytes
  import opened Frames
  import opened StreamLaws

  datatype State = NoData | ReceivingHeader | ReceivingData | WaitNewData | Complete | Error

  class Parser {
    /** `sizeof(head)`: `Frames.POINTER_SIZE` in the source, 12 as meant. */
    const headCheck: nat

    var state: State
    /** `m_parsing_buffer`: bytes received and not yet dropped or handed on. */
    var parsingBuffer: seq<byte>
    /** `m_tmp_dg_buf`: the header, then the whole datagram, being copied out. */
    var tmpDgBuf: seq<byte>

    /** All bytes ever put and all datagrams ever handed out. */
    ghost var input: seq<byte>
    ghost var output: seq<seq<byte>>

    /** What each state says about the two buffers while the loop runs. */
    ghost predicate LoopInvariant()
      reads this
    {
      match state
      case NoData => tmpDgBuf == []
      case ReceivingHeader => tmpDgBuf == [] && |parsingBuffer| >= HEAD_SIZE
      case ReceivingData => HeaderSaved()
      case WaitNewData => HeaderSaved() && |parsingBuffer| < ReadHead(parsingBuffer).size
      case Complete => Look(headCheck, parsingBuffer) == Emit(|tmpDgBuf|) && tmpDgBuf <= parsingBuffer
      case Error => Look(headCheck, parsingBuffer) == Drop
    }

    /** A saved header is a checked one and still the front of the buffer. */
    ghost predicate HeaderSaved()
      reads this
    {
      GoodHead(headCheck, parsingBuffer) && tmpDgBuf == parsingBuffer[..HEAD_SIZE]
    }

    /**
      Between calls the parser has read all its input as `Parse` does.  It waits for
      a header with fewer than twelve bytes, or for the rest of a frame whose header
      it has checked and saved; a call that ran into the bad copy range stays there.
     */
    ghost predicate Valid()
      reads this
    {
      && (|| (state == NoData && tmpDgBuf == [] && |parsingBuffer| < HEAD_SIZE)
          || (state == ReceivingData && HeaderSaved() && Look(headCheck, parsingBuffer) in {NeedMore, Fault}))
      && Parse(headCheck, input) == Outcome(output, parsingBuffer, Faulted())
    }

    ghost predicate Faulted()
      reads this
    {
      Look(headCheck, parsingBuffer) == Fault
    }

    constructor (headCheck: nat)
      ensures Valid() && this.headCheck == headCheck
      ensures input == [] && output == [] && parsingBuffer == [] && !Faulted()
    {
      this.headCheck := headCheck;
      state, parsingBuffer, tmpDgBuf := NoData, [], [];
      input, output := [], [];
    }

    /**
      Take in a chunk and hand out the datagrams it completes.  `fault` marks a call
      that reaches the backwards copy range; C++ leaves such a call undefined.
     */
    method Put(buf: seq<byte>) returns (dgVector: seq<seq<byte>>, fault: bool, ghost turns: nat)
      requires Valid()
      modifies this
      ensures Valid()
      ensures input == old(input) + buf && output == old(output) + dgVector
      ensures fault <==> Faulted()
      ensures var r := Parse(headCheck, old(parsingBuffer) + buf);
        dgVector == r.datagrams && parsingBuffer == r.residue && fault == r.fault
      ensures forall d :: d in dgVector ==> IsFrame(headCheck, d)
      ensures var all := old(parsingBuffer) + buf;
        && turns <= 3 * DropCount(Pieces(headCheck, all)) + 4 * |dgVector| + 4
        && turns <= 3 * (|all| - |parsingBuffer|) + 4
    {
      hide Look, GoodHead, Parse, Pieces;
      ghost var all := parsingBuffer + buf;
      ParseSplit(headCheck, input, buf);
      if state == ReceivingData {
        ResumeHeader(headCheck, parsingBuffer, buf);
      }
      parsingBuffer := parsingBuffer + buf;
      input := input + buf;
      dgVector, fault, turns := ParseData(all);
      output := output + dgVector;
      ParseResidue(headCheck, all);
      ParseAccounts(headCheck, all);
      FramesHandedOut(headCheck, dgVector);
    }

    /** `_parse_data`: one state per turn until a state has to wait. */
    method ParseData(ghost all: seq<byte>) returns (dgVector: seq<seq<byte>>, fault: bool, ghost turns: nat)
      requires all == parsingBuffer
      requires LoopInvariant() && state in {NoData, ReceivingData}
      modifies `state, `parsingBuffer, `tmpDgBuf
      ensures Parse(headCheck, all) == Outcome(dgVector, parsingBuffer, fault)
      ensures turns <= Work(headCheck, all) + 4
      ensures || (state == NoData && tmpDgBuf == [] && |parsingBuffer| < HEAD_SIZE)
              || (state == ReceivingData && HeaderSaved() && Look(headCheck, parsingBuffer) in {NeedMore, Fault})
    {
      hide Look, Parse, Pieces, Work;
      dgVector, fault, turns := [], false, 0;
      while parsingBuffer != [] && !fault
        invariant LoopInvariant()
        invariant parsingBuffer == [] ==> state == NoData
        invariant fault ==> state == ReceivingData && Look(headCheck, parsingBuffer) == Fault
        invariant Parse(headCheck, all) == Prepend(dgVector, Parse(headCheck, parsingBuffer))
        invariant turns + Work(headCheck, parsingBuffer) <=
                  Work(headCheck, all) + (if fault then 4 else Progress(state))
        decreases |parsingBuffer|, Rank(state), !fault
      {
        turns := turns + 1;
        match state {
          case NoData =>
            if |parsingBuffer| >= HEAD_SIZE {
              state := ReceivingHeader;
            } else {
              break;
            }
          case ReceivingHeader => HandleHeader();
          case ReceivingData => fault := HandleData();
          case WaitNewData =>
            state := ReceivingData;
            break;
          case Complete =>
            TurnTaken(headCheck, parsingBuffer, dgVector);
            dgVector := HandleComplete(dgVector);
          case Error =>
            TurnTaken(headCheck, parsingBuffer, dgVector);
            tmpDgBuf := [];
            parsingBuffer := parsingBuffer[1..];
            state := NoData;
        }
      }
      WaitingLook(headCheck, parsingBuffer);
      Turn(headCheck, parsingBuffer);
      assert dgVector + [] == dgVector;
    }

    /** `_receiving_header`: check the first byte, save the header, check the rest. */
    method HandleHeader()
      requires state == ReceivingHeader && LoopInvariant()
      modifies `state, `tmpDgBuf
      ensures LoopInvariant()
      ensures state == if GoodHead(headCheck, parsingBuffer) then ReceivingData else Error
      ensures state == ReceivingData <==>
        && parsingBuffer[0] == 0xff && parsingBuffer[1] == 0xff && parsingBuffer[2] == 0xff && parsingBuffer[3] == 0xff
        && parsingBuffer[8] as int + 256 * (parsingBuffer[9] as int) >= headCheck
    {
      GoodHeadBytes(headCheck, parsingBuffer);
      if parsingBuffer[0] != 0xff {
        FirstByteDecides(headCheck, parsingBuffer);
        state := Error;
        return;
      }
      tmpDgBuf := parsingBuffer[..HEAD_SIZE];
      ReadHeadStable(tmpDgBuf, parsingBuffer);
      var head := ReadHead(tmpDgBuf);
      if head.mainWord != MAIN_WORD || head.size < headCheck {
        state := Error;
      } else {
        state := ReceivingData;
      }
    }

    /** `_receiving_data`: wait for the rest, or copy it behind the saved header. */
    method HandleData() returns (fault: bool)
      requires state == ReceivingData && LoopInvariant()
      modifies `state, `tmpDgBuf
      ensures LoopInvariant()
      ensures fault <==> Look(headCheck, parsingBuffer) == Fault
      ensures state == match Look(headCheck, parsingBuffer) {
        case Fault => ReceivingData
        case NeedMore => WaitNewData
        case _ => Complete }
    {
      ReadHeadStable(tmpDgBuf, parsingBuffer);
      var head := ReadHead(tmpDgBuf);
      fault := false;
      if |parsingBuffer| < head.size {
        state := WaitNewData;
      } else if head.size < |tmpDgBuf| {
        fault := true;
      } else {
        tmpDgBuf := tmpDgBuf + parsingBuffer[|tmpDgBuf|..head.size];
        assert tmpDgBuf == parsingBuffer[..head.size];
        state := Complete;
      }
    }

    /** `_receiving_complete`: hand the datagram out and take its bytes off the buffer. */
    method HandleComplete(out: seq<seq<byte>>) returns (out': seq<seq<byte>>)
      requires state == Complete && LoopInvariant()
      modifies `state, `parsingBuffer, `tmpDgBuf
      ensures state == NoData && LoopInvariant()
      ensures out' == out + [old(parsingBuffer)[..|old(tmpDgBuf)|]]
      ensures parsingBuffer == old(parsingBuffer)[|old(tmpDgBuf)|..]
    {
      assert tmpDgBuf == parsingBuffer[..|tmpDgBuf|];
      parsingBuffer := parsingBuffer[|tmpDgBuf|..];
      out' := out + [tmpDgBuf];
      tmpDgBuf := [];
      state := NoData;
    }
  }

  function Prepend(ds: seq<seq<byte>>, r: Outcome): Outcome {
    r.(datagrams := ds + r.datagrams)
  }

  /** Turns the loop still owes for the pieces in `s`: three for a byte dropped, four for a datagram. */
  ghost function Work(k: nat, s: seq<byte>): nat {
    3 * DropCount(Pieces(k, s)) + 4 * |Parse(k, s).datagrams|
  }

  /** Turns spent on the piece at the front when the loop is in state `s`. */
  function Progress(s: State): nat {
    match s
    case NoData => 0
    case ReceivingHeader => 1
    case ReceivingData => 2
    case Error => 2
    case _ => 3
  }

  /** The order in which states follow one another on one piece. */
  function Rank(s: State): nat {
    match s
    case NoData => 4
    case ReceivingHeader => 3
    case ReceivingData => 2
    case _ => 1
  }

  /** Taking the front piece moves it from the work ahead to the work done. */
  lemma TurnTaken(k: nat, s: seq<byte>, ds: seq<seq<byte>>)
    requires Advance(k, s) > 0
    ensures var n := Advance(k, s); var rest := s[n..];
      && Prepend(ds, Parse(k, s)) == Prepend(if n == 1 then ds else ds + [s[..n]], Parse(k, rest))
      && Work(k, s) == Work(k, rest) + if n == 1 then 3 else 4
  {
    hide Look, Advance, Pieces, Parse;
    Turn(k, s);
  }

  lemma FramesHandedOut(k: nat, ds: seq<seq<byte>>)
    requires forall d :: d in ds ==> WellFormed(k, d)
    ensures forall d :: d in ds ==> IsFrame(k, d)
  {
    hide WellFormed, IsFrame;
    forall d | d in ds ensures IsFrame(k, d) {
      FrameBytes(k, d);
    }
  }

  lemma WaitingLook(k: nat, s: seq<byte>)
    ensures |s| < HEAD_SIZE ==> Look(k, s) == NeedMore
    ensures GoodHead(k, s) && |s| < ReadHead(s).size ==> Look(k, s) == NeedMore
  {
  }

  /** A header saved by an earlier call is still the front of the longer buffer. */
  lemma ResumeHeader(k: nat, s: seq<byte>, more: seq<byte>)
    requires GoodHead(k, s)
    ensures GoodHead(k, s + more) && (s + more)[..HEAD_SIZE] == s[..HEAD_SIZE]
  {
    assert (s + more)[..HEAD_SIZE] == s[..HEAD_SIZE];
    ReadHeadStable(s + more, s);
  }

  /** `prepare_data_for_sending`: reserve the header, append the payload, copy the header over. */
  method PrepareDataForSending(buf: seq<byte>) returns (out: seq<byte>)
    ensures out == Encode(buf)
    ensures out == if |buf| > 65523 then []
                   else [0xff, 0xff, 0xff, 0xff, 1, 0, 1, 0, (12 + |buf|) % 256, (12 + |buf|) / 256, 0, 0] + buf
  {
    EncodeBytes(buf);
    out := [];
    if |buf| > MAX_U16 - HEAD_SIZE {
      return;
    }
    var head := DataHead(MAIN_WORD, 1, 1, HEAD_SIZE + |buf|, 0);
    out := seq(HEAD_SIZE, _ => 0);
    out := out + buf;
    out := HeadBytes(head) + out[HEAD_SIZE..];
    assert (seq(HEAD_SIZE, _ => 0 as byte) + buf)[HEAD_SIZE..] == buf;
  }
}
