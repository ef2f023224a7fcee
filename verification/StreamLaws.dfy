/** What is true of every byte stream, however it is cut and whatever garbage it holds. */
module StreamLaws {
  import opened Bytes
  import opened Frames

  // ---------------------------------------------------------------- chunks

  /** A verdict other than "need more" is not changed by bytes that arrive later. */
  lemma LookStable(k: nat, a: seq<byte>, b: seq<byte>)
    requires Look(k, a) != NeedMore
    ensures Look(k, a + b) == Look(k, a)
  {
    assert (a + b)[..HEAD_SIZE] == a[..HEAD_SIZE];
    ReadHeadStable(a + b, a);
  }

  /** Cutting a stream in two and carrying the residue over changes nothing. */
  lemma {:induction false} ParseSplit(k: nat, a: seq<byte>, b: seq<byte>)
    ensures var p := Parse(k, a); var q := Parse(k, p.residue + b);
      Parse(k, a + b) == q.(datagrams := p.datagrams + q.datagrams)
    decreases |a|
  {
    hide Look;
    var q := Parse(k, Parse(k, a).residue + b);
    match Look(k, a)
    case NeedMore => assert [] + q.datagrams == q.datagrams;
    case Fault =>
      LookStable(k, a, b);
      assert [] + q.datagrams == q.datagrams;
    case Drop =>
      LookStable(k, a, b);
      assert (a + b)[1..] == a[1..] + b;
      ParseSplit(k, a[1..], b);
    case Emit(n) =>
      LookStable(k, a, b);
      assert (a + b)[n..] == a[n..] + b && (a + b)[..n] == a[..n];
      ParseSplit(k, a[n..], b);
      var rest := Parse(k, a[n..]).datagrams;
      assert [a[..n]] + (rest + q.datagrams) == ([a[..n]] + rest) + q.datagrams;
  }

  /** One parser fed chunk after chunk: all datagrams so far and the buffer it keeps. */
  function Feed(k: nat, chunks: seq<seq<byte>>): Outcome {
    if chunks == [] then Outcome([], [], false)
    else
      var last := |chunks| - 1;
      var p := Feed(k, chunks[..last]);
      var q := Parse(k, p.residue + chunks[last]);
      q.(datagrams := p.datagrams + q.datagrams)
  }

  /** Chunking invariance: only the bytes matter, not where the calls cut them. */
  lemma {:induction false} FeedIsParse(k: nat, chunks: seq<seq<byte>>)
    ensures Feed(k, chunks) == Parse(k, Flat(chunks))
    decreases |chunks|
  {
    if chunks == [] {
    } else {
      var last := |chunks| - 1;
      FeedIsParse(k, chunks[..last]);
      ParseSplit(k, Flat(chunks[..last]), chunks[last]);
      FlatSnoc(chunks[..last], chunks[last]);
      assert chunks[..last] + [chunks[last]] == chunks;
    }
  }

  /** What has been parsed from a prefix stays parsed, and a fault stays a fault. */
  lemma ParsePrefix(k: nat, a: seq<byte>, b: seq<byte>)
    ensures Parse(k, a).datagrams <= Parse(k, a + b).datagrams
    ensures Parse(k, a).fault ==> Parse(k, a + b).fault
  {
    ParseSplit(k, a, b);
    ParseResidue(k, a);
    if Parse(k, a).fault {
      LookStable(k, Parse(k, a).residue, b);
    }
  }

  /** The residue hides no droppable byte and no complete frame at its front. */
  lemma {:induction false} ParseResidue(k: nat, s: seq<byte>)
    ensures var r := Parse(k, s);
      Look(k, r.residue) == if r.fault then Fault else NeedMore
    ensures var r := Parse(k, s); Parse(k, r.residue) == r.(datagrams := [])
    ensures var r := Parse(k, s); !r.fault ==> |r.residue| < MAX_U16
    decreases |s|
  {
    match Look(k, s)
    case NeedMore =>
    case Fault =>
    case Drop => ParseResidue(k, s[1..]);
    case Emit(n) => ParseResidue(k, s[n..]);
  }

  // --------------------------------------------------------- decomposition

  /** A stream is cut into pieces: single bytes thrown away, and datagrams handed on. */
  datatype Piece = Dropped(b: byte) | Datagram(d: seq<byte>) {
    function Raw(): seq<byte> {
      match this
      case Dropped(b) => [b]
      case Datagram(d) => d
    }
  }

  function Join(ps: seq<Piece>): seq<byte> {
    if ps == [] then [] else ps[0].Raw() + Join(ps[1..])
  }

  function Datagrams(ps: seq<Piece>): seq<seq<byte>> {
    if ps == [] then []
    else (if ps[0].Datagram? then [ps[0].d] else []) + Datagrams(ps[1..])
  }

  function DropCount(ps: seq<Piece>): nat {
    if ps == [] then 0 else (if ps[0].Dropped? then 1 else 0) + DropCount(ps[1..])
  }

  /** A well-formed datagram: marker, and a size field that is its own length. */
  predicate WellFormed(k: nat, d: seq<byte>) {
    HEAD_SIZE <= |d| <= MAX_U16 && GoodHead(k, d) && ReadHead(d).size == |d|
  }

  /** The same on bytes; what stands in bytes 4 to 7 and from byte 10 on is of no concern. */
  predicate IsFrame(k: nat, d: seq<byte>) {
    && 12 <= |d| <= 65535
    && d[0] == 0xff && d[1] == 0xff && d[2] == 0xff && d[3] == 0xff
    && d[8] as int + 256 * (d[9] as int) == |d| >= k
  }

  lemma FrameBytes(k: nat, d: seq<byte>)
    ensures WellFormed(k, d) <==> IsFrame(k, d)
  {
    hide GoodHead;
    GoodHeadBytes(k, d);
  }

  /** A piece found at the front of `rest` is rightly taken there. */
  predicate Justified(k: nat, p: Piece, rest: seq<byte>) {
    match p
    case Dropped(b) => |rest| >= HEAD_SIZE && !GoodHead(k, rest) && rest[0] == b
    case Datagram(d) => WellFormed(k, d) && d <= rest
  }

  /** Nothing can be taken from the front of `r`. */
  predicate Stuck(k: nat, r: seq<byte>) {
    |r| < HEAD_SIZE || (GoodHead(k, r) && (|r| < ReadHead(r).size || ReadHead(r).size < HEAD_SIZE))
  }

  /** The parser-free account of a stream: pieces in order, each justified where it stands. */
  ghost predicate Decomposes(k: nat, s: seq<byte>, ps: seq<Piece>, residue: seq<byte>) {
    && s == Join(ps) + residue
    && Stuck(k, residue)
    && forall i :: 0 <= i < |ps| ==> Justified(k, ps[i], Join(ps[i..]) + residue)
  }

  /** How many bytes the parser takes from the front of `s` in one go; 0 when it is stuck. */
  function Advance(k: nat, s: seq<byte>): (n: nat)
    ensures n <= |s|
  {
    match Look(k, s)
    case NeedMore => 0
    case Fault => 0
    case Drop => 1
    case Emit(n) => n
  }

  function Front(s: seq<byte>, n: nat): Piece
    requires 0 < n <= |s|
  {
    if n == 1 then Dropped(s[0]) else Datagram(s[..n])
  }

  function Pieces(k: nat, s: seq<byte>): seq<Piece>
    decreases |s|
  {
    var n := Advance(k, s);
    if n == 0 then [] else [Front(s, n)] + Pieces(k, s[n..])
  }

  /** One turn of `Pieces` and of `Parse`, side by side. */
  lemma Turn(k: nat, s: seq<byte>)
    ensures var n := Advance(k, s); var ps := Pieces(k, s); var r := Parse(k, s);
      if n == 0 then ps == [] && r == Outcome([], s, Look(k, s) == Fault)
      else
        var f := Front(s, n); var rest := Parse(k, s[n..]);
        && ps != [] && ps[0] == f && ps[1..] == Pieces(k, s[n..])
        && f.Raw() == s[..n]
        && (f.Datagram? <==> n > 1)
        && r == rest.(datagrams := (if f.Datagram? then [f.d] else []) + rest.datagrams)
  {
    hide Look;
    var n := Advance(k, s);
    if n == 1 {
      assert Look(k, s) == Drop;
      assert [] + Parse(k, s[1..]).datagrams == Parse(k, s[1..]).datagrams;
    }
  }

  /** A justified piece is the one the parser takes, and the other way round. */
  lemma JustifiedIff(k: nat, p: Piece, s: seq<byte>)
    ensures Justified(k, p, s) <==> Advance(k, s) > 0 && p == Front(s, Advance(k, s))
    ensures Stuck(k, s) <==> Advance(k, s) == 0
  {
    var n := Advance(k, s);
    if Justified(k, p, s) && p.Datagram? {
      assert s[..HEAD_SIZE] == p.d[..HEAD_SIZE];
      ReadHeadStable(s, p.d);
    }
    if n > 1 {
      assert s[..n][..HEAD_SIZE] == s[..HEAD_SIZE];
      ReadHeadStable(s[..n], s);
    }
  }

  lemma DecomposesTail(k: nat, s: seq<byte>, ps: seq<Piece>, residue: seq<byte>)
    requires ps != [] && Decomposes(k, s, ps, residue)
    ensures Justified(k, ps[0], s) && ps[0].Raw() <= s
    ensures Decomposes(k, s[|ps[0].Raw()|..], ps[1..], residue)
  {
    hide Justified, Stuck;
    var n := |ps[0].Raw()|;
    var tail := ps[1..];
    assert ps[0..] == ps;
    assert Justified(k, ps[0], Join(ps[0..]) + residue);
    assert s == ps[0].Raw() + (Join(tail) + residue);
    forall i | 0 <= i < |tail| ensures Justified(k, tail[i], Join(tail[i..]) + residue) {
      assert tail[i..] == ps[i + 1..] && tail[i] == ps[i + 1];
    }
  }

  lemma DecomposesCons(k: nat, s: seq<byte>, ps: seq<Piece>, residue: seq<byte>)
    requires ps != [] && Justified(k, ps[0], s) && ps[0].Raw() <= s
    requires Decomposes(k, s[|ps[0].Raw()|..], ps[1..], residue)
    ensures Decomposes(k, s, ps, residue)
  {
    hide Justified, Stuck;
    var tail := ps[1..];
    assert s == ps[0].Raw() + (Join(tail) + residue);
    assert ps[0].Raw() + (Join(tail) + residue) == Join(ps) + residue;
    forall i | 0 <= i < |ps| ensures Justified(k, ps[i], Join(ps[i..]) + residue) {
      if i == 0 {
        assert ps[0..] == ps;
      } else {
        assert tail[i - 1..] == ps[i..] && ps[i] == tail[i - 1];
      }
    }
  }

  /** Every stream has exactly one justified decomposition, and the parser finds it. */
  lemma {:induction false} DecompositionUnique(k: nat, s: seq<byte>, ps: seq<Piece>, residue: seq<byte>)
    ensures Decomposes(k, s, ps, residue) <==> ps == Pieces(k, s) && residue == Parse(k, s).residue
    decreases |s|
  {
    hide Look, Advance, Stuck, Justified, Pieces, Parse;
    Turn(k, s);
    var n := Advance(k, s);
    if ps == [] {
      JustifiedIff(k, Dropped(0), s);
      assert Join(ps) + residue == residue;
    } else {
      JustifiedIff(k, ps[0], s);
      if Decomposes(k, s, ps, residue) {
        DecomposesTail(k, s, ps, residue);
      }
      if n > 0 {
        DecompositionUnique(k, s[n..], ps[1..], residue);
        assert ps == [ps[0]] + ps[1..];
        assert Pieces(k, s) == [Front(s, n)] + Pieces(k, s[n..]);
        if ps == Pieces(k, s) && residue == Parse(k, s).residue {
          DecomposesCons(k, s, ps, residue);
        }
      }
    }
  }

  lemma {:induction false} JoinLength(ps: seq<Piece>)
    ensures |Join(ps)| == DropCount(ps) + |Flat(Datagrams(ps))|
  {
    if ps == [] {
    } else {
      JoinLength(ps[1..]);
      if ps[0].Datagram? {
        assert Datagrams(ps)[1..] == Datagrams(ps[1..]);
      } else {
        assert Datagrams(ps) == Datagrams(ps[1..]);
      }
    }
  }

  /** The datagrams are those of the decomposition, and every byte is accounted for. */
  lemma {:induction false} ParseAccounts(k: nat, s: seq<byte>)
    ensures var r := Parse(k, s); var ps := Pieces(k, s);
      && r.datagrams == Datagrams(ps)
      && s == Join(ps) + r.residue
      && |s| == DropCount(ps) + |Flat(r.datagrams)| + |r.residue|
      && DropCount(ps) + HEAD_SIZE * |r.datagrams| + |r.residue| <= |s|
    ensures forall d :: d in Parse(k, s).datagrams ==> WellFormed(k, d)
    decreases |s|
  {
    hide Look, Advance, GoodHead, Pieces, Parse;
    Turn(k, s);
    JoinLength(Pieces(k, s));
    var n := Advance(k, s);
    if n > 0 {
      JustifiedIff(k, Front(s, n), s);
      ParseAccounts(k, s[n..]);
      assert s == s[..n] + s[n..];
      assert s == Join(Pieces(k, s)) + Parse(k, s).residue;
    }
  }

  // ------------------------------------------------------------- the fault

  /** The header at the front lets through a frame shorter than the header itself. */
  predicate Poisoned(k: nat, s: seq<byte>) {
    GoodHead(k, s) && ReadHead(s).size < HEAD_SIZE
  }

  /** With twelve in the check the copy range is well formed on every stream, with less it is not. */
  lemma RangeWellFormedIff(k: nat)
    ensures (forall s :: !Parse(k, s).fault) <==> k >= HEAD_SIZE
  {
    if k >= HEAD_SIZE {
      forall s ensures !Parse(k, s).fault {
        ParseResidue(k, s);
      }
    } else {
      var h := DataHead(MAIN_WORD, 1, 1, HEAD_SIZE - 1, 0);
      HeadRoundTrip(h, []);
      assert HeadBytes(h) + [] == HeadBytes(h);
      assert Parse(k, HeadBytes(h)).fault;
    }
  }

  /** The check as written accepts this header and then copies from offset 12 to offset 8. */
  lemma PointerSizeFaults()
    ensures Parse(POINTER_SIZE, [0xff, 0xff, 0xff, 0xff, 1, 0, 1, 0, 8, 0, 0, 0]) ==
      Outcome([], [0xff, 0xff, 0xff, 0xff, 1, 0, 1, 0, 8, 0, 0, 0], true)
  {
    var s: seq<byte> := [0xff, 0xff, 0xff, 0xff, 1, 0, 1, 0, 8, 0, 0, 0];
    assert ReadHead(s) == DataHead(MAIN_WORD, 1, 1, 8, 0);
  }

  /**
    Exactly when the check as written goes wrong: the parser with 12 in the check
    would drop, at one of its piece boundaries, a byte that starts a header of size
    `k` to 11.
   */
  lemma {:induction false} FaultExactly(k: nat, s: seq<byte>)
    requires k <= HEAD_SIZE
    ensures var ps := Pieces(HEAD_SIZE, s); var r := Parse(HEAD_SIZE, s).residue;
      Parse(k, s).fault <==> exists i :: 0 <= i < |ps| && Poisoned(k, Join(ps[i..]) + r)
    decreases |s|
  {
    hide Look, Advance, Poisoned, Pieces, Parse;
    LookThreshold(k, s);
    Turn(k, s);
    Turn(HEAD_SIZE, s);
    ParseAccounts(HEAD_SIZE, s);
    var n := Advance(HEAD_SIZE, s);
    if n > 0 {
      ShiftExists(k, Pieces(HEAD_SIZE, s), Parse(HEAD_SIZE, s).residue);
      if !Poisoned(k, s) {
        FaultExactly(k, s[n..]);
      }
    }
  }

  /** On every stream without such a header the check as written gives the intended parse. */
  lemma {:induction false} AgreeExactly(k: nat, s: seq<byte>)
    requires k <= HEAD_SIZE
    ensures !Parse(k, s).fault <==> Parse(k, s) == Parse(HEAD_SIZE, s)
    decreases |s|
  {
    hide Look, Advance, Poisoned, Parse;
    LookThreshold(k, s);
    ParseResidue(HEAD_SIZE, s);
    Turn(k, s);
    Turn(HEAD_SIZE, s);
    var n := Advance(k, s);
    if n > 0 {
      AgreeExactly(k, s[n..]);
      var pre := if Front(s, n).Datagram? then [Front(s, n).d] else [];
      var a, b := Parse(k, s[n..]).datagrams, Parse(HEAD_SIZE, s[n..]).datagrams;
      assert (pre + a)[|pre|..] == a && (pre + b)[|pre|..] == b;
    }
  }

  lemma LookThreshold(k: nat, s: seq<byte>)
    requires k <= HEAD_SIZE
    ensures if Poisoned(k, s) then Look(k, s) == Fault && Advance(k, s) == 0 && Advance(HEAD_SIZE, s) == 1
            else Look(k, s) == Look(HEAD_SIZE, s) && Advance(k, s) == Advance(HEAD_SIZE, s)
    ensures Look(HEAD_SIZE, s) != Fault
  {
  }

  lemma ShiftExists(k: nat, ps: seq<Piece>, r: seq<byte>)
    requires ps != []
    ensures (exists i :: 0 <= i < |ps| && Poisoned(k, Join(ps[i..]) + r)) <==>
      Poisoned(k, Join(ps) + r) ||
      exists i :: 0 <= i < |ps[1..]| && Poisoned(k, Join(ps[1..][i..]) + r)
  {
    hide Poisoned;
    var qs := ps[1..];
    assert ps[0..] == ps;
    assert forall i :: 0 <= i < |qs| ==> qs[i..] == ps[i + 1..];
    assert forall i :: 0 < i < |ps| ==> ps[i..] == qs[i - 1..];
    if i :| 0 <= i < |qs| && Poisoned(k, Join(qs[i..]) + r) {
      assert Poisoned(k, Join(ps[i + 1..]) + r);
    }
  }
}
