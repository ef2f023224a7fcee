/** The encoder undone by the parser, and frames found again after garbage. */
module Recovery {
  import opened Bytes
  import opened Frames
  import opened StreamLaws

  // ------------------------------------------------------------ round trip

  predicate Sendable(payload: seq<byte>) {
    |payload| <= MAX_U16 - HEAD_SIZE
  }

  function EncodeAll(payloads: seq<seq<byte>>): seq<byte> {
    if payloads == [] then [] else Encode(payloads[0]) + EncodeAll(payloads[1..])
  }

  function SendableOnly(payloads: seq<seq<byte>>): seq<seq<byte>> {
    if payloads == [] then []
    else (if Sendable(payloads[0]) then [payloads[0]] else []) + SendableOnly(payloads[1..])
  }

  function EncodeEach(payloads: seq<seq<byte>>): seq<seq<byte>> {
    if payloads == [] then [] else [Encode(payloads[0])] + EncodeEach(payloads[1..])
  }

  /** What a receiver does to get at the payloads: cut twelve bytes off each datagram. */
  function Unwrap(datagrams: seq<seq<byte>>): seq<seq<byte>> {
    if datagrams == [] then []
    else [if |datagrams[0]| < HEAD_SIZE then [] else datagrams[0][HEAD_SIZE..]] + Unwrap(datagrams[1..])
  }

  lemma EncodeWellFormed(k: nat, payload: seq<byte>)
    requires k <= HEAD_SIZE && Sendable(payload)
    ensures WellFormed(k, Encode(payload)) && Encode(payload)[HEAD_SIZE..] == payload
    ensures |Encode(payload)| == HEAD_SIZE + |payload|
  {
    HeadRoundTrip(DataHead(MAIN_WORD, 1, 1, HEAD_SIZE + |payload|, 0), payload);
  }

  /** A well-formed frame at the front is taken whole, whatever its bytes and whatever follows. */
  lemma FrameTaken(k: nat, d: seq<byte>, rest: seq<byte>)
    requires WellFormed(k, d)
    ensures |d| >= HEAD_SIZE
    ensures Pieces(k, d + rest) == [Datagram(d)] + Pieces(k, rest)
    ensures Parse(k, d + rest) == Parse(k, rest).(datagrams := [d] + Parse(k, rest).datagrams)
  {
    hide Look, Advance, Pieces, Parse;
    JustifiedIff(k, Datagram(d), d + rest);
    Turn(k, d + rest);
    assert (d + rest)[|d|..] == rest;
    assert Pieces(k, d + rest) == [Datagram(d)] + Pieces(k, d + rest)[1..];
  }

  /** Exactly these bytes are a frame: whatever follows, they and no others are taken as one datagram. */
  lemma TakenIffFrame(k: nat, d: seq<byte>, rest: seq<byte>)
    ensures IsFrame(k, d) <==> |d| > 1 && Pieces(k, d + rest) == [Datagram(d)] + Pieces(k, rest)
    ensures IsFrame(k, d) ==> Parse(k, d + rest) == Parse(k, rest).(datagrams := [d] + Parse(k, rest).datagrams)
  {
    hide Look, Advance, Pieces, Parse, WellFormed, IsFrame;
    FrameBytes(k, d);
    if IsFrame(k, d) {
      FrameTaken(k, d, rest);
      FrameLength(k, d);
    } else if |d| > 1 && Pieces(k, d + rest) == [Datagram(d)] + Pieces(k, rest) {
      Turn(k, d + rest);
      JustifiedIff(k, Datagram(d), d + rest);
    }
  }

  lemma FrameLength(k: nat, d: seq<byte>)
    requires IsFrame(k, d)
    ensures |d| >= HEAD_SIZE
  {
  }

  /** Message types and versions other than the encoder's pass: garbage 0 to 9, then type 33, version 4, size 56. */
  lemma OtherTypeFound(k: nat, body: seq<byte>)
    requires k <= 56 && |body| == 44
    ensures var d := [0xff, 0xff, 0xff, 0xff, 33, 0, 4, 0, 56, 0, 0, 0] + body;
      Parse(k, [0, 1, 2, 3, 4, 5, 6, 7, 8, 9] + d) == Outcome([d], [], false)
  {
    hide Pieces, Parse;
    var g: seq<byte> := [0, 1, 2, 3, 4, 5, 6, 7, 8, 9];
    var d: seq<byte> := [0xff, 0xff, 0xff, 0xff, 33, 0, 4, 0, 56, 0, 0, 0] + body;
    var segs := [Segment(g, d)];
    assert segs[1..] == [] && Stream([], []) == [];
    assert Stream(segs, []) == g + d;
    assert FramesOf(segs) == [d];
    FrameBytes(k, d);
    PlainGarbageIsClean(k, segs, []);
    ResyncIff(k, segs, []);
  }

  /**
    Every frame sent comes back whole and in order, and its payload with it; payloads
    that do not fit were never sent.
   */
  lemma {:induction false} RoundTrip(k: nat, payloads: seq<seq<byte>>)
    requires k <= HEAD_SIZE
    ensures var r := Parse(k, EncodeAll(payloads));
      && !r.fault && r.residue == []
      && r.datagrams == EncodeEach(SendableOnly(payloads))
      && Unwrap(r.datagrams) == SendableOnly(payloads)
  {
    if payloads == [] {
    } else if !Sendable(payloads[0]) {
      RoundTrip(k, payloads[1..]);
      assert EncodeAll(payloads) == EncodeAll(payloads[1..]);
      assert SendableOnly(payloads) == SendableOnly(payloads[1..]);
    } else {
      RoundTrip(k, payloads[1..]);
      EncodeWellFormed(k, payloads[0]);
      FrameTaken(k, Encode(payloads[0]), EncodeAll(payloads[1..]));
      UnwrapCons(Encode(payloads[0]), Parse(k, EncodeAll(payloads[1..])).datagrams);
      assert SendableOnly(payloads)[1..] == SendableOnly(payloads[1..]);
    }
  }

  lemma UnwrapCons(d: seq<byte>, ds: seq<seq<byte>>)
    requires |d| >= HEAD_SIZE
    ensures Unwrap([d] + ds) == [d[HEAD_SIZE..]] + Unwrap(ds)
  {
    assert ([d] + ds)[1..] == ds;
  }

  /** A parser gives every payload back if and only if its check lets size 12 through. */
  lemma RoundTripIff(k: nat)
    ensures (forall payloads :: Unwrap(Parse(k, EncodeAll(payloads)).datagrams) == SendableOnly(payloads))
      <==> k <= HEAD_SIZE
  {
    if k <= HEAD_SIZE {
      forall payloads
        ensures Unwrap(Parse(k, EncodeAll(payloads)).datagrams) == SendableOnly(payloads)
      {
        RoundTrip(k, payloads);
      }
    } else {
      EmptyPayloadLost(k);
    }
  }

  lemma EmptyPayloadLost(k: nat)
    requires k > HEAD_SIZE
    ensures Unwrap(Parse(k, EncodeAll([[]])).datagrams) != SendableOnly([[]])
  {
    var one: seq<seq<byte>> := [[]];
    var s := EncodeAll(one);
    EncodeWellFormed(0, []);
    assert one[1..] == [];
    assert s == Encode([]) && |s| == HEAD_SIZE;
    assert ReadHead(s).size == HEAD_SIZE;
    assert Look(k, s) == Drop;
    assert Look(k, s[1..]) == NeedMore;
    assert SendableOnly([[]]) == [[]];
  }

  /** Twelve is the one value in the header check that never faults and loses no payload. */
  lemma OnlyTwelve(k: nat)
    ensures (forall s :: !Parse(k, s).fault)
            && (forall payloads :: Unwrap(Parse(k, EncodeAll(payloads)).datagrams) == SendableOnly(payloads))
      <==> k == HEAD_SIZE
  {
    hide Parse;
    RangeWellFormedIff(k);
    RoundTripIff(k);
  }

  // ----------------------------------------------------- resynchronisation

  /** Garbage in front of a frame. */
  datatype Segment = Segment(garbage: seq<byte>, frame: seq<byte>)

  function Stream(segs: seq<Segment>, tail: seq<byte>): seq<byte> {
    if segs == [] then tail
    else segs[0].garbage + segs[0].frame + Stream(segs[1..], tail)
  }

  function FramesOf(segs: seq<Segment>): seq<seq<byte>> {
    if segs == [] then [] else [segs[0].frame] + FramesOf(segs[1..])
  }

  function Drops(g: seq<byte>): (ps: seq<Piece>)
    ensures |ps| == |g|
  {
    if g == [] then [] else [Dropped(g[0])] + Drops(g[1..])
  }

  /** How many bytes of trailing garbage are dropped before fewer than a header remain. */
  function Droppable(tail: seq<byte>): nat {
    if |tail| < HEAD_SIZE then 0 else |tail| - (HEAD_SIZE - 1)
  }

  /** Drop all garbage, take all frames, keep fewer than twelve bytes. */
  function Wanted(segs: seq<Segment>, tail: seq<byte>): seq<Piece> {
    if segs == [] then Drops(tail[..Droppable(tail)])
    else Drops(segs[0].garbage) + [Datagram(segs[0].frame)] + Wanted(segs[1..], tail)
  }

  predicate NoHeadIn(k: nat, s: seq<byte>, n: nat)
    requires n <= |s|
  {
    forall i :: 0 <= i < n ==> !GoodHead(k, s[i..])
  }

  /** No offset inside the garbage passes the header check in the combined stream. */
  predicate Clean(k: nat, segs: seq<Segment>, tail: seq<byte>) {
    if segs == [] then NoHeadIn(k, tail, Droppable(tail))
    else
      && NoHeadIn(k, segs[0].garbage + (segs[0].frame + Stream(segs[1..], tail)), |segs[0].garbage|)
      && Clean(k, segs[1..], tail)
  }

  lemma NoHeadStep(k: nat, s: seq<byte>, n: nat)
    requires 0 < n <= |s|
    ensures NoHeadIn(k, s, n) <==> !GoodHead(k, s) && NoHeadIn(k, s[1..], n - 1)
  {
    hide GoodHead;
    assert s[0..] == s;
    assert forall i :: 0 <= i < n - 1 ==> s[1..][i..] == s[i + 1..];
    assert forall i :: 0 < i < n ==> s[i..] == s[1..][i - 1..];
  }

  lemma DropsStep(s: seq<byte>, n: nat)
    requires 0 < n <= |s|
    ensures Drops(s[..n]) == [Dropped(s[0])] + Drops(s[1..][..n - 1])
    ensures s[1..][n - 1..] == s[n..]
  {
    assert s[..n][1..] == s[1..][..n - 1];
  }

  /** Bytes at which no header stands are dropped one by one. */
  lemma {:induction false} GarbageDropped(k: nat, s: seq<byte>, n: nat)
    requires n == 0 || n + HEAD_SIZE - 1 <= |s|
    requires NoHeadIn(k, s, n)
    ensures Pieces(k, s) == Drops(s[..n]) + Pieces(k, s[n..]) && Parse(k, s) == Parse(k, s[n..])
    decreases n
  {
    hide GoodHead, NoHeadIn, Pieces, Parse;
    if n == 0 {
      assert s[..0] == [] && s[0..] == s;
    } else {
      NoHeadStep(k, s, n);
      DropsStep(s, n);
      GarbageDropped(k, s[1..], n - 1);
      Turn(k, s);
      assert Pieces(k, s) == [Dropped(s[0])] + Pieces(k, s[1..]);
      assert [] + Parse(k, s[1..]).datagrams == Parse(k, s[1..]).datagrams;
    }
  }

  /** Where bytes are dropped one by one, no header stands. */
  lemma {:induction false} DroppedHasNoHead(k: nat, s: seq<byte>, n: nat)
    requires n <= |s| && Drops(s[..n]) <= Pieces(k, s)
    ensures NoHeadIn(k, s, n)
    decreases n
  {
    hide Look, GoodHead, NoHeadIn, Pieces, Parse;
    if n == 0 {
      EmptyNoHead(k, s);
    } else {
      NoHeadStep(k, s, n);
      DropsStep(s, n);
      Turn(k, s);
      assert Pieces(k, s)[0] == Drops(s[..n])[0] == Dropped(s[0]);
      assert Drops(s[..n])[1..] <= Pieces(k, s)[1..];
      DropIsBadHead(k, s);
      DroppedHasNoHead(k, s[1..], n - 1);
    }
  }

  lemma EmptyNoHead(k: nat, s: seq<byte>)
    ensures NoHeadIn(k, s, 0)
  {
  }

  lemma DropIsBadHead(k: nat, s: seq<byte>)
    ensures Look(k, s) == Drop <==> |s| >= HEAD_SIZE && !GoodHead(k, s)
  {
  }

  lemma ResyncTail(k: nat, tail: seq<byte>)
    ensures var n := Droppable(tail);
      && (NoHeadIn(k, tail, n) <==> Pieces(k, tail) == Drops(tail[..n]))
      && (NoHeadIn(k, tail, n) ==> Parse(k, tail) == Outcome([], tail[n..], false))
  {
    hide GoodHead, NoHeadIn, Pieces, Parse;
    var n := Droppable(tail);
    if NoHeadIn(k, tail, n) {
      Turn(k, tail[n..]);
      GarbageDropped(k, tail, n);
    }
    if Pieces(k, tail) == Drops(tail[..n]) {
      DroppedHasNoHead(k, tail, n);
    }
  }

  lemma CleanFront(k: nat, g: seq<byte>, d: seq<byte>, rest: seq<byte>)
    requires WellFormed(k, d) && NoHeadIn(k, g + (d + rest), |g|)
    ensures Pieces(k, g + (d + rest)) == Drops(g) + [Datagram(d)] + Pieces(k, rest)
    ensures Parse(k, g + (d + rest)) == Parse(k, rest).(datagrams := [d] + Parse(k, rest).datagrams)
  {
    hide GoodHead, WellFormed, NoHeadIn, Pieces, Parse, Drops;
    var s := g + (d + rest);
    assert s[..|g|] == g && s[|g|..] == d + rest;
    FrameTaken(k, d, rest);
    GarbageDropped(k, s, |g|);
  }

  lemma SeenFront(k: nat, g: seq<byte>, rest: seq<byte>, want: seq<Piece>)
    requires Pieces(k, g + rest) == Drops(g) + want
    ensures NoHeadIn(k, g + rest, |g|)
  {
    assert (g + rest)[..|g|] == g;
    hide *;
    DroppedHasNoHead(k, g + rest, |g|);
  }

  lemma ResyncFront(k: nat, g: seq<byte>, d: seq<byte>, rest: seq<byte>, want: seq<Piece>)
    requires WellFormed(k, d)
    ensures var s := g + (d + rest);
      && (Pieces(k, s) == Drops(g) + [Datagram(d)] + want <==> NoHeadIn(k, s, |g|) && Pieces(k, rest) == want)
      && (NoHeadIn(k, s, |g|) ==> Parse(k, s) == Parse(k, rest).(datagrams := [d] + Parse(k, rest).datagrams))
  {
    hide *;
    var s := g + (d + rest);
    if Pieces(k, s) == Drops(g) + [Datagram(d)] + want {
      assert Drops(g) + [Datagram(d)] + want == Drops(g) + ([Datagram(d)] + want);
      SeenFront(k, g, d + rest, [Datagram(d)] + want);
    }
    if NoHeadIn(k, s, |g|) {
      CleanFront(k, g, d, rest);
      SameTail(Drops(g) + [Datagram(d)], want, Pieces(k, rest));
    }
  }

  /** The parser finds every frame where it stands exactly when the garbage fakes no header. */
  lemma {:induction false} ResyncIff(k: nat, segs: seq<Segment>, tail: seq<byte>)
    requires forall g :: g in segs ==> WellFormed(k, g.frame)
    ensures Clean(k, segs, tail) <==> Pieces(k, Stream(segs, tail)) == Wanted(segs, tail)
    ensures Clean(k, segs, tail) ==>
      Parse(k, Stream(segs, tail)) == Outcome(FramesOf(segs), tail[Droppable(tail)..], false)
  {
    hide NoHeadIn, WellFormed, Pieces, Parse;
    if segs == [] {
      ResyncTail(k, tail);
    } else {
      var g, d := segs[0].garbage, segs[0].frame;
      var rest := Stream(segs[1..], tail);
      assert Stream(segs, tail) == g + (d + rest);
      ResyncFront(k, g, d, rest, Wanted(segs[1..], tail));
      ResyncIff(k, segs[1..], tail);
    }
  }

  lemma SameTail<T>(a: seq<T>, x: seq<T>, y: seq<T>)
    ensures a + x == a + y <==> x == y
  {
    assert (a + x)[|a|..] == x && (a + y)[|a|..] == y;
  }

  /** Garbage without the byte 0xff fakes no header, so the frames all come through. */
  lemma {:induction false} PlainGarbageIsClean(k: nat, segs: seq<Segment>, tail: seq<byte>)
    requires forall g :: g in segs ==> 0xff !in g.garbage
    requires 0xff !in tail
    ensures Clean(k, segs, tail)
  {
    hide GoodHead;
    if segs == [] {
      PlainNoHead(k, tail, [], Droppable(tail));
      assert tail + [] == tail;
    } else {
      PlainNoHead(k, segs[0].garbage, segs[0].frame + Stream(segs[1..], tail), |segs[0].garbage|);
      PlainGarbageIsClean(k, segs[1..], tail);
    }
  }

  lemma PlainNoHead(k: nat, g: seq<byte>, rest: seq<byte>, n: nat)
    requires n <= |g| && 0xff !in g
    ensures NoHeadIn(k, g + rest, n)
  {
    forall i | 0 <= i < n ensures !GoodHead(k, (g + rest)[i..]) {
      assert (g + rest)[i..][0] == g[i];
      if |(g + rest)[i..]| >= HEAD_SIZE {
        FirstByteDecides(k, (g + rest)[i..]);
      }
    }
  }
}
