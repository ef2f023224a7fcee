/** The bounded queue of byte strings every queue of the program has to behave as. */
module Fifo {
  import opened Bytes

  datatype Status = Ok | Full | Empty

  datatype Op = Put(item: seq<byte>) | Get(size: nat) | Peek(size: nat)

  /** Bytes copied to the caller, the return value, and the status left behind. */
  datatype Reply = Reply(bytes: seq<byte>, ret: nat, status: Status)

  datatype Entry = Entry(op: Op, reply: Reply)

  function Answer(c: nat, q: seq<seq<byte>>, op: Op): Reply {
    match op
    case Put(item) => if |q| < c then Reply([], |item|, Ok) else Reply([], 0, Full)
    case _ =>
      if q == [] then Reply([], 0, Empty)
      else Reply(Prefix(q[0], op.size), |Prefix(q[0], op.size)|, Ok)
  }

  function After(c: nat, q: seq<seq<byte>>, op: Op): seq<seq<byte>> {
    match op
    case Put(item) => if |q| < c then q + [item] else q
    case Get(_) => if q == [] then q else q[1..]
    case Peek(_) => q
  }

  /** The queue after a history of calls. */
  function Replay(c: nat, log: seq<Entry>): seq<seq<byte>> {
    if log == [] then [] else After(c, Replay(c, log[..|log| - 1]), log[|log| - 1].op)
  }

  /** Every reply in the history is the one the queue of that moment gives. */
  predicate Legal(c: nat, log: seq<Entry>) {
    log == [] ||
    var last := |log| - 1;
    Legal(c, log[..last]) && log[last].reply == Answer(c, Replay(c, log[..last]), log[last].op)
  }

  lemma LegalSnoc(c: nat, log: seq<Entry>, e: Entry)
    requires Legal(c, log) && e.reply == Answer(c, Replay(c, log), e.op)
    ensures Legal(c, log + [e]) && Replay(c, log + [e]) == After(c, Replay(c, log), e.op)
  {
    assert (log + [e])[..|log|] == log;
  }

  // -------------------------------------------- the law, without a queue

  /** The items whose put was answered with success, in order. */
  function Accepted(log: seq<Entry>): seq<seq<byte>> {
    if log == [] then []
    else
      var e := log[|log| - 1];
      Accepted(log[..|log| - 1]) + if e.op.Put? && e.reply.status == Ok then [e.op.item] else []
  }

  /** How many gets were answered with success. */
  function Taken(log: seq<Entry>): nat {
    if log == [] then 0
    else
      var e := log[|log| - 1];
      Taken(log[..|log| - 1]) + if e.op.Get? && e.reply.status == Ok then 1 else 0
  }

  /** What a reply must be, judged only by what was accepted and taken before it. */
  predicate RightReply(c: nat, before: seq<Entry>, e: Entry) {
    var accepted, taken := Accepted(before), Taken(before);
    && taken <= |accepted|
    && e.reply == match e.op
       case Put(item) =>
         if |accepted| - taken < c then Reply([], |item|, Ok) else Reply([], 0, Full)
       case _ =>
         if taken == |accepted| then Reply([], 0, Empty)
         else
           var bytes := Prefix(accepted[taken], e.op.size);
           Reply(bytes, |bytes|, Ok)
  }

  ghost predicate InOrder(c: nat, log: seq<Entry>) {
    forall i :: 0 <= i < |log| ==> RightReply(c, log[..i], log[i])
  }

  /** The queue holds what was accepted and not yet taken. */
  lemma {:induction false} ReplayIsRest(c: nat, log: seq<Entry>)
    requires Legal(c, log)
    ensures Taken(log) <= |Accepted(log)| && Replay(c, log) == Accepted(log)[Taken(log)..]
    ensures |Replay(c, log)| <= c
  {
    if log == [] {
    } else {
      var init := log[..|log| - 1];
      ReplayIsRest(c, init);
      var accepted, taken := Accepted(init), Taken(init);
      assert forall x :: (accepted + [x])[taken..] == accepted[taken..] + [x];
      assert taken < |accepted| ==> accepted[taken..][1..] == accepted[taken + 1..];
    }
  }

  lemma InOrderSnoc(c: nat, log: seq<Entry>)
    requires log != []
    ensures var last := |log| - 1;
      InOrder(c, log) <==> InOrder(c, log[..last]) && RightReply(c, log[..last], log[last])
  {
    hide RightReply;
    var last := |log| - 1;
    var init := log[..last];
    assert forall i :: 0 <= i < last ==> init[..i] == log[..i] && init[i] == log[i];
  }

  /** On a legal history, judging by the queue and judging by the counts is the same. */
  lemma RightReplyIff(c: nat, before: seq<Entry>, e: Entry)
    requires Legal(c, before)
    ensures RightReply(c, before, e) <==> e.reply == Answer(c, Replay(c, before), e.op)
  {
    ReplayIsRest(c, before);
  }

  /**
    The replies of a bounded queue are exactly those of first in, first out: the n-th
    successful get yields the n-th accepted item, cut to the room the caller gave, and
    a call is refused exactly when the accepted and not taken items are `c`, or none.
   */
  lemma {:induction false} FifoLaw(c: nat, log: seq<Entry>)
    ensures Legal(c, log) <==> InOrder(c, log)
  {
    hide InOrder, RightReply, Answer, Replay;
    if log == [] {
      EmptyInOrder(c);
    } else {
      var last := |log| - 1;
      FifoLaw(c, log[..last]);
      InOrderSnoc(c, log);
      if Legal(c, log[..last]) {
        RightReplyIff(c, log[..last], log[last]);
      }
    }
  }

  lemma EmptyInOrder(c: nat)
    ensures InOrder(c, [])
  {
  }

  /**
    Byte for byte: a successful get or peek copies the bytes of the first accepted item
    not yet taken, from its first byte on, as many as there are and there is room for.
   */
  lemma ReadYields(c: nat, log: seq<Entry>, i: nat)
    requires Legal(c, log) && i < |log| && !log[i].op.Put? && log[i].reply.status == Ok
    ensures var accepted, taken := Accepted(log[..i]), Taken(log[..i]); var reply := log[i].reply;
      && taken < |accepted|
      && reply.ret == |reply.bytes|
      && reply.ret == (if log[i].op.size < |accepted[taken]| then log[i].op.size else |accepted[taken]|)
      && forall j :: 0 <= j < reply.ret ==> reply.bytes[j] == accepted[taken][j]
  {
    hide Legal, Accepted, Taken;
    FifoLaw(c, log);
    assert RightReply(c, log[..i], log[i]);
  }

  /** A put of a non-empty item returns 0 exactly when the queue is full, and then changes nothing. */
  lemma ZeroMeansFull(c: nat, q: seq<seq<byte>>, item: seq<byte>)
    requires item != []
    ensures Answer(c, q, Put(item)).ret == 0 <==> |q| >= c
    ensures Answer(c, q, Put(item)).ret == 0 <==> After(c, q, Put(item)) == q
  {
    assert |q + [item]| == |q| + 1;
  }
}
