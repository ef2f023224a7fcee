/** How a chain of queue decorators comes to share one mutex and two conditions. */
module SyncChain {

  class Mutex {
    constructor () {}
  }

  class Condition {
    constructor () {}
  }

  /** `RingQueueBlockBaseDecorator`, without the queue calls it forwards. */
  class Decorator {
    /** The wrapped decorator; null when the ring itself is wrapped. */
    const wrappee: Decorator?
    var mutex: Mutex
    var conditionEmpty: Condition
    var conditionFull: Condition

    /** Make new syncs, and hand them to the wrapped decorator, to that one only. */
    constructor (inner: Decorator?)
      modifies inner
      ensures wrappee == inner && fresh(mutex) && fresh(conditionEmpty) && fresh(conditionFull)
      ensures conditionEmpty != conditionFull
      ensures inner != null ==> SameSyncs(inner)
    {
      wrappee := inner;
      mutex := new Mutex();
      conditionFull := new Condition();
      conditionEmpty := new Condition();
      new;
      if inner != null {
        inner.SetSyncs(mutex, conditionFull, conditionEmpty);
      }
    }

    method SetSyncs(mutex: Mutex, fullCond: Condition, emptyCond: Condition)
      modifies this
      ensures this.mutex == mutex && conditionFull == fullCond && conditionEmpty == emptyCond
    {
      this.mutex := mutex;
      conditionEmpty := emptyCond;
      conditionFull := fullCond;
    }

    predicate SameSyncs(other: Decorator)
      reads this, other
    {
      mutex == other.mutex && conditionFull == other.conditionFull && conditionEmpty == other.conditionEmpty
    }
  }

  /**
    Whose syncs each decorator of a chain of `n` uses, the innermost first: the
    number of the decorator whose constructor made them.
   */
  function Owners(n: nat): (owners: seq<nat>)
    ensures |owners| == n
  {
    if n == 0 then []
    else if n == 1 then [0]
    else Owners(n - 1)[n - 2 := n - 1] + [n - 1]
  }

  /** A chain in which exactly the decorators with the same owner share their syncs, or any one of them. */
  ghost predicate SharesAs(chain: seq<Decorator>, owners: seq<nat>)
    requires |chain| == |owners|
    reads chain
  {
    forall i, j :: 0 <= i < |chain| && 0 <= j < |chain| ==>
      && (chain[i].SameSyncs(chain[j]) <==> owners[i] == owners[j])
      && (chain[i].mutex == chain[j].mutex <==> owners[i] == owners[j])
  }

  /** Each decorator wraps the one before it, the innermost wraps the ring. */
  ghost predicate Nested(chain: seq<Decorator>) {
    && (chain != [] ==> chain[0].wrappee == null)
    && (forall i :: 0 < i < |chain| ==> chain[i].wrappee == chain[i - 1])
    && (forall i, j :: 0 <= i < j < |chain| ==> chain[i] != chain[j])
  }

  /** Wrapping a chain once more. */
  method Wrap(chain: seq<Decorator>) returns (chain': seq<Decorator>)
    requires Nested(chain) && SharesAs(chain, Owners(|chain|))
    modifies chain
    ensures |chain'| == |chain| + 1 && chain'[..|chain|] == chain
    ensures Nested(chain') && SharesAs(chain', Owners(|chain'|))
  {
    hide Owners;
    OwnersBound(|chain|);
    OwnersBound(|chain| + 1);
    var outer := new Decorator(if chain == [] then null else chain[|chain| - 1]);
    chain' := chain + [outer];
  }

  lemma {:induction false} OwnersBound(n: nat)
    ensures forall i :: 0 <= i < n ==> Owners(n)[i] == if i + 1 < n then i + 1 else n - 1
  {
    if n <= 1 {
    } else {
      OwnersBound(n - 1);
    }
  }

  /** All decorators of a chain wait and notify on the same syncs exactly when there are at most two. */
  lemma OneSyncIff(chain: seq<Decorator>)
    requires SharesAs(chain, Owners(|chain|))
    ensures (forall i, j :: 0 <= i < |chain| && 0 <= j < |chain| ==> chain[i].SameSyncs(chain[j])) <==> |chain| <= 2
  {
    hide Owners;
    var n := |chain|;
    OwnersBound(n);
    if n > 2 {
      assert Owners(n)[0] == 1 && Owners(n)[1] == 2;
      assert !chain[0].SameSyncs(chain[1]);
    } else {
      forall i, j | 0 <= i < n && 0 <= j < n ensures chain[i].SameSyncs(chain[j]) {
        assert Owners(n)[i] == Owners(n)[j];
      }
    }
  }
}
