/**
 * The SingleResource gate of nmxutil/sres.go: one holder at a time, later
 * claimants queued in arrival order.  A waiter is named by its token; a
 * value the Go code sends on a waiter's channel is returned as a `Send`.
 */
module SRes {
  import opened Wrappers

  /** A value sent to the waiter holding token `to`: None (nil) grants the resource, Some(e) refuses it. */
  datatype Send<T, E> = Send(to: T, value: Option<E>)

  /** The position of the first occurrence of t in q. */
  function IndexOf<T(==)>(q: seq<T>, t: T): (i: nat)
    requires t in q
    ensures i < |q| && q[i] == t && t !in q[..i]
  {
    if q[0] == t then 0
    else
      var j := IndexOf(q[1..], t);
      assert q[..j + 1] == [q[0]] + q[1..][..j];
      j + 1
  }

  /** Any position holding t with no earlier t is the first one. */
  lemma {:induction false} IndexOfUnique<T>(q: seq<T>, t: T, i: nat)
    requires i < |q| && q[i] == t && t !in q[..i]
    ensures IndexOf(q, t) == i
    decreases |q|
  {
    if q[0] != t {
      assert q[1..][i - 1] == t;
      assert q[1..][..i - 1] == q[..i][1..];
      IndexOfUnique(q[1..], t, i - 1);
    }
  }

  /** q without the first occurrence of t. */
  function RemoveFirst<T(==)>(q: seq<T>, t: T): (r: seq<T>)
    requires t in q
    ensures |r| == |q| - 1
    ensures multiset(r) + multiset{t} == multiset(q)
  {
    var i := IndexOf(q, t);
    assert q == q[..i] + [t] + q[i + 1..];
    q[..i] + q[i + 1..]
  }

  /** Removing the first t keeps everything before it and everything after it, in order. */
  lemma RemoveFirstKeepsOrder<T>(q: seq<T>, t: T)
    requires t in q
    ensures var i := IndexOf(q, t);
      && (forall k :: 0 <= k < i ==> RemoveFirst(q, t)[k] == q[k])
      && (forall k :: i <= k < |q| - 1 ==> RemoveFirst(q, t)[k] == q[k + 1])
  {
    var i := IndexOf(q, t);
    var r := RemoveFirst(q, t);
    assert r == q[..i] + q[i + 1..];
    forall k | 0 <= k < i
      ensures r[k] == q[k]
    {
      assert r[k] == q[..i][k];
    }
    forall k | i <= k < |q| - 1
      ensures r[k] == q[k + 1]
    {
      assert r[k] == q[i + 1..][k - i];
    }
  }

  /** The state of a SingleResource as a value: the flag and the queue of waiting tokens. */
  datatype Gate<T(==)> = Gate(acquired: bool, waitQueue: seq<T>)
  {
    /** Only a held resource has waiters. */
    predicate Valid() {
      |waitQueue| > 0 ==> acquired
    }

    /** Acquire: a free resource is taken at once; a held one queues the token at the tail. */
    function Acquire(token: T): (r: (Gate<T>, bool))
      ensures r.0.acquired && r.0.Valid()
      ensures r.1 <==> !acquired
      ensures r.1 ==> r.0.waitQueue == waitQueue
      ensures !r.1 ==> r.0.waitQueue == waitQueue + [token]
    {
      if !acquired then (Gate(true, waitQueue), true)
      else (Gate(true, waitQueue + [token]), false)
    }

    /** Release: the head of the queue becomes the holder, or the resource becomes free. */
    function Release(): (r: (Gate<T>, Option<T>))
      requires acquired
      ensures r.0.Valid()
      ensures r.1.None? <==> waitQueue == []
      ensures r.1.None? ==> !r.0.acquired && r.0.waitQueue == []
      ensures r.1.Some? ==> r.0.acquired && [r.1.value] + r.0.waitQueue == waitQueue
    {
      if |waitQueue| == 0 then (Gate(false, waitQueue), None)
      else (Gate(true, waitQueue[1..]), Some(waitQueue[0]))
    }

    /** StopWaiting: the first waiter with the token leaves the queue; the flag never changes. */
    function StopWaiting(token: T): (r: (Gate<T>, Option<T>))
      ensures r.0.acquired == acquired
      ensures Valid() ==> r.0.Valid()
      ensures r.1.None? <==> token !in waitQueue
      ensures r.1.None? ==> r.0.waitQueue == waitQueue
      ensures r.1.Some? ==> r.1.value == token && multiset(r.0.waitQueue) + multiset{token} == multiset(waitQueue)
      ensures r.1.Some? ==> r.0.waitQueue == RemoveFirst(waitQueue, token)
    {
      if token in waitQueue then (Gate(acquired, RemoveFirst(waitQueue, token)), Some(token))
      else (this, None)
    }

    /** Abort: every waiter, in queue order, is refused and the queue empties; the flag never changes. */
    function Abort(): (r: (Gate<T>, seq<T>))
      ensures r.0.Valid()
      ensures r.0.acquired == acquired && r.0.waitQueue == [] && r.1 == waitQueue
    {
      (Gate(acquired, []), waitQueue)
    }
  }

  /** Acquires by each token in turn. */
  function AcquireAll<T(==)>(g: Gate<T>, tokens: seq<T>): Gate<T>
    decreases |tokens|
  {
    if tokens == [] then g else AcquireAll(g.Acquire(tokens[0]).0, tokens[1..])
  }

  /** n successive releases of a held gate: the final gate and the tokens promoted, in order. */
  function ReleaseN<T(==)>(g: Gate<T>, n: nat): (Gate<T>, seq<T>)
    requires g.acquired && n <= |g.waitQueue|
    decreases n
  {
    if n == 0 then (g, [])
    else
      var (g', w) := g.Release();
      var (last, promoted) := ReleaseN(g', n - 1);
      (last, [w.value] + promoted)
  }

  /** Acquiring a held gate only appends, in call order. */
  lemma {:induction false} AcquireAllAppends<T>(g: Gate<T>, tokens: seq<T>)
    requires g.acquired
    ensures AcquireAll(g, tokens) == Gate(true, g.waitQueue + tokens)
    decreases |tokens|
  {
    if tokens == [] {
      assert g.waitQueue + tokens == g.waitQueue;
    } else {
      AcquireAllAppends(g.Acquire(tokens[0]).0, tokens[1..]);
      assert g.waitQueue + [tokens[0]] + tokens[1..] == g.waitQueue + tokens;
    }
  }

  /** n releases promote exactly the first n waiters, head first, and keep the rest queued. */
  lemma {:induction false} ReleaseNPromotesHead<T>(g: Gate<T>, n: nat)
    requires g.acquired && n <= |g.waitQueue|
    ensures ReleaseN(g, n) == (Gate(true, g.waitQueue[n..]), g.waitQueue[..n])
    decreases n
  {
    if n == 0 {
      assert g.waitQueue[0..] == g.waitQueue;
    } else {
      var g' := g.Release().0;
      ReleaseNPromotesHead(g', n - 1);
      assert g'.waitQueue == g.waitQueue[1..];
      assert g.waitQueue[1..][n - 1..] == g.waitQueue[n..];
      assert [g.waitQueue[0]] + g.waitQueue[1..][..n - 1] == g.waitQueue[..n];
    }
  }

  /**
   * FIFO: on a held gate, whoever was waiting and then every later claimant
   * is promoted in exactly the order they arrived, and the holder stays set.
   */
  lemma AcquireThenReleaseIsFifo<T>(g: Gate<T>, tokens: seq<T>)
    requires g.acquired
    ensures var g' := AcquireAll(g, tokens);
      g'.acquired && |g'.waitQueue| == |g.waitQueue| + |tokens| &&
      ReleaseN(g', |g.waitQueue| + |tokens|) == (Gate(true, []), g.waitQueue + tokens)
  {
    AcquireAllAppends(g, tokens);
    var g' := AcquireAll(g, tokens);
    assert g'.waitQueue == g.waitQueue + tokens;
    ReleaseNPromotesHead(g', |g'.waitQueue|);
    assert g'.waitQueue[..|g'.waitQueue|] == g'.waitQueue;
    assert g'.waitQueue[|g'.waitQueue|..] == [];
  }

  /**
   * From a free gate, the first claimant takes the resource at once and the
   * others are promoted by successive releases in the order they called Acquire.
   */
  lemma FreeGateFifo<T>(g: Gate<T>, tokens: seq<T>)
    requires !g.acquired && g.waitQueue == [] && tokens != []
    ensures AcquireAll(g, tokens) == Gate(true, tokens[1..])
    ensures ReleaseN(AcquireAll(g, tokens), |tokens| - 1).1 == tokens[1..]
  {
    var g1 := g.Acquire(tokens[0]).0;
    assert g1 == Gate(true, []);
    AcquireAllAppends(g1, tokens[1..]);
    assert [] + tokens[1..] == tokens[1..];
    ReleaseNPromotesHead(AcquireAll(g, tokens), |tokens| - 1);
    assert tokens[1..][..|tokens| - 1] == tokens[1..];
  }

  /** After the last waiter is promoted, one more release frees the resource. */
  lemma ReleaseAfterDrainFrees<T>(g: Gate<T>)
    requires g.acquired
    ensures var drained := ReleaseN(g, |g.waitQueue|).0;
      drained.acquired && drained.Release() == (Gate(false, []), None)
  {
    ReleaseNPromotesHead(g, |g.waitQueue|);
  }

  /** A SingleResource: whether it is held, and the tokens of the waiters in arrival order. */
  class SingleResource<T(==), E> {
    var acquired: bool
    var waitQueue: seq<T>

    function State(): Gate<T>
      reads this
    {
      Gate(acquired, waitQueue)
    }

    ghost predicate Valid()
      reads this
    {
      State().Valid()
    }

    /** NewSingleResource: free, nobody waiting. */
    constructor ()
      ensures Valid()
      ensures !acquired && waitQueue == []
    {
      acquired := false;
      waitQueue := [];
    }

    /** Acquire: `granted` closes the returned channel at once; otherwise the caller waits in the queue. */
    method Acquire(token: T) returns (granted: bool)
      modifies this
      ensures (State(), granted) == old(State()).Acquire(token)
      ensures Valid()
    {
      if !acquired {
        acquired := true;
        return true;
      }
      waitQueue := waitQueue + [token];
      return false;
    }

    /** Release: promotes the head waiter (returned, with the nil grant sent to it) or frees the resource. */
    method Release() returns (promoted: bool, grant: Option<Send<T, E>>)
      requires acquired
      modifies this
      ensures var (g, w) := old(State()).Release();
        && State() == g
        && promoted == w.Some?
        && grant == (if w.Some? then Some(Send(w.value, None)) else None)
      ensures Valid()
    {
      if |waitQueue| == 0 {
        acquired := false;
        return false, None;
      }
      var w := waitQueue[0];
      waitQueue := waitQueue[1..];
      return true, Some(Send(w, None));
    }

    /** StopWaiting: the first waiter with the token leaves the queue and is sent err. */
    method StopWaiting(token: T, err: E) returns (sent: Option<Send<T, E>>)
      modifies this
      ensures var (g, w) := old(State()).StopWaiting(token);
        && State() == g
        && sent == (if w.Some? then Some(Send(w.value, Some(err))) else None)
      ensures old(Valid()) ==> Valid()
    {
      var i := 0;
      while i < |waitQueue|
        invariant i <= |waitQueue|
        invariant token !in waitQueue[..i]
      {
        if waitQueue[i] == token {
          IndexOfUnique(waitQueue, token, i);
          assert RemoveFirst(waitQueue, token) == waitQueue[..i] + waitQueue[i + 1..];
          waitQueue := waitQueue[..i] + waitQueue[i + 1..];
          return Some(Send(token, Some(err)));
        }
        assert waitQueue[..i + 1] == waitQueue[..i] + [waitQueue[i]];
        i := i + 1;
      }
      assert waitQueue[..i] == waitQueue;
      return None;
    }

    /** Abort: every waiter, in queue order, is sent err; the queue empties and the flag stays. */
    method Abort(err: E) returns (sent: seq<Send<T, E>>)
      modifies this
      ensures var (g, refused) := old(State()).Abort();
        && State() == g
        && |sent| == |refused|
        && forall k :: 0 <= k < |sent| ==> sent[k] == Send(refused[k], Some(err))
      ensures Valid()
    {
      sent := [];
      for i := 0 to |waitQueue|
        invariant |sent| == i
        invariant forall k :: 0 <= k < i ==> sent[k] == Send(waitQueue[k], Some(err))
      {
        sent := sent + [Send(waitQueue[i], Some(err))];
      }
      waitQueue := [];
    }

    /** Acquired: reports the flag. */
    method Acquired() returns (b: bool)
      ensures b == acquired
    {
      return acquired;
    }
  }
}
