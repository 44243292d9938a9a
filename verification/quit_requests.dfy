/**
 The quit-request delegate `void QuitRequestDelegate(ref bool shouldQuit)`.
 A subscribed handler is known by its identity. It is a C# closure, so it may
 answer each quit request differently; on any one request it only reads and
 writes its `ref bool`, so what it does then is one of the four functions
 bool -> bool, named by `VoteAction`.
 */
module QuitRequests {

  datatype VoteAction =
    | LeaveVote   // does not touch shouldQuit
    | ClearVote   // shouldQuit = false: veto the quit
    | SetVote     // shouldQuit = true
    | InvertVote  // shouldQuit = !shouldQuit

  /**
   `handlers(h, k)` is what the handler subscribed as `h` does on quit request
   number `k`, counting every request delivered so far from 0.
   */
  type Handlers = (nat, nat) -> VoteAction

  function Apply(a: VoteAction, shouldQuit: bool): bool {
    match a
    case LeaveVote => shouldQuit
    case ClearVote => false
    case SetVote => true
    case InvertVote => !shouldQuit
  }

  /**
   `callback?.Invoke(ref vote)` for request `k`: the one `ref` vote passes
   through every handler of the invocation list in subscription order; a null
   callback leaves it alone.
   */
  function Invoke(callback: seq<nat>, handlers: Handlers, k: nat, shouldQuit: bool): bool
    decreases |callback|
  {
    if |callback| == 0 then shouldQuit
    else Invoke(callback[1..], handlers, k, Apply(handlers(callback[0], k), shouldQuit))
  }

  /** Invoking a concatenated list is invoking the two parts one after the other. */
  lemma {:induction false} InvokeAppend(a: seq<nat>, b: seq<nat>, handlers: Handlers, k: nat, v: bool)
    ensures Invoke(a + b, handlers, k, v) == Invoke(b, handlers, k, Invoke(a, handlers, k, v))
    decreases |a|
  {
    if |a| == 0 {
      assert a + b == b;
    } else {
      assert (a + b)[1..] == a[1..] + b;
      InvokeAppend(a[1..], b, handlers, k, Apply(handlers(a[0], k), v));
    }
  }

  /** Handlers that do not write the vote on this request leave it as it was. */
  lemma {:induction false} InvokeOfPassiveObservers(callback: seq<nat>, handlers: Handlers, k: nat, v: bool)
    requires forall i :: 0 <= i < |callback| ==> handlers(callback[i], k) == LeaveVote
    ensures Invoke(callback, handlers, k, v) == v
    decreases |callback|
  {
    if |callback| > 0 {
      assert forall i :: 0 <= i < |callback[1..]| ==> callback[1..][i] == callback[i + 1];
      InvokeOfPassiveObservers(callback[1..], handlers, k, v);
    }
  }

  /**
   When on this request every handler either vetoes (clears the vote) or stays
   silent, invoking them is an AND-reduction: the quit survives iff nobody vetoes.
   */
  lemma {:induction false} InvokeVetoOnly(callback: seq<nat>, handlers: Handlers, k: nat, v: bool)
    requires forall i :: 0 <= i < |callback| ==> handlers(callback[i], k) in {LeaveVote, ClearVote}
    ensures Invoke(callback, handlers, k, v) <==> v && forall i :: 0 <= i < |callback| ==> handlers(callback[i], k) != ClearVote
    decreases |callback|
  {
    if |callback| > 0 {
      assert forall i :: 1 <= i < |callback| ==> callback[i] == callback[1..][i - 1];
      InvokeVetoOnly(callback[1..], handlers, k, Apply(handlers(callback[0], k), v));
    }
  }

  /** The last handler that writes a constant decides, provided no later handler writes at all. */
  lemma LastWriterWins(a: seq<nat>, o: nat, b: seq<nat>, handlers: Handlers, k: nat, v: bool)
    requires handlers(o, k) in {ClearVote, SetVote}
    requires forall i :: 0 <= i < |b| ==> handlers(b[i], k) == LeaveVote
    ensures Invoke(a + [o] + b, handlers, k, v) == (handlers(o, k) == SetVote)
  {
    InvokeAppend(a + [o], b, handlers, k, v);
    InvokeAppend(a, [o], handlers, k, v);
    InvokeOfPassiveObservers(b, handlers, k, Invoke(a + [o], handlers, k, v));
  }
}
