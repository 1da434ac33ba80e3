/** The authentication lifecycle with its queue of requests that wait for a token refresh. */
module AuthStates {
  import opened JsonValues

  datatype AuthState = Unauthenticated | Authenticating | Authenticated | TokenExpired | Refreshing | Failed

  datatype AuthEvent =
    | AuthenticateStarted | AuthenticateCompleted
    | TokenLapsed // `AuthEvent::TokenExpired`
    | RefreshStarted | RefreshCompleted | RefreshFailed
    | Logout

  /** The transition table; `None` is `InvalidTransition`. */
  function Transition(from: AuthState, event: AuthEvent): Option<AuthState> {
    match event
    case AuthenticateStarted => if from == Unauthenticated || from == Failed then Some(Authenticating) else None
    case RefreshStarted => if from == Unauthenticated || from == TokenExpired then Some(Refreshing) else None
    case AuthenticateCompleted => if from == Authenticating then Some(Authenticated) else None
    case RefreshCompleted => if from == Refreshing then Some(Authenticated) else None
    case Logout => if from != Unauthenticated then Some(Unauthenticated) else None
    case RefreshFailed => if from == Authenticating || from == Refreshing then Some(Failed) else None
    case TokenLapsed => if from == Authenticated then Some(TokenExpired) else None
  }

  datatype Machine = Machine(current: AuthState, queue: seq<nat>, nextId: nat)

  /** The request counter has 64 bits and wraps. */
  const U64: nat := 0x1_0000_0000_0000_0000

  const NEW := Machine(Unauthenticated, [], 0)

  /** One call on the machine. */
  datatype Call = TransitionTo(event: AuthEvent) | HandleEvent(event: AuthEvent) | Enqueue | Reset

  /** The machine after a call, whether the call was accepted, and the requests that left the queue. */
  datatype Outcome = Outcome(machine: Machine, accepted: bool, released: seq<nat>)

  function Step(m: Machine, call: Call): Outcome {
    match call
    case TransitionTo(event) =>
      var next := Transition(m.current, event);
      if next.None? then Outcome(m, false, []) else Outcome(m.(current := next.value), true, [])
    case HandleEvent(event) =>
      var next := Transition(m.current, event);
      if next.None? then Outcome(m, false, [])
      else if m.current == Refreshing && next.value == Authenticated
      then Outcome(m.(current := next.value, queue := []), true, m.queue)
      else Outcome(m.(current := next.value), true, [])
    case Enqueue => Outcome(m.(queue := m.queue + [m.nextId], nextId := (m.nextId + 1) % U64), true, [])
    case Reset => Outcome(m.(current := Unauthenticated, queue := []), true, m.queue)
  }

  // ----- the machine in place -----

  class AuthStateMachine {
    var current: AuthState
    var queue: seq<nat>
    var nextRequestId: nat

    constructor ()
      ensures Value() == NEW
    {
      current, queue, nextRequestId := Unauthenticated, [], 0;
    }

    function Value(): Machine
      reads this
    {
      Machine(current, queue, nextRequestId)
    }

    method TransitionTo(event: AuthEvent) returns (ok: bool)
      modifies this`current
      ensures var o := Step(old(Value()), Call.TransitionTo(event)); Value() == o.machine && ok == o.accepted
    {
      var next := Transition(current, event);
      if next.None? {
        return false;
      }
      current := next.value;
      ok := true;
    }

    method HandleEvent(event: AuthEvent) returns (released: Option<seq<nat>>)
      modifies this
      ensures var o := Step(old(Value()), Call.HandleEvent(event));
        Value() == o.machine && released == if o.accepted then Some(o.released) else None
    {
      var wasRefreshing := current == Refreshing;
      var ok := TransitionTo(event);
      if !ok {
        return None;
      }
      if wasRefreshing && current == Authenticated {
        var drained := queue;
        queue := [];
        return Some(drained);
      }
      released := Some([]);
    }

    method EnqueueRequest() returns (id: nat)
      modifies this
      ensures Value() == Step(old(Value()), Enqueue).machine && id == old(nextRequestId)
    {
      id := nextRequestId;
      nextRequestId := (nextRequestId + 1) % U64;
      queue := queue + [id];
    }

    method ResetMachine()
      modifies this
      ensures Value() == Step(old(Value()), Reset).machine
    {
      current := Unauthenticated;
      queue := [];
    }
  }

  // ----- runs -----

  function After(calls: seq<Call>): Machine {
    if calls == [] then NEW else Step(After(calls[..|calls| - 1]), calls[|calls| - 1]).machine
  }

  function Accepted(calls: seq<Call>, k: nat): bool
    requires k < |calls|
  {
    Step(After(calls[..k]), calls[k]).accepted
  }

  /** Everything that left the queue over a run: the batches `handle_event` drained and `reset` discarded, in time
      order. */
  function Released(calls: seq<Call>): seq<nat> {
    if calls == [] then []
    else
      var earlier := calls[..|calls| - 1];
      Released(earlier) + Step(After(earlier), calls[|calls| - 1]).released
  }

  /** How many requests have been enqueued over a run. */
  function Enqueued(calls: seq<Call>): nat {
    if calls == [] then 0 else Enqueued(calls[..|calls| - 1]) + if calls[|calls| - 1] == Enqueue then 1 else 0
  }

  /** The ids of the first `n` requests. */
  function Ids(n: nat): seq<nat> {
    seq(n, k requires 0 <= k => k % U64)
  }

  /** Conservation: what left the queue, followed by what is in it, is exactly the ids of all requests in the order they
      came; so no request is lost, repeated or reordered. The first 2^64 requests are numbered 0, 1, 2 and so on. */
  lemma {:induction false} QueueIsConserved(calls: seq<Call>)
    ensures Released(calls) + After(calls).queue == Ids(Enqueued(calls))
    ensures After(calls).nextId == Enqueued(calls) % 18446744073709551616
    ensures forall k :: 0 <= k < Enqueued(calls) ==> Ids(Enqueued(calls))[k] == k % 18446744073709551616
  {
    if calls != [] {
      var earlier, last := calls[..|calls| - 1], calls[|calls| - 1];
      QueueIsConserved(earlier);
      var m := After(earlier);
      if last == Enqueue {
        assert Released(calls) + After(calls).queue == Released(earlier) + m.queue + [m.nextId];
        NextId(Enqueued(earlier));
      } else {
        assert Released(calls) + After(calls).queue == Released(earlier) + m.queue;
      }
    }
  }

  lemma NextId(n: nat)
    ensures (n % U64 + 1) % U64 == (n + 1) % U64 && Ids(n + 1) == Ids(n) + [n % U64]
  {
  }

  /** Ids in use at the same time are distinct as long as fewer than 2^64 requests wait. */
  lemma WaitingIdsDistinct(calls: seq<Call>, a: nat, b: nat)
    requires var queue := After(calls).queue; a < b < |queue| <= U64
    ensures After(calls).queue[a] != After(calls).queue[b]
  {
    QueueIsConserved(calls);
    var gone, queue, n := |Released(calls)|, After(calls).queue, Enqueued(calls);
    assert queue[a] == Ids(n)[gone + a] && queue[b] == Ids(n)[gone + b];
    CloseRemainders(gone + a, gone + b);
  }

  lemma CloseRemainders(x: nat, y: nat)
    requires x < y < x + U64
    ensures x % U64 != y % U64
  {
  }

  /** A batch is handed out only by a refresh that completes, and then the queue is empty. */
  lemma DrainedOnlyByRefresh(m: Machine, event: AuthEvent)
    ensures var o := Step(m, HandleEvent(event));
      && (o.released != [] ==> event == RefreshCompleted && m.current == Refreshing)
      && (o.accepted && event == RefreshCompleted ==> o.released == m.queue && o.machine.queue == [])
      && (!o.accepted ==> o.machine == m)
  {
  }

  /** A failed machine can be left without a reset, by exactly two events. */
  lemma WaysOutOfFailed(event: AuthEvent)
    ensures Transition(Failed, event).Some? <==> event == AuthenticateStarted || event == Logout
  {
  }

  predicate Carries(call: Call, event: AuthEvent) {
    (call.TransitionTo? || call.HandleEvent?) && call.event == event
  }

  /** The states in which each event is accepted, by either method; a reset or a request always is. */
  lemma AcceptedExactlyFrom(m: Machine, call: Call)
    ensures var accepted := Step(m, call).accepted;
      && (Carries(call, AuthenticateStarted) ==> (accepted <==> m.current == Unauthenticated || m.current == Failed))
      && (Carries(call, RefreshStarted) ==> (accepted <==> m.current == Unauthenticated || m.current == TokenExpired))
      && (Carries(call, AuthenticateCompleted) ==> (accepted <==> m.current == Authenticating))
      && (Carries(call, RefreshCompleted) ==> (accepted <==> m.current == Refreshing))
      && (Carries(call, RefreshFailed) ==> (accepted <==> m.current == Authenticating || m.current == Refreshing))
      && (Carries(call, TokenLapsed) ==> (accepted <==> m.current == Authenticated))
      && (Carries(call, Logout) ==> (accepted <==> m.current != Unauthenticated))
      && (call == Reset || call == Enqueue ==> accepted)
  {
  }

  /** The state each accepted call leads to, whatever it came from. A refused call and a request change no state, and
      a refused call changes nothing at all. */
  lemma LeadsTo(m: Machine, call: Call)
    ensures var o := Step(m, call);
      && (o.accepted && Carries(call, AuthenticateStarted) ==> o.machine.current == Authenticating)
      && (o.accepted && Carries(call, RefreshStarted) ==> o.machine.current == Refreshing)
      && (o.accepted && Carries(call, AuthenticateCompleted) ==> o.machine.current == Authenticated)
      && (o.accepted && Carries(call, RefreshCompleted) ==> o.machine.current == Authenticated)
      && (o.accepted && Carries(call, RefreshFailed) ==> o.machine.current == Failed)
      && (o.accepted && Carries(call, TokenLapsed) ==> o.machine.current == TokenExpired)
      && ((o.accepted && Carries(call, Logout)) || call == Reset ==> o.machine.current == Unauthenticated)
      && (call == Enqueue ==> o.machine.current == m.current)
      && (!o.accepted ==> o.machine == m && o.released == [])
  {
  }

  /** A call that changes the state: an accepted event or a reset. */
  predicate Moves(calls: seq<Call>, k: nat)
    requires k < |calls|
  {
    calls[k] == Reset || (!calls[k].Enqueue? && Accepted(calls, k))
  }

  /** Between two moves the state stands still, and before the first one nobody is authenticated. */
  lemma {:induction false} StandsStill(calls: seq<Call>, from: nat)
    requires from <= |calls| && forall x :: from <= x < |calls| ==> !Moves(calls, x)
    ensures After(calls).current == After(calls[..from]).current
    decreases |calls|
  {
    hide Step, Carries;
    if from == |calls| {
      assert calls[..from] == calls;
    } else {
      var earlier := calls[..|calls| - 1];
      assert earlier[..from] == calls[..from];
      forall x | from <= x < |earlier| ensures !Moves(earlier, x) {
        assert earlier[..x] == calls[..x];
        assert !Moves(calls, x);
      }
      StandsStill(earlier, from);
      assert !Moves(calls, |calls| - 1);
      LeadsTo(After(earlier), calls[|calls| - 1]);
    }
  }

  /** Over any run the state is fixed by the last move alone. In particular a machine is in `TokenExpired` iff that was
      an accepted lapse of the token. */
  lemma StateIsLastMove(calls: seq<Call>, k: nat)
    requires k < |calls| && Moves(calls, k) && forall x :: k < x < |calls| ==> !Moves(calls, x)
    ensures var now, last := After(calls).current, calls[k];
      && (now == Authenticating <==> Carries(last, AuthenticateStarted))
      && (now == Authenticated <==> Carries(last, AuthenticateCompleted) || Carries(last, RefreshCompleted))
      && (now == TokenExpired <==> Carries(last, TokenLapsed))
      && (now == Refreshing <==> Carries(last, RefreshStarted))
      && (now == Failed <==> Carries(last, RefreshFailed))
      && (now == Unauthenticated <==> Carries(last, Logout) || last == Reset)
  {
    hide Step;
    StandsStill(calls, k + 1);
    AfterNext(calls, k);
    LeadsTo(After(calls[..k]), calls[k]);
  }

  lemma StartsUnauthenticated(calls: seq<Call>)
    requires forall x :: 0 <= x < |calls| ==> !Moves(calls, x)
    ensures After(calls).current == Unauthenticated
  {
    StandsStill(calls, 0);
  }

  lemma AfterNext(calls: seq<Call>, k: nat)
    requires k < |calls|
    ensures After(calls[..k + 1]) == Step(After(calls[..k]), calls[k]).machine
  {
    assert calls[..k + 1][..k] == calls[..k];
  }

  predicate StartsRefresh(calls: seq<Call>, k: nat)
    requires k < |calls|
  {
    Carries(calls[k], RefreshStarted) && Accepted(calls, k)
  }

  /** A call that ends a refresh: an accepted completion, failure or logout, or a reset. */
  predicate EndsRefresh(calls: seq<Call>, k: nat)
    requires k < |calls|
  {
    calls[k] == Reset ||
    (Accepted(calls, k) && (
      Carries(calls[k], RefreshCompleted) || Carries(calls[k], RefreshFailed) || Carries(calls[k], Logout)))
  }

  /** A call that does not end a refresh leaves it going on; an accepted start sets it going. */
  lemma RefreshStep(m: Machine, call: Call)
    ensures var o := Step(m, call);
      && (Carries(call, RefreshStarted) && o.accepted ==> m.current != Refreshing && o.machine.current == Refreshing)
      && (m.current == Refreshing && call != Reset
          && !(o.accepted && (Carries(call, RefreshCompleted) || Carries(call, RefreshFailed) || Carries(call, Logout)))
          ==> o.machine.current == Refreshing)
  {
  }

  lemma {:induction false} RefreshGoesOn(calls: seq<Call>, i: nat, j: nat)
    requires i < j <= |calls| && StartsRefresh(calls, i)
    requires forall k :: i < k < j ==> !EndsRefresh(calls, k)
    ensures After(calls[..j]).current == Refreshing
    decreases j
  {
    hide Step, Carries;
    AfterNext(calls, j - 1);
    RefreshStep(After(calls[..j - 1]), calls[j - 1]);
    if i + 1 < j {
      RefreshGoesOn(calls, i, j - 1);
      assert !EndsRefresh(calls, j - 1);
    }
  }

  /** Only one refresh at a time: between two accepted starts there is always an end. */
  lemma RefreshesAlternate(calls: seq<Call>, i: nat, j: nat)
    requires i < j < |calls| && StartsRefresh(calls, i) && StartsRefresh(calls, j)
    ensures exists k :: i < k < j && EndsRefresh(calls, k)
  {
    if forall k :: i < k < j ==> !EndsRefresh(calls, k) {
      RefreshGoesOn(calls, i, j);
      RefreshStep(After(calls[..j]), calls[j]);
    }
  }
}
