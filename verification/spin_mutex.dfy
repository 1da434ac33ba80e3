/** `SpinMutex` as an interleaving step system: any number of threads, one atomic byte, sequentially consistent
    single steps. Acquiring is a plain load followed by a compare-exchange, releasing a plain load followed by a
    store. */
module SpinMutex {
  import opened JsonValues

  const LOCKED: bv8 := 0x01
  const POISONED: bv8 := 0x02

  predicate IsLocked(state: bv8) {
    state & LOCKED != 0
  }

  predicate IsPoisoned(state: bv8) {
    state & POISONED != 0
  }

  /** The call a thread is in. `lock` retries for ever; the bounded call counts the attempts it has used. */
  datatype Call = Lock(slow: bool) | TryLock | TryLimited(limit: nat, used: nat)

  /** Where a thread is. A holder carries what its acquisition reported, its place in the order of acquisitions,
      and the value it has read but not yet written back. */
  datatype Thread<T> =
    | Idle
    | Entering(call: Call)
    | Loaded(call: Call, seen: bv8)
    | Holding(poisoned: bool, ticket: nat, view: Option<T>)
    | ReleaseLoaded(seen: bv8)
  {
    /** The thread is in its critical section or on its way out. */
    predicate Owns() {
      Holding? || ReleaseLoaded?
    }
  }

  /** One read-modify-write of the protected data, made under the acquisition `ticket`. */
  datatype Update<!T> = Update(ticket: nat, f: T -> T)

  /** What an acquisition reported, and the byte its compare-exchange found. */
  datatype Acquisition = Acquisition(poisoned: bool, found: bv8)

  datatype System<!T> = System(
    state: bv8,
    data: T,
    threads: seq<Thread<T>>,
    updates: seq<Update<T>>,
    acquisitions: seq<Acquisition>)

  datatype Step<!T> =
    | Begin(call: Call)
    | Load
    | Exchange         // the compare-exchange succeeds
    | Fail             // locked when loaded, changed since, or a spurious failure of the weak exchange
    | GiveUp           // the bounded call has no attempt left
    | Read
    | Write(f: T -> T)
    | StartRelease
    | Release

  /** Only `lock`'s fast path and `try_lock` use the strong exchange. */
  predicate IsWeak(call: Call) {
    call == Lock(true) || call.TryLimited?
  }

  function AfterFailure<T>(call: Call): Thread<T> {
    match call
    case Lock(_) => Entering(Lock(true))
    case TryLock => Idle
    case TryLimited(_, _) => Entering(call)
  }

  function CountAttempt(call: Call): Call {
    if call.TryLimited? then call.(used := call.used + 1) else call
  }

  predicate NewCall(call: Call) {
    match call
    case Lock(slow) => !slow
    case TryLock => true
    case TryLimited(_, used) => used == 0
  }

  /** The step is enabled for thread `t`. */
  predicate Enabled<T>(g: System<T>, t: nat, step: Step<T>) {
    t < |g.threads| &&
    var th := g.threads[t];
    match step
    case Begin(call) => th.Idle? && NewCall(call)
    case Load => th.Entering? && (th.call.TryLimited? ==> th.call.used < th.call.limit)
    case GiveUp => th.Entering? && th.call.TryLimited? && th.call.used == th.call.limit
    case Exchange => th.Loaded? && !IsLocked(th.seen) && g.state == th.seen
    case Fail => th.Loaded? && (IsLocked(th.seen) || g.state != th.seen || IsWeak(th.call))
    case Read => th.Holding?
    case Write(_) => th.Holding? && th.view.Some?
    case StartRelease => th.Holding?
    case Release => th.ReleaseLoaded?
  }

  function Set<T>(g: System<T>, t: nat, th: Thread<T>): System<T>
    requires t < |g.threads|
  {
    g.(threads := g.threads[t := th])
  }

  function Next<T>(g: System<T>, t: nat, step: Step<T>): System<T>
    requires Enabled(g, t, step)
  {
    var th := g.threads[t];
    match step
    case Begin(call) => Set(g, t, Entering(call))
    case Load => Set(g, t, Loaded(CountAttempt(th.call), g.state))
    case GiveUp => Set(g, t, Idle)
    case Exchange =>
      var poisoned := IsPoisoned(th.seen);
      Set(g, t, Holding(poisoned, |g.acquisitions|, None))
        .(state := th.seen | LOCKED, acquisitions := g.acquisitions + [Acquisition(poisoned, g.state)])
    case Fail => Set(g, t, AfterFailure(th.call))
    case Read => Set(g, t, th.(view := Some(g.data)))
    case Write(f) =>
      Set(g, t, th.(view := None)).(data := f(th.view.value), updates := g.updates + [Update(th.ticket, f)])
    case StartRelease => Set(g, t, ReleaseLoaded(g.state))
    case Release => Set(g, t, Idle).(state := th.seen & !LOCKED)
  }

  /** The start: nobody in a call, the byte unlocked but perhaps poisoned. */
  predicate Initial<T>(g: System<T>) {
    && !IsLocked(g.state)
    && (forall t :: 0 <= t < |g.threads| ==> g.threads[t].Idle?)
    && g.updates == [] && g.acquisitions == []
  }

  // ----- runs -----

  /** The states of a run from `start`, with the step taken between each two. */
  ghost predicate IsRun<T(!new)>(start: System<T>, run: seq<System<T>>, steps: seq<(nat, Step<T>)>) {
    && |run| == |steps| + 1 && run[0] == start && Initial(start)
    && forall k :: 0 <= k < |steps| ==>
      Enabled(run[k], steps[k].0, steps[k].1) && run[k + 1] == Next(run[k], steps[k].0, steps[k].1)
  }

  function Fold<T>(initial: T, updates: seq<Update<T>>): T {
    if updates == [] then initial
    else updates[|updates| - 1].f(Fold(initial, updates[..|updates| - 1]))
  }

  // ----- invariants -----

  /** Exclusion: at most one owner, the LOCKED bit set exactly when there is one, nothing else of the byte ever
      changed, and a releasing thread's loaded byte still the shared byte. */
  ghost predicate Exclusive<T>(g: System<T>, start: bv8) {
    && !IsLocked(start) && (g.state == start || g.state == start | LOCKED)
    && (forall a, b ::
          0 <= a < |g.threads| && 0 <= b < |g.threads| && g.threads[a].Owns() && g.threads[b].Owns() ==> a == b)
    && (IsLocked(g.state) <==> exists t :: 0 <= t < |g.threads| && g.threads[t].Owns())
    && (forall t :: 0 <= t < |g.threads| && g.threads[t].ReleaseLoaded? ==> g.threads[t].seen == g.state)
    && (forall t :: 0 <= t < |g.threads| && g.threads[t].Loaded? ==>
          g.threads[t].seen == start || g.threads[t].seen == start | LOCKED)
  }

  /** Linearizability: the data is the fold of the updates, which stand in the order of their acquisitions; a holder
      has the latest ticket, and what it has read is still current. */
  ghost predicate Linear<T(!new)>(g: System<T>, initial: T) {
    && g.data == Fold(initial, g.updates)
    && (forall a, b :: 0 <= a < b < |g.updates| ==> g.updates[a].ticket <= g.updates[b].ticket)
    && (forall a :: 0 <= a < |g.updates| ==> g.updates[a].ticket < |g.acquisitions|)
    && (forall t :: 0 <= t < |g.threads| && g.threads[t].Holding? ==>
          && g.threads[t].ticket + 1 == |g.acquisitions|
          && (g.threads[t].view.Some? ==> g.threads[t].view.value == g.data))
  }

  /** Each acquisition reported the poison bit of the byte it exchanged, and that bit is the one from the start. */
  ghost predicate Reported<T>(g: System<T>, start: bv8) {
    && (forall k :: 0 <= k < |g.acquisitions| ==>
          (g.acquisitions[k].poisoned <==> IsPoisoned(g.acquisitions[k].found)) && g.acquisitions[k].found == start)
    && (forall t :: 0 <= t < |g.threads| && g.threads[t].Holding? ==>
          (g.threads[t].poisoned <==> IsPoisoned(start)))
  }

  /** A bounded call has used at most its limit of attempts. */
  predicate WithinLimit<T>(th: Thread<T>) {
    (th.Entering? || th.Loaded?) && th.call.TryLimited? ==> th.call.used <= th.call.limit
  }

  ghost predicate Bounded<T>(g: System<T>) {
    forall t :: 0 <= t < |g.threads| ==> WithinLimit(g.threads[t])
  }

  lemma Bits(s: bv8)
    ensures IsLocked(s | LOCKED)
    ensures !IsLocked(s) ==> s | LOCKED != s && (s | LOCKED) & !LOCKED == s
    ensures IsPoisoned(s | LOCKED) <==> IsPoisoned(s)
    ensures !IsLocked(s & !LOCKED)
    ensures IsLocked(s) <==> s & 0x01 == 0x01
    ensures IsPoisoned(s) <==> s & 0x02 == 0x02
    ensures (s | LOCKED) & 0x02 == s & 0x02
  {
  }

  /** A step that leaves the byte and the ownership of the lock alone. */
  lemma QuietStep<T>(g: System<T>, next: System<T>, t: nat, th: Thread<T>, start: bv8)
    requires Exclusive(g, start) && t < |g.threads|
    requires next.state == g.state && next.threads == g.threads[t := th] && (th.Owns() <==> g.threads[t].Owns())
    requires (th.ReleaseLoaded? ==> th.seen == g.state) && (th.Loaded? ==> th.seen == g.state)
    ensures Exclusive(next, start)
  {
    hide IsLocked;
    if x :| 0 <= x < |g.threads| && g.threads[x].Owns() {
      assert next.threads[x].Owns();
    }
  }

  lemma AcquiringStep<T>(g: System<T>, next: System<T>, t: nat, th: Thread<T>, start: bv8)
    requires Exclusive(g, start) && t < |g.threads| && !IsLocked(g.state)
    requires next.state == g.state | LOCKED && next.threads == g.threads[t := th] && th.Holding?
    ensures Exclusive(next, start)
  {
    hide IsLocked;
    Bits(start);
    assert next.threads[t].Owns();
    assert forall x :: 0 <= x < |g.threads| ==> !g.threads[x].Owns();
  }

  lemma ReleasingStep<T>(g: System<T>, next: System<T>, t: nat, start: bv8)
    requires Exclusive(g, start) && t < |g.threads| && g.threads[t].ReleaseLoaded?
    requires next.state == g.state & !LOCKED && next.threads == g.threads[t := Idle]
    ensures Exclusive(next, start)
  {
    hide IsLocked;
    Bits(start);
    assert g.threads[t].Owns();
    assert forall x :: 0 <= x < |g.threads| ==> !next.threads[x].Owns();
  }

  lemma QuietNext<T>(g: System<T>, t: nat, step: Step<T>)
    requires Enabled(g, t, step) && !step.Exchange? && !step.Release?
    ensures var next := Next(g, t, step);
      && next.state == g.state && next.threads == g.threads[t := next.threads[t]]
      && (next.threads[t].Owns() <==> g.threads[t].Owns())
      && (next.threads[t].ReleaseLoaded? || next.threads[t].Loaded? ==> next.threads[t].seen == g.state)
  {
    hide IsPoisoned, IsLocked, NewCall, IsWeak, CountAttempt;
  }

  lemma ExchangeNext<T>(g: System<T>, t: nat)
    requires Enabled(g, t, Exchange)
    ensures var next := Next(g, t, Exchange);
      && !IsLocked(g.state) && next.state == g.state | LOCKED
      && next.threads == g.threads[t := next.threads[t]] && next.threads[t].Holding?
  {
    hide IsPoisoned, IsLocked;
  }

  lemma ExclusiveStep<T>(g: System<T>, t: nat, step: Step<T>, start: bv8)
    requires Exclusive(g, start) && Enabled(g, t, step)
    ensures Exclusive(Next(g, t, step), start)
  {
    match step
    case Exchange =>
      hide Exclusive, Next;
      ExchangeNext(g, t);
      AcquiringStep(g, Next(g, t, step), t, Next(g, t, step).threads[t], start);
    case Release =>
      hide Exclusive;
      ReleaseSeen(g, t, start);
      ReleasingStep(g, Next(g, t, step), t, start);
    case _ =>
      hide Exclusive, Next;
      QuietNext(g, t, step);
      QuietStep(g, Next(g, t, step), t, Next(g, t, step).threads[t], start);
  }

  lemma ReleaseSeen<T>(g: System<T>, t: nat, start: bv8)
    requires Exclusive(g, start) && t < |g.threads| && g.threads[t].ReleaseLoaded?
    ensures g.threads[t].seen == g.state
  {
  }

  /** A step that touches neither the data nor the record, and after which the thread holds no other ticket and has
      read nothing but the data. */
  lemma LinearQuiet<T(!new)>(g: System<T>, next: System<T>, t: nat, th: Thread<T>, initial: T)
    requires Linear(g, initial) && t < |g.threads| && next.threads == g.threads[t := th]
    requires next.data == g.data && next.updates == g.updates && next.acquisitions == g.acquisitions
    requires th.Holding? ==> g.threads[t].Holding? && th.ticket == g.threads[t].ticket
    requires th.Holding? && th.view.Some? ==> th.view.value == g.data
    ensures Linear(next, initial)
  {
    hide Fold;
  }

  lemma LinearExchange<T(!new)>(g: System<T>, next: System<T>, t: nat, start: bv8, initial: T)
    requires Exclusive(g, start) && Linear(g, initial) && t < |g.threads| && !IsLocked(g.state)
    requires next.data == g.data && next.updates == g.updates && |next.acquisitions| == |g.acquisitions| + 1
    requires exists poisoned :: next.threads == g.threads[t := Holding(poisoned, |g.acquisitions|, None)]
    ensures Linear(next, initial)
  {
    hide Fold, IsLocked;
    assert forall x :: 0 <= x < |g.threads| ==> !g.threads[x].Owns();
  }

  lemma LinearWrite<T(!new)>(g: System<T>, next: System<T>, t: nat, f: T -> T, start: bv8, initial: T)
    requires Exclusive(g, start) && Linear(g, initial)
    requires t < |g.threads| && g.threads[t].Holding? && g.threads[t].view.Some?
    requires next.threads == g.threads[t := g.threads[t].(view := None)] && next.acquisitions == g.acquisitions
    requires next.data == f(g.data) && next.updates == g.updates + [Update(g.threads[t].ticket, f)]
    ensures Linear(next, initial)
  {
    hide IsLocked;
    assert next.updates[..|g.updates|] == g.updates;
    assert g.threads[t].Owns();
    forall x | 0 <= x < |g.threads| && x != t ensures !next.threads[x].Holding? {
      assert !g.threads[x].Owns();
    }
  }

  lemma LinearStep<T(!new)>(g: System<T>, t: nat, step: Step<T>, start: bv8, initial: T)
    requires Exclusive(g, start) && Linear(g, initial) && Enabled(g, t, step)
    ensures Linear(Next(g, t, step), initial)
  {
    hide Exclusive, Fold, IsLocked, IsPoisoned, NewCall, IsWeak, CountAttempt;
    var next := Next(g, t, step);
    if step.Exchange? {
      LinearExchange(g, next, t, start, initial);
    } else if step.Write? {
      LinearWrite(g, next, t, step.f, start, initial);
    } else {
      LinearQuiet(g, next, t, next.threads[t], initial);
    }
  }

  /** A step that records no acquisition, and after which the thread reports nothing new. */
  lemma ReportedQuiet<T>(g: System<T>, next: System<T>, t: nat, th: Thread<T>, start: bv8)
    requires Reported(g, start) && t < |g.threads| && next.threads == g.threads[t := th]
    requires next.acquisitions == g.acquisitions
    requires th.Holding? ==> g.threads[t].Holding? && th.poisoned == g.threads[t].poisoned
    ensures Reported(next, start)
  {
    hide IsPoisoned;
  }

  lemma ReportedExchange<T>(g: System<T>, next: System<T>, t: nat, start: bv8)
    requires Reported(g, start) && t < |g.threads| && g.state == start
    requires next.acquisitions == g.acquisitions + [Acquisition(IsPoisoned(start), start)]
    requires next.threads == g.threads[t := Holding(IsPoisoned(start), |g.acquisitions|, None)]
    ensures Reported(next, start)
  {
    hide IsPoisoned;
  }

  lemma ReportedStep<T>(g: System<T>, t: nat, step: Step<T>, start: bv8)
    requires Exclusive(g, start) && Reported(g, start) && Enabled(g, t, step)
    ensures Reported(Next(g, t, step), start)
  {
    var next := Next(g, t, step);
    if step.Exchange? {
      UnlockedIsStart(g, start);
      hide Exclusive, Reported, IsPoisoned, IsLocked;
      ReportedExchange(g, next, t, start);
    } else {
      hide Exclusive, Reported, IsPoisoned, IsLocked, NewCall, IsWeak, CountAttempt;
      ReportedQuiet(g, next, t, next.threads[t], start);
    }
  }

  lemma UnlockedIsStart<T>(g: System<T>, start: bv8)
    requires Exclusive(g, start) && !IsLocked(g.state)
    ensures g.state == start
  {
    Bits(start);
  }

  lemma AttemptCounts<T>(g: System<T>, t: nat, step: Step<T>)
    requires Enabled(g, t, step) && WithinLimit(g.threads[t])
    ensures var next := Next(g, t, step);
      next.threads == g.threads[t := next.threads[t]] && WithinLimit(next.threads[t])
  {
    hide IsLocked, IsPoisoned, IsWeak;
    if step.Exchange? {
      assert Next(g, t, step).threads[t].Holding?;
    } else if step.Release? {
      assert Next(g, t, step).threads[t].Idle?;
    }
  }

  lemma BoundedStep<T>(g: System<T>, t: nat, step: Step<T>)
    requires Bounded(g) && Enabled(g, t, step)
    ensures Bounded(Next(g, t, step))
  {
    hide Next;
    AttemptCounts(g, t, step);
  }

  lemma {:induction false} RunInvariant<T(!new)>(start: System<T>, run: seq<System<T>>, steps: seq<(nat, Step<T>)>,
        k: nat)
    requires IsRun(start, run, steps) && k < |run|
    ensures Exclusive(run[k], start.state) && Linear(run[k], start.data) && Reported(run[k], start.state)
    ensures Bounded(run[k])
    ensures |run[k].threads| == |start.threads|
    decreases k
  {
    if k == 0 {
    } else {
      RunInvariant(start, run, steps, k - 1);
      var g, t, step := run[k - 1], steps[k - 1].0, steps[k - 1].1;
      hide Exclusive, Linear, Reported, Bounded, Next, Enabled;
      assert Enabled(g, t, step) && run[k] == Next(g, t, step);
      ExclusiveStep(g, t, step, start.state);
      LinearStep(g, t, step, start.state, start.data);
      ReportedStep(g, t, step, start.state);
      BoundedStep(g, t, step);
      SameThreads(g, t, step);
    }
  }

  lemma SameThreads<T>(g: System<T>, t: nat, step: Step<T>)
    requires Enabled(g, t, step)
    ensures |Next(g, t, step).threads| == |g.threads|
  {
  }

  // ----- results -----

  /** For any number of threads and any interleaving, at every instant: at most one thread owns the lock, LOCKED is
      set exactly when one does, and a releasing thread is about to store the shared byte with the bit cleared. */
  lemma MutualExclusion<T(!new)>(start: System<T>, run: seq<System<T>>, steps: seq<(nat, Step<T>)>, k: nat, a: nat,
        b: nat)
    requires IsRun(start, run, steps) && k < |run| && a < |run[k].threads| && b < |run[k].threads|
    ensures run[k].threads[a].Owns() && run[k].threads[b].Owns() ==> a == b
    ensures run[k].threads[a].Owns() ==> run[k].state & 0x01 == 0x01
    ensures run[k].state & 0x01 == 0x01 ==> exists t :: 0 <= t < |run[k].threads| && run[k].threads[t].Owns()
    ensures run[k].threads[a].ReleaseLoaded? ==> run[k].threads[a].seen == run[k].state
  {
    RunInvariant(start, run, steps, k);
  }

  /** The data always equals the fold of the updates in the order of their acquisitions, and what a holder has read
      is still the data. */
  lemma CriticalSectionsLinearize<T(!new)>(start: System<T>, run: seq<System<T>>, steps: seq<(nat, Step<T>)>, k: nat)
    requires IsRun(start, run, steps) && k < |run|
    ensures run[k].data == Fold(start.data, run[k].updates)
    ensures forall a, b :: 0 <= a < b < |run[k].updates| ==> run[k].updates[a].ticket <= run[k].updates[b].ticket
    ensures forall t :: 0 <= t < |run[k].threads| && run[k].threads[t].Holding? && run[k].threads[t].view.Some? ==>
      run[k].threads[t].view.value == run[k].data
  {
    RunInvariant(start, run, steps, k);
  }

  /** Every acquisition reports poisoned exactly when the bit was set in the byte its exchange found, and no lock or
      unlock ever changes that bit. */
  lemma PoisonIsReportedAndKept<T(!new)>(start: System<T>, run: seq<System<T>>, steps: seq<(nat, Step<T>)>, k: nat)
    requires IsRun(start, run, steps) && k < |run|
    ensures run[k].state & 0x02 == start.state & 0x02
    ensures forall x :: 0 <= x < |run[k].acquisitions| ==>
      && (run[k].acquisitions[x].poisoned <==> run[k].acquisitions[x].found & 0x02 == 0x02)
      && run[k].acquisitions[x].found == start.state
  {
    RunInvariant(start, run, steps, k);
    Bits(start.state);
    forall x | 0 <= x < |run[k].acquisitions|
      ensures IsPoisoned(run[k].acquisitions[x].found) <==> run[k].acquisitions[x].found & 0x02 == 0x02
    {
      Bits(run[k].acquisitions[x].found);
    }
  }

  /** Another thread owns the lock. */
  ghost predicate HeldByOther<T>(g: System<T>, t: nat) {
    exists x :: 0 <= x < |g.threads| && x != t && g.threads[x].Owns()
  }

  /** The load behind what a thread has in hand: the instant it was made, the byte then, and the call since. */
  lemma {:induction false} LoadInstant<T(!new)>(start: System<T>, run: seq<System<T>>, steps: seq<(nat, Step<T>)>,
        t: nat, k: nat) returns (j: nat)
    requires IsRun(start, run, steps) && k < |run| && t < |run[k].threads| && run[k].threads[t].Loaded?
    ensures j < k && t < |run[j].threads| && run[j].threads[t].Entering? && run[j].state == run[k].threads[t].seen
    ensures CountAttempt(run[j].threads[t].call) == run[k].threads[t].call
    ensures forall m :: j < m <= k ==> t < |run[m].threads| && run[m].threads[t] == run[k].threads[t]
    decreases k
  {
    hide Next, Enabled;
    var g, who, step := run[k - 1], steps[k - 1].0, steps[k - 1].1;
    assert Enabled(g, who, step) && run[k] == Next(g, who, step);
    SameThreads(g, who, step);
    if who == t {
      OnlyLoadLoads(g, t, step);
      j := k - 1;
    } else {
      OthersStay(g, who, step, t);
      j := LoadInstant(start, run, steps, t, k - 1);
    }
  }

  lemma OnlyLoadLoads<T>(g: System<T>, t: nat, step: Step<T>)
    requires Enabled(g, t, step) && Next(g, t, step).threads[t].Loaded?
    ensures g.threads[t].Entering? && Next(g, t, step).threads[t] == Loaded(CountAttempt(g.threads[t].call), g.state)
  {
  }

  lemma OthersStay<T>(g: System<T>, who: nat, step: Step<T>, t: nat)
    requires Enabled(g, who, step) && t != who && t < |g.threads|
    ensures Next(g, who, step).threads[t] == g.threads[t]
  {
  }

  /** The exchange failed although the byte was still the unlocked one the thread had loaded. */
  predicate FailedSpuriously<T>(g: System<T>, t: nat) {
    t < |g.threads| && g.threads[t].Loaded? && !IsLocked(g.threads[t].seen) && g.state == g.threads[t].seen
  }

  /** Behind every failed attempt: another thread owned the lock when the byte was loaded or when the exchange failed,
      or the exchange failed spuriously, which only the weak one can. */
  lemma FailureHasCause<T(!new)>(start: System<T>, run: seq<System<T>>, steps: seq<(nat, Step<T>)>, t: nat, k: nat)
      returns (j: nat)
    requires IsRun(start, run, steps) && k < |steps| && steps[k] == (t, Fail)
    ensures j < k && t < |run[j].threads| && run[j].threads[t].Entering?
    ensures CountAttempt(run[j].threads[t].call) == run[k].threads[t].call
    ensures forall x :: j < x <= k ==> t < |run[x].threads| && run[x].threads[t] == run[k].threads[t]
    ensures HeldByOther(run[j], t) || HeldByOther(run[k], t) || FailedSpuriously(run[k], t)
    ensures FailedSpuriously(run[k], t) ==> run[k].threads[t].call == Lock(true) || run[k].threads[t].call.TryLimited?
  {
    j := LoadInstant(start, run, steps, t, k);
    RunInvariant(start, run, steps, j);
    RunInvariant(start, run, steps, k);
    Bits(start.state);
    hide Linear, Reported, Bounded, Next, IsLocked;
    if IsLocked(run[k].threads[t].seen) {
      OwnerOfLocked(run[j], t, start.state);
    } else if !FailedSpuriously(run[k], t) {
      OwnerOfLocked(run[k], t, start.state);
    }
  }

  lemma OwnerOfLocked<T>(g: System<T>, t: nat, start: bv8)
    requires Exclusive(g, start) && t < |g.threads| && !g.threads[t].Owns() && IsLocked(g.state)
    ensures HeldByOther(g, t)
  {
    hide IsLocked;
  }

  /** `try_lock` returns WouldBlock only if another thread owned the lock at some instant of the call. */
  lemma WouldBlockHasWitness<T(!new)>(start: System<T>, run: seq<System<T>>, steps: seq<(nat, Step<T>)>, t: nat, k: nat)
      returns (j: nat, m: nat)
    requires IsRun(start, run, steps) && k < |steps| && steps[k] == (t, Fail) && run[k].threads[t].call == TryLock
    ensures j <= m <= k && t < |run[j].threads| && run[j].threads[t] == Entering(TryLock)
    ensures forall x :: j < x <= k ==> t < |run[x].threads| && run[x].threads[t] == run[k].threads[t]
    ensures HeldByOther(run[m], t)
  {
    hide HeldByOther, FailedSpuriously, Next, Enabled;
    j := FailureHasCause(start, run, steps, t, k);
    m := if HeldByOther(run[j], t) then j else k;
  }

  /** The failed attempt behind a thread that has come back to try again. */
  lemma {:induction false} LastAttempt<T(!new)>(start: System<T>, run: seq<System<T>>, steps: seq<(nat, Step<T>)>,
        t: nat, k: nat) returns (m: nat)
    requires IsRun(start, run, steps) && k < |run| && t < |run[k].threads| && run[k].threads[t].Entering?
    requires run[k].threads[t].call.TryLimited? && run[k].threads[t].call.used > 0
    ensures m < k && steps[m] == (t, Fail) && t < |run[m].threads|
    ensures run[m].threads[t].Loaded? && run[m].threads[t].call == run[k].threads[t].call
    ensures forall x :: m < x <= k ==> t < |run[x].threads| && run[x].threads[t] == run[k].threads[t]
    decreases k
  {
    hide Next, Enabled;
    var g, who, step := run[k - 1], steps[k - 1].0, steps[k - 1].1;
    assert Enabled(g, who, step) && run[k] == Next(g, who, step);
    SameThreads(g, who, step);
    if who == t {
      OnlyFailRetries(g, t, step);
      m := k - 1;
    } else {
      OthersStay(g, who, step, t);
      m := LastAttempt(start, run, steps, t, k - 1);
    }
  }

  lemma OnlyFailRetries<T>(g: System<T>, t: nat, step: Step<T>)
    requires Enabled(g, t, step)
    requires var th := Next(g, t, step).threads[t]; th.Entering? && th.call.TryLimited? && th.call.used > 0
    ensures step == Fail && g.threads[t].Loaded? && g.threads[t].call == Next(g, t, step).threads[t].call
  {
  }

  /** A bounded call that gives up had no attempts to make, or in its last one another thread owned the lock at some
      instant or the weak exchange failed spuriously. */
  lemma GiveUpHasCause<T(!new)>(start: System<T>, run: seq<System<T>>, steps: seq<(nat, Step<T>)>, t: nat, k: nat)
      returns (j: nat, m: nat)
    requires IsRun(start, run, steps) && k < |steps| && steps[k] == (t, GiveUp)
    ensures var call := run[k].threads[t].call;
      call.limit > 0 ==>
        && j < m < k && steps[m] == (t, Fail) && t < |run[j].threads| && t < |run[m].threads|
        && run[j].threads[t] == Entering(call.(used := call.limit - 1))
        && run[m].threads[t].Loaded? && run[m].threads[t].call == call
        && (HeldByOther(run[j], t) || HeldByOther(run[m], t) || FailedSpuriously(run[m], t))
  {
    var call := run[k].threads[t].call;
    j, m := 0, 0;
    if call.limit > 0 {
      m := LastAttempt(start, run, steps, t, k);
      hide IsRun, HeldByOther, FailedSpuriously;
      j := FailureHasCause(start, run, steps, t, m);
    }
  }

  /** The bounded call needs no witness: the weak exchange may fail although nobody else ever held the lock. */
  lemma SpuriousWouldBlock() returns (start: System<int>, run: seq<System<int>>, steps: seq<(nat, Step<int>)>)
    ensures IsRun(start, run, steps) && |start.threads| == 1
    ensures |steps| > 0 && steps[|steps| - 1] == (0, GiveUp)
    ensures forall k :: 0 <= k < |run| ==> |run[k].threads| == 1 && !run[k].threads[0].Owns()
  {
    start := System(0, 0, [Idle], [], []);
    steps := [(0, Begin(TryLimited(1, 0))), (0, Load), (0, Fail), (0, GiveUp)];
    var r1 := Next(start, 0, steps[0].1);
    var r2 := Next(r1, 0, steps[1].1);
    var r3 := Next(r2, 0, steps[2].1);
    run := [start, r1, r2, r3, Next(r3, 0, steps[3].1)];
  }

  /** A bounded call never uses more attempts than its limit, and gives up only with all of them used. */
  lemma AttemptsWithinLimit<T(!new)>(start: System<T>, run: seq<System<T>>, steps: seq<(nat, Step<T>)>, k: nat, t: nat)
    requires IsRun(start, run, steps) && k < |steps| && steps[k].0 == t
    requires (run[k].threads[t].Entering? || run[k].threads[t].Loaded?) && run[k].threads[t].call.TryLimited?
    ensures run[k].threads[t].call.used <= run[k].threads[t].call.limit
    ensures steps[k].1.GiveUp? ==> run[k].threads[t].call.used == run[k].threads[t].call.limit
  {
    RunInvariant(start, run, steps, k);
  }

  // ----- how a call ends -----

  /** The thread is in a `lock` call and does not own the lock yet. */
  predicate Locking<T>(th: Thread<T>) {
    (th.Entering? || th.Loaded?) && th.call.Lock?
  }

  /** A thread leaves `lock` only by acquiring; its first failed attempt leads to the slow path, which it never leaves
      otherwise. */
  lemma LockingStep<T>(g: System<T>, t: nat, step: Step<T>)
    requires Enabled(g, t, step) && Locking(g.threads[t])
    ensures var next := Next(g, t, step).threads[t];
      && (step == Exchange ==> next.Holding?)
      && (step != Exchange ==> Locking(next))
      && (step == Fail ==> next == Entering(Lock(true)))
      && (step != Exchange && g.threads[t].call == Lock(true) ==> next.call == Lock(true))
  {
    hide IsLocked, IsPoisoned;
  }

  /** Over any run: between an instant at which a thread is in a `lock` call and a later one at which it is not, it
      has held the lock. */
  lemma {:induction false} LockEndsHolding<T(!new)>(start: System<T>, run: seq<System<T>>, steps: seq<(nat, Step<T>)>,
        t: nat, j: nat, k: nat) returns (m: nat)
    requires IsRun(start, run, steps) && j <= k < |run| && t < |run[j].threads| && t < |run[k].threads|
    requires Locking(run[j].threads[t]) && !Locking(run[k].threads[t])
    ensures j < m <= k && steps[m - 1] == (t, Exchange) && t < |run[m].threads| && run[m].threads[t].Holding?
    decreases k - j
  {
    hide Next, Enabled;
    var g, who, step := run[j], steps[j].0, steps[j].1;
    assert Enabled(g, who, step) && run[j + 1] == Next(g, who, step);
    SameThreads(g, who, step);
    if who == t {
      LockingStep(g, t, step);
    } else {
      OthersStay(g, who, step, t);
    }
    if (who, step) == (t, Exchange) {
      m := j + 1;
    } else {
      m := LockEndsHolding(start, run, steps, t, j + 1, k);
    }
  }

  /** Over any run: a failed attempt of `lock` is followed by attempts with the weak exchange until one acquires. */
  lemma {:induction false} LockKeepsTrying<T(!new)>(start: System<T>, run: seq<System<T>>, steps: seq<(nat, Step<T>)>,
        t: nat, j: nat, k: nat)
    requires IsRun(start, run, steps) && j < k < |run| && steps[j] == (t, Fail)
    requires t < |run[j].threads| && Locking(run[j].threads[t])
    requires forall x :: j < x < k ==> steps[x] != (t, Exchange)
    ensures t < |run[k].threads| && Locking(run[k].threads[t]) && run[k].threads[t].call == Lock(true)
    decreases k
  {
    hide Next, Enabled;
    var g, who, step := run[k - 1], steps[k - 1].0, steps[k - 1].1;
    assert Enabled(g, who, step) && run[k] == Next(g, who, step);
    SameThreads(g, who, step);
    if k > j + 1 {
      LockKeepsTrying(start, run, steps, t, j, k - 1);
    }
    if who == t {
      LockingStep(g, t, step);
    } else {
      OthersStay(g, who, step, t);
    }
  }

  /** A thread's call ends exactly where it answers WouldBlock, at the one failure of `try_lock` or where the bounded
      call gives up, or where it releases the lock by storing the byte with the bit cleared. */
  lemma EndsIdle<T>(g: System<T>, t: nat, step: Step<T>)
    requires Enabled(g, t, step)
    ensures Next(g, t, step).threads[t].Idle? <==>
      var th := g.threads[t];
      || (step == Fail && th.Loaded? && th.call == TryLock)
      || (step == GiveUp && th.Entering? && th.call.TryLimited?)
      || (step == Release && th.ReleaseLoaded?)
    ensures step == Release ==> Next(g, t, step).state == g.threads[t].seen & 0xFE
  {
    hide IsLocked, IsPoisoned, NewCall, IsWeak, CountAttempt;
    assert !LOCKED == 0xFE;
  }

  /** What may become of an attempt: it succeeds only on the unlocked byte it has loaded, and fails otherwise; the weak
      exchange of the slow path and of the bounded call may also fail on that byte. */
  lemma AttemptOutcomes<T>(g: System<T>, t: nat)
    requires t < |g.threads| && g.threads[t].Loaded?
    ensures var th := g.threads[t];
      var free := th.seen & 0x01 == 0 && g.state == th.seen;
      && (Enabled(g, t, Exchange) <==> free)
      && (Enabled(g, t, Fail) <==> !free || th.call == Lock(true) || th.call.TryLimited?)
  {
  }

  /** The slow path is entered only by a failed attempt. */
  lemma {:induction false} SlowAfterFailure<T(!new)>(start: System<T>, run: seq<System<T>>,
        steps: seq<(nat, Step<T>)>, t: nat, k: nat) returns (j: nat)
    requires IsRun(start, run, steps) && k < |run| && t < |run[k].threads|
    requires Locking(run[k].threads[t]) && run[k].threads[t].call == Lock(true)
    ensures j < k && steps[j] == (t, Fail) && t < |run[j].threads| && Locking(run[j].threads[t])
    decreases k
  {
    hide Next, Enabled;
    var g, who, step := run[k - 1], steps[k - 1].0, steps[k - 1].1;
    assert Enabled(g, who, step) && run[k] == Next(g, who, step);
    SameThreads(g, who, step);
    if (who, step) == (t, Fail) {
      OnlyLockSlows(g, t, step);
      j := k - 1;
    } else {
      if who == t {
        OnlyLockSlows(g, t, step);
      } else {
        OthersStay(g, who, step, t);
      }
      j := SlowAfterFailure(start, run, steps, t, k - 1);
    }
  }

  lemma OnlyLockSlows<T>(g: System<T>, t: nat, step: Step<T>)
    requires Enabled(g, t, step)
    requires var th := Next(g, t, step).threads[t]; Locking(th) && th.call == Lock(true)
    ensures Locking(g.threads[t]) && (step == Fail || g.threads[t].call == Lock(true))
  {
    hide IsLocked, IsPoisoned;
  }

  /** What an uncontended call does: begin, load, exchange. */
  function Uncontended<T>(t: nat, call: Call): seq<(nat, Step<T>)> {
    [(t, Begin(call)), (t, Load), (t, Exchange)]
  }

  /** From any instant of any run at which nobody owns the lock, an idle thread acquires with any of the three calls,
      unless that is a bounded one without attempts. It reports the poison bit. */
  lemma UncontendedAcquires<T(!new)>(start: System<T>, run: seq<System<T>>, steps: seq<(nat, Step<T>)>, t: nat,
        call: Call) returns (longer: seq<System<T>>)
    requires IsRun(start, run, steps)
    requires var last := run[|run| - 1];
      && t < |last.threads| && last.threads[t].Idle? && forall x :: 0 <= x < |last.threads| ==> !last.threads[x].Owns()
    requires call in {Lock(false), TryLock} || (call.TryLimited? && call.limit > 0 && call.used == 0)
    ensures IsRun(start, longer, steps + Uncontended(t, call)) && longer[..|run|] == run
    ensures var last := longer[|longer| - 1];
      && t < |last.threads| && last.threads[t].Holding?
      && (last.threads[t].poisoned <==> start.state & 0x02 == 0x02) && last.state == start.state | 0x01
  {
    var g0 := run[|run| - 1];
    RunInvariant(start, run, steps, |run| - 1);
    UnlockedIsStart(g0, start.state);
    Bits(start.state);
    hide Exclusive, Linear, Reported, Bounded, IsLocked, IsPoisoned, Enabled, Next, IsRun;
    ThreeSteps(g0, t, call);
    var g1 := Next(g0, t, Begin(call));
    var g2 := Next(g1, t, Load);
    longer := RunMore(start, run, steps, t, Begin(call), g1);
    longer := RunMore(start, longer, steps + [(t, Begin(call))], t, Load, g2);
    longer := RunMore(start, longer, steps + [(t, Begin(call))] + [(t, Load)], t, Exchange, Next(g2, t, Exchange));
    assert steps + [(t, Begin(call))] + [(t, Load)] + [(t, Exchange)] == steps + Uncontended(t, call);
  }

  lemma ThreeSteps<T>(g: System<T>, t: nat, call: Call)
    requires t < |g.threads| && g.threads[t].Idle? && !IsLocked(g.state) && NewCall(call)
    requires call.TryLimited? ==> call.limit > 0
    ensures Enabled(g, t, Begin(call)) && Enabled(Next(g, t, Begin(call)), t, Load)
    ensures var g2 := Next(Next(g, t, Begin(call)), t, Load);
      Enabled(g2, t, Exchange) &&
      var g3 := Next(g2, t, Exchange);
      && |g3.threads| == |g.threads| && g3.state == g.state | LOCKED
      && g3.threads[t].Holding? && (g3.threads[t].poisoned <==> IsPoisoned(g.state))
  {
    hide IsLocked, IsPoisoned;
  }

  lemma RunMore<T(!new)>(start: System<T>, run: seq<System<T>>, steps: seq<(nat, Step<T>)>, t: nat, step: Step<T>,
        next: System<T>) returns (longer: seq<System<T>>)
    requires IsRun(start, run, steps) && Enabled(run[|run| - 1], t, step) && next == Next(run[|run| - 1], t, step)
    ensures IsRun(start, longer, steps + [(t, step)]) && longer == run + [next]
  {
    hide Next, Enabled, Initial;
    longer := run + [next];
  }

  // ----- the bounded retry loop -----

  /** What one turn meets: the byte its load returns, and whether its weak exchange would go through. */
  datatype Attempt = Attempt(seen: bv8, exchanges: bool)
  {
    predicate Wins() {
      !IsLocked(seen) && exchanges
    }
  }

  datatype TryResult = Acquired(poisoned: bool) | WouldBlock

  /** `try_lock_with_spin_limit` against an arbitrary environment: it acquires at the first attempt that wins, makes
      no attempt after it, and returns WouldBlock exactly when none of `limit` attempts wins. */
  method TryLockWithSpinLimit(limit: nat, attempts: seq<Attempt>) returns (r: TryResult, used: nat)
    requires limit <= |attempts|
    ensures used <= limit
    ensures r.WouldBlock? <==> forall k :: 0 <= k < limit ==> !attempts[k].Wins()
    ensures r.WouldBlock? ==> used == limit
    ensures r.Acquired? ==>
      used > 0 && attempts[used - 1].Wins() && (r.poisoned <==> IsPoisoned(attempts[used - 1].seen))
    ensures r.Acquired? ==> forall k :: 0 <= k < used - 1 ==> !attempts[k].Wins()
  {
    used := 0;
    for turn := 0 to limit
      invariant used == turn
      invariant forall k :: 0 <= k < turn ==> !attempts[k].Wins()
    {
      var state := attempts[turn].seen;
      used := used + 1;
      if !IsLocked(state) && attempts[turn].exchanges {
        r := Acquired(IsPoisoned(state));
        return;
      }
    }
    r := WouldBlock;
  }
}
