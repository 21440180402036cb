/** The bounded frame buffer of src/buffer.cpp: threads that call `add` and `remove` under one mutex and
    one condition variable, as a state machine in which any thread may take the next step. */
module FrameBuffer {

  type Frame = int

  datatype Op = Add(frame: Frame) | Remove

  /** Where a thread is in its call. */
  datatype Pc =
    | Idle                  // not in a call
    | Locking(op: Op)       // at the construction of the lock guard
    | Testing(op: Op)       // holds the mutex, about to test the predicate of `cond.wait`
    | Sleeping(op: Op)      // in `cond.wait`, the mutex released
    | Woken(op: Op)         // notified or woken spuriously, about to take the mutex again
    | Passed(op: Op)        // holds the mutex and the predicate was true
    | Changed(op: Op)       // has changed the queue, still holds the mutex
    | Unlocked(op: Op)      // has released the mutex, not yet called `notify_all`

  datatype Mutex = Free | HeldBy(thread: nat)

  /** `added` and `removed` are history. */
  datatype State = State(capacity: nat, mutex: Mutex, queue: seq<Frame>, threads: seq<Pc>,
                         added: seq<Frame>, removed: seq<Frame>)

  /** The predicate each call waits for. */
  predicate CanGo(s: State, op: Op) {
    match op
    case Add(_) => |s.queue| < s.capacity
    case Remove => |s.queue| > 0
  }

  predicate Init(s: State) {
    && s.mutex == Free && s.queue == [] && s.added == [] && s.removed == []
    && forall t :: 0 <= t < |s.threads| ==> s.threads[t] == Idle
  }

  /** What a thread may do next. */
  datatype Action = Call(op: Op) | Lock | Test | Change | Unlock | NotifyAll | WakeSpuriously

  predicate Enabled(s: State, t: nat, a: Action) {
    t < |s.threads| &&
    var pc := s.threads[t];
    match a
    case Call(_) => pc == Idle
    case Lock => (pc.Locking? || pc.Woken?) && s.mutex == Free
    case Test => pc.Testing?
    case Change => pc.Passed? && (pc.op.Remove? ==> s.queue != [])
    case Unlock => pc.Changed?
    case NotifyAll => pc.Unlocked?
    case WakeSpuriously => pc.Sleeping?
  }

  function WakeAll(threads: seq<Pc>): (r: seq<Pc>)
    ensures |r| == |threads|
  {
    seq(|threads|, t requires 0 <= t < |threads| => if threads[t].Sleeping? then Woken(threads[t].op) else threads[t])
  }

  function Next(s: State, t: nat, a: Action): State
    requires Enabled(s, t, a)
  {
    var pc := s.threads[t];
    match a
    case Call(op) => s.(threads := s.threads[t := Locking(op)])
    case Lock => s.(mutex := HeldBy(t), threads := s.threads[t := Testing(pc.op)])
    case Test =>
      if CanGo(s, pc.op) then s.(threads := s.threads[t := Passed(pc.op)])
      else s.(mutex := Free, threads := s.threads[t := Sleeping(pc.op)])
    case Change =>
      (match pc.op
       case Add(frame) =>
         s.(queue := s.queue + [frame], added := s.added + [frame], threads := s.threads[t := Changed(pc.op)])
       case Remove =>
         s.(queue := s.queue[1..], removed := s.removed + [s.queue[0]], threads := s.threads[t := Changed(pc.op)]))
    case Unlock => s.(mutex := Free, threads := s.threads[t := Unlocked(pc.op)])
    case NotifyAll => s.(threads := WakeAll(s.threads)[t := Idle])
    case WakeSpuriously => s.(threads := s.threads[t := Woken(pc.op)])
  }

  datatype Event = Event(thread: nat, action: Action)

  /** Any interleaving: the events are taken one after the other, each by a thread that can take it. */
  ghost predicate Possible(s: State, events: seq<Event>)
    decreases |events|
  {
    events == [] || (Enabled(s, events[0].thread, events[0].action)
                     && Possible(Next(s, events[0].thread, events[0].action), events[1..]))
  }

  function After(s: State, events: seq<Event>): State
    requires Possible(s, events)
    decreases |events|
  {
    if events == [] then s else After(Next(s, events[0].thread, events[0].action), events[1..])
  }

  // ---------- the invariant ----------

  predicate HoldsMutex(pc: Pc) {
    pc.Testing? || pc.Passed? || pc.Changed?
  }

  /** Between its change of the queue and its call of `notify_all`. */
  predicate AboutToNotify(pc: Pc) {
    pc.Changed? || pc.Unlocked?
  }

  ghost predicate SomeoneNotifies(s: State) {
    exists t :: 0 <= t < |s.threads| && AboutToNotify(s.threads[t])
  }

  /** No wakeup is lost: a sleeper who could go is going to be woken. */
  ghost predicate NoLostWakeup(s: State) {
    forall t :: 0 <= t < |s.threads| && s.threads[t].Sleeping? && CanGo(s, s.threads[t].op) ==> SomeoneNotifies(s)
  }

  ghost predicate MutualExclusion(s: State) {
    forall t :: 0 <= t < |s.threads| ==> (HoldsMutex(s.threads[t]) <==> s.mutex == HeldBy(t))
  }

  ghost predicate Invariant(s: State) {
    && MutualExclusion(s)
    && (s.mutex.HeldBy? ==> s.mutex.thread < |s.threads|)
    && (forall t :: 0 <= t < |s.threads| && s.threads[t].Passed? ==> CanGo(s, s.threads[t].op))
    && |s.queue| <= s.capacity
    && s.added == s.removed + s.queue
    && NoLostWakeup(s)
  }

  lemma InitIsInvariant(s: State)
    requires Init(s)
    ensures Invariant(s)
  {
  }

  lemma SomeoneStillNotifies(s: State, s': State, t: nat)
    requires SomeoneNotifies(s) && t < |s.threads| == |s'.threads|
    requires forall u :: 0 <= u < |s.threads| && u != t ==> s'.threads[u] == s.threads[u]
    requires AboutToNotify(s.threads[t]) ==> AboutToNotify(s'.threads[t])
    ensures SomeoneNotifies(s')
  {
    var u :| 0 <= u < |s.threads| && AboutToNotify(s.threads[u]);
    assert AboutToNotify(s'.threads[u]);
  }

  lemma StepKeepsNoLostWakeup(s: State, t: nat, a: Action)
    requires Invariant(s) && Enabled(s, t, a)
    ensures NoLostWakeup(Next(s, t, a))
  {
    var s' := Next(s, t, a);
    if a.Change? {
      assert AboutToNotify(s'.threads[t]);
    } else if !a.NotifyAll? && SomeoneNotifies(s) {
      SomeoneStillNotifies(s, s', t);
    }
  }

  lemma StepKeepsInvariant(s: State, t: nat, a: Action)
    requires Invariant(s) && Enabled(s, t, a)
    ensures Invariant(Next(s, t, a))
  {
    StepKeepsNoLostWakeup(s, t, a);
    hide NoLostWakeup;
    if a.Change? && s.threads[t].op.Remove? {
      assert s.removed + s.queue == (s.removed + [s.queue[0]]) + s.queue[1..];
    }
  }

  /** Under any interleaving: the frames taken out are a prefix of those put in, in the same order, the
      buffer is never over-full, one thread at a time has the mutex, and no wakeup is lost. */
  lemma {:induction false} EveryInterleaving(s: State, events: seq<Event>)
    requires Invariant(s) && Possible(s, events)
    ensures var r := After(s, events);
            Invariant(r) && r.removed <= r.added && |r.queue| <= r.capacity == s.capacity
    decreases |events|
  {
    if events != [] {
      StepKeepsInvariant(s, events[0].thread, events[0].action);
      EveryInterleaving(Next(s, events[0].thread, events[0].action), events[1..]);
    }
  }

  // ---------- progress ----------

  /** A thread that is in a call and not asleep. */
  ghost predicate SomeoneActive(s: State) {
    exists t :: 0 <= t < |s.threads| && !s.threads[t].Idle? && !s.threads[t].Sleeping?
  }

  /** As long as a call is under way and its thread not asleep, some thread can go on by itself. */
  lemma CallsGoOn(s: State) returns (t: nat, a: Action)
    requires Invariant(s) && SomeoneActive(s)
    ensures Enabled(s, t, a) && !a.Call? && !a.WakeSpuriously?
  {
    if s.mutex.HeldBy? {
      t := s.mutex.thread;
    } else {
      t :| 0 <= t < |s.threads| && !s.threads[t].Idle? && !s.threads[t].Sleeping?;
    }
    var pc := s.threads[t];
    a := if pc.Locking? || pc.Woken? then Lock
    else if pc.Testing? then Test
    else if pc.Passed? then Change
    else if pc.Changed? then Unlock
    else NotifyAll;
  }

  /** When all is quiet, whoever sleeps has reason to: no caller of `add` sleeps unless the buffer is
      full, no caller of `remove` unless it is empty, so callers of both kinds are never stuck together. */
  lemma NoDeadlock(s: State, t: nat, u: nat)
    requires Invariant(s) && !SomeoneActive(s) && t < |s.threads| && u < |s.threads|
    ensures s.threads[t].Sleeping? && s.threads[t].op.Add? ==> |s.queue| == s.capacity
    ensures s.threads[t].Sleeping? && s.threads[t].op.Remove? ==> s.queue == []
    ensures s.capacity > 0 && s.threads[t].Sleeping? && s.threads[u].Sleeping? ==>
              (s.threads[t].op.Add? <==> s.threads[u].op.Add?)
  {
    forall v | 0 <= v < |s.threads| ensures !AboutToNotify(s.threads[v]) {
    }
    assert !SomeoneNotifies(s);
  }

  // ---------- what the steps do ----------

  /** With the mutex held, a caller of `add` goes on exactly if the buffer is not full and a caller of
      `remove` exactly if it is not empty; otherwise he falls asleep and lets go of the mutex. */
  lemma TestDecides(s: State, t: nat)
    requires Enabled(s, t, Test)
    ensures var op, r := s.threads[t].op, Next(s, t, Test);
            && r.threads[t] == (if (if op.Add? then |s.queue| < s.capacity else s.queue != []) then Passed(op) else Sleeping(op))
            && r.mutex == (if r.threads[t].Sleeping? then Free else s.mutex)
  {
  }

  /** A sleeper who could go on is going to be woken. */
  lemma WakeupIsOnItsWay(s: State, t: nat)
    requires Invariant(s) && t < |s.threads| && s.threads[t].Sleeping?
    requires if s.threads[t].op.Add? then |s.queue| < s.capacity else s.queue != []
    ensures exists u :: 0 <= u < |s.threads| && (s.threads[u].Changed? || s.threads[u].Unlocked?)
  {
    assert SomeoneNotifies(s);
    var u :| 0 <= u < |s.threads| && AboutToNotify(s.threads[u]);
  }

  /** Only the change of the queue touches it: an adder's frame goes to the end, a remover gets the one at
      the front.  Notifying leaves nobody asleep.  No step moves another thread otherwise. */
  lemma Effects(s: State, t: nat, a: Action)
    requires Enabled(s, t, a)
    ensures var op, r := if s.threads[t].Idle? then Remove else s.threads[t].op, Next(s, t, a);
            && |r.threads| == |s.threads| && r.capacity == s.capacity
            && (a.Change? && op.Add? ==>
                  r.queue == s.queue + [op.frame] && r.added == s.added + [op.frame] && r.removed == s.removed)
            && (a.Change? && op.Remove? ==>
                  |s.queue| > 0 && s.queue == [s.queue[0]] + r.queue && r.removed == s.removed + [s.queue[0]] && r.added == s.added)
            && (!a.Change? ==> r.queue == s.queue && r.added == s.added && r.removed == s.removed)
            && (a.NotifyAll? ==> forall u :: 0 <= u < |r.threads| ==> !r.threads[u].Sleeping?)
            && (forall u :: 0 <= u < |r.threads| && u != t && !(a.NotifyAll? && s.threads[u].Sleeping?) ==>
                  r.threads[u] == s.threads[u])
  {
  }
}
