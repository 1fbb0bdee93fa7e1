// The lazily created objects of loader/pthread_bridge.c: any number of threads get the object
// of one 4-byte slot, and the first of them creates it.

module LazySlot {
  import opened Common

  // ---- what is created

  const LIMIT: nat := 0x10000   // a slot below this is not bridged yet

  datatype Kind = Normal | Recursive | Errorcheck

  datatype Bridge = Mutex | Cond | Sema

  datatype Made = MadeMutex(kind: Kind) | MadeCond | MadeSema(count: nat)

  predicate Bit(v: nat, b: nat)
    requires b > 0
  {
    (v / b) % 2 == 1
  }

  // The object that the first value of a slot asks for.
  function Wanted(b: Bridge, init: nat): Made {
    match b
    case Mutex => MadeMutex(if Bit(init, 0x4000) then Recursive else if Bit(init, 0x8000) then Errorcheck else Normal)
    case Cond => MadeCond
    case Sema => MadeSema(init)
  }

  // ---- one thread

  datatype Pc =
    | Check                          // the first test of the slot, without the lock
    | Lock                           // waiting for the bridge lock
    | Recheck                        // the second test, with the lock
    | Allocate(init: nat)
    | Initialise(init: nat, h: nat)
    | Publish(h: nat)
    | Unlock
    | Read                           // the result is read from the slot
    | Done(result: nat)

  datatype Object = Object(handle: nat, made: Option<Made>)

  datatype State = State(bridge: Bridge, slot: nat, lock: Option<nat>, pcs: seq<Pc>, objects: seq<Object>, failures: nat)

  // One step of a thread. handle is what the allocation returns, if the step is one; only the
  // kernel's semaphores can fail to be created, and then the slot stays.
  datatype Step = Step(thread: nat, handle: nat, fails: bool)

  predicate Enabled(s: State, x: Step) {
    && x.thread < |s.pcs| && !s.pcs[x.thread].Done?
    && (s.pcs[x.thread].Lock? ==> s.lock.None?)
    && (x.fails ==> s.bridge.Sema? && s.pcs[x.thread].Allocate?)
  }

  function Goto(s: State, t: nat, pc: Pc): State
    requires t < |s.pcs|
  {
    s.(pcs := s.pcs[t := pc])
  }

  function Next(s: State, x: Step): State
    requires Enabled(s, x)
  {
    var t := x.thread;
    match s.pcs[t]
    case Check => Goto(s, t, if s.slot >= LIMIT then Read else Lock)
    case Lock => Goto(s.(lock := Some(t)), t, Recheck)
    case Recheck => Goto(s, t, if s.slot < LIMIT then Allocate(s.slot) else Unlock)
    case Allocate(init) =>
      if x.fails then Goto(s.(failures := s.failures + 1), t, Unlock)
      else Goto(s.(objects := s.objects + [Object(x.handle, None)]), t, Initialise(init, x.handle))
    case Initialise(init, h) =>
      Goto(s.(objects := seq(|s.objects|, i requires 0 <= i < |s.objects| =>
                if s.objects[i].handle == h then Object(h, Some(Wanted(s.bridge, init))) else s.objects[i])),
           t, Publish(h))
    case Publish(h) => Goto(s.(slot := h), t, Unlock)
    case Unlock => Goto(s.(lock := None), t, Read)
    case Read => Goto(s, t, Done(s.slot))
    case Done(_) => s
  }

  // What the bridge relies on: no handle looks like a slot that is not bridged yet.
  predicate Large(x: Step) { x.handle >= LIMIT }

  function Start(b: Bridge, init: nat, n: nat): State {
    State(b, init, None, seq(n, _ => Check), [], 0)
  }

  // ---- the invariant

  predicate Critical(pc: Pc) {
    pc.Recheck? || pc.Allocate? || pc.Initialise? || pc.Publish? || pc.Unlock?
  }

  // The lock is held by the one thread between locking and unlocking.
  ghost predicate Exclusive(s: State) {
    && (s.lock.Some? ==> s.lock.value < |s.pcs|)
    && forall t :: 0 <= t < |s.pcs| ==> (Critical(s.pcs[t]) <==> s.lock == Some(t))
  }

  // Nothing is created yet, or the holder of the lock is at it, or the object is published.
  ghost predicate SlotState(s: State, init: nat) {
    && init < LIMIT
    && (s.slot < LIMIT ==> s.slot == init)
    && (s.slot >= LIMIT ==> s.objects == [Object(s.slot, Some(Wanted(s.bridge, init)))])
    && (s.slot < LIMIT && s.objects != [] ==>
          s.lock.Some? && s.lock.value < |s.pcs| && (s.pcs[s.lock.value].Initialise? || s.pcs[s.lock.value].Publish?))
  }

  // What a thread at pc knows.
  ghost predicate Knows(s: State, init: nat, pc: Pc) {
    match pc
    case Allocate(i) => i == init && s.slot == init && s.objects == []
    case Initialise(i, h) => i == init && s.slot == init && h >= LIMIT && s.objects == [Object(h, None)]
    case Publish(h) => s.slot == init && h >= LIMIT && s.objects == [Object(h, Some(Wanted(s.bridge, init)))]
    case Unlock => s.slot >= LIMIT || s.failures > 0
    case Read => s.slot >= LIMIT || s.failures > 0
    case Done(r) => r == s.slot >= LIMIT || (r == init && s.failures > 0)
    case _ => true
  }

  ghost predicate Inv(s: State, init: nat) {
    && Exclusive(s) && SlotState(s, init)
    && (s.failures > 0 ==> s.bridge.Sema?)
    && forall t :: 0 <= t < |s.pcs| ==> Knows(s, init, s.pcs[t])
  }

  lemma StartInv(b: Bridge, init: nat, n: nat)
    requires init < LIMIT
    ensures Inv(Start(b, init, n), init)
  {}

  lemma StepExclusive(s: State, x: Step)
    requires Exclusive(s) && Enabled(s, x)
    ensures Exclusive(Next(s, x))
  {}

  // The threads outside the critical section are not disturbed by the others.
  lemma StepKnows(s: State, x: Step, init: nat, t: nat)
    requires Inv(s, init) && Enabled(s, x) && Large(x) && t < |s.pcs|
    ensures Knows(Next(s, x), init, Next(s, x).pcs[t])
  {
    var u := Next(s, x);
    assert Knows(s, init, s.pcs[t]) && Knows(s, init, s.pcs[x.thread]);
    if t != x.thread { assert u.pcs[t] == s.pcs[t]; }
  }

  lemma StepSlot(s: State, x: Step, init: nat)
    requires Inv(s, init) && Enabled(s, x) && Large(x)
    ensures SlotState(Next(s, x), init)
  {
    assert Knows(s, init, s.pcs[x.thread]);
  }

  lemma StepInv(s: State, x: Step, init: nat)
    requires Inv(s, init) && Enabled(s, x) && Large(x)
    ensures Inv(Next(s, x), init)
  {
    StepExclusive(s, x);
    StepSlot(s, x, init);
    forall t | 0 <= t < |Next(s, x).pcs| ensures Knows(Next(s, x), init, Next(s, x).pcs[t]) { StepKnows(s, x, init, t); }
  }

  // ---- runs

  predicate EnabledRun(s: State, xs: seq<Step>)
    decreases |xs|
  {
    xs == [] || (Enabled(s, xs[0]) && EnabledRun(Next(s, xs[0]), xs[1..]))
  }

  function Run(s: State, xs: seq<Step>): State
    requires EnabledRun(s, xs)
    decreases |xs|
  {
    if xs == [] then s else Run(Next(s, xs[0]), xs[1..])
  }

  ghost predicate AllLarge(xs: seq<Step>) { forall k :: 0 <= k < |xs| ==> Large(xs[k]) }

  lemma {:induction false} RunInv(s: State, xs: seq<Step>, init: nat)
    requires Inv(s, init) && EnabledRun(s, xs) && AllLarge(xs)
    ensures Inv(Run(s, xs), init) && Run(s, xs).bridge == s.bridge && |Run(s, xs).pcs| == |s.pcs|
    ensures s.slot >= LIMIT ==> Run(s, xs).slot == s.slot && Run(s, xs).objects == s.objects
    decreases |xs|
  {
    if xs != [] {
      StepInv(s, xs[0], init);
      assert Knows(s, init, s.pcs[xs[0].thread]);
      RunInv(Next(s, xs[0]), xs[1..], init);
    }
  }

  // In every run of any number of threads at most one object is created; a thread that returns
  // gets that object, of the kind the first value of the slot asked for, unless a creation failed.
  // A first value that looks like a handle is taken for one.
  lemma OneObject(b: Bridge, init: nat, n: nat, xs: seq<Step>)
    requires EnabledRun(Start(b, init, n), xs) && AllLarge(xs)
    ensures var s := Run(Start(b, init, n), xs);
            && |s.pcs| == n && |s.objects| <= 1
            && (init < LIMIT ==>
                  && (s.slot >= LIMIT ==> s.objects == [Object(s.slot, Some(Wanted(b, init)))])
                  && forall t :: 0 <= t < n && s.pcs[t].Done? ==>
                       (s.pcs[t].result == s.slot && s.slot >= LIMIT) || (b.Sema? && s.failures > 0 && s.pcs[t].result == init))
            && (init >= LIMIT ==>
                  s.objects == [] && s.slot == init && forall t :: 0 <= t < n && s.pcs[t].Done? ==> s.pcs[t].result == init)
  {
    var s := Run(Start(b, init, n), xs);
    if init >= LIMIT {
      NothingToDo(Start(b, init, n), xs, init);
    } else {
      StartInv(b, init, n);
      RunInv(Start(b, init, n), xs, init);
      if s.slot < LIMIT && s.objects != [] { assert Knows(s, init, s.pcs[s.lock.value]); }
      forall t | 0 <= t < n && s.pcs[t].Done?
        ensures (s.pcs[t].result == s.slot && s.slot >= LIMIT) || (b.Sema? && s.failures > 0 && s.pcs[t].result == init)
      {
        assert Knows(s, init, s.pcs[t]);
      }
    }
  }

  // Every thread finds the slot bridged.
  ghost predicate Idle(s: State, init: nat) {
    s.slot == init >= LIMIT && s.objects == [] &&
    forall t :: 0 <= t < |s.pcs| ==> s.pcs[t] in {Check, Read, Done(init)}
  }

  lemma {:induction false} NothingToDo(s: State, xs: seq<Step>, init: nat)
    requires Idle(s, init) && EnabledRun(s, xs)
    ensures Idle(Run(s, xs), init) && |Run(s, xs).pcs| == |s.pcs|
    decreases |xs|
  {
    if xs != [] {
      assert s.pcs[xs[0].thread] in {Check, Read, Done(init)};
      NothingToDo(Next(s, xs[0]), xs[1..], init);
    }
  }

  // ---- what the limit decides

  lemma FirstStep(s: State, x: Step, xs: seq<Step>)
    ensures EnabledRun(s, [x] + xs) <==> Enabled(s, x) && EnabledRun(Next(s, x), xs)
    ensures EnabledRun(s, [x] + xs) ==> Run(s, [x] + xs) == Run(Next(s, x), xs)
  {
    assert ([x] + xs)[1..] == xs;
  }

  // All steps of one thread, and what it leaves when it is the one to create the object.
  function Call(t: nat, h: nat, k: nat): (xs: seq<Step>)
    ensures |xs| == k
  {
    if k == 0 then [] else [Step(t, h, false)] + Call(t, h, k - 1)
  }

  lemma FirstOfCall(s: State, t: nat, h: nat, k: nat, xs: seq<Step>)
    requires k > 0 && Enabled(s, Step(t, h, false))
    ensures var u := Next(s, Step(t, h, false));
            && (EnabledRun(s, Call(t, h, k) + xs) <==> EnabledRun(u, Call(t, h, k - 1) + xs))
            && (EnabledRun(s, Call(t, h, k) + xs) ==> Run(s, Call(t, h, k) + xs) == Run(u, Call(t, h, k - 1) + xs))
  {
    assert Call(t, h, k) + xs == [Step(t, h, false)] + (Call(t, h, k - 1) + xs);
    FirstStep(s, Step(t, h, false), Call(t, h, k - 1) + xs);
  }

  // A thread that finds the slot not bridged, and is alone, allocates an object
  lemma CallAllocates(s: State, t: nat, h: nat, xs: seq<Step>) returns (u: State)
    requires t < |s.pcs| && s.slot < LIMIT && s.lock.None? && s.pcs[t].Check?
    ensures u == s.(lock := Some(t), objects := s.objects + [Object(h, None)], pcs := s.pcs[t := Initialise(s.slot, h)])
    ensures EnabledRun(s, Call(t, h, 8) + xs) <==> EnabledRun(u, Call(t, h, 4) + xs)
    ensures EnabledRun(s, Call(t, h, 8) + xs) ==> Run(s, Call(t, h, 8) + xs) == Run(u, Call(t, h, 4) + xs)
  {
    var x := Step(t, h, false);
    var s1 := Next(s, x);
    var s2 := Next(s1, x);
    var s3 := Next(s2, x);
    u := Next(s3, x);
    assert u.pcs == s.pcs[t := Initialise(s.slot, h)];
    hide EnabledRun, Run, Next;
    FirstOfCall(s, t, h, 8, xs);
    FirstOfCall(s1, t, h, 7, xs);
    FirstOfCall(s2, t, h, 6, xs);
    FirstOfCall(s3, t, h, 5, xs);
  }

  // and bridges the slot.
  lemma CallPublishes(s: State, t: nat, h: nat, xs: seq<Step>) returns (u: State)
    requires t < |s.pcs| && s.pcs[t] == Publish(h)
    ensures u == s.(slot := h, lock := None, pcs := s.pcs[t := Done(h)])
    ensures EnabledRun(s, Call(t, h, 3) + xs) <==> EnabledRun(u, xs)
    ensures EnabledRun(s, Call(t, h, 3) + xs) ==> Run(s, Call(t, h, 3) + xs) == Run(u, xs)
  {
    var x := Step(t, h, false);
    var s1 := Next(s, x);
    var s2 := Next(s1, x);
    u := Next(s2, x);
    assert u.pcs == s.pcs[t := Done(h)];
    hide EnabledRun, Run, Next;
    FirstOfCall(s, t, h, 3, xs);
    FirstOfCall(s1, t, h, 2, xs);
    FirstOfCall(s2, t, h, 1, xs);
    assert Call(t, h, 0) + xs == xs;
  }

  lemma CallInitialises(s: State, t: nat, init: nat, h: nat)
    requires t < |s.pcs| && s.pcs[t] == Initialise(init, h)
    ensures var u := Next(s, Step(t, h, false)); |u.objects| == |s.objects| && u.pcs == s.pcs[t := Publish(h)]
  {
    hide Wanted;
  }

  lemma CallCreates(s: State, t: nat, h: nat, xs: seq<Step>) returns (u: State)
    requires t < |s.pcs| && s.slot < LIMIT && s.lock.None? && s.pcs[t].Check?
    ensures u.slot == h && u.lock.None? && |u.objects| == |s.objects| + 1 && u.pcs == s.pcs[t := Done(h)]
    ensures EnabledRun(s, Call(t, h, 8) + xs) <==> EnabledRun(u, xs)
    ensures EnabledRun(s, Call(t, h, 8) + xs) ==> Run(s, Call(t, h, 8) + xs) == Run(u, xs)
  {
    hide EnabledRun, Run, Next, Call;
    var v := CallAllocates(s, t, h, xs);
    CallInitialises(v, t, s.slot, h);
    FirstOfCall(v, t, h, 4, xs);
    u := CallPublishes(Next(v, Step(t, h, false)), t, h, xs);
  }

  // A first value below the limit is what it takes for an object to be created at all.
  lemma FirstValueDecides(b: Bridge, init: nat, n: nat)
    requires n > 0
    ensures (exists xs :: EnabledRun(Start(b, init, n), xs) && AllLarge(xs) && Run(Start(b, init, n), xs).objects != [])
       <==> init < LIMIT
  {
    var s, xs := Start(b, init, n), Call(0, LIMIT, 8) + [];
    if init < LIMIT {
      var u := CallCreates(s, 0, LIMIT, []);
      CallIsLarge(0, LIMIT, 8);
      assert EnabledRun(s, xs) && AllLarge(xs) && Run(s, xs).objects != [];
    } else {
      forall ys | EnabledRun(s, ys) ensures Run(s, ys).objects == [] { NothingToDo(s, ys, init); }
    }
  }

  lemma {:induction false} CallIsLarge(t: nat, h: nat, k: nat)
    requires h >= LIMIT
    ensures AllLarge(Call(t, h, k))
    decreases k
  {
    if k > 0 { CallIsLarge(t, h, k - 1); }
  }

  // And a handle below the limit is not recognised: a second thread creates a second object.
  lemma SmallHandlesMatter(b: Bridge, init: nat, h: nat, g: nat)
    requires init < LIMIT && h < LIMIT
    ensures var s, xs := Start(b, init, 2), Call(0, h, 8) + (Call(1, g, 8) + []);
            EnabledRun(s, xs) && |Run(s, xs).objects| == 2
  {
    var s := Start(b, init, 2);
    var u := CallCreates(s, 0, h, Call(1, g, 8) + []);
    var v := CallCreates(u, 1, g, []);
  }

  // What is created, from every first value: a semaphore has it as its count,
  lemma SemaphoreOfCount(count: nat, n: nat, xs: seq<Step>)
    requires count < 0x10000 && EnabledRun(Start(Sema, count, n), xs) && forall k :: 0 <= k < |xs| ==> xs[k].handle >= 0x10000
    ensures var s := Run(Start(Sema, count, n), xs);
            && |s.objects| <= 1
            && (s.slot >= 0x10000 ==> s.objects == [Object(s.slot, Some(MadeSema(count)))])
  {
    OneObject(Sema, count, n, xs);
  }

  // a condition variable needs nothing,
  lemma ConditionOfAny(init: nat, n: nat, xs: seq<Step>)
    requires init < 0x10000 && EnabledRun(Start(Cond, init, n), xs) && forall k :: 0 <= k < |xs| ==> xs[k].handle >= 0x10000
    ensures var s := Run(Start(Cond, init, n), xs);
            && |s.objects| <= 1
            && (s.slot >= 0x10000 ==> s.objects == [Object(s.slot, Some(MadeCond))])
  {
    OneObject(Cond, init, n, xs);
  }

  // and a mutex is recursive with bit 14, or else an error-checking one with bit 15.
  lemma MutexOfBits(init: nat, n: nat, xs: seq<Step>)
    requires init < 0x10000 && EnabledRun(Start(Mutex, init, n), xs) && forall k :: 0 <= k < |xs| ==> xs[k].handle >= 0x10000
    ensures var s := Run(Start(Mutex, init, n), xs);
            var kind := if init / 0x4000 % 2 == 1 then Recursive else if init / 0x8000 == 1 then Errorcheck else Normal;
            && |s.objects| <= 1
            && (s.slot >= 0x10000 ==> s.objects == [Object(s.slot, Some(MadeMutex(kind)))])
  {
    OneObject(Mutex, init, n, xs);
  }

  // pthread_mutex_init writes a first value for the type it is asked for.
  function InitialSlot(kind: int): nat {
    if kind == 1 then 0x4000 else if kind == 2 then 0x8000 else 0
  }

  lemma MutexOfType(kind: int, n: nat, xs: seq<Step>)
    requires EnabledRun(Start(Mutex, InitialSlot(kind), n), xs) && AllLarge(xs)
    ensures var s := Run(Start(Mutex, InitialSlot(kind), n), xs);
            s.objects != [] && s.slot >= LIMIT ==>
              s.objects[0].made == Some(MadeMutex(if kind == 1 then Recursive else if kind == 2 then Errorcheck else Normal))
  {
    OneObject(Mutex, InitialSlot(kind), n, xs);
  }

  // ---- every call returns

  function Left(pc: Pc): nat {
    match pc
    case Check => 8
    case Lock => 7
    case Recheck => 6
    case Allocate(_) => 5
    case Initialise(_, _) => 4
    case Publish(_) => 3
    case Unlock => 2
    case Read => 1
    case Done(_) => 0
  }

  function Total(pcs: seq<Pc>): nat {
    if pcs == [] then 0 else Left(pcs[0]) + Total(pcs[1..])
  }

  lemma {:induction false} TotalDrops(pcs: seq<Pc>, t: nat, pc: Pc)
    requires t < |pcs| && Left(pc) < Left(pcs[t])
    ensures Total(pcs[t := pc]) < Total(pcs)
    decreases |pcs|
  {
    if t == 0 {
      assert pcs[0 := pc][1..] == pcs[1..];
    } else {
      assert pcs[t := pc][1..] == pcs[1..][t - 1 := pc];
      TotalDrops(pcs[1..], t - 1, pc);
    }
  }

  lemma {:induction false} TotalBound(n: nat)
    ensures Total(seq(n, _ => Check)) == 8 * n
  {
    if n > 0 {
      var p := seq(n, _ => Check);
      assert p[1..] == seq(n - 1, _ => Check);
      TotalBound(n - 1);
    }
  }

  // The threads cannot block each other for ever: while a call is unfinished some thread can
  // move, and every move brings the end nearer.
  lemma NoDeadlock(s: State, init: nat, t: nat) returns (x: Step)
    requires Inv(s, init) && t < |s.pcs| && !s.pcs[t].Done?
    ensures Enabled(s, x) && Large(x)
  {
    var who := if s.pcs[t].Lock? && s.lock.Some? then s.lock.value else t;
    x := Step(who, LIMIT, false);
  }

  lemma StepsRunOut(s: State, x: Step)
    requires Enabled(s, x)
    ensures Total(Next(s, x).pcs) < Total(s.pcs)
  {
    TotalDrops(s.pcs, x.thread, Next(s, x).pcs[x.thread]);
  }

  // Every step of a run is one of those left.
  lemma {:induction false} RunsEnd(s: State, xs: seq<Step>)
    requires EnabledRun(s, xs)
    ensures |xs| + Total(Run(s, xs).pcs) <= Total(s.pcs)
    decreases |xs|
  {
    if xs != [] {
      StepsRunOut(s, xs[0]);
      RunsEnd(Next(s, xs[0]), xs[1..]);
    }
  }

  // No run is longer than eight steps for each thread.
  lemma EightSteps(b: Bridge, init: nat, n: nat, xs: seq<Step>)
    requires EnabledRun(Start(b, init, n), xs)
    ensures |xs| <= 8 * n
  {
    RunsEnd(Start(b, init, n), xs);
    TotalBound(n);
  }
}
