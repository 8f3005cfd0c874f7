// OrderService.grabOrder, any number of calls at once, under any lock service
// that lets one caller per lock name into the critical section.
module OrderService {
  import opened Results

  // lock.lock() not returned yet; locked; the flag read; done with what grab
  // returned, or with grab having thrown because the order does not exist.
  datatype Phase = Locking | Locked | Read(flag: bool) | Returned(granted: bool) | Unknown
                 | Released(result: Option<bool>)

  datatype Call = Call(orderId: nat, phase: Phase)

  datatype State = State(cache: map<nat, bool>, calls: seq<Call>)

  datatype Step = Lock(k: nat) | Get(k: nat) | Put(k: nat) | Unlock(k: nat)

  predicate Inside(c: Call) {
    !c.phase.Locking? && !c.phase.Released?
  }

  // The lock service lets k in only while no other call for its order is inside.
  predicate Admits(s: State, k: nat)
    requires k < |s.calls|
  {
    forall l :: 0 <= l < |s.calls| && l != k && s.calls[l].orderId == s.calls[k].orderId ==> !Inside(s.calls[l])
  }

  predicate Enabled(s: State, step: Step) {
    step.k < |s.calls| &&
    var phase := s.calls[step.k].phase;
    match step
    case Lock(k) => phase.Locking?
    case Get(_) => phase.Locked?
    case Put(k) => phase.Read? && s.calls[k].orderId in s.cache
    case Unlock(_) => phase.Returned? || phase.Unknown?
  }

  function To(s: State, k: nat, phase: Phase): State
    requires k < |s.calls|
  {
    s.(calls := s.calls[k := s.calls[k].(phase := phase)])
  }

  // The second half of grab: the flag read before the sleep decides.
  function Apply(s: State, step: Step): (s': State)
    requires Enabled(s, step)
    ensures |s'.calls| == |s.calls|
  {
    var c := s.calls[step.k];
    match step
    case Lock(k) => To(s, k, Locked)
    case Get(k) => if c.orderId in s.cache then To(s, k, Read(s.cache[c.orderId])) else To(s, k, Unknown)
    case Put(k) =>
      if c.phase.flag then To(s, k, Returned(false))
      else To(s, k, Returned(true)).(cache := s.cache[c.orderId := true])
    case Unlock(k) => To(s, k, Released(if c.phase.Returned? then Some(c.phase.granted) else None))
  }

  predicate IsOrder(o: nat, count: nat) {
    1 <= o <= count
  }

  // The orders 1 .. count are there and free.
  function Start(count: nat, orderIds: seq<nat>): State {
    State(map o: nat | o <= count && IsOrder(o, count) :: false,
          seq(|orderIds|, i requires 0 <= i < |orderIds| => Call(orderIds[i], Locking)))
  }

  ghost predicate Possible(s: State, steps: seq<Step>)
    decreases |steps|
  {
    steps == [] || (Enabled(s, steps[0]) && Possible(Apply(s, steps[0]), steps[1..]))
  }

  ghost function After(s: State, steps: seq<Step>): State
    requires Possible(s, steps)
    decreases |steps|
  {
    if steps == [] then s else After(Apply(s, steps[0]), steps[1..])
  }

  // Every lock() that returned was admitted.
  ghost predicate Exclusive(s: State, steps: seq<Step>)
    requires Possible(s, steps)
    decreases |steps|
  {
    steps == [] || ((steps[0].Lock? ==> Admits(s, steps[0].k)) && Exclusive(Apply(s, steps[0]), steps[1..]))
  }

  predicate Granted(c: Call) {
    c.phase == Returned(true) || c.phase == Released(Some(true))
  }

  predicate Finished(c: Call) {
    c.phase.Returned? || c.phase.Unknown? || c.phase.Released?
  }

  predicate Taken(s: State, o: nat) {
    o in s.cache && s.cache[o]
  }

  ghost predicate CallOk(s: State, c: Call) {
    && (c.phase.Read? ==> c.orderId in s.cache && s.cache[c.orderId] == c.phase.flag)
    && (Granted(c) ==> Taken(s, c.orderId))
    && (Finished(c) && c.orderId in s.cache ==> Taken(s, c.orderId))
    && (Finished(c) && c.orderId !in s.cache ==> c.phase == Unknown || c.phase == Released(None))
  }

  ghost predicate Safe(s: State) {
    && (forall k :: 0 <= k < |s.calls| ==> CallOk(s, s.calls[k]))
    && (forall k, l :: 0 <= k < l < |s.calls| && s.calls[k].orderId == s.calls[l].orderId ==>
          !(Inside(s.calls[k]) && Inside(s.calls[l])) && !(Granted(s.calls[k]) && Granted(s.calls[l])))
    && (forall o :: Taken(s, o) ==> exists k :: 0 <= k < |s.calls| && s.calls[k].orderId == o && Granted(s.calls[k]))
  }

  lemma StartSafe(count: nat, orderIds: seq<nat>)
    ensures Safe(Start(count, orderIds))
  {}

  lemma StepCalls(s: State, step: Step)
    requires Safe(s) && Enabled(s, step) && (step.Lock? ==> Admits(s, step.k))
    ensures forall k :: 0 <= k < |s.calls| ==> CallOk(Apply(s, step), Apply(s, step).calls[k])
  {
    var s' := Apply(s, step);
    forall k | 0 <= k < |s.calls|
      ensures CallOk(s', s'.calls[k])
    {
      assert CallOk(s, s.calls[k]) && CallOk(s, s.calls[step.k]);
    }
  }

  lemma StepPairs(s: State, step: Step, k: nat, l: nat)
    requires Safe(s) && Enabled(s, step) && (step.Lock? ==> Admits(s, step.k))
    requires k < l < |s.calls| && s.calls[k].orderId == s.calls[l].orderId
    ensures var c, d := Apply(s, step).calls[k], Apply(s, step).calls[l];
            !(Inside(c) && Inside(d)) && !(Granted(c) && Granted(d))
  {
    assert CallOk(s, s.calls[k]) && CallOk(s, s.calls[l]);
  }

  lemma StepTaken(s: State, step: Step, o: nat)
    requires Safe(s) && Enabled(s, step) && Taken(Apply(s, step), o)
    ensures exists k :: 0 <= k < |s.calls| && Apply(s, step).calls[k].orderId == o && Granted(Apply(s, step).calls[k])
  {
    var s' := Apply(s, step);
    if Taken(s, o) {
      var k :| 0 <= k < |s.calls| && s.calls[k].orderId == o && Granted(s.calls[k]);
      assert s'.calls[k].orderId == o && Granted(s'.calls[k]);
    } else {
      assert s'.calls[step.k].orderId == o && Granted(s'.calls[step.k]);
    }
  }

  lemma StepSafe(s: State, step: Step)
    requires Safe(s) && Enabled(s, step) && (step.Lock? ==> Admits(s, step.k))
    ensures Safe(Apply(s, step))
    ensures forall o :: Taken(s, o) ==> Taken(Apply(s, step), o)
    ensures Apply(s, step).cache.Keys == s.cache.Keys
  {
    var s' := Apply(s, step);
    StepCalls(s, step);
    forall k, l | 0 <= k < l < |s'.calls| && s'.calls[k].orderId == s'.calls[l].orderId
      ensures !(Inside(s'.calls[k]) && Inside(s'.calls[l])) && !(Granted(s'.calls[k]) && Granted(s'.calls[l]))
    {
      StepPairs(s, step, k, l);
    }
    forall o | Taken(s', o)
      ensures exists k :: 0 <= k < |s'.calls| && s'.calls[k].orderId == o && Granted(s'.calls[k])
    {
      StepTaken(s, step, o);
    }
  }

  lemma {:induction false} RunSafe(s: State, steps: seq<Step>)
    requires Safe(s) && Possible(s, steps) && Exclusive(s, steps)
    ensures var s' := After(s, steps);
            && Safe(s') && |s'.calls| == |s.calls| && s'.cache.Keys == s.cache.Keys
            && forall o :: Taken(s, o) ==> Taken(s', o)
    decreases |steps|
  {
    hide Safe, Enabled, Apply, Taken, Admits;
    if steps != [] {
      StepSafe(s, steps[0]);
      RunSafe(Apply(s, steps[0]), steps[1..]);
    }
  }

  // However the calls interleave: an order is granted at most once, exactly once
  // as soon as one call for it has finished, never for an order that does not
  // exist, and a taken order stays taken.
  lemma GrantedOnce(count: nat, orderIds: seq<nat>, steps: seq<Step>, more: seq<Step>, k: nat, l: nat)
    requires Possible(Start(count, orderIds), steps) && Exclusive(Start(count, orderIds), steps)
    requires Possible(After(Start(count, orderIds), steps), more)
      && Exclusive(After(Start(count, orderIds), steps), more)
    requires k < |orderIds| && l < |orderIds|
    ensures var s := After(Start(count, orderIds), steps);
            && |s.calls| == |orderIds|
            && (Granted(s.calls[k]) && Granted(s.calls[l]) && s.calls[k].orderId == s.calls[l].orderId ==> k == l)
            && (Finished(s.calls[k]) && IsOrder(s.calls[k].orderId, count) ==>
                exists i :: 0 <= i < |s.calls| && s.calls[i].orderId == s.calls[k].orderId && Granted(s.calls[i]))
            && (Granted(s.calls[k]) ==> IsOrder(s.calls[k].orderId, count))
            && (forall o :: Taken(s, o) ==> Taken(After(s, more), o))
  {
    var s0 := Start(count, orderIds);
    StartSafe(count, orderIds);
    RunSafe(s0, steps);
    var s := After(s0, steps);
    RunSafe(s, more);
    assert CallOk(s, s.calls[k]);
    assert forall o :: o in s.cache <==> o in s0.cache;
  }

  // Check-then-act needs the lock: two calls that both read first are both granted.
  lemma TwiceWithoutLock() returns (steps: seq<Step>)
    ensures Possible(Start(1, [1, 1]), steps)
    ensures var s := After(Start(1, [1, 1]), steps);
            |s.calls| == 2 && Granted(s.calls[0]) && Granted(s.calls[1])
  {
    var s0 := Start(1, [1, 1]);
    var s1 := Apply(s0, Lock(0));
    var s2 := Apply(s1, Lock(1));
    var s3 := Apply(s2, Get(0));
    var s4 := Apply(s3, Get(1));
    var s5 := Apply(s4, Put(0));
    var s6 := Apply(s5, Put(1));
    steps := [Lock(0)] + ([Lock(1)] + ([Get(0)] + ([Get(1)] + ([Put(0)] + ([Put(1)] + [])))));
    hide Enabled, Apply, Start;
    OneStep(s5, Put(1), [], s6);
    OneStep(s4, Put(0), [Put(1)] + [], s6);
    OneStep(s3, Get(1), [Put(0)] + ([Put(1)] + []), s6);
    OneStep(s2, Get(0), [Get(1)] + ([Put(0)] + ([Put(1)] + [])), s6);
    OneStep(s1, Lock(1), [Get(0)] + ([Get(1)] + ([Put(0)] + ([Put(1)] + []))), s6);
    OneStep(s0, Lock(0), [Lock(1)] + ([Get(0)] + ([Get(1)] + ([Put(0)] + ([Put(1)] + [])))), s6);
  }

  lemma OneStep(s: State, step: Step, rest: seq<Step>, end: State)
    requires Enabled(s, step) && Possible(Apply(s, step), rest) && After(Apply(s, step), rest) == end
    ensures Possible(s, [step] + rest) && After(s, [step] + rest) == end
  {
    hide Enabled, Apply;
    assert ([step] + rest)[1..] == rest;
  }
}
