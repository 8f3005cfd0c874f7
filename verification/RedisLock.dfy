// RedisLock as a step system over one key: any number of lock objects with that
// name, a clock in milliseconds, and every renewer thread ever started.
module RedisLock {
  import opened Results

  // DEF_TIME is 10 seconds; a renewer sleeps DEF_TIME / 3 whole seconds.
  const DEF_TIME: nat := 10_000
  const PAUSE: nat := 10 / 3 * 1_000

  // The key's value (which lock object's uuid) and when it expires.
  datatype Key = Key(owner: nat, expires: nat)

  // A renewer has not read the value yet, loops, or has ended because the value
  // was not its own. `renewed` is when the key was last written or extended on
  // behalf of its acquisition, `since` when it fell asleep.
  datatype Phase = Starting | Looping | Ended
  datatype Renewer = Renewer(owner: nat, phase: Phase, renewed: nat, since: nat)

  // A lock object: not held; in the critical section; in unlock between get and
  // delete. The number is that of the renewer tryLock started.
  datatype Lock = Free | Held(renewer: nat) | Deleting(renewer: nat)

  datatype State = State(now: nat, key: Option<Key>, locks: seq<Lock>, renewers: seq<Renewer>)

  datatype Step =
    | Tick(d: nat)
    | TryLock(i: nat)
    | Read(r: nat)
    | Expire(r: nat)
    | Get(i: nat)
    | Delete(i: nat)

  predicate Present(s: State) {
    s.key.Some? && s.now < s.key.value.expires
  }

  predicate Enabled(s: State, step: Step) {
    match step
    case Tick(_) => true
    case TryLock(i) => i < |s.locks| && s.locks[i].Free?
    case Read(r) => r < |s.renewers| && s.renewers[r].phase.Starting?
    case Expire(r) => r < |s.renewers| && s.renewers[r].phase.Looping? && s.now >= s.renewers[r].since + PAUSE
    case Get(i) => i < |s.locks| && s.locks[i].Held?
    case Delete(i) => i < |s.locks| && s.locks[i].Deleting?
  }

  function Apply(s: State, step: Step): (s': State)
    requires Enabled(s, step)
    ensures |s'.locks| == |s.locks|
  {
    match step
    case Tick(d) => s.(now := s.now + d)
    case TryLock(i) =>
      // SET NX with the expiry, then a new renewer
      if Present(s) then s
      else State(s.now, Some(Key(i, s.now + DEF_TIME)), s.locks[i := Held(|s.renewers|)],
                 s.renewers + [Renewer(i, Starting, s.now, s.now)])
    case Read(r) =>
      var phase := if Present(s) && s.key.value.owner == s.renewers[r].owner then Looping else Ended;
      s.(renewers := s.renewers[r := s.renewers[r].(phase := phase, since := s.now)])
    case Expire(r) =>
      // the value is not read again: whoever owns the key gets the time
      s.(key := if Present(s) then Some(s.key.value.(expires := s.now + DEF_TIME)) else s.key,
         renewers := s.renewers[r := s.renewers[r].(renewed := s.now, since := s.now)])
    case Get(i) =>
      s.(locks := s.locks[i := if Present(s) && s.key.value.owner == i then Deleting(s.locks[i].renewer) else Free])
    case Delete(i) => s.(key := None, locks := s.locks[i := Free])
  }

  function Start(n: nat): State {
    State(0, None, seq(n, _ => Free), [])
  }

  ghost predicate Possible(s: State, steps: seq<Step>)
    decreases |steps|
  {
    steps == [] || (Enabled(s, steps[0]) && Possible(Apply(s, steps[0]), steps[1..]))
  }

  ghost function After(s: State, steps: seq<Step>): State
    requires Possible(s, steps)
    decreases |steps|
  {
    if steps == [] then s else After(Apply(s, steps[0]), steps[1..])
  }

  predicate Holds(s: State, i: nat) {
    i < |s.locks| && !s.locks[i].Free?
  }

  // When the holder's lease runs out unless its renewer runs before.
  function Deadline(s: State, i: nat): nat
    requires Holds(s, i)
  {
    var r := s.locks[i].renewer;
    (if r < |s.renewers| then s.renewers[r].renewed else 0) + DEF_TIME
  }

  // Time passes, but every holder's renewer has run less than DEF_TIME ago.
  predicate Prompt(s: State, step: Step) {
    step.Tick? ==> forall i :: 0 <= i < |s.locks| && Holds(s, i) ==> s.now + step.d < Deadline(s, i)
  }

  ghost predicate AllPrompt(s: State, steps: seq<Step>)
    requires Possible(s, steps)
    decreases |steps|
  {
    steps == [] || (Prompt(s, steps[0]) && AllPrompt(Apply(s, steps[0]), steps[1..]))
  }

  // A holder owns a key that has not expired, and its own renewer is alive.
  ghost predicate HolderOk(s: State, i: nat)
    requires i < |s.locks|
  {
    Holds(s, i) ==>
      var r := s.locks[i].renewer;
      && r < |s.renewers| && s.renewers[r].owner == i && !s.renewers[r].phase.Ended?
      && s.key.Some? && s.key.value.owner == i
      && s.now < s.renewers[r].renewed + DEF_TIME <= s.key.value.expires
  }

  ghost predicate Safe(s: State) {
    && (s.key.Some? ==> s.key.value.expires <= s.now + DEF_TIME)
    && (forall r :: 0 <= r < |s.renewers| ==> s.renewers[r].renewed <= s.now)
    && forall i :: 0 <= i < |s.locks| ==> HolderOk(s, i)
  }

  lemma StepSafe(s: State, step: Step)
    requires Safe(s) && Enabled(s, step) && Prompt(s, step)
    ensures Safe(Apply(s, step))
  {
    var s' := Apply(s, step);
    forall i | 0 <= i < |s.locks|
      ensures HolderOk(s', i)
    {
      assert HolderOk(s, i);
      if step.Get? || step.Delete? {
        assert HolderOk(s, step.i);
      } else if step.Tick? && Holds(s, i) {
        assert s.now + step.d < Deadline(s, i);
      }
    }
  }

  // ---- exactly when the lock works ----

  // Every holder owns the key, and it has not expired.
  ghost predicate Kept(s: State) {
    forall i :: 0 <= i < |s.locks| && Holds(s, i) ==> Present(s) && s.key.value.owner == i
  }

  // Time passes beyond the key's expiry while somebody holds the lock.
  ghost predicate Lapses(s: State, step: Step) {
    step.Tick? && s.key.Some? && s.now + step.d >= s.key.value.expires && exists i :: Holds(s, i)
  }

  // A step leaves every holder with its key, except exactly one that lets a lease lapse.
  lemma KeptIff(s: State, step: Step)
    requires Kept(s) && Enabled(s, step)
    ensures Kept(Apply(s, step)) <==> !Lapses(s, step)
  {
    if Lapses(s, step) {
      var i :| Holds(s, i);
      assert Holds(Apply(s, step), i) && !Present(Apply(s, step));
    } else {
      forall i | 0 <= i < |s.locks| && Holds(Apply(s, step), i)
        ensures Present(Apply(s, step)) && Apply(s, step).key.value.owner == i
      {
        KeptByOne(s, step, i);
      }
    }
  }

  lemma KeptByOne(s: State, step: Step, i: nat)
    requires Kept(s) && Enabled(s, step) && !Lapses(s, step) && Holds(Apply(s, step), i)
    ensures Present(Apply(s, step)) && Apply(s, step).key.value.owner == i
  {
    assert Holds(s, i) ==> Present(s) && s.key.value.owner == i;
    if step.Get? || step.Delete? {
      assert Holds(s, step.i);
    }
  }

  // Prompt renewals prevent it.
  lemma PromptNeverLapses(s: State, step: Step)
    requires Safe(s) && Prompt(s, step)
    ensures !Lapses(s, step)
  {
    if step.Tick? {
      forall i | Holds(s, i)
        ensures s.key.Some? && s.now + step.d < s.key.value.expires
      {
        assert HolderOk(s, i);
      }
    }
  }

  ghost predicate NeverLapses(s: State, steps: seq<Step>)
    requires Possible(s, steps)
    decreases |steps|
  {
    steps == [] || (!Lapses(s, steps[0]) && NeverLapses(Apply(s, steps[0]), steps[1..]))
  }

  // Every state of the run, the last one included.
  ghost predicate AlwaysKept(s: State, steps: seq<Step>)
    requires Possible(s, steps)
    decreases |steps|
  {
    Kept(s) && (steps == [] || AlwaysKept(Apply(s, steps[0]), steps[1..]))
  }

  lemma {:induction false} RunKeptIff(s: State, steps: seq<Step>)
    requires Kept(s) && Possible(s, steps)
    ensures AlwaysKept(s, steps) <==> NeverLapses(s, steps)
    decreases |steps|
  {
    hide Kept, Lapses, Enabled, Apply;
    if steps != [] {
      KeptIff(s, steps[0]);
      var next, rest := Apply(s, steps[0]), steps[1..];
      if Kept(next) {
        RunKeptIff(next, rest);
      } else {
        NotKeptAtOnce(next, rest);
      }
    }
  }

  lemma NotKeptAtOnce(s: State, steps: seq<Step>)
    requires !Kept(s) && Possible(s, steps)
    ensures !AlwaysKept(s, steps)
  {
    hide Kept, Enabled, Apply;
  }

  // In any run, every holder always owns a key that has not expired if and only if
  // no lease lapses.
  lemma LeaseIff(n: nat, steps: seq<Step>)
    requires Possible(Start(n), steps)
    ensures AlwaysKept(Start(n), steps) <==> NeverLapses(Start(n), steps)
  {
    RunKeptIff(Start(n), steps);
  }

  // What owning the key means: nobody else is in the critical section, and unlock
  // reads its own value and removes its own key.
  lemma KeptExcludes(s: State, i: nat, j: nat)
    requires Kept(s)
    ensures Holds(s, i) && Holds(s, j) ==> i == j
    ensures Enabled(s, Get(i)) ==> Apply(s, Get(i)).locks[i].Deleting?
    ensures Enabled(s, Delete(i)) ==> s.key.Some? && s.key.value.owner == i && Apply(s, Delete(i)).key == None
  {
    assert Holds(s, i) ==> Present(s) && s.key.value.owner == i;
    assert Holds(s, j) ==> Present(s) && s.key.value.owner == j;
  }

  // What a lapse costs: the next tryLock of any other lock object makes a second
  // holder, whose key the first one's unlock removes if it has read its value already.
  lemma LapseBreaks(s: State, step: Step, i: nat, j: nat)
    requires Kept(s) && Enabled(s, step) && Lapses(s, step)
    requires Holds(s, i) && j < |s.locks| && j != i
    ensures var t := Apply(s, step);
            && Enabled(t, TryLock(j))
            && var u := Apply(t, TryLock(j));
            && Holds(u, i) && Holds(u, j) && u.key == Some(Key(j, u.now + DEF_TIME))
            && (s.locks[i].Deleting? ==>
                Enabled(u, Delete(i)) && Apply(u, Delete(i)).key == None && Holds(Apply(u, Delete(i)), j))
  {
    KeptExcludes(s, i, j);
    assert s.locks[j].Free?;
  }

  lemma {:induction false} PromptRunNeverLapses(s: State, steps: seq<Step>)
    requires Safe(s) && Possible(s, steps) && AllPrompt(s, steps)
    ensures NeverLapses(s, steps)
    decreases |steps|
  {
    hide Safe, Enabled, Apply, Prompt, Lapses;
    if steps != [] {
      StepSafe(s, steps[0]);
      PromptNeverLapses(s, steps[0]);
      PromptRunNeverLapses(Apply(s, steps[0]), steps[1..]);
    }
  }

  lemma {:induction false} LastKept(s: State, steps: seq<Step>)
    requires Possible(s, steps) && AlwaysKept(s, steps)
    ensures Kept(After(s, steps)) && |After(s, steps).locks| == |s.locks|
    decreases |steps|
  {
    hide Kept, Enabled, Apply;
    if steps != [] {
      LastKept(Apply(s, steps[0]), steps[1..]);
    }
  }

  // So while renewals are prompt, and leftover renewers whatever they do: the key of
  // a holder never lapses, nobody else is in the critical section, and unlock removes
  // the holder's own key.
  lemma LeaseExclusion(n: nat, steps: seq<Step>, i: nat, j: nat)
    requires Possible(Start(n), steps) && AllPrompt(Start(n), steps) && i < n && j < n
    ensures AlwaysKept(Start(n), steps)
    ensures var s := After(Start(n), steps);
            && |s.locks| == n
            && (Holds(s, i) ==> Present(s) && s.key.value.owner == i)
            && (Holds(s, i) && Holds(s, j) ==> i == j)
            && (Enabled(s, Delete(i)) ==> s.key == Some(Key(i, s.key.value.expires)) && Apply(s, Delete(i)).key == None)
            && (Enabled(s, Get(i)) ==> Apply(s, Get(i)).locks[i].Deleting?)
  {
    PromptRunNeverLapses(Start(n), steps);
    LeaseIff(n, steps);
    LastKept(Start(n), steps);
    KeptExcludes(After(Start(n), steps), i, j);
  }

  // A renewer that has read its own value once goes on forever: after its lock was
  // released it extends the key of whoever holds it then.
  lemma {:induction false} RenewerNeverEnds(s: State, steps: seq<Step>, r: nat)
    requires Possible(s, steps) && r < |s.renewers| && s.renewers[r].phase.Looping?
    ensures r < |After(s, steps).renewers| && After(s, steps).renewers[r].phase.Looping?
    ensures After(s, steps).renewers[r].owner == s.renewers[r].owner
    decreases |steps|
  {
    if steps != [] {
      RenewerNeverEnds(Apply(s, steps[0]), steps[1..], r);
    }
  }

  // Once a lease lapses unlock can delete the key of another holder: lock 0
  // reads its own value, its lease lapses, lock 1 acquires, lock 0 deletes.
  lemma LateUnlock() returns (steps: seq<Step>)
    ensures Possible(Start(2), steps)
    ensures var s := After(Start(2), steps);
            |s.locks| == 2 && s.locks[0].Free? && s.locks[1].Held? && s.key == None
    ensures !NeverLapses(Start(2), steps)
  {
    var s0 := Start(2);
    var s1 := Apply(s0, TryLock(0));
    var s2 := Apply(s1, Get(0));
    var s3 := Apply(s2, Tick(DEF_TIME));
    var s4 := Apply(s3, TryLock(1));
    var s5 := Apply(s4, Delete(0));
    steps := [TryLock(0)] + ([Get(0)] + ([Tick(DEF_TIME)] + ([TryLock(1)] + ([Delete(0)] + []))));
    assert Holds(s2, 0) && Lapses(s2, Tick(DEF_TIME));
    hide Enabled, Apply, Lapses, Start;
    OneStep(s4, Delete(0), [], s5);
    OneStep(s3, TryLock(1), [Delete(0)] + [], s5);
    OneStep(s2, Tick(DEF_TIME), [TryLock(1)] + ([Delete(0)] + []), s5);
    OneStep(s1, Get(0), [Tick(DEF_TIME)] + ([TryLock(1)] + ([Delete(0)] + [])), s5);
    OneStep(s0, TryLock(0), [Get(0)] + ([Tick(DEF_TIME)] + ([TryLock(1)] + ([Delete(0)] + []))), s5);
  }

  lemma OneStep(s: State, step: Step, rest: seq<Step>, end: State)
    requires Enabled(s, step) && Possible(Apply(s, step), rest) && After(Apply(s, step), rest) == end
    ensures Possible(s, [step] + rest) && After(s, [step] + rest) == end
    ensures NeverLapses(s, [step] + rest) <==> !Lapses(s, step) && NeverLapses(Apply(s, step), rest)
  {
    hide Enabled, Apply, Lapses;
    assert ([step] + rest)[1..] == rest;
  }

  // Unlocking leads to a delete, before the lock object locks again, if and only if
  // the key it reads is there and its own; reading changes no key.
  lemma UnlockDeletesIff(s: State, i: nat)
    requires Enabled(s, Get(i))
    ensures Apply(s, Get(i)).key == s.key
    ensures (exists more ::
               Possible(Apply(s, Get(i)), more) && TryLock(i) !in more && Delete(i) in more)
            <==> s.key.Some? && s.now < s.key.value.expires && s.key.value.owner == i
  {
    var s' := Apply(s, Get(i));
    if s'.locks[i].Free? {
      forall more | Possible(s', more) && TryLock(i) !in more
        ensures Delete(i) !in more
      {
        StaysFree(s', i, more);
      }
    } else {
      var more := [Delete(i)];
      assert more[1..] == [];
      assert Possible(Apply(s', Delete(i)), more[1..]);
      assert Possible(s', more) && Delete(i) in more;
    }
  }

  lemma {:induction false} StaysFree(s: State, i: nat, more: seq<Step>)
    requires i < |s.locks| && s.locks[i].Free? && Possible(s, more) && TryLock(i) !in more
    ensures Delete(i) !in more
    decreases |more|
  {
    if more != [] {
      assert more[0] in more;
      StaysFree(Apply(s, more[0]), i, more[1..]);
    }
  }
}
