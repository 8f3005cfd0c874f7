// Who is woken, and when a waiting client is lost for good.
module ZkLiveness {
  import opened Results
  import opened ZkNames
  import opened ZkLock

  // A client waits for exactly one thing: a watch on waitPath, the event for it,
  // or its event thread at work.
  predicate HasToken(x: Client) {
    x.watches != {} || x.events != [] || x.event != Quiet
  }

  predicate Blocked(x: Client) {
    x.main.Failed? || (x.main.Waiting? && !x.latch.Open?)
  }

  ghost predicate TokenOk(x: Client, nodes: set<Node>) {
    && (x.watches == {} || (x.waitPath.Some? && x.watches == {x.waitPath.value} && x.waitPath.value in nodes))
    && (x.events == [] || (x.waitPath.Some? && x.events == [x.waitPath.value]))
    && (x.watches != {} ==> x.events == [] && x.event == Quiet)
    && (x.events != [] ==> x.event == Quiet)
    && (x.main.Idle? || x.main.Trying? ==> !HasToken(x))
    && (x.event.Listed? || (x.main.Trying? && x.main.t.Listed?) ==> x.waitPath.Some?)
    && (x.main.Trying? ==> x.main.t != Quiet)
    && (x.waitPath.Some? ==> x.selfPath.Some? && Before(x.waitPath.value, x.selfPath.value))
    && (x.main.Waiting? ==> x.latch != NoLatch)
    && (x.selfPath == None ==> !HasToken(x))
  }

  ghost predicate Owns(x: Client, n: Node) {
    Live(x) && x.selfPath == Some(n)
  }

  ghost predicate Alive(s: State) {
    && Safe(s)
    && (forall i :: 0 <= i < |s.clients| ==> TokenOk(s.clients[i], s.nodes))
    && (forall n :: n in s.nodes ==> exists i :: 0 <= i < |s.clients| && Owns(s.clients[i], n))
  }

  ghost predicate Covered(x: Client) {
    Blocked(x) ==> HasToken(x)
  }

  ghost predicate AllCovered(s: State) {
    forall i :: 0 <= i < |s.clients| ==> Covered(s.clients[i])
  }

  // The event thread finds the client first in line before lock() has made its latch.
  ghost predicate Lost(s: State, step: Step) {
    && Enabled(s, step) && step.List? && step.who == EventThread
    && s.clients[step.c].main.Failed? && IsFirst(s.nodes, s.clients[step.c].selfPath.value)
  }

  // ---- every step keeps the bookkeeping ----

  lemma OneAlive(s: State, s': State, c: nat, x: Client)
    requires Alive(s) && c < |s.clients| && s' == s.(clients := s.clients[c := x]) && Safe(s')
    requires x.selfPath == s.clients[c].selfPath && Live(x) == Live(s.clients[c]) && TokenOk(x, s.nodes)
    ensures Alive(s')
  {
    hide Safe, TokenOk, Live;
    forall n | n in s'.nodes
      ensures exists i :: 0 <= i < |s'.clients| && Owns(s'.clients[i], n)
    {
      var i :| 0 <= i < |s.clients| && Owns(s.clients[i], n);
      assert Owns(s'.clients[i], n);
    }
  }

  lemma OwnListed(s: State, c: nat)
    requires Safe(s) && c < |s.clients| && Live(s.clients[c])
    ensures s.clients[c].selfPath.Some? && s.clients[c].selfPath.value in s.nodes
  {
    assert ClientOk(s.clients[c], s.nodes, s.next);
  }

  lemma OwnOk(s: State, c: nat)
    requires Safe(s) && c < |s.clients|
    ensures ClientOk(s.clients[c], s.nodes, s.next)
  {}

  lemma TokenOf(s: State, c: nat)
    requires Alive(s) && c < |s.clients|
    ensures TokenOk(s.clients[c], s.nodes)
  {
    hide TokenOk, Safe;
  }

  lemma ListAlive(s: State, step: Step)
    requires Alive(s) && step.List? && Enabled(s, step)
    ensures Alive(Apply(s, step))
  {
    hide Safe, IsFirst, Before;
    var x := s.clients[step.c];
    StepSafe(s, step);
    TokenOf(s, step.c);
    var x' := ListClient(x, s.nodes, step.who, step.previous);
    OneAlive(s, Apply(s, step), step.c, x');
  }

  lemma LocalAlive(s: State, step: Step)
    requires Alive(s) && Enabled(s, step) && (step.GetData? || step.NewLatch? || step.Await? || step.Deliver?)
    ensures Alive(Apply(s, step))
  {
    hide Safe, Before;
    var x := s.clients[step.c];
    StepSafe(s, step);
    TokenOf(s, step.c);
    OneAlive(s, Apply(s, step), step.c, Apply(s, step).clients[step.c]);
  }

  lemma CreateAlive(s: State, step: Step)
    requires Alive(s) && step.Create? && Enabled(s, step)
    ensures Alive(Apply(s, step))
  {
    hide Safe, Before;
    StepSafe(s, step);
    OwnOk(s, step.c);
    var s' := Apply(s, step);
    var self := Node(s.clients[step.c].name, step.number);
    forall i | 0 <= i < |s.clients|
      ensures TokenOk(s'.clients[i], s'.nodes)
    {
      TokenOf(s, i);
    }
    hide TokenOk;
    forall n | n in s'.nodes
      ensures exists i :: 0 <= i < |s'.clients| && Owns(s'.clients[i], n)
    {
      if n == self {
        assert Owns(s'.clients[step.c], n);
      } else {
        var i :| 0 <= i < |s.clients| && Owns(s.clients[i], n);
        assert Owns(s'.clients[i], n);
      }
    }
  }

  lemma NotifyToken(x: Client, nodes: set<Node>, gone: Node)
    requires TokenOk(x, nodes)
    ensures TokenOk(Notify(x, gone), nodes - {gone})
  {
    hide Before;
  }

  lemma UnlockAlive(s: State, step: Step)
    requires Alive(s) && step.Unlock? && Enabled(s, step)
    ensures Alive(Apply(s, step))
  {
    StepSafe(s, step);
    var s' := Apply(s, step);
    var self := s.clients[step.c].selfPath.value;
    hide Safe;
    forall i | 0 <= i < |s.clients|
      ensures TokenOk(s'.clients[i], s'.nodes)
    {
      TokenOf(s, i);
      NotifyToken(if i == step.c then s.clients[i].(main := Done) else s.clients[i], s.nodes, self);
    }
    hide TokenOk;
    forall n | n in s'.nodes
      ensures exists i :: 0 <= i < |s'.clients| && Owns(s'.clients[i], n)
    {
      var i :| 0 <= i < |s.clients| && Owns(s.clients[i], n);
      assert Owns(s'.clients[i], n);
    }
  }

  lemma StepAlive(s: State, step: Step)
    requires Alive(s) && Enabled(s, step)
    ensures Alive(Apply(s, step))
  {
    hide Alive, Enabled, Apply;
    match step
    case Create(_, _) => CreateAlive(s, step);
    case List(_, _, _) => ListAlive(s, step);
    case Unlock(_) => UnlockAlive(s, step);
    case _ => LocalAlive(s, step);
  }

  lemma StartAlive(names: seq<string>)
    ensures Alive(Start(names)) && AllCovered(Start(names))
  {}

  // ---- the one interleaving that loses a wake-up ----

  // A step leaves every blocked client with something to wait for, except exactly
  // the step that finds a client first before its latch exists.
  lemma CoverIff(s: State, step: Step)
    requires Alive(s) && AllCovered(s) && Enabled(s, step)
    ensures AllCovered(Apply(s, step)) <==> !Lost(s, step)
  {
    hide Before;
    var s' := Apply(s, step);
    TokenOf(s, step.c);
    OwnOk(s, step.c);
    forall i | 0 <= i < |s.clients| && i != step.c
      ensures Covered(s'.clients[i])
    {
      TokenOf(s, i);
      assert Covered(s.clients[i]);
    }
    assert Covered(s.clients[step.c]);
    hide IsPrevious, IsFirst, Safe;
    CoverOne(s, step);
  }

  lemma CoverOne(s: State, step: Step)
    requires Enabled(s, step) && TokenOk(s.clients[step.c], s.nodes) && ClientOk(s.clients[step.c], s.nodes, s.next)
    requires Covered(s.clients[step.c])
    ensures Covered(Apply(s, step).clients[step.c]) <==> !Lost(s, step)
  {
    hide Before, IsPrevious, IsFirst, Smallest;
  }

  // Blocked with nothing to wait for.
  ghost predicate Stuck(x: Client) {
    Blocked(x) && !HasToken(x)
  }

  lemma LostIsStuck(s: State, step: Step)
    requires Alive(s) && Lost(s, step)
    ensures Stuck(Apply(s, step).clients[step.c])
  {
    hide Before, IsPrevious, Safe;
    TokenOf(s, step.c);
    OwnOk(s, step.c);
  }

  lemma StaysStuck(s: State, step: Step, c: nat)
    requires Alive(s) && Enabled(s, step) && c < |s.clients| && Stuck(s.clients[c])
    ensures Stuck(Apply(s, step).clients[c])
  {
    hide Before, IsPrevious, IsFirst, Safe;
    TokenOf(s, c);
  }

  lemma {:induction false} StuckToTheEnd(s: State, steps: seq<Step>, c: nat)
    requires Alive(s) && Possible(s, steps) && c < |s.clients| && Stuck(s.clients[c])
    ensures c < |After(s, steps).clients| && Stuck(After(s, steps).clients[c])
    decreases |steps|
  {
    hide Alive, Enabled, Apply, Stuck;
    if steps != [] {
      StepAlive(s, steps[0]);
      StaysStuck(s, steps[0], c);
      StuckToTheEnd(Apply(s, steps[0]), steps[1..], c);
    }
  }

  // A client whose wake-up was lost never acquires, whatever happens afterwards.
  lemma LostForever(s: State, step: Step, steps: seq<Step>)
    requires Alive(s) && Lost(s, step) && Possible(Apply(s, step), steps)
    ensures var t := After(Apply(s, step), steps);
            step.c < |t.clients| && Stuck(t.clients[step.c]) && !Acquired(t.clients[step.c])
  {
    hide Alive, Apply, Possible, After;
    StepAlive(s, step);
    LostIsStuck(s, step);
    StuckToTheEnd(Apply(s, step), steps, step.c);
  }

  // ---- every run is finite, and one that loses no wake-up serves everyone ----

  function ThreadRank(t: Thread, waitIsThere: bool): nat {
    match t
    case Quiet => 0
    case Listing => 2
    case Listed(_) => if waitIsThere then 1 else 3
  }

  // Steps a client can still take while no node comes or goes.
  function LocalRank(x: Client, nodes: set<Node>): nat {
    var there := x.waitPath.Some? && x.waitPath.value in nodes;
    var m := match x.main
      case Trying(t) => 3 + ThreadRank(t, there)
      case Failed => 2
      case Waiting => 1
      case _ => 0;
    m + ThreadRank(x.event, there) + 3 * |x.events|
  }

  function LocalSum(clients: seq<Client>, nodes: set<Node>): nat {
    if clients == [] then 0 else LocalRank(clients[0], nodes) + LocalSum(clients[1..], nodes)
  }

  // Creations and deletions still to come.
  function ChangesLeft(x: Client): nat {
    if x.main.Idle? then 2 else if x.main.Done? then 0 else 1
  }

  function ChangeSum(clients: seq<Client>): nat {
    if clients == [] then 0 else ChangesLeft(clients[0]) + ChangeSum(clients[1..])
  }

  function Rank(s: State): nat {
    ChangeSum(s.clients) * (12 * |s.clients| + 1) + LocalSum(s.clients, s.nodes)
  }

  lemma {:induction false} LocalSumUpdate(clients: seq<Client>, nodes: set<Node>, c: nat, x: Client)
    requires c < |clients|
    ensures LocalSum(clients[c := x], nodes)
         == LocalSum(clients, nodes) - LocalRank(clients[c], nodes) + LocalRank(x, nodes)
  {
    hide LocalRank;
    if c > 0 {
      LocalSumUpdate(clients[1..], nodes, c - 1, x);
      assert clients[c := x][1..] == clients[1..][c - 1 := x];
    } else {
      assert clients[c := x][1..] == clients[1..];
    }
  }

  lemma {:induction false} ChangeSumUpdate(clients: seq<Client>, c: nat, x: Client)
    requires c < |clients|
    ensures ChangeSum(clients[c := x]) == ChangeSum(clients) - ChangesLeft(clients[c]) + ChangesLeft(x)
  {
    hide ChangesLeft;
    if c > 0 {
      ChangeSumUpdate(clients[1..], c - 1, x);
      assert clients[c := x][1..] == clients[1..][c - 1 := x];
    } else {
      assert clients[c := x][1..] == clients[1..];
    }
  }

  lemma {:induction false} ChangeSumNotify(clients: seq<Client>, gone: Node)
    ensures ChangeSum(NotifyAll(clients, gone)) == ChangeSum(clients)
  {
    if clients != [] {
      assert NotifyAll(clients, gone)[1..] == NotifyAll(clients[1..], gone);
      ChangeSumNotify(clients[1..], gone);
    }
  }

  lemma {:induction false} SumsBounded(clients: seq<Client>, nodes: set<Node>)
    requires forall i :: 0 <= i < |clients| ==> TokenOk(clients[i], nodes)
    ensures LocalSum(clients, nodes) <= 12 * |clients| && ChangeSum(clients) <= 2 * |clients|
  {
    hide TokenOk;
    if clients != [] {
      assert TokenOk(clients[0], nodes);
      LocalBounded(clients[0], nodes);
      hide LocalRank, ChangesLeft;
      SumsBounded(clients[1..], nodes);
    }
  }

  lemma LocalBounded(x: Client, nodes: set<Node>)
    requires TokenOk(x, nodes)
    ensures LocalRank(x, nodes) <= 12 && ChangesLeft(x) <= 2
  {
    hide Before;
  }

  lemma LocalStep(s: State, step: Step)
    requires Alive(s) && Enabled(s, step) && !step.Create? && !step.Unlock?
    ensures var x, x' := s.clients[step.c], Apply(s, step).clients[step.c];
            LocalRank(x', s.nodes) < LocalRank(x, s.nodes) && ChangesLeft(x') == ChangesLeft(x)
  {
    hide Before, Safe, IsFirst;
    TokenOf(s, step.c);
  }

  lemma RankOfLocal(s: State, step: Step)
    requires Alive(s) && Enabled(s, step) && !step.Create? && !step.Unlock?
    ensures Rank(Apply(s, step)) < Rank(s)
  {
    hide Alive, LocalRank, ChangesLeft, IsPrevious, IsFirst;
    var s' := Apply(s, step);
    LocalStep(s, step);
    var x' := s'.clients[step.c];
    assert s'.clients == s.clients[step.c := x'] && s'.nodes == s.nodes;
    LocalSumUpdate(s.clients, s.nodes, step.c, x');
    ChangeSumUpdate(s.clients, step.c, x');
  }

  lemma FewerChanges(a: nat, b: nat, w: nat)
    requires a < b
    ensures a * (w + 1) + w < b * (w + 1)
  {
    assert (a + 1) * (w + 1) <= b * (w + 1);
  }

  lemma RankOfChange(s: State, step: Step)
    requires Alive(s) && Enabled(s, step) && (step.Create? || step.Unlock?)
    ensures Rank(Apply(s, step)) < Rank(s)
  {
    var s', x := Apply(s, step), s.clients[step.c];
    StepAlive(s, step);
    SumsBounded(s'.clients, s'.nodes);
    hide Alive, ChangeSum, LocalSum;
    if step.Create? {
      ChangeSumUpdate(s.clients, step.c, s'.clients[step.c]);
    } else {
      ChangeSumUpdate(s.clients, step.c, x.(main := Done));
      ChangeSumNotify(s.clients[step.c := x.(main := Done)], x.selfPath.value);
    }
    FewerChanges(ChangeSum(s'.clients), ChangeSum(s.clients), 12 * |s.clients|);
  }

  // However the steps interleave, n clients take no more than this many.
  lemma {:induction false} RunsEnd(s: State, steps: seq<Step>)
    requires Alive(s) && Possible(s, steps)
    ensures |steps| <= Rank(s)
    decreases |steps|
  {
    hide Alive, Enabled, Apply, Rank;
    if steps != [] {
      StepAlive(s, steps[0]);
      if steps[0].Create? || steps[0].Unlock? {
        RankOfChange(s, steps[0]);
      } else {
        RankOfLocal(s, steps[0]);
      }
      RunsEnd(Apply(s, steps[0]), steps[1..]);
    }
  }

  // ---- whoever is first in line can move ----

  lemma {:induction false} FirstExists(nodes: set<Node>) returns (f: Node)
    requires nodes != {} && forall n :: n in nodes ==> n.number <= MAX_NUMBER
    ensures IsFirst(nodes, f)
    decreases |nodes|
  {
    hide Before;
    var n :| n in nodes;
    var rest := nodes - {n};
    BeforeTotal(n, n);
    if rest == {} {
      assert nodes == {n};
      f := n;
    } else {
      var m := FirstExists(rest);
      BeforeTotal(m, n);
      if Before(n, m) {
        f := n;
        forall o | o in rest
          ensures !Before(o, n)
        {
          if Before(o, n) {
            BeforeTransitive(o, n, m);
          }
        }
      } else {
        f := m;
      }
    }
  }

  lemma {:induction false} PreviousExists(nodes: set<Node>, self: Node) returns (p: Node)
    requires self in nodes && !IsFirst(nodes, self)
    requires forall n :: n in nodes ==> n.number <= MAX_NUMBER
    ensures IsPrevious(nodes, self, p)
  {
    hide Before;
    var below := set n | n in nodes && Before(n, self);
    var n :| n in nodes && Before(n, self);
    assert n in below;
    p := LastExists(below);
  }

  // Listing the children never blocks.
  lemma ListPossible(s: State, c: nat, who: Who)
    requires Alive(s) && c < |s.clients| && ThreadOf(s.clients[c], who).Listing?
    ensures exists previous :: Enabled(s, List(c, who, previous))
  {
    hide Before, IsPrevious, IsFirst, Smallest;
    TokenOf(s, c);
    OwnOk(s, c);
    var self := s.clients[c].selfPath.value;
    var p := self;
    if self in s.nodes && !IsFirst(s.nodes, self) {
      p := PreviousExists(s.nodes, self);
    }
    assert Enabled(s, List(c, who, p));
  }

  lemma {:induction false} LastExists(nodes: set<Node>) returns (l: Node)
    requires nodes != {} && forall n :: n in nodes ==> n.number <= MAX_NUMBER
    ensures l in nodes && forall n :: n in nodes ==> n == l || Before(n, l)
    decreases |nodes|
  {
    hide Before;
    var n :| n in nodes;
    var rest := nodes - {n};
    if rest == {} {
      assert nodes == {n};
      l := n;
    } else {
      var m := LastExists(rest);
      BeforeTotal(m, n);
      if Before(m, n) {
        l := n;
        forall o | o in rest
          ensures Before(o, n)
        {
          if o != m {
            BeforeTransitive(o, m, n);
          }
        }
      } else {
        l := m;
      }
    }
  }

  // As long as somebody holds or waits and nobody is stuck, a step is possible.
  lemma NoDeadlock(s: State)
    requires Alive(s) && AllCovered(s) && s.nodes != {}
    ensures exists step :: Enabled(s, step) && !step.Create?
  {
    hide Before, IsPrevious, Smallest;
    var f := FirstExists(s.nodes);
    var i :| 0 <= i < |s.clients| && Owns(s.clients[i], f);
    TokenOf(s, i);
    assert Covered(s.clients[i]);
    hide Alive;
    var step := NextOf(s, i, f);
    assert Enabled(s, step);
  }

  function NextOf(s: State, i: nat, self: Node): Step
    requires i < |s.clients|
  {
    var x := s.clients[i];
    match x.main
    case Trying(t) => if t.Listing? then List(i, MainThread, self) else GetData(i, MainThread)
    case Failed => NewLatch(i)
    case Holding => Unlock(i)
    case _ =>
      if x.latch.Open? then Await(i)
      else if x.events != [] then Deliver(i)
      else if x.event.Listing? then List(i, EventThread, self)
      else GetData(i, EventThread)
  }

  // A run without the lost step, continued until nothing can move: everyone has
  // had the lock and released it.
  lemma {:induction false} CoveredRun(s: State, steps: seq<Step>)
    requires Alive(s) && AllCovered(s) && Possible(s, steps) && NoneLost(s, steps)
    ensures Alive(After(s, steps)) && AllCovered(After(s, steps))
    decreases |steps|
  {
    hide Alive, AllCovered, Enabled, Apply, Lost;
    if steps != [] {
      StepAlive(s, steps[0]);
      CoverIff(s, steps[0]);
      CoveredRun(Apply(s, steps[0]), steps[1..]);
    }
  }

  ghost predicate NoneLost(s: State, steps: seq<Step>)
    requires Possible(s, steps)
    decreases |steps|
  {
    steps == [] || (!Lost(s, steps[0]) && NoneLost(Apply(s, steps[0]), steps[1..]))
  }

  lemma EveryoneServed(names: seq<string>, steps: seq<Step>, i: nat)
    requires Possible(Start(names), steps) && NoneLost(Start(names), steps) && i < |names|
    requires After(Start(names), steps).next <= MAX_NUMBER
    requires forall step :: !Enabled(After(Start(names), steps), step)
    ensures i < |After(Start(names), steps).clients| && After(Start(names), steps).clients[i].main.Done?
  {
    hide Before, IsPrevious, IsFirst, Smallest;
    StartAlive(names);
    CoveredRun(Start(names), steps);
    SameClients(Start(names), steps);
    var s := After(Start(names), steps);
    hide After, Possible, NoneLost;
    assert !Enabled(s, Create(i, s.next));
    if !s.clients[i].main.Done? {
      OwnListed(s, i);
      NoDeadlock(s);
    }
  }

  // A run with a lost step leaves a client stuck.
  lemma {:induction false} LostRun(s: State, steps: seq<Step>) returns (c: nat)
    requires Alive(s) && Possible(s, steps) && !NoneLost(s, steps)
    ensures c < |After(s, steps).clients| && Stuck(After(s, steps).clients[c])
    decreases |steps|
  {
    hide Alive, Apply, Stuck;
    StepAlive(s, steps[0]);
    if Lost(s, steps[0]) {
      c := steps[0].c;
      LostForever(s, steps[0], steps[1..]);
    } else {
      c := LostRun(Apply(s, steps[0]), steps[1..]);
    }
  }

  // A run that cannot go on has served everyone if and only if it lost no wake-up.
  lemma EveryoneServedIff(names: seq<string>, steps: seq<Step>)
    requires Possible(Start(names), steps)
    requires After(Start(names), steps).next <= MAX_NUMBER
    requires forall step :: !Enabled(After(Start(names), steps), step)
    ensures var s := After(Start(names), steps);
            && |s.clients| == |names|
            && ((forall i :: 0 <= i < |s.clients| ==> s.clients[i].main.Done?) <==> NoneLost(Start(names), steps))
  {
    hide Possible, Enabled, After, Alive, AllCovered, NoneLost;
    SameClients(Start(names), steps);
    var s := After(Start(names), steps);
    if NoneLost(Start(names), steps) {
      forall i | 0 <= i < |s.clients|
        ensures s.clients[i].main.Done?
      {
        EveryoneServed(names, steps, i);
      }
    } else {
      StartAlive(names);
      var c := LostRun(Start(names), steps);
      assert !s.clients[c].main.Done?;
    }
  }

  // The first of two clients holds the lock, the second has just registered its watch.
  function HeldAndWatched(name: string): State {
    var m, n := Node(name, 0), Node(name, 1);
    State({m, n}, 2, [Client(name, Holding, Quiet, NoLatch, Some(m), None, {}, []),
                      Client(name, Failed, Quiet, NoLatch, Some(n), Some(m), {m}, [])])
  }

  lemma ReachWatched(name: string) returns (steps: seq<Step>)
    ensures Possible(Start([name, name]), steps) && After(Start([name, name]), steps) == HeldAndWatched(name)
  {
    hide Before;
    var m, n := Node(name, 0), Node(name, 1);
    SameNameOrder(m, n);
    BeforeTotal(m, m);
    BeforeTotal(n, n);
    var s0 := Start([name, name]);
    var a0, a1, a2, a3, a4 :=
      Create(0, 0), List(0, MainThread, m), Create(1, 1), List(1, MainThread, m), GetData(1, MainThread);
    var s1 := Apply(s0, a0);
    assert s1.nodes == {m};
    var s2 := Apply(s1, a1);
    var s3 := Apply(s2, a2);
    assert s3.nodes == {m, n};
    assert IsPrevious(s3.nodes, n, m) && !IsFirst(s3.nodes, n);
    var s4 := Apply(s3, a3);
    var s5 := Apply(s4, a4);
    assert s5 == HeldAndWatched(name);
    steps := [a0] + ([a1] + ([a2] + ([a3] + ([a4] + []))));
    hide Enabled, Apply, Start, HeldAndWatched, IsPrevious, IsFirst;
    OneStep(s4, a4, [], s5);
    OneStep(s3, a3, [a4] + [], s5);
    OneStep(s2, a2, [a3] + ([a4] + []), s5);
    OneStep(s1, a1, [a2] + ([a3] + ([a4] + [])), s5);
    OneStep(s0, a0, [a1] + ([a2] + ([a3] + ([a4] + []))), s5);
  }

  lemma LoseWakeUp(name: string) returns (steps: seq<Step>)
    ensures Possible(HeldAndWatched(name), steps)
    ensures var s := After(HeldAndWatched(name), steps);
            |s.clients| == 2 && Stuck(s.clients[1]) && s.clients[0].main.Done?
  {
    hide Before;
    var m, n := Node(name, 0), Node(name, 1);
    BeforeTotal(n, n);
    var s0 := HeldAndWatched(name);
    var a0, a1, a2 := Unlock(0), Deliver(1), List(1, EventThread, n);
    var s1 := Apply(s0, a0);
    assert s1.nodes == {n};
    var s2 := Apply(s1, a1);
    var s3 := Apply(s2, a2);
    steps := [a0] + ([a1] + ([a2] + []));
    hide Enabled, Apply;
    OneStep(s2, a2, [], s3);
    OneStep(s1, a1, [a2] + [], s3);
    OneStep(s0, a0, [a1] + ([a2] + []), s3);
  }

  // It can happen with two clients: the holder unlocks and the event is handled
  // before the waiting thread gets from tryLock to its latch.
  lemma LostHappens(name: string) returns (steps: seq<Step>)
    ensures Possible(Start([name, name]), steps)
    ensures var s := After(Start([name, name]), steps);
            |s.clients| == 2 && Stuck(s.clients[1]) && s.clients[0].main.Done?
  {
    hide HeldAndWatched, Start;
    var first := ReachWatched(name);
    var last := LoseWakeUp(name);
    Concatenate(Start([name, name]), first, last);
    steps := first + last;
  }

  lemma {:induction false} Concatenate(s: State, a: seq<Step>, b: seq<Step>)
    requires Possible(s, a) && Possible(After(s, a), b)
    ensures Possible(s, a + b) && After(s, a + b) == After(After(s, a), b)
    decreases |a|
  {
    hide Enabled, Apply;
    if a == [] {
      assert a + b == b;
    } else {
      assert (a + b)[1..] == a[1..] + b;
      Concatenate(Apply(s, a[0]), a[1..], b);
    }
  }

  lemma OneStep(s: State, step: Step, rest: seq<Step>, end: State)
    requires Enabled(s, step) && Possible(Apply(s, step), rest) && After(Apply(s, step), rest) == end
    ensures Possible(s, [step] + rest) && After(s, [step] + rest) == end
  {
    hide Enabled, Apply;
    assert ([step] + rest)[1..] == rest;
  }

  // A client that is first of its own name waits behind a node of another name: a
  // schedule for any two names that sort that way.
  lemma OtherNameFirst(other: string, name: string) returns (steps: seq<Step>)
    requires other != name && Before(Node(other, 0), Node(name, 1))
    ensures Possible(Start([other, name]), steps)
    ensures var s := After(Start([other, name]), steps);
            && |s.clients| == 2 && s.clients[1].name == name
            && s.clients[1].selfPath == Some(Node(name, 1)) && Smallest(s.nodes, Node(name, 1))
            && s.clients[1].main.Failed? && s.clients[1].watches == {Node(other, 0)}
  {
    var a, b := Node(other, 0), Node(name, 1);
    LessIrreflexive(Path(a));
    LessIrreflexive(Path(b));
    hide Before;
    var s0 := Start([other, name]);
    var s1 := Apply(s0, Create(0, 0));
    var s2 := Apply(s1, Create(1, 1));
    assert s2.nodes == {a, b} && s2.clients[1].selfPath == Some(b);
    assert IsPrevious(s2.nodes, b, a) && !IsFirst(s2.nodes, b);
    var s3 := Apply(s2, List(1, MainThread, a));
    var s4 := Apply(s3, GetData(1, MainThread));
    hide Enabled, Apply, Start;
    steps := [Create(0, 0)] + ([Create(1, 1)] + ([List(1, MainThread, a)] + ([GetData(1, MainThread)] + [])));
    OneStep(s3, GetData(1, MainThread), [], s4);
    OneStep(s2, List(1, MainThread, a), [GetData(1, MainThread)] + [], s4);
    OneStep(s1, Create(1, 1), [List(1, MainThread, a)] + ([GetData(1, MainThread)] + []), s4);
    OneStep(s0, Create(0, 0), [Create(1, 1)] + ([List(1, MainThread, a)] + ([GetData(1, MainThread)] + [])), s4);
  }
}
