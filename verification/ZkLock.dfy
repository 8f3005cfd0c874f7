// ZkLock.DistributedLock as a step system: any number of lock objects, each with
// the thread that called lock() and the thread that delivers watch events.
// Sessions do not expire, nobody interrupts a waiting thread, and each object
// acquires once.
module ZkLock {
  import opened Results
  import opened ZkNames

  // Where a thread is in isMinPath: before getChildren; between it and getData,
  // with the children it saw; not in it.
  datatype Thread = Quiet | Listing | Listed(seen: set<Node>)

  datatype Main = Idle | Trying(t: Thread) | Failed | Waiting | Holding | Done

  datatype Latch = NoLatch | Closed | Open

  datatype Client = Client(name: string, main: Main, event: Thread, latch: Latch,
                           selfPath: Option<Node>, waitPath: Option<Node>,
                           watches: set<Node>, events: seq<Node>)

  datatype State = State(nodes: set<Node>, next: nat, clients: seq<Client>)

  // The thread that takes a step inside isMinPath.
  datatype Who = MainThread | EventThread

  datatype Step =
    | Create(c: nat, number: nat)
    | List(c: nat, who: Who, previous: Node)
    | GetData(c: nat, who: Who)
    | NewLatch(c: nat)
    | Await(c: nat)
    | Deliver(c: nat)
    | Unlock(c: nat)

  function ThreadOf(x: Client, who: Who): Thread {
    match who
    case MainThread => if x.main.Trying? then x.main.t else Quiet
    case EventThread => x.event
  }

  // subNodes.get(index - 1) is p: the last of the children sorted before self.
  ghost predicate IsPrevious(nodes: set<Node>, self: Node, p: Node) {
    p in nodes && Before(p, self) && forall n :: n in nodes && Before(n, self) ==> n == p || Before(n, p)
  }

  // index == 0
  ghost predicate IsFirst(nodes: set<Node>, self: Node) {
    self in nodes && forall n :: n in nodes ==> !Before(n, self)
  }

  ghost predicate Enabled(s: State, step: Step) {
    step.c < |s.clients| &&
    var x := s.clients[step.c];
    match step
    case Create(_, number) => x.main.Idle? && s.next <= number <= MAX_NUMBER
    case List(_, who, previous) =>
      && ThreadOf(x, who) == Listing && x.selfPath.Some?
      && (x.selfPath.value in s.nodes && !IsFirst(s.nodes, x.selfPath.value) ==>
          IsPrevious(s.nodes, x.selfPath.value, previous))
    case GetData(_, who) => ThreadOf(x, who).Listed? && x.waitPath.Some?
    case NewLatch(_) => x.main.Failed?
    case Await(_) => x.main.Waiting? && x.latch.Open?
    case Deliver(_) => x.event.Quiet? && x.events != []
    case Unlock(_) => x.main.Holding? && x.selfPath.Some?
  }

  // isMinPath returns; only lock() itself acts on what it returns.
  function Return(x: Client, who: Who, result: bool): Client {
    match who
    case MainThread => x.(main := if result then Holding else Failed)
    case EventThread => x.(event := Quiet)
  }

  function At(x: Client, who: Who, t: Thread): Client {
    match who
    case MainThread => x.(main := Trying(t))
    case EventThread => x.(event := t)
  }

  ghost function ListClient(x: Client, nodes: set<Node>, who: Who, previous: Node): Client
    requires x.selfPath.Some?
  {
    if x.selfPath.value !in nodes then Return(x, who, false)
    else if IsFirst(nodes, x.selfPath.value) then Return(if x.latch == NoLatch then x else x.(latch := Open), who, true)
    else At(x.(waitPath := Some(previous)), who, Listed(nodes))
  }

  // getData registers the watch, or fails because the node is gone.
  function GetDataClient(x: Client, nodes: set<Node>, who: Who): Client
    requires x.waitPath.Some?
  {
    if x.waitPath.value in nodes then Return(x.(watches := x.watches + {x.waitPath.value}), who, false)
    else At(x, who, Listing)
  }

  // process ignores events for other paths.
  function DeliverClient(x: Client): Client
    requires x.events != []
  {
    x.(events := x.events[1..], event := if Some(x.events[0]) == x.waitPath then Listing else x.event)
  }

  function Notify(x: Client, gone: Node): Client {
    if gone in x.watches then x.(watches := x.watches - {gone}, events := x.events + [gone]) else x
  }

  function NotifyAll(clients: seq<Client>, gone: Node): (r: seq<Client>)
    ensures |r| == |clients| && forall i :: 0 <= i < |r| ==> r[i] == Notify(clients[i], gone)
  {
    seq(|clients|, i requires 0 <= i < |clients| => Notify(clients[i], gone))
  }

  ghost function Apply(s: State, step: Step): (s': State)
    requires Enabled(s, step)
    ensures |s'.clients| == |s.clients|
  {
    var x := s.clients[step.c];
    match step
    case Create(c, number) =>
      var self := Node(x.name, number);
      State(s.nodes + {self}, number + 1, s.clients[c := x.(selfPath := Some(self), main := Trying(Listing))])
    case List(c, who, previous) => s.(clients := s.clients[c := ListClient(x, s.nodes, who, previous)])
    case GetData(c, who) => s.(clients := s.clients[c := GetDataClient(x, s.nodes, who)])
    case NewLatch(c) => s.(clients := s.clients[c := x.(latch := Closed, main := Waiting)])
    case Await(c) => s.(clients := s.clients[c := x.(main := Holding)])
    case Deliver(c) => s.(clients := s.clients[c := DeliverClient(x)])
    case Unlock(c) =>
      var self := x.selfPath.value;
      s.(nodes := s.nodes - {self}, clients := NotifyAll(s.clients[c := x.(main := Done)], self))
  }

  function NewClient(name: string): Client {
    Client(name, Idle, Quiet, NoLatch, None, None, {}, [])
  }

  function Start(names: seq<string>): State {
    State({}, 0, seq(|names|, i requires 0 <= i < |names| => NewClient(names[i])))
  }

  // A run: every step is enabled where it is taken.
  ghost predicate Possible(s: State, steps: seq<Step>)
    decreases |steps|
  {
    steps == [] || (Enabled(s, steps[0]) && Possible(Apply(s, steps[0]), steps[1..]))
  }

  ghost function After(s: State, steps: seq<Step>): State
    requires Possible(s, steps)
    decreases |steps|
  {
    if steps == [] then s else After(Apply(s, steps[0]), steps[1..])
  }

  // ---- what every step keeps ----

  // In the critical section, or let through the latch.
  predicate Acquired(x: Client) {
    x.main.Holding? || (x.main.Waiting? && x.latch.Open?)
  }

  predicate Live(x: Client) {
    !x.main.Idle? && !x.main.Done?
  }

  ghost predicate Smallest(nodes: set<Node>, self: Node) {
    forall n :: n in nodes && n.name == self.name ==> self.number <= n.number
  }

  ghost predicate ClientOk(x: Client, nodes: set<Node>, next: nat) {
    && (x.main.Idle? <==> x.selfPath == None)
    && (x.selfPath.Some? ==> x.selfPath.value.name == x.name && x.selfPath.value.number < next)
    && (Live(x) ==> x.selfPath.value in nodes)
    && (Acquired(x) ==> Smallest(nodes, x.selfPath.value))
    && (x.main.Idle? || x.main.Trying? || x.main.Failed? ==> x.latch.NoLatch?)
  }

  ghost predicate Safe(s: State) {
    && s.next <= MAX_NUMBER + 1
    && (forall n :: n in s.nodes ==> n.number < s.next)
    && (forall i :: 0 <= i < |s.clients| ==> ClientOk(s.clients[i], s.nodes, s.next))
    && (forall i, j :: 0 <= i < j < |s.clients| && s.clients[i].selfPath.Some? ==>
          s.clients[i].selfPath != s.clients[j].selfPath)
  }

  lemma FirstIsSmallest(nodes: set<Node>, self: Node)
    requires IsFirst(nodes, self) && self.number <= MAX_NUMBER
    requires forall n :: n in nodes ==> n.number <= MAX_NUMBER
    ensures Smallest(nodes, self)
  {
    hide Before;
    forall n | n in nodes && n.name == self.name
      ensures self.number <= n.number
    {
      SameNameOrder(n, self);
    }
  }

  // A step that changes one client and no node.
  lemma OneClient(s: State, s': State, c: nat, x: Client)
    requires Safe(s) && c < |s.clients| && s' == s.(clients := s.clients[c := x])
    requires x.selfPath == s.clients[c].selfPath && ClientOk(x, s.nodes, s.next)
    ensures Safe(s')
  {
    hide ClientOk;
  }

  lemma ListSafe(s: State, step: Step)
    requires Safe(s) && step.List? && Enabled(s, step)
    ensures Safe(Apply(s, step))
  {
    var x := s.clients[step.c];
    var self := x.selfPath.value;
    if IsFirst(s.nodes, self) {
      FirstIsSmallest(s.nodes, self);
    }
    hide IsFirst, IsPrevious, Smallest;
    OneClient(s, Apply(s, step), step.c, ListClient(x, s.nodes, step.who, step.previous));
  }

  // isMinPath lets a client through exactly when no node at all sorts before its own,
  // whatever lock that node belongs to.
  lemma ListAcquiresIff(s: State, step: Step)
    requires Safe(s) && step.List? && Enabled(s, step)
    requires Live(s.clients[step.c]) && !Acquired(s.clients[step.c])
    requires step.who.MainThread? || s.clients[step.c].latch.Closed?
    ensures Acquired(Apply(s, step).clients[step.c])
       <==> forall n :: n in s.nodes ==> !Before(n, s.clients[step.c].selfPath.value)
  {
    hide Before, Smallest;
    assert ClientOk(s.clients[step.c], s.nodes, s.next);
  }

  lemma CreateSafe(s: State, step: Step)
    requires Safe(s) && step.Create? && Enabled(s, step)
    ensures Safe(Apply(s, step))
  {
    var s' := Apply(s, step);
    forall i | 0 <= i < |s.clients|
      ensures ClientOk(s'.clients[i], s'.nodes, s'.next)
    {
      assert ClientOk(s.clients[i], s.nodes, s.next);
    }
  }

  lemma UnlockSafe(s: State, step: Step)
    requires Safe(s) && step.Unlock? && Enabled(s, step)
    ensures Safe(Apply(s, step))
  {
    var s' := Apply(s, step);
    forall i | 0 <= i < |s.clients|
      ensures ClientOk(s'.clients[i], s'.nodes, s'.next)
    {
      assert ClientOk(s.clients[i], s.nodes, s.next);
    }
  }

  lemma StepSafe(s: State, step: Step)
    requires Safe(s) && Enabled(s, step)
    ensures Safe(Apply(s, step))
  {
    hide IsFirst, IsPrevious, Smallest;
    var x := s.clients[step.c];
    match step
    case Create(_, _) => CreateSafe(s, step);
    case List(_, _, _) => ListSafe(s, step);
    case Unlock(_) => UnlockSafe(s, step);
    case GetData(c, who) => OneClient(s, Apply(s, step), c, GetDataClient(x, s.nodes, who));
    case NewLatch(c) => OneClient(s, Apply(s, step), c, x.(latch := Closed, main := Waiting));
    case Await(c) => OneClient(s, Apply(s, step), c, x.(main := Holding));
    case Deliver(c) => OneClient(s, Apply(s, step), c, DeliverClient(x));
  }

  lemma {:induction false} RunSafe(s: State, steps: seq<Step>)
    requires Safe(s) && Possible(s, steps)
    ensures Safe(After(s, steps))
    decreases |steps|
  {
    hide Safe;
    if steps != [] {
      StepSafe(s, steps[0]);
      RunSafe(Apply(s, steps[0]), steps[1..]);
    }
  }

  // Mutual exclusion per lock name, in every reachable state; a holder's node is
  // the smallest of its name.
  lemma MutualExclusion(names: seq<string>, steps: seq<Step>, i: nat, j: nat)
    requires Possible(Start(names), steps)
    requires i < |names| && j < |names|
    ensures var s := After(Start(names), steps);
            && |s.clients| == |names|
            && (Acquired(s.clients[i]) ==>
                s.clients[i].selfPath.Some? && s.clients[i].selfPath.value in s.nodes
                && Smallest(s.nodes, s.clients[i].selfPath.value))
            && (i != j && Acquired(s.clients[i]) && Acquired(s.clients[j]) ==>
                s.clients[i].name != s.clients[j].name)
  {
    RunSafe(Start(names), steps);
    SameClients(Start(names), steps);
    var s := After(Start(names), steps);
    assert ClientOk(s.clients[i], s.nodes, s.next) && ClientOk(s.clients[j], s.nodes, s.next);
  }

  lemma {:induction false} SameClients(s: State, steps: seq<Step>)
    requires Possible(s, steps)
    ensures |After(s, steps).clients| == |s.clients|
    decreases |steps|
  {
    hide Enabled, Apply;
    if steps != [] {
      SameClients(Apply(s, steps[0]), steps[1..]);
    }
  }
}
