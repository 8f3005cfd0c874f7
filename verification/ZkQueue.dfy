// With a single lock name the clients form a queue: each waits for its direct
// predecessor, and a release wakes at most one of them.
module ZkQueue {
  import opened Results
  import opened ZkNames
  import opened ZkLock
  import opened ZkLiveness

  ghost predicate NoneBetween(nodes: set<Node>, w: Node, self: Node) {
    forall n :: n in nodes ==> !(w.number < n.number < self.number)
  }

  ghost function Smaller(nodes: set<Node>, self: Node): set<Node> {
    set n | n in nodes && n.number < self.number
  }

  // The children a thread in isMinPath has seen.
  ghost function Seen(x: Client): Option<set<Node>> {
    if x.event.Listed? then Some(x.event.seen)
    else if x.main.Trying? && x.main.t.Listed? then Some(x.main.t.seen)
    else None
  }

  ghost predicate Tight(x: Client, name: string, nodes: set<Node>, next: nat) {
    && x.name == name
    && (HasToken(x) ==> Blocked(x))
    && (x.waitPath.Some? ==> x.waitPath.value.name == name && x.waitPath.value.number < next)
    && ((x.watches != {} || Seen(x).Some?) && x.waitPath.Some? && x.selfPath.Some? ==>
          NoneBetween(nodes, x.waitPath.value, x.selfPath.value))
    && (Seen(x).Some? && x.waitPath.Some? && x.selfPath.Some? ==>
          x.waitPath.value in Seen(x).value && Smaller(nodes, x.selfPath.value) <= Seen(x).value)
  }

  ghost predicate Queue(s: State, name: string) {
    && Alive(s)
    && (forall n :: n in s.nodes ==> n.name == name)
    && forall i :: 0 <= i < |s.clients| ==> Tight(s.clients[i], name, s.nodes, s.next)
  }

  lemma PreviousIsTight(s: State, name: string, self: Node, p: Node)
    requires Queue(s, name) && self in s.nodes && IsPrevious(s.nodes, self, p)
    ensures NoneBetween(s.nodes, p, self)
  {
    forall n | n in s.nodes
      ensures !(p.number < n.number < self.number)
    {
      assert n.name == name && p.name == name && self.name == name;
      hide Before, Alive, Tight;
      Numbers(s, n);
      Numbers(s, p);
      Numbers(s, self);
      SameNameOrder(n, self);
      SameNameOrder(n, p);
    }
  }

  lemma Numbers(s: State, n: Node)
    requires Queue(s, n.name) && n in s.nodes
    ensures n.number < s.next && n.number <= MAX_NUMBER
  {
    hide Tight;
  }

  lemma TightOf(s: State, name: string, i: nat)
    requires Queue(s, name) && i < |s.clients|
    ensures Tight(s.clients[i], name, s.nodes, s.next) && TokenOk(s.clients[i], s.nodes)
    ensures ClientOk(s.clients[i], s.nodes, s.next)
  {
    hide Tight, TokenOk, ClientOk;
  }

  lemma OneQueued(s: State, name: string, step: Step)
    requires Queue(s, name) && Enabled(s, step) && !step.Create? && !step.Unlock?
    requires Tight(Apply(s, step).clients[step.c], name, s.nodes, s.next)
    ensures Queue(Apply(s, step), name)
  {
    StepAlive(s, step);
    hide Tight, Alive, ListClient, GetDataClient, DeliverClient;
    var s' := Apply(s, step);
    forall i | 0 <= i < |s.clients|
      ensures Tight(s'.clients[i], name, s'.nodes, s'.next)
    {
      assert Tight(s.clients[i], name, s.nodes, s.next);
    }
  }

  lemma ListQueued(s: State, name: string, step: Step)
    requires Queue(s, name) && Enabled(s, step) && step.List?
    ensures Queue(Apply(s, step), name)
  {
    var x := s.clients[step.c];
    var self := x.selfPath.value;
    TightOf(s, name, step.c);
    if self in s.nodes && !IsFirst(s.nodes, self) {
      PreviousIsTight(s, name, self, step.previous);
      assert step.previous in s.nodes && step.previous.name == name;
      Numbers(s, step.previous);
    }
    hide Queue, Before, IsFirst, IsPrevious, NoneBetween, Smallest;
    assert Tight(Apply(s, step).clients[step.c], name, s.nodes, s.next);
    OneQueued(s, name, step);
  }

  lemma LocalQueued(s: State, name: string, step: Step)
    requires Queue(s, name) && Enabled(s, step)
    requires step.GetData? || step.NewLatch? || step.Await? || step.Deliver?
    ensures Queue(Apply(s, step), name)
  {
    TightOf(s, name, step.c);
    hide Queue, Before, NoneBetween, Smallest, Smaller;
    assert Tight(Apply(s, step).clients[step.c], name, s.nodes, s.next);
    OneQueued(s, name, step);
  }

  lemma CreateQueued(s: State, name: string, step: Step)
    requires Queue(s, name) && Enabled(s, step) && step.Create?
    ensures Queue(Apply(s, step), name)
  {
    StepAlive(s, step);
    var s' := Apply(s, step);
    forall i | 0 <= i < |s.clients|
      ensures Tight(s'.clients[i], name, s'.nodes, s'.next)
    {
      TightOf(s, name, i);
    }
    TightOf(s, name, step.c);
    hide Alive;
  }

  lemma UnlockQueued(s: State, name: string, step: Step)
    requires Queue(s, name) && Enabled(s, step) && step.Unlock?
    ensures Queue(Apply(s, step), name)
  {
    StepAlive(s, step);
    forall i | 0 <= i < |s.clients|
      ensures Tight(Apply(s, step).clients[i], name, Apply(s, step).nodes, s.next)
    {
      UnlockTight(s, name, step, i);
    }
    hide Alive, Tight;
  }

  lemma UnlockTight(s: State, name: string, step: Step, i: nat)
    requires Queue(s, name) && Enabled(s, step) && step.Unlock? && i < |s.clients|
    ensures Tight(Apply(s, step).clients[i], name, Apply(s, step).nodes, s.next)
  {
    TightOf(s, name, i);
    hide Queue;
  }

  lemma StepQueued(s: State, name: string, step: Step)
    requires Queue(s, name) && Enabled(s, step)
    ensures Queue(Apply(s, step), name)
  {
    hide Queue, Enabled, Apply;
    match step
    case Create(_, _) => CreateQueued(s, name, step);
    case List(_, _, _) => ListQueued(s, name, step);
    case Unlock(_) => UnlockQueued(s, name, step);
    case _ => LocalQueued(s, name, step);
  }

  lemma {:induction false} RunQueued(s: State, name: string, steps: seq<Step>)
    requires Queue(s, name) && Possible(s, steps)
    ensures Queue(After(s, steps), name)
    decreases |steps|
  {
    hide Queue, Enabled, Apply;
    if steps != [] {
      StepQueued(s, name, steps[0]);
      RunQueued(Apply(s, steps[0]), name, steps[1..]);
    }
  }

  // n lock objects for one name.
  lemma StartQueued(name: string, n: nat)
    ensures Queue(Start(seq(n, _ => name)), name)
  {
    StartAlive(seq(n, _ => name));
  }

  lemma AlwaysQueue(name: string, n: nat, steps: seq<Step>)
    requires Possible(Start(seq(n, _ => name)), steps)
    ensures Queue(After(Start(seq(n, _ => name)), steps), name)
  {
    hide Queue, Enabled, Apply, Start;
    StartQueued(name, n);
    RunQueued(Start(seq(n, _ => name)), name, steps);
  }

  // Two clients never watch the same node, so a delete wakes at most one.
  lemma WakesAtMostOne(s: State, name: string, gone: Node, i: nat, j: nat)
    requires Queue(s, name) && i < |s.clients| && j < |s.clients|
    requires gone in s.clients[i].watches && gone in s.clients[j].watches
    ensures i == j
  {
    if i != j {
      TightOf(s, name, i);
      TightOf(s, name, j);
      var m, n := s.clients[i].selfPath.value, s.clients[j].selfPath.value;
      Numbers(s, gone);
      Numbers(s, m);
      Numbers(s, n);
      SameNameOrder(gone, m);
      SameNameOrder(gone, n);
      hide Before, TokenOk, ClientOk;
      assert NoneBetween(s.nodes, gone, m) && NoneBetween(s.nodes, gone, n);
      Different(s, i, j);
    }
  }

  lemma Different(s: State, i: nat, j: nat)
    requires Safe(s) && i < |s.clients| && j < |s.clients| && i != j
    requires s.clients[i].selfPath.Some? && s.clients[j].selfPath.Some?
    requires s.clients[i].selfPath.value.name == s.clients[j].selfPath.value.name
    ensures s.clients[i].selfPath.value.number != s.clients[j].selfPath.value.number
  {
    hide ClientOk;
  }

  // isMinPath starts over only when fewer nodes are ahead than it saw before.
  lemma RetryShrinks(s: State, name: string, step: Step)
    requires Queue(s, name)
    ensures Enabled(s, step) && step.GetData? && s.clients[step.c].waitPath.value !in s.nodes ==>
      var x := s.clients[step.c];
      && x.selfPath.Some? && ThreadOf(x, step.who).Listed?
      && |Smaller(s.nodes, x.selfPath.value)| < |Smaller(ThreadOf(x, step.who).seen, x.selfPath.value)|
  {
    if Enabled(s, step) && step.GetData? && s.clients[step.c].waitPath.value !in s.nodes {
      var x := s.clients[step.c];
      TightOf(s, name, step.c);
      var self, w := x.selfPath.value, x.waitPath.value;
      SafeNumbers(s);
      SameNameOrder(w, self);
      hide Before, Queue, ClientOk;
      var now, seen := Smaller(s.nodes, self), Smaller(ThreadOf(x, step.who).seen, self);
      assert w in seen && w !in now && now <= seen;
      Fewer(now, seen, w);
    }
  }

  lemma SafeNumbers(s: State)
    requires Safe(s)
    ensures s.next <= MAX_NUMBER + 1
  {
    hide ClientOk;
  }

  lemma Fewer(a: set<Node>, b: set<Node>, w: Node)
    requires a <= b && w in b && w !in a
    ensures |a| < |b|
  {
    assert b == a + (b - a) && w in b - a;
  }
}
