// The scroll engine of jquery.waypoints: Context.handleScroll, Group.queueTrigger,
// flushTriggers, next and previous, and the decision made in Context.refresh.
// Scroll positions and trigger points are given as integers.
module Waypoints {
  import opened Results

  datatype Direction = Up | Down | Left | Right

  // triggerPoint is None until the first refresh.
  datatype Waypoint = Waypoint(key: nat, triggerPoint: Option<int>, group: nat, continuous: bool, enabled: bool)

  datatype Call = Call(key: nat, direction: Direction)

  // ---- crossing ----

  // What one scroll queues for a trigger point: Some(true) is forward.
  function Crossing(oldScroll: int, newScroll: int, point: int): Option<bool> {
    var wasBefore, nowAfter := oldScroll < point, newScroll >= point;
    if (wasBefore && nowAfter) || (!wasBefore && !nowAfter) then Some(newScroll > oldScroll) else None
  }

  // What a run of scrolls from `start` queues for a trigger point.
  function Moves(start: int, scrolls: seq<int>, point: int): seq<bool>
    decreases |scrolls|
  {
    if scrolls == [] then []
    else
      (match Crossing(start, scrolls[0], point) case Some(d) => [d] case None => [])
        + Moves(scrolls[0], scrolls[1..], point)
  }

  function Final(start: int, scrolls: seq<int>): int {
    if scrolls == [] then start else scrolls[|scrolls| - 1]
  }

  function Passed(scroll: int, point: int): int {
    if scroll >= point then 1 else 0
  }

  // Forward moves minus backward moves.
  function Balance(moves: seq<bool>): int {
    if moves == [] then 0 else (if moves[0] then 1 else -1) + Balance(moves[1..])
  }

  predicate Alternates(moves: seq<bool>) {
    forall k :: 0 < k < |moves| ==> moves[k] != moves[k - 1]
  }

  // The balance of moves is the change of side; directions alternate, the first
  // one leading away from the side where the run started.
  lemma {:induction false} CountingLaw(start: int, scrolls: seq<int>, point: int)
    ensures var moves := Moves(start, scrolls, point);
            && Balance(moves) == Passed(Final(start, scrolls), point) - Passed(start, point)
            && Alternates(moves)
            && (moves != [] ==> (moves[0] <==> start < point))
    decreases |scrolls|
  {
    if scrolls != [] {
      var rest := Moves(scrolls[0], scrolls[1..], point);
      CountingLaw(scrolls[0], scrolls[1..], point);
      assert Final(scrolls[0], scrolls[1..]) == Final(start, scrolls);
      match Crossing(start, scrolls[0], point) {
        case Some(d) =>
          assert ([d] + rest)[1..] == rest;
        case None =>
          assert [] + rest == rest;
      }
    }
  }

  // ---- the order in which a queue fires ----

  // null counts as 0 in the comparison functions.
  function Point(w: Waypoint): int {
    if w.triggerPoint.Some? then w.triggerPoint.value else 0
  }

  predicate NotAfter(a: Waypoint, b: Waypoint, reverse: bool) {
    if reverse then Point(a) >= Point(b) else Point(a) <= Point(b)
  }

  function Insert(sorted: seq<Waypoint>, w: Waypoint, reverse: bool): (r: seq<Waypoint>)
    ensures |r| == |sorted| + 1
  {
    if sorted == [] || NotAfter(sorted[|sorted| - 1], w, reverse) then sorted + [w]
    else Insert(sorted[..|sorted| - 1], w, reverse) + [sorted[|sorted| - 1]]
  }

  // Array.prototype.sort, which is stable, by trigger point.
  function Sort(queue: seq<Waypoint>, reverse: bool): (r: seq<Waypoint>)
    ensures |r| == |queue|
  {
    if queue == [] then [] else Insert(Sort(queue[..|queue| - 1], reverse), queue[|queue| - 1], reverse)
  }

  predicate Sorted(s: seq<Waypoint>, reverse: bool) {
    forall i, j :: 0 <= i < j < |s| ==> NotAfter(s[i], s[j], reverse)
  }

  lemma {:induction false} InsertKeeps(s: seq<Waypoint>, w: Waypoint, reverse: bool)
    ensures multiset(Insert(s, w, reverse)) == multiset(s) + multiset{w}
  {
    hide NotAfter;
    var n := |s| - 1;
    if s != [] {
      assert s == s[..n] + [s[n]];
      InsertKeeps(s[..n], w, reverse);
    }
  }

  lemma SortedSnoc(s: seq<Waypoint>, last: Waypoint, reverse: bool)
    requires Sorted(s, reverse) && forall x :: x in s ==> NotAfter(x, last, reverse)
    ensures Sorted(s + [last], reverse)
  {
    hide NotAfter;
  }

  lemma {:induction false} InsertSorts(s: seq<Waypoint>, w: Waypoint, reverse: bool)
    requires Sorted(s, reverse)
    ensures Sorted(Insert(s, w, reverse), reverse)
  {
    var n := |s| - 1;
    if s == [] {
    } else if NotAfter(s[n], w, reverse) {
      forall x | x in s
        ensures NotAfter(x, w, reverse)
      {
        var i :| 0 <= i < |s| && s[i] == x;
        assert i < n ==> NotAfter(s[i], s[n], reverse);
      }
      SortedSnoc(s, w, reverse);
    } else {
      InsertSorts(s[..n], w, reverse);
      InsertKeeps(s[..n], w, reverse);
      var r := Insert(s[..n], w, reverse);
      forall x | x in r
        ensures NotAfter(x, s[n], reverse)
      {
        assert x in multiset(r);
        if x != w {
          var i :| 0 <= i < n && s[i] == x;
          assert NotAfter(s[i], s[n], reverse);
        }
      }
      SortedSnoc(r, s[n], reverse);
    }
  }

  lemma {:induction false} SortSorts(queue: seq<Waypoint>, reverse: bool)
    ensures Sorted(Sort(queue, reverse), reverse)
    ensures multiset(Sort(queue, reverse)) == multiset(queue)
  {
    if queue != [] {
      var n := |queue| - 1;
      SortSorts(queue[..n], reverse);
      InsertSorts(Sort(queue[..n], reverse), queue[n], reverse);
      InsertKeeps(Sort(queue[..n], reverse), queue[n], reverse);
      assert queue == queue[..n] + [queue[n]];
    }
  }

  function IsReverse(d: Direction): bool {
    d == Up || d == Left
  }

  // The callbacks made for the first i entries of a sorted queue.
  function Calls(sorted: seq<Waypoint>, i: nat, d: Direction): seq<Call>
    requires i <= |sorted|
  {
    if i == 0 then []
    else
      var w := sorted[i - 1];
      Calls(sorted, i - 1, d)
        + if (w.continuous || i == |sorted|) && w.enabled then [Call(w.key, d)] else []
  }

  function Fired(queue: seq<Waypoint>, d: Direction): seq<Call> {
    Calls(Sort(queue, IsReverse(d)), |queue|, d)
  }

  // ---- groups ----

  datatype Queues = Queues(up: seq<Waypoint>, down: seq<Waypoint>, left: seq<Waypoint>, right: seq<Waypoint>) {
    function For(d: Direction): seq<Waypoint> {
      match d
      case Up => up
      case Down => down
      case Left => left
      case Right => right
    }
  }

  const EMPTY := Queues([], [], [], [])

  function Push(q: Queues, d: Direction, ws: seq<Waypoint>): (r: Queues)
    ensures forall e :: r.For(e) == if e == d then q.For(e) + ws else q.For(e)
  {
    match d
    case Up => q.(up := q.up + ws)
    case Down => q.(down := q.down + ws)
    case Left => q.(left := q.left + ws)
    case Right => q.(right := q.right + ws)
  }

  class Group {
    var waypoints: seq<Waypoint>
    var triggerQueues: Queues
    // Callbacks made so far.
    var calls: seq<Call>

    constructor ()
      ensures waypoints == [] && triggerQueues == EMPTY && calls == []
    {
      waypoints, triggerQueues, calls := [], EMPTY, [];
    }

    method QueueTrigger(waypoint: Waypoint, direction: Direction)
      modifies `triggerQueues
      ensures triggerQueues == Push(old(triggerQueues), direction, [waypoint])
    {
      triggerQueues := Push(triggerQueues, direction, [waypoint]);
    }

    // One queue: sorted in the direction of travel; continuous waypoints and the
    // last one are triggered.
    method FlushQueue(direction: Direction)
      modifies `calls
      ensures calls == old(calls) + Fired(triggerQueues.For(direction), direction)
    {
      var queue := Sort(triggerQueues.For(direction), IsReverse(direction));
      for i := 0 to |queue|
        invariant calls == old(calls) + Calls(queue, i, direction)
      {
        var waypoint := queue[i];
        if waypoint.continuous || i == |queue| - 1 {
          if waypoint.enabled {
            calls := calls + [Call(waypoint.key, direction)];
          }
        }
      }
    }

    method FlushTriggers()
      modifies `triggerQueues, `calls
      ensures triggerQueues == EMPTY
      ensures calls == old(calls) + FiredAll(old(triggerQueues))
    {
      hide Fired;
      FlushQueue(Up);
      FlushQueue(Down);
      FlushQueue(Left);
      FlushQueue(Right);
      triggerQueues := EMPTY;
    }

    // The neighbours in trigger-point order.
    method Next(waypoint: Waypoint) returns (r: Option<Waypoint>)
      requires waypoint in waypoints
      modifies `waypoints
      ensures multiset(waypoints) == old(multiset(waypoints)) && Sorted(waypoints, false)
      ensures exists i ::
        IsAt(waypoints, i, waypoint) && r == if i == |waypoints| - 1 then None else Some(waypoints[i + 1])
    {
      hide Sort, Sorted;
      SortKeeps(waypoints, waypoint);
      waypoints := Sort(waypoints, false);
      var index := InArray(waypoint, waypoints);
      assert IsAt(waypoints, index, waypoint);
      return if index == |waypoints| - 1 then None else Some(waypoints[index + 1]);
    }

    method Previous(waypoint: Waypoint) returns (r: Option<Waypoint>)
      requires waypoint in waypoints
      modifies `waypoints
      ensures multiset(waypoints) == old(multiset(waypoints)) && Sorted(waypoints, false)
      ensures exists i :: IsAt(waypoints, i, waypoint) && r == if i == 0 then None else Some(waypoints[i - 1])
    {
      hide Sort, Sorted;
      SortKeeps(waypoints, waypoint);
      waypoints := Sort(waypoints, false);
      var index := InArray(waypoint, waypoints);
      assert IsAt(waypoints, index, waypoint);
      return if index != 0 then Some(waypoints[index - 1]) else None;
    }
  }

  // w is entry i, and no entry before it.
  predicate IsAt(s: seq<Waypoint>, i: nat, w: Waypoint) {
    i < |s| && s[i] == w && w !in s[..i]
  }

  lemma SortKeeps(s: seq<Waypoint>, w: Waypoint)
    requires w in s
    ensures w in Sort(s, false) && Sorted(Sort(s, false), false) && multiset(Sort(s, false)) == multiset(s)
  {
    SortSorts(s, false);
    assert w in multiset(s);
    assert w in multiset(Sort(s, false));
  }

  function FiredAll(q: Queues): seq<Call> {
    Fired(q.up, Up) + Fired(q.down, Down) + Fired(q.left, Left) + Fired(q.right, Right)
  }

  method InArray(w: Waypoint, s: seq<Waypoint>) returns (index: nat)
    requires w in s
    ensures IsAt(s, index, w)
  {
    index := 0;
    while s[index] != w
      invariant index < |s| && w !in s[..index]
      decreases |s| - index
    {
      assert s == s[..index + 1] + s[index + 1..];
      assert w in s[index + 1..];
      index := index + 1;
    }
  }

  // ---- Context.handleScroll ----

  // The waypoints of group g among ws that a scroll queues, in order.
  function Queued(ws: seq<Waypoint>, g: nat, oldScroll: int, newScroll: int): seq<Waypoint> {
    if ws == [] then []
    else
      var w := ws[|ws| - 1];
      Queued(ws[..|ws| - 1], g, oldScroll, newScroll)
        + if w.group == g && IsCrossed(w, oldScroll, newScroll) then [w] else []
  }

  predicate IsCrossed(w: Waypoint, oldScroll: int, newScroll: int) {
    w.triggerPoint.Some? && Crossing(oldScroll, newScroll, w.triggerPoint.value).Some?
  }

  class Context {
    var oldX: int
    var oldY: int
    var horizontal: seq<Waypoint>
    var vertical: seq<Waypoint>
    const groups: seq<Group>

    constructor (groups: seq<Group>)
      ensures this.groups == groups && horizontal == [] && vertical == [] && oldX == 0 && oldY == 0
    {
      this.groups := groups;
      horizontal, vertical := [], [];
      oldX, oldY := 0, 0;
    }

    ghost predicate Valid()
      reads this
    {
      && (forall i, j :: 0 <= i < j < |groups| ==> groups[i] != groups[j])
      && (forall w :: w in horizontal || w in vertical ==> w.group < |groups|)
    }

    function Pending(): seq<Queues>
      reads groups
    {
      seq(|groups|, g requires 0 <= g < |groups| reads groups => groups[g].triggerQueues)
    }

    // One axis: queue every waypoint that was crossed, in the direction of the scroll.
    method QueueAxis(ws: seq<Waypoint>, oldScroll: int, newScroll: int, forward: Direction, backward: Direction)
      returns (triggeredGroups: set<nat>)
      requires Valid() && forall w :: w in ws ==> w.group < |groups|
      modifies groups`triggerQueues
      ensures triggeredGroups == Triggered(ws, oldScroll, newScroll)
      ensures Pending() == PushAll(old(Pending()), if newScroll > oldScroll then forward else backward,
                                   ws, oldScroll, newScroll)
    {
      hide PushAll;
      var isForward := newScroll > oldScroll;
      var direction := if isForward then forward else backward;
      ghost var was := Pending();
      PushNothing(was, direction, oldScroll, newScroll);
      triggeredGroups := {};
      assert ws[..0] == [];
      for i := 0 to |ws|
        invariant triggeredGroups == Triggered(ws[..i], oldScroll, newScroll)
        invariant Pending() == PushAll(was, direction, ws[..i], oldScroll, newScroll)
      {
        var waypoint := ws[i];
        assert ws[..i + 1] == ws[..i] + [waypoint];
        PushOneMore(was, direction, ws[..i], waypoint, oldScroll, newScroll);
        if waypoint.triggerPoint.Some? {
          var wasBeforeTriggerPoint := oldScroll < waypoint.triggerPoint.value;
          var nowAfterTriggerPoint := newScroll >= waypoint.triggerPoint.value;
          var crossedForward := wasBeforeTriggerPoint && nowAfterTriggerPoint;
          var crossedBackward := !wasBeforeTriggerPoint && !nowAfterTriggerPoint;
          if crossedForward || crossedBackward {
            QueueOn(waypoint, direction);
            triggeredGroups := triggeredGroups + {waypoint.group};
          }
        }
      }
      assert ws[..|ws|] == ws;
    }

    method QueueOn(waypoint: Waypoint, direction: Direction)
      requires Valid() && waypoint.group < |groups|
      modifies groups`triggerQueues
      ensures Pending() == PushOn(old(Pending()), direction, waypoint)
    {
      groups[waypoint.group].QueueTrigger(waypoint, direction);
      assert forall g :: 0 <= g < |groups| && g != waypoint.group ==> groups[g] != groups[waypoint.group];
    }

    // Both axes; returns the groups to flush.
    method QueueAxes(newX: int, newY: int) returns (triggeredGroups: set<nat>)
      requires Valid()
      modifies groups`triggerQueues
      ensures forall g :: 0 <= g < |groups| ==>
        && groups[g].triggerQueues
             == Crossed(old(groups[g].triggerQueues), g, horizontal, oldX, newX, vertical, oldY, newY)
        && (g in triggeredGroups <==> IsTriggered(g, horizontal, oldX, newX, vertical, oldY, newY))
    {
      hide Queued, Triggered;
      ghost var was := Pending();
      var acrossGroups := QueueAxis(horizontal, oldX, newX, Right, Left);
      ghost var between := Pending();
      var downGroups := QueueAxis(vertical, oldY, newY, Down, Up);
      triggeredGroups := acrossGroups + downGroups;
      ghost var after := Pending();
      forall g | 0 <= g < |groups|
        ensures groups[g].triggerQueues == Crossed(was[g], g, horizontal, oldX, newX, vertical, oldY, newY)
        ensures g in triggeredGroups <==> IsTriggered(g, horizontal, oldX, newX, vertical, oldY, newY)
      {
        assert groups[g].triggerQueues == after[g];
        TriggeredIff(horizontal, g, oldX, newX);
        TriggeredIff(vertical, g, oldY, newY);
      }
    }

    method HandleScroll(newX: int, newY: int)
      requires Valid()
      modifies `oldX, `oldY, groups`triggerQueues, groups`calls
      ensures Valid() && oldX == newX && oldY == newY
      ensures forall g :: 0 <= g < |groups| ==>
        var (queues, fired) := Scrolled(old(groups[g].triggerQueues), g, horizontal, old(oldX), newX,
                                        vertical, old(oldY), newY);
        groups[g].triggerQueues == queues && groups[g].calls == old(groups[g].calls) + fired
    {
      hide FiredAll, Crossed, IsTriggered;
      var triggeredGroups := QueueAxes(newX, newY);
      FlushGroups(triggeredGroups);
      forall g | 0 <= g < |groups| && g !in triggeredGroups
        ensures Crossed(old(groups[g].triggerQueues), g, horizontal, oldX, newX, vertical, oldY, newY)
             == old(groups[g].triggerQueues)
      {
        NothingCrossed(old(groups[g].triggerQueues), g, horizontal, oldX, newX, vertical, oldY, newY);
      }
      forall g | 0 <= g < |groups|
        ensures groups[g].calls + [] == groups[g].calls
      {
      }
      oldX, oldY := newX, newY;
    }

    method FlushGroups(triggeredGroups: set<nat>)
      requires Valid()
      modifies groups`triggerQueues, groups`calls
      ensures forall g :: 0 <= g < |groups| ==>
        if g in triggeredGroups then
          groups[g].triggerQueues == EMPTY
            && groups[g].calls == old(groups[g].calls) + FiredAll(old(groups[g].triggerQueues))
        else groups[g].triggerQueues == old(groups[g].triggerQueues) && groups[g].calls == old(groups[g].calls)
    {
      hide FiredAll;
      for g := 0 to |groups|
        invariant forall h :: 0 <= h < |groups| ==>
          if h < g && h in triggeredGroups then
            groups[h].triggerQueues == EMPTY
              && groups[h].calls == old(groups[h].calls) + FiredAll(old(groups[h].triggerQueues))
          else groups[h].triggerQueues == old(groups[h].triggerQueues) && groups[h].calls == old(groups[h].calls)
      {
        if g in triggeredGroups {
          groups[g].FlushTriggers();
        }
      }
    }
  }

  function PushAll(q: seq<Queues>, d: Direction, ws: seq<Waypoint>, oldScroll: int, newScroll: int): (r: seq<Queues>)
    ensures |r| == |q|
    ensures forall g :: 0 <= g < |r| ==> r[g] == Push(q[g], d, Queued(ws, g, oldScroll, newScroll))
  {
    seq(|q|, g requires 0 <= g < |q| => Push(q[g], d, Queued(ws, g, oldScroll, newScroll)))
  }

  // The queues of group g after a scroll on both axes.
  function Crossed(q: Queues, g: nat, horizontal: seq<Waypoint>, oldX: int, newX: int,
                   vertical: seq<Waypoint>, oldY: int, newY: int): Queues
  {
    Push(Push(q, if newX > oldX then Right else Left, Queued(horizontal, g, oldX, newX)),
         if newY > oldY then Down else Up, Queued(vertical, g, oldY, newY))
  }

  // Whether the scroll crossed a waypoint of group g.
  predicate IsTriggered(g: nat, horizontal: seq<Waypoint>, oldX: int, newX: int,
                        vertical: seq<Waypoint>, oldY: int, newY: int)
  {
    Queued(horizontal, g, oldX, newX) != [] || Queued(vertical, g, oldY, newY) != []
  }

  // What one scroll does to group g: its queues afterwards, and the callbacks made. It
  // fires and is emptied if one of its waypoints was crossed, and is unchanged if not.
  function Scrolled(q: Queues, g: nat, horizontal: seq<Waypoint>, oldX: int, newX: int,
                    vertical: seq<Waypoint>, oldY: int, newY: int): (Queues, seq<Call>)
  {
    if IsTriggered(g, horizontal, oldX, newX, vertical, oldY, newY) then
      (EMPTY, FiredAll(Crossed(q, g, horizontal, oldX, newX, vertical, oldY, newY)))
    else (q, [])
  }

  lemma NothingCrossed(q: Queues, g: nat, horizontal: seq<Waypoint>, oldX: int, newX: int,
                       vertical: seq<Waypoint>, oldY: int, newY: int)
    requires !IsTriggered(g, horizontal, oldX, newX, vertical, oldY, newY)
    ensures Crossed(q, g, horizontal, oldX, newX, vertical, oldY, newY) == q
  {
    hide Queued;
    assert forall d: Direction :: q.For(d) + [] == q.For(d);
  }

  function PushOn(q: seq<Queues>, d: Direction, w: Waypoint): seq<Queues>
    requires w.group < |q|
  {
    q[w.group := Push(q[w.group], d, [w])]
  }

  // The groups that have a waypoint among ws that was crossed.
  function Triggered(ws: seq<Waypoint>, oldScroll: int, newScroll: int): set<nat> {
    set w | w in ws && IsCrossed(w, oldScroll, newScroll) :: w.group
  }

  lemma PushNothing(q: seq<Queues>, d: Direction, oldScroll: int, newScroll: int)
    ensures PushAll(q, d, [], oldScroll, newScroll) == q
  {
    forall g | 0 <= g < |q|
      ensures Push(q[g], d, []) == q[g]
    {
      assert q[g].For(d) + [] == q[g].For(d);
    }
  }

  lemma PushOneMore(q: seq<Queues>, d: Direction, ws: seq<Waypoint>, w: Waypoint, oldScroll: int, newScroll: int)
    requires w.group < |q|
    ensures PushAll(q, d, ws + [w], oldScroll, newScroll)
         == if IsCrossed(w, oldScroll, newScroll) then PushOn(PushAll(q, d, ws, oldScroll, newScroll), d, w)
            else PushAll(q, d, ws, oldScroll, newScroll)
    ensures Triggered(ws + [w], oldScroll, newScroll)
         == Triggered(ws, oldScroll, newScroll) + if IsCrossed(w, oldScroll, newScroll) then {w.group} else {}
  {
    hide IsCrossed;
    assert (ws + [w])[..|ws|] == ws;
    forall g | 0 <= g < |q|
      ensures Push(q[g], d, Queued(ws + [w], g, oldScroll, newScroll))
           == if w.group == g && IsCrossed(w, oldScroll, newScroll)
              then Push(Push(q[g], d, Queued(ws, g, oldScroll, newScroll)), d, [w])
              else Push(q[g], d, Queued(ws, g, oldScroll, newScroll))
    {
      var added := Queued(ws, g, oldScroll, newScroll);
      assert q[g].For(d) + (added + [w]) == (q[g].For(d) + added) + [w];
      assert added + [] == added;
    }
  }

  lemma TriggeredAppend(ws: seq<Waypoint>, w: Waypoint, g: nat, oldScroll: int, newScroll: int)
    ensures g in Triggered(ws + [w], oldScroll, newScroll)
       <==> g in Triggered(ws, oldScroll, newScroll) || (w.group == g && IsCrossed(w, oldScroll, newScroll))
  {
    hide IsCrossed;
  }

  lemma {:induction false} TriggeredIff(ws: seq<Waypoint>, g: nat, oldScroll: int, newScroll: int)
    ensures g in Triggered(ws, oldScroll, newScroll) <==> Queued(ws, g, oldScroll, newScroll) != []
  {
    hide IsCrossed;
    if ws != [] {
      var n := |ws| - 1;
      var last := [ws[n]];
      TriggeredIff(ws[..n], g, oldScroll, newScroll);
      TriggeredAppend(ws[..n], ws[n], g, oldScroll, newScroll);
      assert ws == ws[..n] + last;
    }
  }

  // Exactly the waypoints of the group that change sides are queued.
  lemma {:induction false} QueuedIff(ws: seq<Waypoint>, g: nat, oldScroll: int, newScroll: int, w: Waypoint)
    ensures w in Queued(ws, g, oldScroll, newScroll)
       <==> w in ws && w.group == g && w.triggerPoint.Some?
            && Passed(newScroll, w.triggerPoint.value) != Passed(oldScroll, w.triggerPoint.value)
  {
    if ws != [] {
      var n := |ws| - 1;
      QueuedIff(ws[..n], g, oldScroll, newScroll, w);
      assert ws == ws[..n] + [ws[n]];
    }
  }

  // ---- a run of scrolls ----

  datatype Position = Position(x: int, y: int)

  // The callbacks of group g over a run of handleScroll calls with fixed trigger points.
  function RunCalls(q: Queues, g: nat, horizontal: seq<Waypoint>, vertical: seq<Waypoint>,
                    start: Position, scrolls: seq<Position>): seq<Call>
    decreases |scrolls|
  {
    if scrolls == [] then []
    else
      var next := scrolls[0];
      var (queues, fired) := Scrolled(q, g, horizontal, start.x, next.x, vertical, start.y, next.y);
      fired + RunCalls(queues, g, horizontal, vertical, next, scrolls[1..])
  }

  // The directions in which a waypoint was called.
  function CallsOf(calls: seq<Call>, key: nat): seq<Direction> {
    if calls == [] then []
    else CallOf(calls[0], key) + CallsOf(calls[1..], key)
  }

  function CallOf(call: Call, key: nat): seq<Direction> {
    if call.key == key then [call.direction] else []
  }

  function KeyCount(ws: seq<Waypoint>, key: nat): nat {
    if ws == [] then 0
    else KeyCount(ws[..|ws| - 1], key) + if ws[|ws| - 1].key == key then 1 else 0
  }

  // The entries with w's key are w itself.
  predicate OnlyThis(ws: seq<Waypoint>, w: Waypoint) {
    forall v :: v in ws && v.key == w.key ==> v == w
  }

  lemma {:induction false} CallsOfAppend(a: seq<Call>, b: seq<Call>, key: nat)
    ensures CallsOf(a + b, key) == CallsOf(a, key) + CallsOf(b, key)
  {
    hide CallOf;
    if a == [] {
      assert a + b == b;
    } else {
      assert (a + b)[1..] == a[1..] + b;
      CallsOfAppend(a[1..], b, key);
      Grouped(CallOf(a[0], key), CallsOf(a[1..], key), CallsOf(b, key));
    }
  }

  lemma Grouped(a: seq<Direction>, b: seq<Direction>, c: seq<Direction>)
    ensures a + (b + c) == (a + b) + c
  {}

  lemma {:induction false} KeyCountOfInsert(s: seq<Waypoint>, w: Waypoint, reverse: bool, key: nat)
    ensures KeyCount(Insert(s, w, reverse), key) == KeyCount(s, key) + if w.key == key then 1 else 0
  {
    hide NotAfter;
    var n := |s| - 1;
    if s == [] || NotAfter(s[n], w, reverse) {
      assert (s + [w])[..|s|] == s;
    } else {
      KeyCountOfInsert(s[..n], w, reverse, key);
      var r := Insert(s[..n], w, reverse);
      assert (r + [s[n]])[..|r|] == r;
    }
  }

  lemma {:induction false} KeyCountOfSort(queue: seq<Waypoint>, reverse: bool, key: nat)
    ensures KeyCount(Sort(queue, reverse), key) == KeyCount(queue, key)
  {
    hide Insert;
    if queue != [] {
      var n := |queue| - 1;
      KeyCountOfSort(queue[..n], reverse, key);
      KeyCountOfInsert(Sort(queue[..n], reverse), queue[n], reverse, key);
    }
  }

  function Repeat(d: Direction, n: nat): seq<Direction> {
    if n == 0 then [] else Repeat(d, n - 1) + [d]
  }

  lemma OneCall(v: Waypoint, w: Waypoint, d: Direction, sorted: seq<Waypoint>)
    requires OnlyThis(sorted, w) && v in sorted
    ensures v.key == w.key ==> v == w
    ensures CallsOf([Call(v.key, d)], w.key) == if v.key == w.key then [d] else []
    ensures CallsOf([], w.key) == []
  {
    assert [Call(v.key, d)][1..] == [];
  }

  lemma CallsStep(sorted: seq<Waypoint>, i: nat, d: Direction, w: Waypoint)
    requires 0 < i <= |sorted| && OnlyThis(sorted, w) && w.continuous && w.enabled
    ensures CallsOf(Calls(sorted, i, d), w.key)
         == CallsOf(Calls(sorted, i - 1, d), w.key) + if sorted[i - 1].key == w.key then [d] else []
  {
    hide OnlyThis, CallsOf;
    var v := sorted[i - 1];
    var last := if (v.continuous || i == |sorted|) && v.enabled then [Call(v.key, d)] else [];
    CallsOfAppend(Calls(sorted, i - 1, d), last, w.key);
    OneCall(v, w, d, sorted);
  }

  lemma {:induction false} CallsOfSorted(sorted: seq<Waypoint>, i: nat, d: Direction, w: Waypoint)
    requires i <= |sorted| && OnlyThis(sorted, w) && w.continuous && w.enabled
    ensures CallsOf(Calls(sorted, i, d), w.key) == Repeat(d, KeyCount(sorted[..i], w.key))
  {
    hide OnlyThis, CallsOf;
    if i == 0 {
      NoCalls(w.key);
    } else {
      CallsOfSorted(sorted, i - 1, d, w);
      assert sorted[..i][..i - 1] == sorted[..i - 1];
      CallsStep(sorted, i, d, w);
      hide Calls;
    }
  }

  // A queue calls a continuous, enabled waypoint once for every entry.
  lemma CallsOfQueue(queue: seq<Waypoint>, d: Direction, w: Waypoint)
    requires OnlyThis(queue, w) && w.continuous && w.enabled
    ensures CallsOf(Fired(queue, d), w.key) == Repeat(d, KeyCount(queue, w.key))
  {
    hide Calls, Sort;
    var sorted := Sort(queue, IsReverse(d));
    SortSorts(queue, IsReverse(d));
    KeyCountOfSort(queue, IsReverse(d), w.key);
    forall v | v in sorted && v.key == w.key
      ensures v == w
    {
      assert v in multiset(sorted);
      assert v in multiset(queue);
    }
    CallsOfSorted(sorted, |sorted|, d, w);
    assert sorted[..|sorted|] == sorted;
  }

  // Exactly one of the waypoints has w's key, and it is w.
  predicate HasOnce(ws: seq<Waypoint>, w: Waypoint) {
    OnlyThis(ws, w) && KeyCount(ws, w.key) == 1
  }

  predicate HasNone(ws: seq<Waypoint>, w: Waypoint) {
    KeyCount(ws, w.key) == 0
  }

  lemma OnlyThisLast(ws: seq<Waypoint>, w: Waypoint)
    requires ws != [] && OnlyThis(ws, w)
    ensures OnlyThis(ws[..|ws| - 1], w) && OnlyThis([ws[|ws| - 1]], w)
  {
    assert ws[|ws| - 1] in ws;
  }

  lemma OnlyThisAppend(a: seq<Waypoint>, b: seq<Waypoint>, w: Waypoint)
    requires OnlyThis(a, w) && OnlyThis(b, w)
    ensures OnlyThis(a + b, w)
  {}

  lemma KeyCountOne(ws: seq<Waypoint>, v: Waypoint, key: nat)
    ensures KeyCount(ws + [v], key) == KeyCount(ws, key) + if v.key == key then 1 else 0
  {
    assert (ws + [v])[..|ws|] == ws;
  }

  lemma {:induction false} QueuedCount(ws: seq<Waypoint>, g: nat, oldScroll: int, newScroll: int, w: Waypoint)
    requires OnlyThis(ws, w)
    ensures OnlyThis(Queued(ws, g, oldScroll, newScroll), w)
    ensures KeyCount(Queued(ws, g, oldScroll, newScroll), w.key)
         == if w.group == g && IsCrossed(w, oldScroll, newScroll) then KeyCount(ws, w.key) else 0
  {
    hide IsCrossed;
    if ws != [] {
      var n := |ws| - 1;
      OnlyThisLast(ws, w);
      QueuedCount(ws[..n], g, oldScroll, newScroll, w);
      var rest := Queued(ws[..n], g, oldScroll, newScroll);
      KeyCountOne(rest, ws[n], w.key);
      KeyCountOne(ws[..n], ws[n], w.key);
      OnlyThisAppend(rest, [ws[n]], w);
      assert ws == ws[..n] + [ws[n]] && rest + [] == rest;
      hide OnlyThis, KeyCount;
    }
  }

  lemma {:induction false} NoneIsOnly(ws: seq<Waypoint>, w: Waypoint)
    requires HasNone(ws, w)
    ensures OnlyThis(ws, w)
  {
    if ws != [] {
      var n := |ws| - 1;
      assert ws == ws[..n] + [ws[n]];
      NoneIsOnly(ws[..n], w);
    }
  }

  lemma {:induction false} KeyCountAppend(a: seq<Waypoint>, b: seq<Waypoint>, key: nat)
    ensures KeyCount(a + b, key) == KeyCount(a, key) + KeyCount(b, key)
  {
    if b == [] {
      assert a + b == a;
    } else {
      var n := |b| - 1;
      assert (a + b)[..|a + b| - 1] == a + b[..n];
      KeyCountAppend(a, b[..n], key);
    }
  }

  predicate NonePending(q: Queues, w: Waypoint) {
    HasNone(q.up, w) && HasNone(q.down, w) && HasNone(q.left, w) && HasNone(q.right, w)
  }

  // w is the only waypoint with its key, on the horizontal or on the vertical axis.
  predicate IsPlaced(horizontal: seq<Waypoint>, vertical: seq<Waypoint>, w: Waypoint, across: bool) {
    if across then HasOnce(horizontal, w) && HasNone(vertical, w) else HasOnce(vertical, w) && HasNone(horizontal, w)
  }

  function Heading(across: bool, forward: bool): Direction {
    if across then (if forward then Right else Left) else if forward then Down else Up
  }

  function Headings(moves: seq<bool>, across: bool): seq<Direction> {
    if moves == [] then [] else [Heading(across, moves[0])] + Headings(moves[1..], across)
  }

  function Along(p: Position, across: bool): int {
    if across then p.x else p.y
  }

  function AllAlong(scrolls: seq<Position>, across: bool): seq<int> {
    if scrolls == [] then [] else [Along(scrolls[0], across)] + AllAlong(scrolls[1..], across)
  }

  // The entries a queue has after a scroll, for one direction.
  lemma QueueCount(q: Queues, d: Direction, w: Waypoint, dx: Direction, hs: seq<Waypoint>, dy: Direction,
                   vs: seq<Waypoint>)
    requires NonePending(q, w) && OnlyThis(hs, w) && OnlyThis(vs, w)
    ensures var queue := Push(Push(q, dx, hs), dy, vs).For(d);
            && OnlyThis(queue, w)
            && KeyCount(queue, w.key) == (if d == dx then KeyCount(hs, w.key) else 0)
                                         + (if d == dy then KeyCount(vs, w.key) else 0)
  {
    hide OnlyThis;
    NoneIsOnly(q.For(d), w);
    OnlyThisAppend(q.For(d), hs, w);
    KeyCountAppend(q.For(d), hs, w.key);
    var queue := Push(q, dx, hs).For(d);
    OnlyThisAppend(queue, vs, w);
    KeyCountAppend(queue, vs, w.key);
  }

  // What flushing such queues calls of w.
  lemma FlushCalls(q: Queues, w: Waypoint, dx: Direction, hs: seq<Waypoint>, dy: Direction, vs: seq<Waypoint>)
    requires NonePending(q, w) && OnlyThis(hs, w) && OnlyThis(vs, w) && w.continuous && w.enabled
    requires (dx == Left || dx == Right) && (dy == Up || dy == Down)
    ensures var queues := Push(Push(q, dx, hs), dy, vs);
            CallsOf(FiredAll(queues), w.key) == Repeat(dy, KeyCount(vs, w.key)) + Repeat(dx, KeyCount(hs, w.key))
  {
    hide Push, NonePending, OnlyThis, Fired, CallsOf, KeyCount, Repeat;
    var queues := Push(Push(q, dx, hs), dy, vs);
    QueueCount(q, Up, w, dx, hs, dy, vs);
    QueueCount(q, Down, w, dx, hs, dy, vs);
    QueueCount(q, Left, w, dx, hs, dy, vs);
    QueueCount(q, Right, w, dx, hs, dy, vs);
    CallsOfQueue(queues.up, Up, w);
    CallsOfQueue(queues.down, Down, w);
    CallsOfQueue(queues.left, Left, w);
    CallsOfQueue(queues.right, Right, w);
    FiredParts(queues, w.key);
    RepeatParts(dx, KeyCount(hs, w.key), dy, KeyCount(vs, w.key));
    hide FiredAll;
  }

  lemma RepeatParts(dx: Direction, a: nat, dy: Direction, b: nat)
    requires (dx == Left || dx == Right) && (dy == Up || dy == Down)
    ensures Repeat(Up, if dy == Up then b else 0) + Repeat(Down, if dy == Down then b else 0)
            + Repeat(Left, if dx == Left then a else 0) + Repeat(Right, if dx == Right then a else 0)
         == Repeat(dy, b) + Repeat(dx, a)
  {}

  lemma FiredParts(q: Queues, key: nat)
    ensures CallsOf(FiredAll(q), key)
         == CallsOf(Fired(q.up, Up), key) + CallsOf(Fired(q.down, Down), key)
            + CallsOf(Fired(q.left, Left), key) + CallsOf(Fired(q.right, Right), key)
  {
    hide Fired, CallsOf;
    var a, b, c, d := Fired(q.up, Up), Fired(q.down, Down), Fired(q.left, Left), Fired(q.right, Right);
    CallsOfAppend(a + b + c, d, key);
    CallsOfAppend(a + b, c, key);
    CallsOfAppend(a, b, key);
  }

  lemma NothingPending(w: Waypoint)
    ensures NonePending(EMPTY, w)
  {}

  // One scroll calls a continuous, enabled waypoint once, in the direction of the
  // scroll, when it crosses its trigger point, and not at all otherwise.
  lemma ScrolledCalls(q: Queues, horizontal: seq<Waypoint>, oldX: int, newX: int,
                      vertical: seq<Waypoint>, oldY: int, newY: int, w: Waypoint, across: bool)
    requires NonePending(q, w) && IsPlaced(horizontal, vertical, w, across)
    requires w.continuous && w.enabled && w.triggerPoint.Some?
    ensures var (queues, fired) := Scrolled(q, w.group, horizontal, oldX, newX, vertical, oldY, newY);
            var crossing := if across then Crossing(oldX, newX, w.triggerPoint.value)
                            else Crossing(oldY, newY, w.triggerPoint.value);
            && NonePending(queues, w)
            && CallsOf(fired, w.key) == match crossing case Some(d) => [Heading(across, d)] case None => []
  {
    hide Queued, Push, NonePending, FiredAll, KeyCount, CallsOf, OnlyThis;
    if across {
      NoneIsOnly(vertical, w);
    } else {
      NoneIsOnly(horizontal, w);
    }
    QueuedCount(horizontal, w.group, oldX, newX, w);
    QueuedCount(vertical, w.group, oldY, newY, w);
    var hs, vs := Queued(horizontal, w.group, oldX, newX), Queued(vertical, w.group, oldY, newY);
    NothingPending(w);
    NoCalls(w.key);
    FlushCalls(q, w, if newX > oldX then Right else Left, hs, if newY > oldY then Down else Up, vs);
    OneRepeat(Heading(across, if across then newX > oldX else newY > oldY));
  }

  lemma NoCalls(key: nat)
    ensures CallsOf([], key) == [] && KeyCount([], key) == 0
  {}

  lemma OneRepeat(d: Direction)
    ensures Repeat(d, 1) == [d] && forall e :: Repeat(e, 0) == []
    ensures [] + [d] == [d] && [d] + [] == [d]
  {
    assert Repeat(d, 0) == [];
  }

  // The calls really made of a continuous, enabled waypoint over any run of scrolls are
  // its moves: they alternate, and forward calls minus backward calls is the change of side.
  lemma {:induction false} EngineLaw(q: Queues, horizontal: seq<Waypoint>, vertical: seq<Waypoint>,
                                     start: Position, scrolls: seq<Position>, w: Waypoint, across: bool)
    requires NonePending(q, w) && IsPlaced(horizontal, vertical, w, across)
    requires w.continuous && w.enabled && w.triggerPoint.Some?
    ensures var moves := Moves(Along(start, across), AllAlong(scrolls, across), w.triggerPoint.value);
            && CallsOf(RunCalls(q, w.group, horizontal, vertical, start, scrolls), w.key) == Headings(moves, across)
            && Alternates(moves)
            && Balance(moves) == Passed(Final(Along(start, across), AllAlong(scrolls, across)), w.triggerPoint.value)
                                 - Passed(Along(start, across), w.triggerPoint.value)
    decreases |scrolls|
  {
    hide Scrolled, NonePending, IsPlaced, Alternates, Balance, Crossing;
    CountingLaw(Along(start, across), AllAlong(scrolls, across), w.triggerPoint.value);
    if scrolls != [] {
      var next := scrolls[0];
      var (queues, fired) := Scrolled(q, w.group, horizontal, start.x, next.x, vertical, start.y, next.y);
      ScrolledCalls(q, horizontal, start.x, next.x, vertical, start.y, next.y, w, across);
      EngineLaw(queues, horizontal, vertical, next, scrolls[1..], w, across);
      CallsOfAppend(fired, RunCalls(queues, w.group, horizontal, vertical, next, scrolls[1..]), w.key);
      MovesStep(start, scrolls, w.triggerPoint.value, across);
    }
  }

  lemma MovesStep(start: Position, scrolls: seq<Position>, point: int, across: bool)
    requires scrolls != []
    ensures Headings(Moves(Along(start, across), AllAlong(scrolls, across), point), across)
         == (match Crossing(Along(start, across), Along(scrolls[0], across), point)
             case Some(d) => [Heading(across, d)]
             case None => [])
            + Headings(Moves(Along(scrolls[0], across), AllAlong(scrolls[1..], across), point), across)
  {
    hide Crossing;
    var next := scrolls[0];
    var rest := Moves(Along(next, across), AllAlong(scrolls[1..], across), point);
    assert AllAlong(scrolls, across)[1..] == AllAlong(scrolls[1..], across);
    match Crossing(Along(start, across), Along(next, across), point)
    case Some(d) => assert ([d] + rest)[1..] == rest;
    case None => assert [] + rest == rest && [] + Headings(rest, across) == Headings(rest, across);
  }

  // ---- Context.refresh ----

  // What refresh queues when a trigger point moves while the scroll stays.
  function Refreshed(oldPoint: Option<int>, newPoint: int, scroll: int): Option<bool> {
    if oldPoint == None then (if scroll >= newPoint then Some(true) else None)
    else
      var wasBeforeScroll, nowAfterScroll := oldPoint.value < scroll, newPoint >= scroll;
      if wasBeforeScroll && nowAfterScroll then Some(false)
      else if !wasBeforeScroll && !nowAfterScroll then Some(true)
      else None
  }

  // What keeps the counting law going: a move exactly when the side changes.
  function SideChange(oldPoint: Option<int>, newPoint: int, scroll: int): Option<bool> {
    var was := oldPoint.Some? && scroll >= oldPoint.value;
    var now := scroll >= newPoint;
    if was == now then None else Some(now)
  }

  // refresh takes a waypoint at the scroll position for not yet reached, where
  // handleScroll takes it for passed: they agree unless exactly one of the two
  // trigger points is the scroll position.
  lemma RefreshAgrees(oldPoint: Option<int>, newPoint: int, scroll: int)
    ensures Refreshed(oldPoint, newPoint, scroll) == SideChange(oldPoint, newPoint, scroll)
       <==> oldPoint == None || (oldPoint.value == scroll <==> newPoint == scroll)
  {}

  // ---- who is called by one scroll, and in which order ----

  predicate Sideways(d: Direction) {
    d == Left || d == Right
  }

  // Whether a waypoint of the group changes sides.
  predicate Crosses(w: Waypoint, g: nat, oldScroll: int, newScroll: int) {
    && w.group == g && w.triggerPoint.Some?
    && Passed(newScroll, w.triggerPoint.value) != Passed(oldScroll, w.triggerPoint.value)
  }

  // In direction d the scroll reaches v no later than w.
  predicate NoLater(v: Waypoint, w: Waypoint, d: Direction)
    requires v.triggerPoint.Some? && w.triggerPoint.Some?
  {
    match d
    case Down => v.triggerPoint.value <= w.triggerPoint.value
    case Right => v.triggerPoint.value <= w.triggerPoint.value
    case Up => v.triggerPoint.value >= w.triggerPoint.value
    case Left => v.triggerPoint.value >= w.triggerPoint.value
  }

  // The callbacks of one axis: `who` are called, in the order in which the scroll reaches
  // them, all crossed and enabled, and one that is not continuous only if the scroll
  // reaches none later.
  predicate InOrder(who: seq<Waypoint>, ws: seq<Waypoint>, g: nat, oldScroll: int, newScroll: int, d: Direction) {
    && (forall i :: 0 <= i < |who| ==>
          && who[i] in ws && Crosses(who[i], g, oldScroll, newScroll) && who[i].enabled
          && (who[i].continuous ||
                forall v :: v in ws && Crosses(v, g, oldScroll, newScroll) ==> NoLater(v, who[i], d)))
    && (forall i, j :: 0 <= i < j < |who| ==> NoLater(who[i], who[j], d))
  }

  // Nobody is left out: a crossed, enabled waypoint that is continuous is called, and so
  // is one that the scroll reaches later than all others.
  predicate NobodyLeftOut(who: seq<Waypoint>, ws: seq<Waypoint>, g: nat, oldScroll: int, newScroll: int, d: Direction) {
    forall w :: w in ws && Crosses(w, g, oldScroll, newScroll) && w.enabled
      && (w.continuous || forall v :: v in ws && Crosses(v, g, oldScroll, newScroll) && v != w ==> !NoLater(w, v, d))
      ==> w in who
  }

  function CallAll(who: seq<Waypoint>, d: Direction): (calls: seq<Call>)
    ensures |calls| == |who|
  {
    seq(|who|, i requires 0 <= i < |who| => Call(who[i].key, d))
  }

  // The entries of a sorted queue that are called among the first i.
  function Called(sorted: seq<Waypoint>, i: nat): seq<Waypoint>
    requires i <= |sorted|
  {
    if i == 0 then []
    else
      var w := sorted[i - 1];
      Called(sorted, i - 1) + if (w.continuous || i == |sorted|) && w.enabled then [w] else []
  }

  lemma {:induction false} CallsAreCalled(sorted: seq<Waypoint>, i: nat, d: Direction)
    requires i <= |sorted|
    ensures Calls(sorted, i, d) == CallAll(Called(sorted, i), d)
  {
    if i > 0 {
      CallsAreCalled(sorted, i - 1, d);
    }
  }

  // Who is called stands in the queue, and is continuous or last.
  lemma {:induction false} CalledOnly(sorted: seq<Waypoint>, i: nat, x: Waypoint)
    requires i <= |sorted| && x in Called(sorted, i)
    ensures x in sorted[..i] && x.enabled && (x.continuous || (i == |sorted| && x == sorted[i - 1]))
  {
    var w := sorted[i - 1];
    assert sorted[..i] == sorted[..i - 1] + [w];
    if x in Called(sorted, i - 1) {
      CalledOnly(sorted, i - 1, x);
    }
  }

  lemma {:induction false} CalledSorted(sorted: seq<Waypoint>, i: nat, reverse: bool)
    requires i <= |sorted| && Sorted(sorted, reverse)
    ensures Sorted(Called(sorted, i), reverse)
  {
    hide NotAfter;
    if i > 0 {
      CalledSorted(sorted, i - 1, reverse);
      var who, w := Called(sorted, i - 1), sorted[i - 1];
      forall x | x in who
        ensures NotAfter(x, w, reverse)
      {
        CalledOnly(sorted, i - 1, x);
        var k :| 0 <= k < i - 1 && sorted[k] == x;
      }
      SortedSnoc(who, w, reverse);
      assert who + [] == who;
    }
  }

  lemma {:induction false} CalledIf(sorted: seq<Waypoint>, i: nat, k: nat)
    requires k < i <= |sorted| && sorted[k].enabled && (sorted[k].continuous || k == |sorted| - 1)
    ensures sorted[k] in Called(sorted, i)
  {
    if k < i - 1 {
      CalledIf(sorted, i - 1, k);
    }
  }

  lemma NoLaterIs(v: Waypoint, w: Waypoint, d: Direction)
    requires v.triggerPoint.Some? && w.triggerPoint.Some?
    ensures NoLater(v, w, d) <==> NotAfter(v, w, IsReverse(d))
  {}

  // The crossed waypoints of a group, queued, sorted and called.
  lemma OneAxis(ws: seq<Waypoint>, g: nat, oldScroll: int, newScroll: int, d: Direction) returns (who: seq<Waypoint>)
    ensures Fired(Queued(ws, g, oldScroll, newScroll), d) == CallAll(who, d)
    ensures InOrder(who, ws, g, oldScroll, newScroll, d)
    ensures NobodyLeftOut(who, ws, g, oldScroll, newScroll, d)
    ensures multiset(who) <= multiset(ws)
  {
    hide Queued, Sort, Sorted, NotAfter, NoLater, Crosses, Calls, Called;
    var queue := Queued(ws, g, oldScroll, newScroll);
    var sorted := Sort(queue, IsReverse(d));
    SortSorts(queue, IsReverse(d));
    CallsAreCalled(sorted, |sorted|, d);
    who := Called(sorted, |sorted|);
    CalledOnce(sorted, |sorted|);
    QueuedOnce(ws, g, oldScroll, newScroll);
    assert sorted[..|sorted|] == sorted;
    forall w
      ensures w in sorted <==> w in ws && Crosses(w, g, oldScroll, newScroll)
    {
      QueuedCrosses(ws, g, oldScroll, newScroll, w);
      assert w in sorted <==> w in multiset(sorted);
      assert w in queue <==> w in multiset(queue);
    }
    CalledInOrder(sorted, who, ws, g, oldScroll, newScroll, d);
    CalledAll(sorted, who, ws, g, oldScroll, newScroll, d);
  }

  // Each waypoint no more often than in b.
  ghost predicate NoMore(a: seq<Waypoint>, b: seq<Waypoint>) {
    multiset(a) <= multiset(b)
  }

  lemma {:induction false} CalledOnce(sorted: seq<Waypoint>, i: nat)
    requires i <= |sorted|
    ensures NoMore(Called(sorted, i), sorted[..i])
  {
    if i == 0 {
      NoneOfNothing();
    } else {
      hide NoMore;
      CalledOnce(sorted, i - 1);
      assert sorted[..i] == sorted[..i - 1] + [sorted[i - 1]];
      OneMore(Called(sorted, i - 1), sorted[..i - 1], sorted[i - 1]);
    }
  }

  lemma NoneOfNothing()
    ensures NoMore([], [])
  {}

  lemma OneMore(a: seq<Waypoint>, b: seq<Waypoint>, w: Waypoint)
    requires NoMore(a, b)
    ensures NoMore(a + [], b + [w]) && NoMore(a + [w], b + [w])
  {
    assert a + [] == a;
    assert multiset(a + [w]) == multiset(a) + multiset{w};
    assert multiset(b + [w]) == multiset(b) + multiset{w};
  }

  lemma {:induction false} QueuedOnce(ws: seq<Waypoint>, g: nat, oldScroll: int, newScroll: int)
    ensures NoMore(Queued(ws, g, oldScroll, newScroll), ws)
  {
    hide IsCrossed;
    if ws == [] {
      NoneOfNothing();
    } else {
      hide NoMore;
      var n := |ws| - 1;
      QueuedOnce(ws[..n], g, oldScroll, newScroll);
      assert ws == ws[..n] + [ws[n]];
      OneMore(Queued(ws[..n], g, oldScroll, newScroll), ws[..n], ws[n]);
    }
  }

  lemma QueuedCrosses(ws: seq<Waypoint>, g: nat, oldScroll: int, newScroll: int, w: Waypoint)
    ensures w in Queued(ws, g, oldScroll, newScroll) <==> w in ws && Crosses(w, g, oldScroll, newScroll)
  {
    hide Queued;
    QueuedIff(ws, g, oldScroll, newScroll, w);
  }

  lemma CalledInOrder(sorted: seq<Waypoint>, who: seq<Waypoint>, ws: seq<Waypoint>, g: nat, oldScroll: int,
                      newScroll: int, d: Direction)
    requires Sorted(sorted, IsReverse(d)) && who == Called(sorted, |sorted|)
    requires forall w :: w in sorted <==> w in ws && Crosses(w, g, oldScroll, newScroll)
    ensures InOrder(who, ws, g, oldScroll, newScroll, d)
  {
    hide Called, NoLater, NotAfter;
    CalledSorted(sorted, |sorted|, IsReverse(d));
    forall i | 0 <= i < |who|
      ensures who[i] in sorted && who[i].enabled
      ensures who[i].continuous || forall v :: v in sorted ==> NoLater(v, who[i], d)
    {
      CalledOnly(sorted, |sorted|, who[i]);
      if !who[i].continuous {
        LastIsLast(sorted, d);
      }
    }
    forall i, j | 0 <= i < j < |who|
      ensures NoLater(who[i], who[j], d)
    {
      NoLaterIs(who[i], who[j], d);
    }
  }

  lemma LastIsLast(sorted: seq<Waypoint>, d: Direction)
    requires Sorted(sorted, IsReverse(d)) && sorted != [] && forall w :: w in sorted ==> w.triggerPoint.Some?
    ensures forall v :: v in sorted ==> NoLater(v, sorted[|sorted| - 1], d)
  {
    forall v | v in sorted
      ensures NoLater(v, sorted[|sorted| - 1], d)
    {
      var k :| 0 <= k < |sorted| && sorted[k] == v;
      assert k < |sorted| - 1 ==> NotAfter(sorted[k], sorted[|sorted| - 1], IsReverse(d));
    }
  }

  lemma CalledAll(sorted: seq<Waypoint>, who: seq<Waypoint>, ws: seq<Waypoint>, g: nat, oldScroll: int,
                  newScroll: int, d: Direction)
    requires Sorted(sorted, IsReverse(d)) && who == Called(sorted, |sorted|)
    requires forall w :: w in sorted <==> w in ws && Crosses(w, g, oldScroll, newScroll)
    ensures NobodyLeftOut(who, ws, g, oldScroll, newScroll, d)
  {
    hide Called, NoLater, NotAfter, Sorted;
    forall w | w in sorted && w.enabled
      && (w.continuous || forall v :: v in sorted && v != w ==> !NoLater(w, v, d))
      ensures w in who
    {
      var k :| 0 <= k < |sorted| && sorted[k] == w;
      LastIsLast(sorted, d);
      if !w.continuous {
        assert sorted[|sorted| - 1] == w;
        CalledIf(sorted, |sorted|, |sorted| - 1);
      } else {
        CalledIf(sorted, |sorted|, k);
      }
    }
  }

  function Toward(oldScroll: int, newScroll: int, across: bool): Direction {
    if across then (if newScroll > oldScroll then Right else Left) else if newScroll > oldScroll then Down else Up
  }

  // One handleScroll of a group with empty queues: the callbacks of the vertical axis come
  // first, then those of the horizontal one, each in the direction of the scroll, in the
  // order in which the scroll reaches the waypoints; nobody else is called or left out.
  lemma ScrollOrder(g: nat, horizontal: seq<Waypoint>, oldX: int, newX: int,
                    vertical: seq<Waypoint>, oldY: int, newY: int)
    returns (down: seq<Waypoint>, across: seq<Waypoint>)
    ensures Scrolled(EMPTY, g, horizontal, oldX, newX, vertical, oldY, newY)
         == (EMPTY, CallAll(down, Toward(oldY, newY, false)) + CallAll(across, Toward(oldX, newX, true)))
    ensures InOrder(down, vertical, g, oldY, newY, Toward(oldY, newY, false))
    ensures NobodyLeftOut(down, vertical, g, oldY, newY, Toward(oldY, newY, false))
    ensures InOrder(across, horizontal, g, oldX, newX, Toward(oldX, newX, true))
    ensures multiset(down) <= multiset(vertical) && multiset(across) <= multiset(horizontal)
    ensures NobodyLeftOut(across, horizontal, g, oldX, newX, Toward(oldX, newX, true))
  {
    hide Queued, Fired, InOrder, NobodyLeftOut, CallAll;
    down := OneAxis(vertical, g, oldY, newY, Toward(oldY, newY, false));
    across := OneAxis(horizontal, g, oldX, newX, Toward(oldX, newX, true));
    FiredNone();
    var hs, vs := Queued(horizontal, g, oldX, newX), Queued(vertical, g, oldY, newY);
    TwoQueues(hs, Toward(oldX, newX, true), vs, Toward(oldY, newY, false));
    if !IsTriggered(g, horizontal, oldX, newX, vertical, oldY, newY) {
      assert hs == [] && vs == [];
    }
  }

  lemma FiredNone()
    ensures forall d: Direction :: Fired([], d) == []
  {}

  lemma TwoQueues(hs: seq<Waypoint>, dx: Direction, vs: seq<Waypoint>, dy: Direction)
    requires (dx == Left || dx == Right) && (dy == Up || dy == Down)
    ensures FiredAll(Push(Push(EMPTY, dx, hs), dy, vs)) == Fired(vs, dy) + Fired(hs, dx)
  {
    hide Fired;
    FiredNone();
    assert [] + hs == hs && [] + vs == vs;
  }
}
