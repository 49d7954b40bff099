/** Whole runs of the client against the server: safety at every state, no stall, bounded length, and full delivery. */
module Completion {
  import opened Bytes
  import opened Frames
  import opened ReaderState
  import opened FlowControl

  ghost predicate IsRun(states: seq<State>, actions: seq<Action>) {
    |states| == |actions| + 1
    && forall k :: 0 <= k < |actions| ==> Enabled(states[k], actions[k]) && states[k + 1] == Next(states[k], actions[k])
  }

  // ----- Safety

  lemma {:induction false} RunKeeps(states: seq<State>, actions: seq<Action>, k: nat)
    requires IsRun(states, actions) && Initial(states[0]) && k < |states|
    ensures Invariant(states[k])
  {
    hide Invariant, Enabled, Next;
    if k == 0 {
      InitialInvariant(states[0]);
    } else {
      RunKeeps(states, actions, k - 1);
      StepKeeps(states[k - 1], actions[k - 1]);
    }
  }

  /** In every reachable state no window is negative or above its initial value, and both balances hold. */
  lemma WindowsStayInRange(states: seq<State>, actions: seq<Action>, k: nat, id: nat)
    requires IsRun(states, actions) && Initial(states[0]) && k < |states|
    ensures 0 <= states[k].window <= INITIAL_WINDOW && ConnectionBalance(states[k])
    ensures id in states[k].streams ==>
              0 <= states[k].streams[id].window <= INITIAL_WINDOW && StreamBalance(states[k], id)
  {
    RunKeeps(states, actions, k);
  }

  /** With nothing in flight either way the client has parsed everything and holds back less than the threshold. */
  lemma QuietWindows(s: State, id: nat)
    requires Invariant(s) && s.down == [] && s.up == []
    ensures s.client.buffer == [] && InTransit(s) == []
    ensures s.window > INITIAL_WINDOW - THRESHOLD
    ensures id in s.streams && id !in s.client.tally.endStream ==> s.streams[id].window > INITIAL_WINDOW - THRESHOLD
  {
    hide BigEndian, DeclaredLength, FirstFrame;
    assert s.client.buffer + s.down == s.client.buffer;
    RestAlone(s.client.buffer);
    assert id in s.streams ==> StreamBalance(s, id);
  }

  // ----- Progress

  predicate Essential(a: Action) {
    match a
    case Open(_) => true
    case Send(f) => CarriesBody(f)
    case Deliver(_, _) => true
    case Receive => true
  }

  /** The body of a stream has arrived in full, with its END_STREAM. */
  predicate StreamDelivered(s: State, id: nat)
    requires id in s.streams
  {
    id in s.client.tally.endStream && Get(s.client.tally.dataLength, id) == s.streams[id].body
  }

  predicate Delivered(s: State) {
    forall id :: id in s.streams ==> StreamDelivered(s, id)
  }

  /** When the client sends which request. */
  type Policy = (State, nat) -> bool

  predicate Follows(may: Policy, s: State, a: Action) {
    a.Open? ==> may(s, a.id)
  }

  /** Every request that is out has been answered in full. */
  predicate Answered(s: State) {
    forall id :: id in s.streams && s.streams[id].asked ==> StreamDelivered(s, id)
  }

  ghost predicate OpensSome(may: Policy, s: State) {
    exists id :: MayOpen(s, id) && may(s, id)
  }

  /** A client that sends on once everything it asked for has come. */
  ghost predicate Patient(may: Policy) {
    forall s :: Invariant(s) && Answered(s) && !Delivered(s) ==> OpensSome(may, s)
  }

  lemma {:induction false} OrderingExists(ids: set<nat>) returns (order: seq<nat>)
    ensures IsOrdering(order, ids)
    decreases |ids|
  {
    if ids == {} {
      order := [];
    } else {
      var id :| id in ids;
      var rest := OrderingExists(ids - {id});
      order := [id] + rest;
    }
  }

  function NextPart(stream: Stream): nat {
    if stream.unsent < MAX_FRAME then stream.unsent else MAX_FRAME
  }

  function PartOf(id: nat, n: nat, last: bool): (f: Frame)
    requires n <= MAX_FRAME && 0 < id < 0x8000_0000
    ensures f.kind == DATA && f.streamId == id && |f.payload| == n
    ensures EndsStream(f) <==> last
  {
    Frame(DATA, if last then 1 else 0, id, seq(n, _ => 0))
  }

  /** The system is never stuck before every body is delivered, whatever the client's order of requests. */
  lemma NoStall(may: Policy, s: State) returns (a: Action)
    requires Patient(may) && Invariant(s) && !Delivered(s)
    ensures Enabled(s, a) && Essential(a) && Follows(may, s, a)
  {
    hide BigEndian, FirstFrame, ParseAll, NoteAll, ChargeAll;
    if s.up != [] {
      a := Receive;
    } else if s.down != [] {
      var order := OrderingExists(DueStreams(Owed(s.client, s.down[..1]), TallyAfter(s.client, s.down[..1]).endStream));
      a := Deliver(1, order);
    } else if Answered(s) {
      hide Invariant;
      assert OpensSome(may, s);
      var id :| MayOpen(s, id) && may(s, id);
      a := Open(id);
    } else {
      var id :| id in s.streams && s.streams[id].asked && !StreamDelivered(s, id);
      a := NextSend(s, id);
    }
  }

  lemma NextSend(s: State, id: nat) returns (a: Action)
    requires Invariant(s) && s.down == [] && s.up == []
    requires id in s.streams && s.streams[id].asked && !StreamDelivered(s, id)
    ensures a.Send? && MaySend(s, a.frame) && CarriesBody(a.frame)
  {
    hide BigEndian, FirstFrame, ParseAll;
    assert BodyAccounted(s, id);
    QuietWindows(s, id);
    assert !s.streams[id].finished;
    var n := NextPart(s.streams[id]);
    a := Send(PartOf(id, n, n == s.streams[id].unsent));
  }

  /**
   * The client's own order: the k-th request goes out when those before it are out and, if it starts a batch, the last
   * stream of the batch before has ended.
   */
  ghost predicate BatchOpens(pipeline: nat, s: State, id: nat) {
    pipeline > 0 && exists k :: 0 <= k < |s.ids| && s.ids[k] == id && MayOpenNth(pipeline, s, k)
  }

  predicate MayOpenNth(pipeline: nat, s: State, k: nat)
    requires k < |s.ids| && pipeline > 0
  {
    (forall j :: 0 <= j < k && s.ids[j] in s.streams ==> s.streams[s.ids[j]].asked)
    && (k % pipeline == 0 && k > 0 ==> s.ids[k - 1] in s.client.tally.endStream)
  }

  lemma {:induction false} FirstUnopened(s: State, n: nat) returns (k: nat)
    requires Shape(s) && n <= |s.ids|
    ensures k <= n && (forall j :: 0 <= j < k ==> s.streams[s.ids[j]].asked) && (k < n ==> !s.streams[s.ids[k]].asked)
  {
    if n == 0 {
      k := 0;
    } else {
      k := FirstUnopened(s, n - 1);
      if k == n - 1 {
        assert s.ids[k] in s.ids;
        if s.streams[s.ids[k]].asked {
          k := n;
        }
      }
    }
  }

  lemma BatchGoesOn(pipeline: nat, s: State) returns (id: nat)
    requires pipeline > 0 && Shape(s) && Answered(s) && !Delivered(s)
    ensures MayOpen(s, id) && BatchOpens(pipeline, s, id)
  {
    hide StreamDelivered;
    var k := FirstUnopened(s, |s.ids|);
    var lost :| lost in s.streams && !StreamDelivered(s, lost);
    assert lost in s.ids;
    var i :| 0 <= i < |s.ids| && s.ids[i] == lost;
    assert k < |s.ids|;
    id := s.ids[k];
    assert id in s.ids;
    if k > 0 {
      EndSeen(s, k - 1);
    }
    assert MayOpenNth(pipeline, s, k);
  }

  lemma EndSeen(s: State, k: nat)
    requires Shape(s) && Answered(s) && k < |s.ids| && (s.ids[k] in s.streams ==> s.streams[s.ids[k]].asked)
    ensures s.ids[k] in s.client.tally.endStream
  {
    assert s.ids[k] in s.ids;
    assert StreamDelivered(s, s.ids[k]);
  }

  /** The pipelined client is patient: it never waits for a stream it has not asked for. */
  lemma PipelineIsPatient(pipeline: nat)
    requires pipeline > 0
    ensures Patient((s: State, id: nat) => BatchOpens(pipeline, s, id))
  {
    hide BatchOpens, Answered, Delivered, Shape, Framed, StreamBalance, BodyAccounted, ConnectionBalance;
    var may: Policy := (s: State, id: nat) => BatchOpens(pipeline, s, id);
    forall s | Invariant(s) && Answered(s) && !Delivered(s)
      ensures OpensSome(may, s)
    {
      var id := BatchGoesOn(pipeline, s);
      assert MayOpen(s, id) && may(s, id);
    }
  }

  // ----- Termination

  function StreamTodo(stream: Stream): nat {
    stream.unsent + (if stream.finished then 0 else 1) + if stream.asked then 0 else 1
  }

  ghost function Todo(ids: seq<nat>, streams: map<nat, Stream>): nat {
    if ids == [] then 0
    else
      Todo(ids[..|ids| - 1], streams)
      + if ids[|ids| - 1] in streams then StreamTodo(streams[ids[|ids| - 1]]) else 0
  }

  lemma {:induction false} TodoUpdate(ids: seq<nat>, streams: map<nat, Stream>, id: nat, stream: Stream)
    requires forall j, k :: 0 <= j < k < |ids| ==> ids[j] != ids[k]
    requires id in streams
    ensures
      Todo(ids, streams[id := stream]) ==
      if id in ids then Todo(ids, streams) - StreamTodo(streams[id]) + StreamTodo(stream) else Todo(ids, streams)
  {
    if ids != [] {
      var n := |ids| - 1;
      TodoUpdate(ids[..n], streams, id, stream);
      assert ids == ids[..n] + [ids[n]];
      assert id in ids <==> id in ids[..n] || id == ids[n];
      assert id == ids[n] ==> forall k :: 0 <= k < n ==> ids[..n][k] != id;
    }
  }

  ghost function Work(s: State): nat {
    s.control + Todo(s.ids, s.streams)
  }

  /** Bounds how many steps remain: work outstanding, octets in flight and updates in flight, weighed. */
  ghost function Measure(s: State): nat {
    var w := |s.ids| + 2;
    (w * (9 + MAX_FRAME) + 1) * Work(s) + w * |s.down| + |s.up|
  }

  lemma {:induction false} OrderingLength(order: seq<nat>, ids: set<nat>)
    requires IsOrdering(order, ids)
    ensures |order| == |ids|
  {
    if order == [] {
      assert forall i :: i in order <==> i in ids;
      assert ids == {};
    } else {
      var n := |order| - 1;
      var last := order[n];
      assert last in order;
      assert IsOrdering(order[..n], ids - {last}) by {
        forall i ensures i in order[..n] <==> i in ids - {last} {
          if i in order && i != last {
            var k :| 0 <= k < |order| && order[k] == i;
            assert order[..n][k] == i;
          }
        }
      }
      OrderingLength(order[..n], ids - {last});
    }
  }

  lemma SubsetSize<T>(a: set<T>, b: set<T>)
    requires a <= b
    ensures |a| <= |b|
  {
    if a != {} {
      var x :| x in a;
      SubsetSize(a - {x}, b - {x});
    }
  }

  lemma OpenWork(s: State, id: nat)
    requires Invariant(s) && MayOpen(s, id)
    ensures
      var s' := AfterOpen(s, id);
      Work(s') < Work(s) && s'.down == s.down && s'.up == s.up && s'.ids == s.ids
  {
    hide Framed, StreamBalance, BodyAccounted, ConnectionBalance, Todo;
    assert id in s.ids;
    TodoUpdate(s.ids, s.streams, id, AfterOpen(s, id).streams[id]);
  }

  lemma SendWork(s: State, f: Frame)
    requires Invariant(s) && MaySend(s, f)
    ensures Work(AfterSend(s, f)) < Work(s) && |AfterSend(s, f).down| <= |s.down| + 9 + MAX_FRAME
    ensures AfterSend(s, f).up == s.up && AfterSend(s, f).ids == s.ids
  {
    hide Framed, StreamBalance, BodyAccounted, ConnectionBalance, Todo;
    if CarriesBody(f) {
      assert f.streamId in s.ids;
      TodoUpdate(s.ids, s.streams, f.streamId, AfterSend(s, f).streams[f.streamId]);
    }
  }

  lemma ReceiveWork(s: State)
    requires Invariant(s) && s.up != []
    ensures Work(AfterReceive(s)) == Work(s) && AfterReceive(s).down == s.down && |AfterReceive(s).up| < |s.up|
    ensures AfterReceive(s).ids == s.ids
  {
    hide BigEndian, Framed, StreamBalance, BodyAccounted, ConnectionBalance, Todo;
    var id := s.up[0].streamId;
    if id != 0 && id in s.streams {
      TodoUpdate(s.ids, s.streams, id, AfterReceive(s).streams[id]);
    }
  }

  lemma DeliverWork(s: State, size: nat, order: seq<nat>)
    requires Invariant(s) && MayDeliver(s, size, order)
    ensures
      var s' := AfterDeliver(s, size, order);
      Work(s') == Work(s) && |s'.down| < |s.down| && |s'.up| <= |s.up| + |s.ids| + 1 && s'.ids == s.ids
  {
    hide BigEndian, DeclaredLength, FirstFrame, ParseAll, NoteAll, ChargeAll, StreamBalance, BodyAccounted, ConnectionBalance, Feed;
    var owed := Owed(s.client, s.down[..size]);
    var due := DueStreams(owed, TallyAfter(s.client, s.down[..size]).endStream);
    forall id | id in due
      ensures id in s.streams
    {
      ChargeMeaning(s.client.credit, ParseAll(s.client.buffer + s.down[..size]).frames, id);
      DeliverCounts(s, size, order, id);
    }
    OrderingLength(order, due);
    OrderingLength(s.ids, s.streams.Keys);
    SubsetSize(due, s.streams.Keys);
  }

  lemma MeasureDrops(w: nat, work: nat, down: nat, up: nat, work': nat, down': nat, up': nat)
    requires w >= 2
    requires
      || (work' < work && down' <= down + 9 + MAX_FRAME && up' == up)
      || (work' == work && down' < down && up' <= up + w - 1)
      || (work' == work && down' == down && up' < up)
    ensures (w * (9 + MAX_FRAME) + 1) * work' + w * down' + up' < (w * (9 + MAX_FRAME) + 1) * work + w * down + up
  {
    var c := w * (9 + MAX_FRAME) + 1;
    if work' < work {
      MulStep(c, work', work);
      if down < down' {
        assert w * down' == w * down + w * (down' - down);
        MulMonotone(w, down' - down, 9 + MAX_FRAME);
      } else {
        MulMonotone(w, down', down);
      }
    } else if down' < down {
      MulStep(w, down', down);
    }
  }

  lemma MulMonotone(w: nat, a: nat, b: nat)
    requires a <= b
    ensures w * a <= w * b
  {
    if a < b { MulStep(w, a, b); }
  }

  lemma StepDrops(s: State, a: Action)
    requires Invariant(s) && Enabled(s, a)
    ensures Measure(Next(s, a)) < Measure(s)
  {
    hide Invariant, MayOpen, MaySend, MayDeliver, AfterOpen, AfterSend, AfterDeliver, AfterReceive, Work;
    var s' := Next(s, a);
    match a {
      case Open(id) => OpenWork(s, id);
      case Send(f) => SendWork(s, f);
      case Deliver(size, order) => DeliverWork(s, size, order);
      case Receive => ReceiveWork(s);
    }
    MeasureDrops(|s.ids| + 2, Work(s), |s.down|, |s.up|, Work(s'), |s'.down|, |s'.up|);
  }

  /** No run from an initial state is longer than the measure of that state. */
  lemma {:induction false} RunLength(states: seq<State>, actions: seq<Action>, k: nat)
    requires IsRun(states, actions) && Initial(states[0]) && k < |states|
    ensures k + Measure(states[k]) <= Measure(states[0])
  {
    hide Invariant, Initial, Enabled, Next, Measure;
    if k > 0 {
      RunLength(states, actions, k - 1);
      RunKeeps(states, actions, k - 1);
      StepDrops(states[k - 1], actions[k - 1]);
    }
  }

  /**
   * A run that cannot go on under the client's order of requests, save for frames without body octets, has sent every
   * request and delivered every body in full.
   */
  lemma MaximalRunDelivers(may: Policy, states: seq<State>, actions: seq<Action>)
    requires Patient(may) && IsRun(states, actions) && Initial(states[0])
    requires forall a :: Essential(a) && Follows(may, states[|actions|], a) ==> !Enabled(states[|actions|], a)
    ensures |actions| <= Measure(states[0])
    ensures Delivered(states[|actions|])
  {
    hide Invariant, Initial, Enabled, Next, Measure, Delivered, Patient, Follows;
    RunLength(states, actions, |actions|);
    RunKeeps(states, actions, |actions|);
    if !Delivered(states[|actions|]) {
      var a := NoStall(may, states[|actions|]);
      assert false;
    }
  }

  ghost predicate AllFollow(may: Policy, states: seq<State>, actions: seq<Action>)
    requires |states| == |actions| + 1
  {
    forall k :: 0 <= k < |actions| ==> Follows(may, states[k], actions[k])
  }

  /** Such runs exist: from every state that keeps the invariant the bodies can be delivered in the client's order. */
  lemma {:induction false} CanDeliver(may: Policy, s: State) returns (states: seq<State>, actions: seq<Action>)
    requires Patient(may) && Invariant(s)
    ensures IsRun(states, actions) && states[0] == s && Delivered(states[|actions|]) && AllFollow(may, states, actions)
    decreases Measure(s)
  {
    hide Invariant, Enabled, Next, Measure, Delivered, Patient, Follows;
    if Delivered(s) {
      return [s], [];
    }
    var a := NoStall(may, s);
    StepKeeps(s, a);
    StepDrops(s, a);
    var more, steps := CanDeliver(may, Next(s, a));
    states, actions := [s] + more, [a] + steps;
    forall k | 0 <= k < |actions|
      ensures Enabled(states[k], actions[k]) && states[k + 1] == Next(states[k], actions[k])
      ensures Follows(may, states[k], actions[k])
    {
      if k > 0 {
        assert Enabled(more[k - 1], steps[k - 1]) && more[k] == Next(more[k - 1], steps[k - 1]);
        assert Follows(may, more[k - 1], steps[k - 1]);
      }
    }
  }
}
