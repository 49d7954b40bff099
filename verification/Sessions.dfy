/**
 * The send-and-wait loop joined to the system it talks to: a run of client, network and server in which requests go out
 * as `run_on_connection` sends them.
 */
module Sessions {
  import opened Bytes
  import opened Frames
  import opened ReaderState
  import opened FlowControl
  import opened Completion
  import opened Requests

  /** The stream identifiers of all requests, in the order in which they are sent. */
  function RequestIds(requests: nat): (ids: seq<nat>)
    ensures |ids| == requests
  {
    seq(requests, k requires 0 <= k < requests => StreamOf(k))
  }

  ghost function Batched(pipeline: nat): Policy {
    (s: State, id: nat) => BatchOpens(pipeline, s, id)
  }

  /** A run from the start in which requests go out in the client's batches. */
  ghost predicate Session(pipeline: nat, requests: nat, states: seq<State>, actions: seq<Action>) {
    pipeline > 0 && IsRun(states, actions) && Initial(states[0]) && states[0].ids == RequestIds(requests)
    && AllFollow(Batched(pipeline), states, actions)
  }

  /** Nothing that matters can happen any more. */
  ghost predicate AtRest(pipeline: nat, s: State) {
    forall a :: Essential(a) && Follows(Batched(pipeline), s, a) ==> !Enabled(s, a)
  }

  // ----- What steps keep

  lemma StepStays(s: State, a: Action)
    requires Enabled(s, a)
    ensures Next(s, a).ids == s.ids && Next(s, a).streams.Keys == s.streams.Keys
    ensures s.client.tally.endStream <= Next(s, a).client.tally.endStream
  {
    hide BigEndian, ParseAll, NoteAll, ChargeAll, Updates, KeptBack, EncodeFrame;
    if a.Deliver? {
      var frames := ParseAll(s.client.buffer + s.down[..a.size]).frames;
      forall id | id in s.client.tally.endStream
        ensures id in Next(s, a).client.tally.endStream
      {
        TallyMeaning(s.client.tally, frames, id);
      }
    }
  }

  lemma {:induction false} RunStays(states: seq<State>, actions: seq<Action>, j: nat, k: nat)
    requires IsRun(states, actions) && j <= k < |states|
    ensures states[k].ids == states[j].ids && states[k].streams.Keys == states[j].streams.Keys
    ensures states[j].client.tally.endStream <= states[k].client.tally.endStream
    decreases k - j
  {
    hide Enabled, Next;
    if j < k {
      RunStays(states, actions, j, k - 1);
      StepStays(states[k - 1], actions[k - 1]);
    }
  }

  // ----- Batches go out one after the other

  function BatchStart(pipeline: nat, k: nat): (start: nat)
    requires pipeline > 0
    ensures start <= k
  {
    k - k % pipeline
  }

  /** The batch before that of the k-th request has ended, as far as its last stream tells. */
  predicate BatchBeforeEnded(pipeline: nat, s: State, k: nat)
    requires pipeline > 0 && k < |s.ids|
  {
    var start := BatchStart(pipeline, k);
    start > 0 ==> s.ids[start - 1] in s.client.tally.endStream
  }

  predicate Out(s: State, k: nat)
    requires k < |s.ids|
  {
    s.ids[k] in s.streams && s.streams[s.ids[k]].asked
  }

  ghost predicate InOrder(pipeline: nat, s: State)
    requires pipeline > 0
  {
    forall k :: 0 <= k < |s.ids| && Out(s, k) ==> BatchBeforeEnded(pipeline, s, k)
  }

  lemma SameBatch(pipeline: nat, k: nat)
    requires pipeline > 0 && k % pipeline > 0
    ensures k > 0 && BatchStart(pipeline, k) == BatchStart(pipeline, k - 1)
  {
    ModUnique(k - 1, pipeline, k / pipeline, k % pipeline - 1);
  }

  lemma StepInOrder(pipeline: nat, s: State, a: Action)
    requires pipeline > 0 && Invariant(s) && InOrder(pipeline, s)
    requires Enabled(s, a) && Follows(Batched(pipeline), s, a)
    ensures InOrder(pipeline, Next(s, a))
  {
    hide Framed, ConnectionBalance, StreamBalance, BodyAccounted, IsOrdering, BatchStart;
    var s' := Next(s, a);
    StepStays(s, a);
    forall k | 0 <= k < |s'.ids| && Out(s', k)
      ensures BatchBeforeEnded(pipeline, s', k)
    {
      if !Out(s, k) {
        NewlyOut(s, a, k);
        OpenedInOrder(pipeline, s, a.id, k);
      }
      assert BatchBeforeEnded(pipeline, s, k);
    }
  }

  /** Only opening brings a request out. */
  lemma NewlyOut(s: State, a: Action, k: nat)
    requires Enabled(s, a) && k < |s.ids| && Next(s, a).ids == s.ids && !Out(s, k) && Out(Next(s, a), k)
    ensures a.Open? && a.id == s.ids[k]
  {
    hide BigEndian, EncodeFrame, Feed, Updates;
  }

  lemma OpenedInOrder(pipeline: nat, s: State, id: nat, k: nat)
    requires pipeline > 0 && Shape(s) && InOrder(pipeline, s) && BatchOpens(pipeline, s, id)
    requires k < |s.ids| && s.ids[k] == id
    ensures BatchBeforeEnded(pipeline, s, k)
  {
    var n :| 0 <= n < |s.ids| && s.ids[n] == id && MayOpenNth(pipeline, s, n);
    assert n == k by { hide MayOpenNth, InOrder; }
    if k % pipeline > 0 {
      SameBatch(pipeline, k);
      assert s.ids[k - 1] in s.ids;
      assert Out(s, k - 1);
      assert BatchBeforeEnded(pipeline, s, k - 1);
    }
  }

  /** At every moment the batches before that of a request that is out have ended: never more than one is under way. */
  lemma {:induction false} BatchesInOrder(pipeline: nat, requests: nat, states: seq<State>, actions: seq<Action>, i: nat)
    requires Session(pipeline, requests, states, actions) && i < |states|
    ensures InOrder(pipeline, states[i])
  {
    hide Enabled, Next, Invariant, Follows;
    if i == 0 {
      NothingOut(pipeline, states[0]);
    } else {
      BatchesInOrder(pipeline, requests, states, actions, i - 1);
      RunKeeps(states, actions, i - 1);
      assert Follows(Batched(pipeline), states[i - 1], actions[i - 1]);
      StepInOrder(pipeline, states[i - 1], actions[i - 1]);
    }
  }

  lemma NothingOut(pipeline: nat, s: State)
    requires pipeline > 0 && Initial(s)
    ensures InOrder(pipeline, s)
  {
    hide IsOrdering;
  }

  // ----- The loop completes

  /** The first state from which on the stream has ended, or the last state. */
  function EndsAt(states: seq<State>, id: nat): (k: nat)
    requires states != []
    ensures k < |states|
    ensures id in states[|states| - 1].client.tally.endStream ==> id in states[k].client.tally.endStream
    ensures forall j :: 0 <= j < k ==> id !in states[j].client.tally.endStream
  {
    if |states| == 1 || id in states[0].client.tally.endStream then 0 else EndsAt(states[1..], id) + 1
  }

  /** The last stream of a round. */
  function LastOf(pipeline: nat, round: nat): nat
    requires pipeline > 0
  {
    StreamOf((round + 1) * pipeline - 1)
  }

  /** What the loop sees at the end of each round: `end_stream` when the last stream of the round ends. */
  ghost function Observed(pipeline: nat, states: seq<State>): nat -> set<nat>
    requires pipeline > 0 && states != []
  {
    (round: nat) => states[EndsAt(states, LastOf(pipeline, round))].client.tally.endStream
  }

  /**
   * The client against a server that obeys the flow-control rules, run until nothing can happen: every wait of the
   * loop ends, so that it sends every request; every body has come in full; and so many streams have ended that the
   * final draining loop stops.
   */
  lemma SessionCompletes(pipeline: nat, requests: nat, states: seq<State>, actions: seq<Action>)
    requires Session(pipeline, requests, states, actions) && AtRest(pipeline, states[|actions|])
    ensures WaitsEnd(pipeline, requests, Observed(pipeline, states))
    ensures Delivered(states[|actions|])
    ensures forall k :: 0 <= k < requests ==> StreamOf(k) in states[|actions|].client.tally.endStream
    ensures |states[|actions|].client.tally.endStream| >= requests
  {
    hide Enabled, Invariant, Initial, Delivered, EndsAt, LastOf;
    var last := states[|actions|];
    PipelineIsPatient(pipeline);
    MaximalRunDelivers(Batched(pipeline), states, actions);
    AllEnd(requests, states, actions);
    var observe := Observed(pipeline, states);
    forall round: nat
      ensures !GaveUp(round, pipeline, requests, observe)
    {
      if FullRound(round, pipeline, requests) {
        LastIsRequest(pipeline, requests, round);
        assert LastOf(pipeline, round) in last.client.tally.endStream;
      }
    }
  }

  lemma LastIsRequest(pipeline: nat, requests: nat, round: nat)
    requires pipeline > 0 && FullRound(round, pipeline, requests)
    ensures
      var k := (round + 1) * pipeline - 1;
      0 <= k < requests && LastOf(pipeline, round) == StreamOf(k)
  {
    assert (round + 1) * pipeline == round * pipeline + pipeline;
  }

  lemma AllEnd(requests: nat, states: seq<State>, actions: seq<Action>)
    requires IsRun(states, actions) && Initial(states[0]) && states[0].ids == RequestIds(requests)
    requires Delivered(states[|actions|])
    ensures forall k :: 0 <= k < requests ==> StreamOf(k) in states[|actions|].client.tally.endStream
    ensures |states[|actions|].client.tally.endStream| >= requests
  {
    hide Enabled, Next;
    var last := states[|actions|];
    RunStays(states, actions, 0, |actions|);
    forall k | 0 <= k < requests
      ensures StreamOf(k) in last.client.tally.endStream
    {
      assert RequestIds(requests)[k] in states[0].ids;
      assert StreamDelivered(last, StreamOf(k));
    }
    EnoughEnded(requests, last.client.tally.endStream);
  }

  lemma {:induction false} EnoughEnded(requests: nat, ended: set<nat>)
    requires forall k :: 0 <= k < requests ==> StreamOf(k) in ended
    ensures |ended| >= requests
  {
    if requests > 0 {
      EnoughEnded(requests - 1, ended - {StreamOf(requests - 1)});
    }
  }
}
