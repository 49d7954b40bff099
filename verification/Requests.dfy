/** The send-and-wait loop of one connection: which stream identifiers are used and which latencies are recorded. */
module Requests {

  /** The stream identifier of the k-th request (section 5.1.1 of RFC 9113). */
  function StreamOf(k: nat): nat {
    2 * k + 1
  }

  predicate SentExactly(sent: seq<nat>, n: nat) {
    |sent| == n && forall k :: 0 <= k < n ==> sent[k] == StreamOf(k)
  }

  /** How many requests are out when a round ends: `pipeline` more per round, up to all of them. */
  function SentBy(round: nat, pipeline: nat, requests: nat): nat {
    if (round + 1) * pipeline < requests then (round + 1) * pipeline else requests
  }

  /** The k-th request had ended in what was read by the end of some round before `rounds` in which it was out. */
  ghost predicate SeenBefore(k: nat, rounds: nat, pipeline: nat, requests: nat, observe: nat -> set<nat>) {
    exists round: nat :: round < rounds && k < SentBy(round, pipeline, requests) && StreamOf(k) in observe(round)
  }

  /** A round that sends a whole pipeline waits for its last stream. */
  predicate FullRound(round: nat, pipeline: nat, requests: nat) {
    (round + 1) * pipeline <= requests
  }

  predicate Distinct(s: seq<nat>) {
    forall i, j :: 0 <= i < j < |s| ==> s[i] != s[j]
  }

  /** A full round whose last stream was not seen to end while it was waited for. */
  predicate GaveUp(round: nat, pipeline: nat, requests: nat, observe: nat -> set<nat>) {
    pipeline > 0 && FullRound(round, pipeline, requests) && StreamOf((round + 1) * pipeline - 1) !in observe(round)
  }

  /** Every wait for the last stream of a full batch goes on until that stream has ended. */
  ghost predicate WaitsEnd(pipeline: nat, requests: nat, observe: nat -> set<nat>) {
    forall round: nat :: !GaveUp(round, pipeline, requests, observe)
  }

  /** The rounds up to the one that sends the last request are all the full rounds there are. */
  lemma FullRoundsAreBefore(rounds: nat, round: nat, pipeline: nat, requests: nat)
    requires pipeline > 0 && requests <= rounds * pipeline && FullRound(round, pipeline, requests)
    ensures round < rounds
  {
    Scaled(rounds, if round >= rounds then round else rounds, pipeline);
    assert (round + 1) * pipeline == round * pipeline + pipeline;
  }

  lemma Scaled(a: nat, b: nat, n: nat)
    requires a <= b
    ensures a * n <= b * n
  {
    assert b * n == a * n + (b - a) * n;
  }

  /**
   * `observe(r)` is the key set of `reader.end_stream` once round `r` is over waiting. The loop stops at the first
   * full round that gives up, or when everything is sent. Each stream sent is then recorded once or still pending,
   * and it is recorded exactly when some finished round saw it end. A pipeline of zero or less always gives up.
   */
  method RunOnConnection(requests: nat, pipeline: int, observe: nat -> set<nat>)
    returns (completed: bool, sent: seq<nat>, latencies: seq<nat>, pending: set<nat>, rounds: nat)
    ensures SentExactly(sent, |sent|) && |sent| <= requests
    ensures Accounted(sent, latencies, pending)
    ensures pipeline <= 0 ==> sent == [] && (completed <==> requests == 0)
    ensures pipeline > 0 ==> forall k: nat :: StreamOf(k) in latencies <==> SeenBefore(k, rounds, pipeline, requests, observe)
    ensures pipeline > 0 ==> forall round: nat :: round < rounds ==> !GaveUp(round, pipeline, requests, observe)
    ensures pipeline > 0 ==>
              if completed then |sent| == requests && requests <= rounds * pipeline < requests + pipeline
              else |sent| == (rounds + 1) * pipeline && GaveUp(rounds, pipeline, requests, observe)
    ensures pipeline > 0 ==> (completed <==> WaitsEnd(pipeline, requests, observe))
  {
    hide Accounted, Distinct, SeenBefore;
    sent, latencies, pending, rounds := [], [], {}, 0;
    NothingSent(pipeline, requests, observe);
    ghost var p: nat := if pipeline < 0 then 0 else pipeline;
    var nextStreamId: int := 1;
    var remaining := requests;
    while remaining > 0
      invariant 0 <= remaining <= requests
      invariant nextStreamId == StreamOf(requests - remaining)
      invariant SentExactly(sent, requests - remaining)
      invariant Accounted(sent, latencies, pending)
      invariant p == 0 ==> rounds == 0
      invariant requests - remaining == if rounds * p < requests then rounds * p else requests
      invariant p > 0 ==> rounds * p < requests + p
      invariant p > 0 ==> forall k: nat :: StreamOf(k) in latencies <==> SeenBefore(k, rounds, p, requests, observe)
      invariant p > 0 ==> forall round: nat :: round < rounds ==> !GaveUp(round, p, requests, observe)
    {
      assert (rounds + 1) * p == rounds * p + p;
      var batch := if pipeline < remaining then pipeline else remaining;
      ghost var before := remaining;
      for i := 0 to if batch < 0 then 0 else batch
        invariant remaining == before - i
        invariant nextStreamId == StreamOf(requests - remaining)
        invariant SentExactly(sent, requests - remaining)
        invariant Accounted(sent, latencies, pending)
      {
        assert nextStreamId !in sent;
        SendOne(sent, latencies, pending, nextStreamId);
        sent := sent + [nextStreamId];
        pending := pending + {nextStreamId};
        nextStreamId := nextStreamId + 2;
        remaining := remaining - 1;
      }
      if batch == pipeline {
        var batchLast := nextStreamId - 2;
        if batchLast !in observe(rounds) {
          return false, sent, latencies, pending, rounds;
        }
      }
      ghost var recorded := latencies;
      latencies, pending := Record(sent, latencies, pending, observe(rounds));
      SeenOneMore(sent, recorded, latencies, rounds, p, requests, observe);
      rounds := rounds + 1;
    }
    completed := true;
    if pipeline > 0 {
      forall round: nat
        ensures !GaveUp(round, pipeline, requests, observe)
      {
        if FullRound(round, pipeline, requests) {
          FullRoundsAreBefore(rounds, round, pipeline, requests);
        }
      }
    }
  }

  /** Every stream sent is recorded once or pending, never both. */
  ghost predicate Accounted(sent: seq<nat>, latencies: seq<nat>, pending: set<nat>) {
    Distinct(latencies)
    && (forall id :: id in sent <==> id in latencies || id in pending)
    && forall id :: !(id in latencies && id in pending)
  }

  lemma NothingSent(pipeline: int, requests: nat, observe: nat -> set<nat>)
    ensures Accounted([], [], {})
    ensures pipeline > 0 ==> forall k: nat :: !SeenBefore(k, 0, pipeline, requests, observe)
  {}

  lemma SendOne(sent: seq<nat>, latencies: seq<nat>, pending: set<nat>, id: nat)
    requires Accounted(sent, latencies, pending) && id !in sent
    ensures Accounted(sent + [id], latencies, pending + {id})
  {}

  method Record(ghost sent: seq<nat>, latencies: seq<nat>, pending: set<nat>, ended: set<nat>)
    returns (recorded: seq<nat>, left: set<nat>)
    requires Accounted(sent, latencies, pending)
    ensures Accounted(sent, recorded, left)
    ensures forall id :: id in recorded <==> id in latencies || (id in pending && id in ended)
    ensures left == pending - ended
  {
    recorded, left := latencies, pending;
    var todo := pending;
    while todo != {}
      invariant todo <= left <= pending
      invariant Accounted(sent, recorded, left)
      invariant forall id :: id in recorded <==> id in latencies || (id in pending - todo && id in ended)
      invariant left == pending - (ended - todo)
    {
      var id :| id in todo;
      if id in ended {
        recorded := recorded + [id];
        left := left - {id};
      }
      todo := todo - {id};
    }
  }

  lemma SeenOneMore(sent: seq<nat>, before: seq<nat>, after: seq<nat>, rounds: nat, pipeline: nat, requests: nat, observe: nat -> set<nat>)
    requires SentExactly(sent, SentBy(rounds, pipeline, requests))
    requires forall k: nat :: StreamOf(k) in before <==> SeenBefore(k, rounds, pipeline, requests, observe)
    requires forall id :: id in after <==> id in before || (id in sent && id in observe(rounds))
    ensures forall k: nat :: StreamOf(k) in after <==> SeenBefore(k, rounds + 1, pipeline, requests, observe)
  {
    forall k: nat
      ensures StreamOf(k) in after <==> SeenBefore(k, rounds + 1, pipeline, requests, observe)
    {
      assert StreamOf(k) in sent <==> k < SentBy(rounds, pipeline, requests) by {
        if k < |sent| { assert sent[k] == StreamOf(k); }
      }
    }
  }
}
