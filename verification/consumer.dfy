/** The receive loop of `SensorDataConsumer::attach` (src/client.rs), written
    as the program writes it: an outer loop that starts a fresh batch and sends
    it when non-empty, around an inner loop that receives until the batch is
    full or a receive fails. The program never returns; here the loop stops
    when the given finite prefix of receive results is used up, and the batch
    being filled at that point is returned as `open`. */
module Consumer {
  import opened Messages
  import opened Aggregator

  /** The payloads `attach` hands to `send_bulk` while it observes `events`,
      and the batch it is filling afterwards. */
  method Attach<V>(batchSize: nat, events: seq<Event<V>>)
    returns (sent: seq<seq<Message<V>>>, open: seq<Message<V>>)
    // the loop computes exactly the aggregator fold
    ensures sent == Batches(Run(batchSize, events).sent)
    ensures open == Run(batchSize, events).open
    // no empty sends, and no send larger than batch_size
    ensures forall j :: 0 <= j < |sent| ==>
              |sent[j]| >= 1 && (batchSize >= 1 ==> |sent[j]| <= batchSize)
    // every received reading is sent once, in order, or is still open
    ensures Concat(sent) + open == MapReadings(Readings(events))
  {
    sent := [];
    open := [];
    var i := 0;
    while i < |events|
      invariant i <= |events|
      invariant sent == Batches(Run(batchSize, events[..i]).sent)
      invariant open == Run(batchSize, events[..i]).open
      invariant i < |events| ==> open == []
      decreases |events| - i
    {
      var v, closed, next := FillBatch(batchSize, events, i);
      if closed {
        if |v| > 0 {
          sent := sent + [v];
        }
        open := [];
      } else {
        open := v;
      }
      i := next;
    }
    assert events[..i] == events;
    RunBatchBounds(batchSize, events);
    RunConservation(batchSize, events);
    ConcatBatches(Run(batchSize, events).sent);
  }

  /** The inner loop: starting with an empty batch at position `start`, receive
      until the first push that makes the batch `batch_size` long or the first
      failed receive (`closed`), or until the events run out. */
  method FillBatch<V>(batchSize: nat, events: seq<Event<V>>, start: nat)
    returns (v: seq<Message<V>>, closed: bool, next: nat)
    requires start < |events|
    requires Run(batchSize, events[..start]).open == []
    ensures start < next <= |events|
    ensures !closed ==> next == |events|
    ensures !closed ==> v == Run(batchSize, events[..next]).open
    ensures !closed ==> Run(batchSize, events[..next]).sent == Run(batchSize, events[..start]).sent
    ensures closed ==> Run(batchSize, events[..next]).open == []
    ensures closed ==> Batches(Run(batchSize, events[..next]).sent)
                       == Batches(Run(batchSize, events[..start]).sent) + (if |v| > 0 then [v] else [])
    // it stops at the first close: before `next` the batch was still open and non-empty
    ensures forall k :: start < k < next ==> Run(batchSize, events[..k]).open != []
  {
    v := [];
    closed := false;
    next := start;
    ghost var s0 := Run(batchSize, events[..start]);
    ghost var st := s0;
    while next < |events| && !closed
      invariant start <= next <= |events|
      invariant st == Run(batchSize, events[..next])
      invariant !closed ==> v == st.open && st.sent == s0.sent
      invariant closed ==> next > start && st.open == []
      invariant closed ==> Batches(st.sent) == Batches(s0.sent) + (if |v| > 0 then [v] else [])
      invariant forall k :: start < k < next ==> Run(batchSize, events[..k]).open != []
      invariant !closed && next > start ==> st.open != []
      decreases |events| - next
    {
      StepPayloads(batchSize, st, events[next]);
      RunAt(batchSize, events, next);
      st := Step(batchSize, st, events[next]);
      match events[next]
      case Reading(r) =>
        v := v + [ToMessage(r)];
        next := next + 1;
        if |v| == batchSize {
          closed := true;
        }
      case RecvErr =>
        next := next + 1;
        closed := true;
    }
  }

  /** One step of the fold, seen from the payloads handed to `send_bulk`. */
  lemma StepPayloads<V>(batchSize: nat, s: State<V>, e: Event<V>)
    ensures var t := Step(batchSize, s, e);
            match e
            case Reading(r) =>
              var v := s.open + [ToMessage(r)];
              if |v| == batchSize then t.open == [] && Batches(t.sent) == Batches(s.sent) + [v]
              else t.open == v && t.sent == s.sent
            case RecvErr =>
              && t.open == []
              && Batches(t.sent) == Batches(s.sent) + (if |s.open| > 0 then [s.open] else [])
  {
  }

  /** The concatenation of a list of payloads. */
  function Concat<T>(xs: seq<seq<T>>): seq<T>
  {
    if xs == [] then [] else Concat(xs[..|xs| - 1]) + xs[|xs| - 1]
  }

  /** Concatenating the payloads gives the flattened sends. */
  lemma {:induction false} ConcatBatches<V>(es: seq<Emission<V>>)
    ensures Concat(Batches(es)) == Flatten(es)
    decreases |es|
  {
    if es != [] {
      var init := es[..|es| - 1];
      ConcatBatches(init);
      assert Batches(es)[..|es| - 1] == Batches(init);
    }
  }
}
