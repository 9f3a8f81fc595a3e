/** The batch aggregator of `SensorDataConsumer::attach` (src/client.rs), as a
    fold over the events the receive loop observes.

    Each call of `recv_timeout` yields one event: a reading, or an error. The
    error stands for both a 90-second silence and a disconnected channel; the
    loop treats the two alike. The output of the fold is the ordered list of
    batches handed to `send_bulk` together with the batch still being filled. */
module Aggregator {
  import opened Messages

  /** What one call of `recv_timeout` returns. */
  datatype Event<V> = Reading(reading: SensorReading<V>) | RecvErr

  /** Which branch of the inner loop closed a batch: the push that made it
      `batch_size` long, or a receive error. The program does not record this;
      the model keeps it so that properties can name the trigger. */
  datatype Trigger = SizeFull | Idle

  /** One call of `send_bulk`: the batch it was given, and what closed it. */
  datatype Emission<V> = Emission(batch: seq<Message<V>>, trigger: Trigger)

  /** The open batch (`v` in the program) and every batch sent so far, in order. */
  datatype State<V> = State(open: seq<Message<V>>, sent: seq<Emission<V>>)

  /** The messages an event appends to the open batch. */
  function EventMessages<V>(e: Event<V>): seq<Message<V>>
  {
    match e
    case Reading(r) => [ToMessage(r)]
    case RecvErr => []
  }

  /** The readings of an event sequence, in arrival order. */
  function Readings<V>(evs: seq<Event<V>>): seq<SensorReading<V>>
  {
    if evs == [] then []
    else
      var init := Readings(evs[..|evs| - 1]);
      match evs[|evs| - 1]
      case Reading(r) => init + [r]
      case RecvErr => init
  }

  /** All messages sent, batch after batch, in emission order. */
  function Flatten<V>(es: seq<Emission<V>>): seq<Message<V>>
  {
    if es == [] then [] else Flatten(es[..|es| - 1]) + es[|es| - 1].batch
  }

  /** The payloads handed to `send_bulk`, in order. */
  function Batches<V>(es: seq<Emission<V>>): seq<seq<Message<V>>>
  {
    seq(|es|, i requires 0 <= i < |es| => es[i].batch)
  }

  /** One iteration of the inner loop, followed (when the inner loop breaks)
      by the conditional `send_bulk` of the outer loop. */
  function Step<V>(batchSize: nat, s: State<V>, e: Event<V>): (t: State<V>)
    // one receive appends at most one send and leaves earlier sends alone;
    // `StepSpec` states the rest
    ensures |s.sent| <= |t.sent| <= |s.sent| + 1 && t.sent[..|s.sent|] == s.sent
  {
    match e
    case Reading(r) =>
      var v := s.open + [ToMessage(r)];
      if |v| == batchSize then State([], s.sent + [Emission(v, SizeFull)])
      else State(v, s.sent)
    case RecvErr =>
      if |s.open| > 0 then State([], s.sent + [Emission(s.open, Idle)])
      else State([], s.sent)
  }

  /** What one step promises. */
  lemma StepSpec<V>(batchSize: nat, s: State<V>, e: Event<V>)
    ensures var t := Step(batchSize, s, e);
      // sent batches are never changed or withdrawn, and at most one is added
      && |s.sent| <= |t.sent| <= |s.sent| + 1
      && t.sent[..|s.sent|] == s.sent
      // nothing is lost, duplicated or reordered
      && Flatten(t.sent) + t.open == Flatten(s.sent) + s.open + EventMessages(e)
      // a receive error closes the batch, and sends it exactly when it is non-empty
      && (e.RecvErr? ==> t.open == [] && (|t.sent| > |s.sent| <==> s.open != []))
      // a reading sends exactly when the push brings the batch to batch_size
      && (e.Reading? ==> (|t.sent| > |s.sent| <==> |s.open| + 1 == batchSize))
      // a sent batch is non-empty, leaves an empty open batch behind, holds the
      // open batch plus the event's message, and records its trigger
      && (|t.sent| > |s.sent| ==>
            && t.open == []
            && t.sent[|s.sent|].batch == s.open + EventMessages(e)
            && t.sent[|s.sent|].batch != []
            && (t.sent[|s.sent|].trigger == SizeFull <==> e.Reading?))
  {
  }

  /** The aggregator after observing `evs`, starting from an empty open batch
      and no sends. */
  function Run<V>(batchSize: nat, evs: seq<Event<V>>): (r: State<V>)
    // at most one send per receive; `RunInvariant` and the lemmas below state the rest
    ensures |r.sent| <= |evs|
    decreases |evs|
  {
    if evs == [] then State([], [])
    else Step(batchSize, Run(batchSize, evs[..|evs| - 1]), evs[|evs| - 1])
  }

  /** What holds after any sequence of events, besides the bound on sends that
      `Run` states: every sent batch is non-empty, and the open batch stays below
      the size trigger unless the trigger is off (`batch_size == 0`). */
  lemma {:induction false} RunInvariant<V>(batchSize: nat, evs: seq<Event<V>>)
    ensures forall i :: 0 <= i < |Run(batchSize, evs).sent| ==> Run(batchSize, evs).sent[i].batch != []
    ensures batchSize == 0 || |Run(batchSize, evs).open| < batchSize
    decreases |evs|
  {
    if evs != [] {
      RunInvariant(batchSize, evs[..|evs| - 1]);
    }
  }

  /** Unfolds `Run` by one event at the end. */
  lemma RunSnoc<V>(batchSize: nat, evs: seq<Event<V>>, e: Event<V>)
    ensures Run(batchSize, evs + [e]) == Step(batchSize, Run(batchSize, evs), e)
  {
  }

  /** Unfolds `Run` at position `i` of the event sequence. */
  lemma RunAt<V>(batchSize: nat, evs: seq<Event<V>>, i: nat)
    requires i < |evs|
    ensures Run(batchSize, evs[..i + 1]) == Step(batchSize, Run(batchSize, evs[..i]), evs[i])
  {
    assert evs[..i + 1][..i] == evs[..i];
  }

  /** Order and no loss: the sent batches, concatenated in emission order and
      followed by the open batch, are exactly the mapped readings in arrival
      order. In particular no message is in two batches. */
  lemma {:induction false} RunConservation<V>(batchSize: nat, evs: seq<Event<V>>)
    ensures Flatten(Run(batchSize, evs).sent) + Run(batchSize, evs).open
            == MapReadings(Readings(evs))
    decreases |evs|
  {
    if evs != [] {
      var init := evs[..|evs| - 1];
      var e := evs[|evs| - 1];
      RunConservation(batchSize, init);
      MapReadingsAppend(Readings(init), Readings([e]));
      match e
      case Reading(r) =>
        assert Readings([e]) == [r];
        assert MapReadings([r]) == EventMessages(e);
      case RecvErr =>
        assert Readings([e]) == [];
    }
  }

  /** Every batch passed to `send_bulk` is non-empty and, for a positive
      `batch_size`, at most `batch_size` long. */
  lemma {:induction false} RunBatchBounds<V>(batchSize: nat, evs: seq<Event<V>>)
    ensures forall i :: 0 <= i < |Run(batchSize, evs).sent| ==>
              1 <= |Run(batchSize, evs).sent[i].batch|
              && (batchSize >= 1 ==> |Run(batchSize, evs).sent[i].batch| <= batchSize)
    decreases |evs|
  {
    if evs != [] {
      RunBatchBounds(batchSize, evs[..|evs| - 1]);
      RunInvariant(batchSize, evs[..|evs| - 1]);
    }
  }

  /** A batch is closed by the size trigger exactly when it is `batch_size`
      long; every shorter batch was closed by a receive error. */
  lemma {:induction false} RunTriggers<V>(batchSize: nat, evs: seq<Event<V>>)
    ensures forall i :: 0 <= i < |Run(batchSize, evs).sent| ==>
              (Run(batchSize, evs).sent[i].trigger == SizeFull
               <==> |Run(batchSize, evs).sent[i].batch| == batchSize)
    decreases |evs|
  {
    if evs != [] {
      RunTriggers(batchSize, evs[..|evs| - 1]);
      RunInvariant(batchSize, evs[..|evs| - 1]);
    }
  }

  /** What happens at the `i`-th receive. The size trigger fires immediately:
      a reading that fills the batch causes a send before any further receive.
      A send of a batch shorter than `batch_size` happens only at a receive
      error, and an error while the open batch is empty sends nothing. */
  lemma EmissionAt<V>(batchSize: nat, evs: seq<Event<V>>, i: nat)
    requires i < |evs|
    ensures var s, t := Run(batchSize, evs[..i]), Run(batchSize, evs[..i + 1]);
            && (evs[i].Reading? && |s.open| + 1 == batchSize ==>
                  t.sent == s.sent + [Emission(s.open + [ToMessage(evs[i].reading)], SizeFull)])
            && (|t.sent| > |s.sent| && |t.sent[|s.sent|].batch| < batchSize ==> evs[i].RecvErr?)
            && (evs[i].RecvErr? && s.open == [] ==> t == s)
  {
    RunAt(batchSize, evs, i);
  }

  /** Batches already sent are never changed: the sends after a prefix of the
      events extend the sends after it. */
  lemma {:induction false} RunPrefix<V>(batchSize: nat, evs: seq<Event<V>>, k: nat)
    requires k <= |evs|
    ensures |Run(batchSize, evs[..k]).sent| <= |Run(batchSize, evs).sent|
    ensures Run(batchSize, evs).sent[..|Run(batchSize, evs[..k]).sent|]
            == Run(batchSize, evs[..k]).sent
    decreases |evs|
  {
    if k == |evs| {
      assert evs[..k] == evs;
    } else {
      var init := evs[..|evs| - 1];
      assert init[..k] == evs[..k];
      RunPrefix(batchSize, init, k);
      var a, b, c := Run(batchSize, evs[..k]).sent, Run(batchSize, init).sent,
                     Run(batchSize, evs).sent;
      assert c[..|b|] == b && b[..|a|] == a;
      assert c[..|a|] == c[..|b|][..|a|];
    }
  }

  /** Only receive errors, however many: nothing is ever sent. */
  lemma {:induction false} RunOnlyErrors<V>(batchSize: nat, evs: seq<Event<V>>)
    requires forall i :: 0 <= i < |evs| ==> evs[i].RecvErr?
    ensures Run(batchSize, evs) == State([], [])
    decreases |evs|
  {
    if evs != [] {
      RunOnlyErrors(batchSize, evs[..|evs| - 1]);
    }
  }

  /** `k` consecutive receive errors. */
  function Errors<V>(k: nat): (evs: seq<Event<V>>)
    ensures |evs| == k
    ensures forall i :: 0 <= i < k ==> evs[i] == RecvErr
  {
    if k == 0 then [] else Errors(k - 1) + [RecvErr]
  }

  /** A disconnected channel makes every later receive fail. The first failure
      sends the open batch if it is non-empty; later failures send nothing and
      the open batch stays empty, so no message is left unsent. */
  lemma {:induction false} DisconnectFlushes<V>(batchSize: nat, evs: seq<Event<V>>, k: nat)
    requires k >= 1
    ensures var s := Run(batchSize, evs);
            Run(batchSize, evs + Errors(k))
            == State([], s.sent + (if s.open == [] then [] else [Emission(s.open, Idle)]))
  {
    if k == 1 {
      assert Errors<V>(1) == [RecvErr];
      RunSnoc(batchSize, evs, RecvErr);
    } else {
      DisconnectFlushes(batchSize, evs, k - 1);
      assert evs + Errors(k) == (evs + Errors(k - 1)) + [RecvErr];
      RunSnoc(batchSize, evs + Errors(k - 1), RecvErr);
    }
  }

  /** Unique quotient and remainder. */
  lemma DivModUnique(n: int, d: int, q: int, r: int)
    requires d > 0 && 0 <= r < d && n == q * d + r
    ensures n / d == q && n % d == r
  {
    var q', r' := n / d, n % d;
    assert (q - q') * d == r' - r;
    if q > q' {
      MulAtLeast(q - q', d);
    } else if q < q' {
      assert (q' - q) * d == r - r';
      MulAtLeast(q' - q, d);
    }
  }

  /** A positive multiple of `d` is at least `d`. */
  lemma MulAtLeast(k: int, d: int)
    requires k >= 1 && d > 0
    ensures k * d >= d
  {
  }

  /** How quotient and remainder move when the dividend grows by one. */
  lemma DivModSucc(n: nat, d: nat)
    requires d >= 1
    ensures n % d + 1 == d ==> (n + 1) / d == n / d + 1 && (n + 1) % d == 0
    ensures n % d + 1 < d ==> (n + 1) / d == n / d && (n + 1) % d == n % d + 1
  {
    var q, r := n / d, n % d;
    assert n == q * d + r;
    if r + 1 == d {
      assert n + 1 == (q + 1) * d + 0;
      DivModUnique(n + 1, d, q + 1, 0);
    } else {
      DivModUnique(n + 1, d, q, r + 1);
    }
  }

  /** Without receive errors, the readings are cut into consecutive batches of
      exactly `batch_size`, all closed by the size trigger; the open batch
      holds the `|evs| % batch_size` readings that are left. */
  lemma {:induction false} RunOnlyReadings<V>(batchSize: nat, evs: seq<Event<V>>)
    requires batchSize >= 1
    requires forall i :: 0 <= i < |evs| ==> evs[i].Reading?
    ensures |Run(batchSize, evs).sent| == |evs| / batchSize
    ensures |Run(batchSize, evs).open| == |evs| % batchSize
    ensures forall i :: 0 <= i < |Run(batchSize, evs).sent| ==>
              Run(batchSize, evs).sent[i].trigger == SizeFull
              && |Run(batchSize, evs).sent[i].batch| == batchSize
    decreases |evs|
  {
    if evs != [] {
      var n := |evs|;
      var init := evs[..n - 1];
      RunOnlyReadings(batchSize, init);
      DivModSucc(n - 1, batchSize);
      assert Run(batchSize, evs) == Step(batchSize, Run(batchSize, init), evs[n - 1]);
    }
  }

  /** Products used to locate a batch in the flattened stream. */
  lemma MulFacts(i: nat, n: nat, d: nat)
    requires i < n
    ensures (i + 1) * d <= n * d
    ensures (n - 1) * d + d == n * d
    ensures i * d + d == (i + 1) * d
  {
  }

  /** Batches of one common length `d` flatten to `|es| * d` messages. */
  lemma {:induction false} FlattenUniformLength<V>(es: seq<Emission<V>>, d: nat)
    requires forall k :: 0 <= k < |es| ==> |es[k].batch| == d
    ensures |Flatten(es)| == |es| * d
    decreases |es|
  {
    if es != [] {
      var n := |es|;
      FlattenUniformLength(es[..n - 1], d);
      MulFacts(n - 1, n, d);
    }
  }

  /** Slicing a concatenation inside its first part. */
  lemma SliceLeft<T>(a: seq<T>, b: seq<T>, lo: nat, hi: nat)
    requires lo <= hi <= |a|
    ensures (a + b)[lo..hi] == a[lo..hi]
  {
  }

  /** Batch `i` sits in the flattened stream right after the batches before
      it. */
  lemma {:induction false} FlattenSliceAt<V>(es: seq<Emission<V>>, i: nat)
    requires i < |es|
    ensures |Flatten(es[..i])| + |es[i].batch| == |Flatten(es[..i + 1])| <= |Flatten(es)|
    ensures Flatten(es)[|Flatten(es[..i])|..|Flatten(es[..i + 1])|] == es[i].batch
    decreases |es|
  {
    var n := |es|;
    var init := es[..n - 1];
    var f0, last := Flatten(init), es[n - 1].batch;
    assert Flatten(es) == f0 + last;
    assert es[..i + 1][..i] == es[..i];
    if i < n - 1 {
      assert init[..i] == es[..i] && init[..i + 1] == es[..i + 1] && init[i] == es[i];
      FlattenSliceAt(init, i);
      SliceLeft(f0, last, |Flatten(es[..i])|, |Flatten(es[..i + 1])|);
    } else {
      assert es[..i] == init && es[..i + 1] == es;
      assert (f0 + last)[|f0|..|f0| + |last|] == last;
    }
  }

  /** Uniform batches followed by a remainder: batch `i` is the `i`-th
      `d`-long slice of the whole. */
  lemma UniformSliceAt<V>(es: seq<Emission<V>>, rest: seq<Message<V>>, d: nat, i: nat)
    requires forall k :: 0 <= k < |es| ==> |es[k].batch| == d
    requires i < |es|
    ensures (i + 1) * d <= |Flatten(es) + rest|
    ensures es[i].batch == (Flatten(es) + rest)[i * d..(i + 1) * d]
  {
    FlattenSliceAt(es, i);
    FlattenUniformLength(es[..i], d);
    FlattenUniformLength(es[..i + 1], d);
    SliceLeft(Flatten(es), rest, |Flatten(es[..i])|, |Flatten(es[..i + 1])|);
  }

  /** Without receive errors, the `i`-th batch sent is exactly the `i`-th
      `batch_size`-long slice of the mapped readings. (By `RunConservation`
      the open batch is the tail that follows the last slice, and by
      `RunOnlyReadings` it is `|evs| % batch_size` long.) */
  lemma RunOnlyReadingsBatchAt<V>(batchSize: nat, evs: seq<Event<V>>, i: nat)
    requires batchSize >= 1
    requires forall k :: 0 <= k < |evs| ==> evs[k].Reading?
    requires i < |Run(batchSize, evs).sent|
    ensures (i + 1) * batchSize <= |MapReadings(Readings(evs))|
    ensures Run(batchSize, evs).sent[i].batch
            == MapReadings(Readings(evs))[i * batchSize..(i + 1) * batchSize]
  {
    var s := Run(batchSize, evs);
    assert forall k :: 0 <= k < |s.sent| ==> |s.sent[k].batch| == batchSize by {
      RunOnlyReadings(batchSize, evs);
    }
    assert MapReadings(Readings(evs)) == Flatten(s.sent) + s.open by {
      RunConservation(batchSize, evs);
    }
    UniformSliceAt(s.sent, s.open, batchSize, i);
  }

  /** With `batch_size == 0` (which the program does not reject) the size
      trigger can never fire: every send follows a receive error, and a stream
      without errors is never sent at all. */
  lemma {:induction false} ZeroBatchSize<V>(evs: seq<Event<V>>)
    ensures forall i :: 0 <= i < |Run(0, evs).sent| ==> Run(0, evs).sent[i].trigger == Idle
    ensures (forall i :: 0 <= i < |evs| ==> evs[i].Reading?) ==> Run(0, evs).sent == []
    decreases |evs|
  {
    if evs != [] {
      ZeroBatchSize(evs[..|evs| - 1]);
    }
  }

  /** Size trigger, concretely: with `batch_size == 3`, three readings in a
      row are sent as one batch of three, in arrival order, and the next batch
      starts empty. */
  lemma SizeTriggerExample<V>(r1: SensorReading<V>, r2: SensorReading<V>, r3: SensorReading<V>)
    ensures Run(3, [Reading(r1), Reading(r2), Reading(r3)])
            == State([], [Emission([ToMessage(r1), ToMessage(r2), ToMessage(r3)], SizeFull)])
  {
    var m1, m2, m3 := ToMessage(r1), ToMessage(r2), ToMessage(r3);
    RunSnoc(3, [], Reading(r1));
    assert [] + [Reading(r1)] == [Reading(r1)];
    assert Run(3, [Reading(r1)]) == State([m1], []);
    RunSnoc(3, [Reading(r1)], Reading(r2));
    assert [Reading(r1)] + [Reading(r2)] == [Reading(r1), Reading(r2)];
    assert Run(3, [Reading(r1), Reading(r2)]) == State([m1, m2], []);
    RunSnoc(3, [Reading(r1), Reading(r2)], Reading(r3));
    assert [Reading(r1), Reading(r2)] + [Reading(r3)] == [Reading(r1), Reading(r2), Reading(r3)];
    assert [m1, m2] + [m3] == [m1, m2, m3];
  }

  /** Idle trigger, concretely: with `batch_size == 10`, two readings followed
      by a failed receive are sent as one batch of two. */
  lemma IdleTriggerExample<V>(r1: SensorReading<V>, r2: SensorReading<V>)
    ensures Run(10, [Reading(r1), Reading(r2), RecvErr])
            == State([], [Emission([ToMessage(r1), ToMessage(r2)], Idle)])
  {
    var m1, m2 := ToMessage(r1), ToMessage(r2);
    RunSnoc(10, [], Reading(r1));
    assert [] + [Reading(r1)] == [Reading(r1)];
    assert Run(10, [Reading(r1)]) == State([m1], []);
    RunSnoc(10, [Reading(r1)], Reading(r2));
    assert [Reading(r1)] + [Reading(r2)] == [Reading(r1), Reading(r2)];
    assert Run(10, [Reading(r1), Reading(r2)]) == State([m1, m2], []);
    RunSnoc(10, [Reading(r1), Reading(r2)], RecvErr);
    assert [Reading(r1), Reading(r2)] + [RecvErr] == [Reading(r1), Reading(r2), RecvErr];
  }
}
