# Eden sensor client: batch aggregator

This project models the batching core of the Eden sensor client (`src/client.rs`).
`SensorDataConsumer::attach` drains a channel of temperature/pressure readings.
It turns each reading into a wire `Message` and collects messages into a batch.
It hands a batch to `send_bulk` when a push makes the batch `batch_size` long
(the size trigger), or when `recv_timeout` fails (the idle trigger). An empty
batch is never sent.

The model is written in Dafny in four modules:

- `Messages` (`messages.dfy`): `SensorReading` and `Message`, the mapping between them, and the mapping of a whole stream.
- `Endpoint` (`endpoint.dfy`): the server endpoint and the URL path that `send_bulk` posts to.
- `Aggregator` (`aggregator.dfy`): the receive loop as a pure fold, `Run`, over events `Reading(r) | RecvErr`. One event is one call of `recv_timeout`. `Step` is one iteration of the inner loop, followed by the conditional send when the inner loop breaks. The state is the open batch (`v` in the program) and the ordered list of sends. Each send records its payload and a `Trigger` (`SizeFull` or `Idle`). The trigger exists only in the model, so that properties can name it.
- `Consumer` (`consumer.dfy`): `Attach`, the same loop written as the program's two nested loops. The inner loop is `FillBatch`. It is proved equal to the fold.

The sensor values are `f32` in the program. Nothing computes with them, so they are a type parameter `V`. Timestamps are `i64`, modelled as the subset type `Int64`.

Behaviour of the code worth knowing, which it does not guard against or which is easy to misread:

- A `batch_size` of 0 is not rejected. The test `v.len() == batch_size` can then never succeed after a push, so batches close only on receive errors (`ZeroBatchSize`).
- A disconnected channel does not end the loop. `recv_timeout` keeps failing, so the open batch is sent once and every later error sends nothing (`DisconnectFlushes`).
- `src/main.rs` declares its own `SensorReading` without `ts` and calls `attach` without a batch size. The model follows the `src/client.rs` version: `TemperaturePressure { t, p, ts }`, and `attach` takes an explicit `batch_size`.

## Model

| member | source | states |
|---|---|---|
| `Messages.ToMessage` | src/client.rs:133-141 | each reading yields exactly one message whose temp is the reading's t, whose pressure is its p and whose timestamp is its ts |
| `Messages.ToMessageRoundTrip` | src/client.rs:160-165 | the mapping loses nothing: turning a message back into a reading and mapping it again, or the other way round, gives back the original |
| `Messages.ToMessageInjective` | src/client.rs:133-141 | two different readings never map to the same message |
| `Messages.MapReadings` | src/client.rs:132-141 | a stream of readings maps to one message per reading, at the same position, so arrival order is kept |
| `Messages.MapReadingsAppend` | src/client.rs:131-141 | mapping a stream piece by piece gives the same messages as mapping it whole |
| `Endpoint.Path` | src/client.rs:93-95 | the Temperature endpoint resolves to the path "temperature", and every path is one non-empty relative segment that is not a dot segment and has no '/', '\\', '?', '#', ':', '%', space or control character |
| `Aggregator.Step` | src/client.rs:131-155 | one receive: push the mapped reading and close when the batch reaches batch_size, or close on a receive error; a closed non-empty batch is sent. Its contract states that one receive appends at most one send and leaves earlier sends unchanged; `StepSpec` states the rest |
| `Aggregator.Run` | src/client.rs:128-156 | the whole receive loop as a fold of `Step` over the receive results, starting from an empty batch and no sends. Its contract states at most one send per receive; `RunInvariant` and the lemmas below state the rest |
| `Aggregator.StepSpec` | src/client.rs:131-155 | one receive adds at most one send and never changes earlier sends. A reading sends exactly when its push makes the batch batch_size long. An error sends exactly when the batch is non-empty, and always leaves an empty batch. A send is never empty, carries the open batch plus the new message, and records its trigger. No message is lost or duplicated |
| `Aggregator.RunInvariant` | src/client.rs:128-155 | after any events: every send non-empty, and the open batch shorter than batch_size whenever batch_size is positive |
| `Aggregator.RunConservation` | src/client.rs:128-155 | all sends concatenated in send order, followed by the open batch, equal the mapped readings in arrival order, so no message is lost, duplicated or moved between batches |
| `Aggregator.RunBatchBounds` | src/client.rs:142-153 | every batch passed to send_bulk has length at least 1 and, when batch_size >= 1, at most batch_size |
| `Aggregator.RunTriggers` | src/client.rs:142-150 | a batch was closed by the size trigger if and only if it is batch_size long, so every shorter batch was closed by a receive error |
| `Aggregator.EmissionAt` | src/client.rs:142-153 | at the i-th receive: a reading that fills the batch sends it at once, before any further receive. A send shorter than batch_size happens only at a receive error. An error on an empty batch changes nothing |
| `Aggregator.RunPrefix` | src/client.rs:128-155 | sends are never withdrawn or changed: the sends after any prefix of the events are a prefix of the later sends |
| `Aggregator.RunOnlyErrors` | src/client.rs:145-153 | any number of receive errors with no reading sends nothing and leaves the open batch empty |
| `Aggregator.DisconnectFlushes` | src/client.rs:131-155 | once every receive fails, the first failure sends the open batch if it is non-empty, and all later failures send nothing |
| `Aggregator.RunOnlyReadings` | src/client.rs:142-144 | without receive errors, n readings give n / batch_size sends, each batch_size long and closed by the size trigger, and leave n % batch_size messages open |
| `Aggregator.RunOnlyReadingsBatchAt` | src/client.rs:129-144 | without receive errors, the i-th send is exactly the i-th batch_size-long slice of the mapped readings |
| `Aggregator.ZeroBatchSize` | src/client.rs:142-144 | with batch_size 0 the size trigger never fires: every send comes from a receive error, and a stream without errors is never sent |
| `Aggregator.SizeTriggerExample` | src/client.rs:142-144 | with batch_size 3, three readings are sent as one batch of three in arrival order, and the next batch starts empty |
| `Aggregator.IdleTriggerExample` | src/client.rs:145-153 | with batch_size 10, two readings followed by a failed receive are sent as one batch of two |
| `Consumer.Attach` | src/client.rs:122-157 | the nested receive loop hands to send_bulk exactly the batches of the fold and leaves its open batch. No send is empty, none is longer than batch_size when batch_size >= 1, and the sends followed by the open batch are the mapped readings in order |
| `Consumer.FillBatch` | src/client.rs:129-151 | the inner loop, started on an empty batch, stops at the first push that fills the batch or the first receive error: at every receive before that the batch was still open and non-empty. When it stops it agrees with the fold. If neither happens it runs to the end of the events and leaves the fold's open batch |

## Left out

- HTTP delivery in `send_bulk` (request building, headers, JSON body, `post()`, src/client.rs:96-118): network I/O through external libraries. A send is modelled as appending the payload to the list of sends.
- The `ThreadPool` of four workers and its fire-and-forget jobs (src/client.rs:82, 103): their point is concurrency. Delivery order and failures are not modelled.
- JWT creation in `Client::new` (src/client.rs:77-80) and `get_token` in src/auth.rs: calls into a cryptographic library.
- URL parsing and joining (src/client.rs:75, 99): library calls. `Endpoint.Path` states only the relative segment that is joined.
- The `join(&path).unwrap()` in `send_bulk` (src/client.rs:99): the model assumes this join succeeds, which it does for an `http`/`https` server address. `Url::parse` at line 75 also accepts addresses that cannot serve as a base, such as `localhost:6200/` (read as the scheme `localhost`) or `mailto:x`. With such an address the join fails and the `unwrap` panics on the consumer thread inside the first send, which ends the receive loop. This is not modelled: every send returns normally, and `Attach`, `RunPrefix` and `DisconnectFlushes` rely on that.
- The 90-second `recv_timeout` (src/client.rs:126): wall-clock time is replaced by the abstract `RecvErr` event. A timeout and a disconnected channel are the same event, as in the code.
- The `current_batch` counter (src/client.rs:124, 154): it is always 0 and only logged.
- `Vec::with_capacity(batch_size)` (src/client.rs:129): the model assumes this allocation succeeds. When `batch_size` times the size of a `Message` overflows `isize::MAX`, the call panics ("capacity overflow"); when the allocation fails, the process aborts. Either way the consumer thread dies before its first receive. The model takes `batch_size` as an unbounded natural number and does not model this failure.
- The program's loop never returns. The model observes a finite prefix of receive results, and `Attach` returns the batch that is still open at the end of that prefix.
- `EdenClientConfig` (src/client.rs:35-60), src/config.rs, src/main.rs and src/error.rs: configuration plumbing, hardware access, logging and the timer loop, with no batching logic.
- Any `f32` semantics: sensor values are an opaque type parameter.
