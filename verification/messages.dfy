/** Sensor readings and the wire messages they become (src/client.rs).

    The sensor values are `f32` in the program, but nothing computes with them:
    they are only copied from a reading into a message. They are therefore a type
    parameter `V` throughout. The timestamp is a signed 64-bit integer. */
module Messages {

  /** The values of Rust's `i64`. */
  type Int64 = x: int | -0x8000_0000_0000_0000 <= x < 0x8000_0000_0000_0000

  /** One combined temperature/pressure sample with its timestamp. */
  datatype SensorReading<V> = TemperaturePressure(t: V, p: V, ts: Int64)

  /** The wire shape of one reading, as serialised into a batch. */
  datatype Message<V> = Message(temp: V, pressure: V, timestamp: Int64)

  /** Each reading becomes exactly one message that carries its two values and
      its timestamp unchanged. */
  function ToMessage<V>(r: SensorReading<V>): (m: Message<V>)
    ensures m.temp == r.t && m.pressure == r.p && m.timestamp == r.ts
  {
    match r
    case TemperaturePressure(t, p, ts) => Message(t, p, ts)
  }

  /** The reading a message was made from; the inverse of `ToMessage`. */
  function FromMessage<V>(m: Message<V>): SensorReading<V>
  {
    TemperaturePressure(m.temp, m.pressure, m.timestamp)
  }

  /** The mapping loses nothing: it is a bijection between readings and messages. */
  lemma ToMessageRoundTrip<V>(r: SensorReading<V>, m: Message<V>)
    ensures FromMessage(ToMessage(r)) == r
    ensures ToMessage(FromMessage(m)) == m
  {
  }

  /** Two readings that map to the same message are the same reading. */
  lemma ToMessageInjective<V>(r1: SensorReading<V>, r2: SensorReading<V>)
    requires ToMessage(r1) == ToMessage(r2)
    ensures r1 == r2
  {
  }

  /** Maps a sequence of readings one by one, keeping their order. */
  function MapReadings<V>(rs: seq<SensorReading<V>>): (ms: seq<Message<V>>)
    ensures |ms| == |rs|
    ensures forall i :: 0 <= i < |rs| ==> ms[i] == ToMessage(rs[i])
  {
    if rs == [] then [] else [ToMessage(rs[0])] + MapReadings(rs[1..])
  }

  /** Mapping distributes over concatenation, so a stream can be mapped piecewise. */
  lemma MapReadingsAppend<V>(a: seq<SensorReading<V>>, b: seq<SensorReading<V>>)
    ensures MapReadings(a + b) == MapReadings(a) + MapReadings(b)
  {
  }
}
