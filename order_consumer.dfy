/** OrderConsumer.consume: an order change event becomes either nothing or
    one upsertOrder call. */
module OrderConsumer {
  import opened Java
  import opened Time
  import opened Json
  import opened Entities
  import opened EntityStore
  import opened Service

  /** Instant.parse as an oracle: None where it throws. */
  type InstantParser = string -> Option<Instant>

  const MicrosPerSecond: int := 1_000_000

  /** `Instant.ofEpochSecond(micros / 1_000_000, (micros % 1_000_000) * 1_000)`
      with Java's truncating division and remainder. */
  function OfEpochMicros(micros: int): Instant {
    OfEpochSecond(JDiv(micros, MicrosPerSecond), JRem(micros, MicrosPerSecond) * 1000)
  }

  /** The conversion is exact for every sign: the instant lies `micros`
      microseconds from the epoch. */
  lemma OfEpochMicrosExact(micros: int)
    ensures EpochNanos(OfEpochMicros(micros)) == micros * 1000
    ensures 0 <= OfEpochMicros(micros).nano < NanosPerSecond
  {
    var q, r := JDiv(micros, MicrosPerSecond), JRem(micros, MicrosPerSecond);
    assert q * MicrosPerSecond + r == micros;
    assert q * NanosPerSecond + r * 1000 == micros * 1000;
  }

  /** For a non-negative timestamp the split is the plain one: whole seconds,
      and a nano part that is a multiple of 1000 no larger than 999_999_000. */
  lemma OfEpochMicrosSplit(micros: int)
    requires micros >= 0
    ensures var t := OfEpochMicros(micros);
      && t.epochSecond == micros / MicrosPerSecond
      && t.nano == (micros % MicrosPerSecond) * 1000
      && t.nano % 1000 == 0 && 0 <= t.nano <= 999_999_000
      && t.epochSecond * MicrosPerSecond + t.nano / 1000 == micros
  {
    var r := JRem(micros, MicrosPerSecond);
    assert 0 <= r < MicrosPerSecond;
    assert 0 <= r * 1000 < NanosPerSecond;
    assert JDiv(micros, MicrosPerSecond) == micros / MicrosPerSecond;
  }

  /** Later timestamps give later instants. */
  lemma OfEpochMicrosMonotone(a: int, b: int)
    requires a <= b
    ensures EpochNanos(OfEpochMicros(a)) <= EpochNanos(OfEpochMicros(b))
  {
    OfEpochMicrosExact(a);
    OfEpochMicrosExact(b);
  }

  /** The createdAt fallback chain: `order_ts` when present and not null,
      else the parsed `created_at` when present and not null (`now` if it does
      not parse), else `now`. */
  function CreatedAt(p: Payload, parseDouble: DoubleParser, parseInstant: InstantParser, now: Instant): Instant {
    if HasValue(p, "order_ts") then OfEpochMicros(AsLong(p["order_ts"], parseDouble))
    else if HasValue(p, "created_at") then parseInstant(StringValue(p, "created_at").value).GetOr(now)
    else now
  }

  lemma CreatedAtChain(p: Payload, parseDouble: DoubleParser, parseInstant: InstantParser, now: Instant)
    ensures HasValue(p, "order_ts") && p["order_ts"].JInt? ==>
      EpochNanos(CreatedAt(p, parseDouble, parseInstant, now)) == p["order_ts"].i * 1000
    ensures !HasValue(p, "order_ts") && HasValue(p, "created_at") ==>
      var parsed := parseInstant(AsText(p["created_at"]));
      CreatedAt(p, parseDouble, parseInstant, now) == (if parsed.Some? then parsed.value else now)
    ensures !HasValue(p, "order_ts") && !HasValue(p, "created_at") ==>
      CreatedAt(p, parseDouble, parseInstant, now) == now
  {
    if HasValue(p, "order_ts") && p["order_ts"].JInt? {
      OfEpochMicrosExact(p["order_ts"].i);
    }
  }

  /** `total_amount` when present (0.0 when present but null), else 0.0. */
  function TotalAmount(p: Payload, parseDouble: DoubleParser): (r: real)
    ensures !HasValue(p, "total_amount") ==> r == 0.0
    ensures HasValue(p, "total_amount") ==> r == DoubleValue(p, "total_amount", parseDouble)
    ensures "total_amount" in p && p["total_amount"].JFloat? ==> r == p["total_amount"].x
    ensures "total_amount" in p && p["total_amount"].JInt? ==> r == p["total_amount"].i as real
  {
    if "total_amount" in p then DoubleValue(p, "total_amount", parseDouble) else 0.0
  }

  /** The decision consume takes: the envelope gate, the order the setters
      build, then the null-or-empty id guard. */
  function Normalize(msg: Envelope, parseDouble: DoubleParser, parseInstant: InstantParser, now: Instant): (a: Action<Order>)
    ensures a.Upsert? <==>
      Gate(msg).Upsert? && IdValue(msg.after.value, "id").Some? && IdValue(msg.after.value, "id").value != ""
    ensures !IsUpsertOp(msg.op) ==> a == Skip(IgnoredOp)
    ensures IsUpsertOp(msg.op) && msg.after.None? ==> a == Skip(NullAfter)
    ensures IsUpsertOp(msg.op) && msg.after.Some? && !a.Upsert? ==> a == Skip(MissingId)
    ensures a.Upsert? ==> var p := msg.after.value;
      && a.record.id == IdValue(p, "id")
      && a.record.customerId == StringValue(p, "customer_id")
      && a.record.totalAmount == TotalAmount(p, parseDouble)
      && (!HasValue(p, "total_amount") ==> a.record.totalAmount == 0.0)
      && a.record.createdAt == Some(CreatedAt(p, parseDouble, parseInstant, now))
  {
    match Gate(msg)
    case Skip(reason) => Skip(reason)
    case Upsert(p) =>
      var order := Order(
        IdValue(p, "id"),
        StringValue(p, "customer_id"),
        TotalAmount(p, parseDouble),
        Some(CreatedAt(p, parseDouble, parseInstant, now)));
      if order.id.Some? && order.id.value != "" then Upsert(order) else Skip(MissingId)
  }

  /** consume: apply the decision to the store; nothing escapes. */
  method Consume(state: OrderState, msg: Envelope, parseDouble: DoubleParser, parseInstant: InstantParser, now: Instant)
    modifies state
    ensures var a := Normalize(msg, parseDouble, parseInstant, now);
      a.Upsert? ==> state.Model() == EntityStore.UpsertOrder(old(state.Model()), a.record)
    ensures Normalize(msg, parseDouble, parseInstant, now).Skip? ==> state.Model() == old(state.Model())
    ensures old(state.Valid()) ==> state.Valid()
  {
    var action := Normalize(msg, parseDouble, parseInstant, now);
    if action.Upsert? {
      state.UpsertOrder(action.record);
    }
  }

  /** A well-formed order row becomes the order it describes: the decimal
      id, the customer id, the total and the instant `order_ts` microseconds
      after the epoch. */
  lemma RowRoundTrip(op: string, id: int, customerId: string, total: real, totalText: string, micros: int,
                     parseDouble: DoubleParser, parseInstant: InstantParser, now: Instant)
    requires op in {"c", "u", "r"}
    ensures var p := map["id" := JInt(id), "customer_id" := JText(customerId),
                         "total_amount" := JFloat(total, totalText), "order_ts" := JInt(micros)];
      var a := Normalize(Envelope(Some(op), Some(p)), parseDouble, parseInstant, now);
      && a == Upsert(Order(Some(DecimalString(id)), Some(customerId), total, Some(OfEpochMicros(micros))))
      && EpochNanos(a.record.createdAt.value) == micros * 1000
  {
    OfEpochMicrosExact(micros);
  }

  /** A present but JSON-null `id` goes down the asText branch: the order is
      stored under the id "null". */
  lemma NullIdBecomesTextNull(op: string, p: Payload, parseDouble: DoubleParser, parseInstant: InstantParser, now: Instant)
    requires op in {"c", "u", "r"}
    requires "id" in p && p["id"] == JNull
    ensures var a := Normalize(Envelope(Some(op), Some(p)), parseDouble, parseInstant, now);
      a.Upsert? && a.record.id == Some("null")
  {
  }

  /** An absent or empty-text id is skipped. */
  lemma MissingIdSkips(op: string, p: Payload, parseDouble: DoubleParser, parseInstant: InstantParser, now: Instant)
    requires op in {"c", "u", "r"}
    requires "id" !in p || p["id"] == JText("")
    ensures Normalize(Envelope(Some(op), Some(p)), parseDouble, parseInstant, now) == Skip(MissingId)
  {
  }
}
