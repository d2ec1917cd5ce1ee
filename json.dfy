/** The Debezium change-event envelope and the handful of Jackson tree-node
    operations the three consumers apply to its `after` payload. */
module Json {
  import opened Java

  /** A field value of the `after` object, as a Jackson tree node. */
  datatype JVal =
    | JNull                          // NullNode: the field is present and JSON null
    | JInt(i: int)                   // IntNode, LongNode, BigIntegerNode
    | JFloat(x: real, text: string)  // DoubleNode, DecimalNode; `text` is the node's own rendering
    | JText(s: string)               // TextNode
    | JBool(b: bool)                 // BooleanNode
    | JContainer                     // a nested object or array

  /** The `after` object: field name to node. A field absent here is one that
      `has` reports missing. */
  type Payload = map<string, JVal>

  /** DebeziumMessage: the operation code and the post-change row; `before`
      is never read. None stands for a missing or null field. */
  datatype Envelope = Envelope(op: Option<string>, after: Option<Payload>)

  /** Double.parseDouble as an oracle: None where it throws
      NumberFormatException. */
  type DoubleParser = string -> Option<real>

  predicate IsNumber(v: JVal) {
    v.JInt? || v.JFloat?
  }

  /** JsonNode.asText. */
  function AsText(v: JVal): string {
    match v
    case JNull => "null"
    case JInt(i) => DecimalString(i)
    case JFloat(_, text) => text
    case JText(s) => s
    case JBool(b) => if b then "true" else "false"
    case JContainer => ""
  }

  /** JsonNode.asLong (and asInt, which differs only in width): numbers are
      truncated, text goes through the lenient number parser with 0 as the
      default, booleans give 1 or 0, everything else 0. */
  function AsLong(v: JVal, parseDouble: DoubleParser): int {
    match v
    case JInt(i) => i
    case JFloat(x, _) => Trunc(x)
    case JText(s) => (match parseDouble(s) case Some(x) => Trunc(x) case None => 0)
    case JBool(b) => if b then 1 else 0
    case JNull => 0
    case JContainer => 0
  }

  /** JsonNode.asDouble, with the same defaults as AsLong. */
  function AsDouble(v: JVal, parseDouble: DoubleParser): real {
    match v
    case JInt(i) => i as real
    case JFloat(x, _) => x
    case JText(s) => parseDouble(s).GetOr(0.0)
    case JBool(b) => if b then 1.0 else 0.0
    case JNull => 0.0
    case JContainer => 0.0
  }

  /** asLong agrees with the truncation of asDouble on every node kind. */
  lemma AsLongTruncatesAsDouble(v: JVal, parseDouble: DoubleParser)
    ensures AsLong(v, parseDouble) == Trunc(AsDouble(v, parseDouble))
  {
    match v
    case JInt(i) =>
      assert Trunc(i as real) == i;
    case JText(s) =>
      if parseDouble(s).None? {
        assert Trunc(0.0) == 0;
      }
    case JBool(b) =>
      assert Trunc(1.0) == 1 && Trunc(0.0) == 0;
    case JNull =>
      assert Trunc(0.0) == 0;
    case JContainer =>
      assert Trunc(0.0) == 0;
    case JFloat(_, _) =>
  }

  /** The text of an integer node reads back as that integer. */
  lemma AsTextOfInteger(v: JVal)
    requires v.JInt?
    ensures var t := AsText(v); t != [] && (t[0] == '-' || IsDigit(t[0])) && DecimalValue(t) == v.i
  {
    DecimalRoundTrip(v.i);
  }

  /** `node.has(f) && !node.get(f).isNull()`. */
  predicate HasValue(p: Payload, f: string) {
    f in p && !p[f].JNull?
  }

  /** The consumers' getStringValue: the text of a present, non-null field,
      null otherwise. */
  function StringValue(p: Payload, f: string): (r: Option<string>)
    ensures r.Some? <==> HasValue(p, f)
    ensures r.Some? ==> r.value == AsText(p[f])
  {
    if HasValue(p, f) then Some(AsText(p[f])) else None
  }

  /** The consumers' getDoubleValue: 0.0 for a missing or null field. */
  function DoubleValue(p: Payload, f: string, parseDouble: DoubleParser): (r: real)
    ensures !HasValue(p, f) ==> r == 0.0
    ensures HasValue(p, f) && p[f].JFloat? ==> r == p[f].x
    ensures HasValue(p, f) && p[f].JInt? ==> r == p[f].i as real
  {
    if HasValue(p, f) then AsDouble(p[f], parseDouble) else 0.0
  }

  /** The consumers' getIntValue: 0 for a missing or null field. */
  function IntValue(p: Payload, f: string, parseDouble: DoubleParser): (r: int)
    ensures !HasValue(p, f) ==> r == 0
    ensures HasValue(p, f) && p[f].JInt? ==> r == p[f].i
  {
    if HasValue(p, f) then AsLong(p[f], parseDouble) else 0
  }

  /** The "id can be number or string" coercion shared by the three
      consumers: a number becomes the decimal string of its long value,
      anything else (JSON null included) its text, and a missing field gives
      null. */
  function IdValue(p: Payload, f: string): (r: Option<string>)
    ensures r.None? <==> f !in p
    ensures f in p && p[f].JInt? ==> r == Some(DecimalString(p[f].i))
    ensures f in p && p[f].JText? ==> r == Some(p[f].s)
    ensures f in p && p[f].JFloat? ==> r == Some(DecimalString(Trunc(p[f].x)))
    ensures f in p && !IsNumber(p[f]) ==> r == Some(AsText(p[f]))
    ensures f in p && p[f].JNull? ==> r == Some("null")
    ensures f in p && IsNumber(p[f]) ==> r.value != ""
  {
    if f !in p then None
    else if p[f].JInt? then Some(DecimalString(p[f].i))
    else if p[f].JFloat? then Some(DecimalString(Trunc(p[f].x)))
    else Some(AsText(p[f]))
  }

  // ---------------------------------------------------------------------------
  // The envelope gate shared by the three consumers.

  datatype SkipReason = IgnoredOp | NullAfter | MissingId

  /** What one change event asks of the store. */
  datatype Action<+T> = Skip(reason: SkipReason) | Upsert(record: T)

  /** Create, update and snapshot-read are the only operations acted on. */
  predicate IsUpsertOp(op: Option<string>) {
    op == Some("c") || op == Some("u") || op == Some("r")
  }

  /** The op filter and the null-`after` check every consumer applies first. */
  function Gate(msg: Envelope): (a: Action<Payload>)
    ensures a.Upsert? <==> IsUpsertOp(msg.op) && msg.after.Some?
    ensures a.Upsert? ==> a.record == msg.after.value
    ensures !IsUpsertOp(msg.op) ==> a == Skip(IgnoredOp)
    ensures IsUpsertOp(msg.op) && msg.after.None? ==> a == Skip(NullAfter)
  {
    if !IsUpsertOp(msg.op) then Skip(IgnoredOp)
    else if msg.after.None? then Skip(NullAfter)
    else Upsert(msg.after.value)
  }
}
