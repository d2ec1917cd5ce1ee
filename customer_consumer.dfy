/** CustomerConsumer.consume: a customer change event becomes either nothing
    or one upsertCustomer call. */
module CustomerConsumer {
  import opened Java
  import opened Json
  import opened Entities
  import opened EntityStore
  import opened Service

  /** The customer id: the text of `user_id` when it is present and not null,
      otherwise the id coercion of `id`; neither field gives null. */
  function CustomerId(p: Payload): Option<string> {
    if HasValue(p, "user_id") then Some(AsText(p["user_id"])) else IdValue(p, "id")
  }

  /** `(firstName + " " + lastName).trim()`, a missing or null half read as "". */
  function FullName(p: Payload): string {
    Trim(StringValue(p, "first_name").GetOr("") + " " + StringValue(p, "last_name").GetOr(""))
  }

  /** The decision consume takes: the envelope gate, then the customer the
      setters build, then the null-or-empty id guard. */
  function Normalize(msg: Envelope): (a: Action<Customer>)
    ensures a.Upsert? <==>
      Gate(msg).Upsert? && CustomerId(msg.after.value).Some? && CustomerId(msg.after.value).value != ""
    ensures !IsUpsertOp(msg.op) ==> a == Skip(IgnoredOp)
    ensures IsUpsertOp(msg.op) && msg.after.None? ==> a == Skip(NullAfter)
    ensures IsUpsertOp(msg.op) && msg.after.Some? && !a.Upsert? ==> a == Skip(MissingId)
    ensures a.Upsert? ==> var p := msg.after.value;
      && a.record.id == CustomerId(p)
      && a.record.name == FullName(p)
      && IsTrimmed(a.record.name)
      && (a.record.email.Some? <==> HasValue(p, "email"))
      && (a.record.email.Some? ==> a.record.email.value == AsText(p["email"]))
  {
    match Gate(msg)
    case Skip(reason) => Skip(reason)
    case Upsert(p) =>
      var customer := Customer(CustomerId(p), FullName(p), StringValue(p, "email"));
      if customer.id.Some? && customer.id.value != "" then Upsert(customer) else Skip(MissingId)
  }

  /** consume: apply the decision to the store; nothing escapes. */
  method Consume(state: OrderState, msg: Envelope)
    modifies state
    ensures Normalize(msg).Upsert? ==> state.Model() == EntityStore.UpsertCustomer(old(state.Model()), Normalize(msg).record)
    ensures Normalize(msg).Skip? ==> state.Model() == old(state.Model())
    ensures old(state.Valid()) ==> state.Valid()
  {
    var action := Normalize(msg);
    if action.Upsert? {
      state.UpsertCustomer(action.record);
    }
  }

  // ---------------------------------------------------------------------------
  // Properties of the id resolution.

  /** A present, non-null `user_id` decides the id whatever `id` holds. */
  lemma UserIdWins(p: Payload, id: JVal)
    requires HasValue(p, "user_id")
    ensures CustomerId(p["id" := id]) == CustomerId(p) == Some(AsText(p["user_id"]))
  {
  }

  /** An empty `user_id` does not fall back to `id`: the event is skipped. */
  lemma EmptyUserIdSkips(op: string, p: Payload)
    requires op in {"c", "u", "r"}
    requires "user_id" in p && p["user_id"] == JText("")
    ensures Normalize(Envelope(Some(op), Some(p))) == Skip(MissingId)
  {
    assert Gate(Envelope(Some(op), Some(p))) == Upsert(p);
    assert CustomerId(p) == Some("");
  }

  /** Without a usable `user_id`, a numeric `id` becomes its decimal string,
      so two numeric ids give the same key only when they are equal. */
  lemma NumericIdFallback(p: Payload, n: int, m: int)
    requires !HasValue(p, "user_id")
    ensures CustomerId(p["id" := JInt(n)]) == Some(DecimalString(n))
    ensures CustomerId(p["id" := JInt(n)]) == CustomerId(p["id" := JInt(m)]) ==> n == m
  {
    assert !HasValue(p["id" := JInt(n)], "user_id");
    assert !HasValue(p["id" := JInt(m)], "user_id");
    DecimalStringInjective(n, m);
  }

  /** A present but JSON-null `id` goes down the asText branch: the customer
      is stored under the id "null". */
  lemma NullIdBecomesTextNull(op: string, p: Payload)
    requires op in {"c", "u", "r"}
    requires !HasValue(p, "user_id") && "id" in p && p["id"] == JNull
    ensures var a := Normalize(Envelope(Some(op), Some(p)));
      a.Upsert? && a.record.id == Some("null")
  {
  }

  /** Neither `user_id` nor `id`: no id, no upsert. */
  lemma NoIdSkips(op: string, p: Payload)
    requires op in {"c", "u", "r"}
    requires !HasValue(p, "user_id") && "id" !in p
    ensures Normalize(Envelope(Some(op), Some(p))) == Skip(MissingId)
  {
    assert Gate(Envelope(Some(op), Some(p))) == Upsert(p);
    assert CustomerId(p).None?;
  }

  // ---------------------------------------------------------------------------
  // Properties of the name.

  /** With the halves as read (a missing or null half is ""): both present
      give "first last", one missing gives the other alone, both missing
      give "". */
  lemma FullNameCases(q: Payload, first: string, last: string)
    requires IsTrimmed(first) && IsTrimmed(last)
    requires StringValue(q, "first_name").GetOr("") == first
    requires StringValue(q, "last_name").GetOr("") == last
    ensures first != "" && last != "" ==> FullName(q) == first + " " + last
    ensures last == "" ==> FullName(q) == first
    ensures first == "" ==> FullName(q) == last
  {
    TrimJoin(first, last);
  }

  /** A well-formed snapshot row becomes the customer it describes: the
      user id as key, the joined name and the email. */
  lemma RowRoundTrip(op: string, userId: string, first: string, last: string, email: string)
    requires op in {"c", "u", "r"}
    requires userId != "" && IsTrimmed(first) && IsTrimmed(last) && first != "" && last != ""
    ensures var p := map["user_id" := JText(userId), "first_name" := JText(first),
                         "last_name" := JText(last), "email" := JText(email)];
      Normalize(Envelope(Some(op), Some(p))) == Upsert(Customer(Some(userId), first + " " + last, Some(email)))
  {
    var p := map["user_id" := JText(userId), "first_name" := JText(first),
                 "last_name" := JText(last), "email" := JText(email)];
    FullNameCases(p, first, last);
    assert Gate(Envelope(Some(op), Some(p))) == Upsert(p);
    assert CustomerId(p) == Some(userId);
    assert FullName(p) == first + " " + last;
    assert StringValue(p, "email") == Some(email);
  }
}
