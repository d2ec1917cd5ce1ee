# Globex order dashboard: a verified model of the materialised view

The dashboard consumes change events for three tables: customers, orders and
order line items. Each event is an envelope carrying an operation code and an
optional `after` row. It turns the events into an in-memory materialised view
(`OrderState`), which serves three read projections:

- recent orders, newest first, each with its customer's name;
- warehouse picking lists;
- a loyalty ranking by points.

This project models that core in Dafny and proves what it promises.

- **Normalisers.** `CustomerConsumer`, `OrderConsumer` and `LineItemConsumer`
  are pure functions from an envelope to an action: skip, or upsert this
  record. The action follows the same branches as each `consume`:
  - the op filter (`c`, `u`, `r`);
  - the null-`after` check;
  - `user_id`/`id` resolution;
  - numeric-to-decimal id coercion;
  - `present but JSON null` going down the `asText` branch;
  - the trimmed full name;
  - the microsecond timestamp split;
  - the `created_at`/now fallback chain;
  - the textual or numeric price;
  - the empty-id guard, which the line-item path does not have.

  `Consume` is a method that applies the action to an `OrderState` object.
- **Store.** `EntityStore` defines the store as a value: three maps keyed by
  a nullable id. It defines the three upserts as transitions and states the
  invariant they keep: a stored order with a non-empty line-item list
  carries Σ unitPrice × quantity of that list. It proves:
  - that invariant for every replay of events;
  - idempotence of every upsert;
  - independence of an order's total from whether the order or its items
    arrived first;
  - the exact effect of `upsertLineItem`. Its `removeIf` throws when an
    entry with a null id is already stored. The consumer swallows that
    exception, so the store stays as it was.
- **OrderState class.** Module `Service` holds the class. It has the three
  maps as fields and methods proved against those transitions. The loyalty
  computation keeps both of its loops:
  - a `merge` loop into a spend map;
  - a row-building loop.

  Both are proved against a spend function whose value does not depend on
  map iteration order. The result is one row per distinct customer id,
  ordered by points (a permutation, non-increasing).
- **Views.** The pure stream pipelines are functions of the store:
  - recent orders: filter, sort by `createdAt` with a missing one as the
    epoch, limit, join to names with "Unknown" as the default;
  - the order-customer-id set and its difference with the stored customers.
- **WarehouseView class.** Module `Warehouse` holds it. The class keeps
  `totalItems` equal to the sum of the item quantities through the
  constructor and `setItems`. `setTotalItems` can break that equality.
- **Scenarios.** Module `Scenarios` proves, for one worked ingestion of one
  customer, one order and two line items, what the normalisers, the store and
  the views give: an order total of 24.98 and 2498 loyalty points.

Java values are modelled as follows:

| Java | model |
|---|---|
| nullable strings and map keys | `Option<string>` |
| doubles | `real` |
| the `(long)` cast | `Trunc` (toward zero) |
| `/` and `%` | `JDiv` and `JRem` (truncating) |
| `Double.parseDouble`, `Instant.parse` | parameters returning `Option` (`None` where they throw) |
| `Instant.now()` | a parameter `now` |
| HashMap iteration order | an arbitrary enumeration `ks` of the keys, or a `:|` choice |

Three behaviours of the code are easy to mistake, and the model follows the
code in each:

- loyalty points are `(long)(totalSpend * 100)`, a truncation, not a rounding;
- the store itself rejects no id. The customer and order consumers skip a
  null or empty id, but the line-item consumer has no guard;
- an order or line item without an `id` field gets a null id, not an empty one.

## Model

| member | source | states |
|---|---|---|
| Java.Trim | src/main/java/com/globex/dashboard/messaging/CustomerConsumer.java:68 | `String.trim` gives a string with no trimmable character at either end, and leaves such a string as it is |
| Java.TrimIsSlice | src/main/java/com/globex/dashboard/messaging/CustomerConsumer.java:68 | the trimmed string is one slice of the input with only trimmable characters (code at most that of a space) before and after it, so trim removes exactly the outer trimmable characters |
| Java.TrimJoin | src/main/java/com/globex/dashboard/messaging/CustomerConsumer.java:64-68 | trimming `a + " " + b` of trimmed halves gives both halves joined by one space, or the one half that is non-empty |
| Java.DecimalString | src/main/java/com/globex/dashboard/messaging/CustomerConsumer.java:51 | `String.valueOf(long)` is non-empty, starts with '-' exactly for negatives, and is otherwise all digits |
| Java.NatDigitsRoundTrip | src/main/java/com/globex/dashboard/messaging/CustomerConsumer.java:51 | reading back the digits of a natural number gives the number |
| Java.DecimalRoundTrip | src/main/java/com/globex/dashboard/messaging/CustomerConsumer.java:51 | reading back the decimal form of any integer gives the integer |
| Java.DecimalStringInjective | src/main/java/com/globex/dashboard/messaging/CustomerConsumer.java:51 | two numeric ids map to the same key only when they are equal |
| Java.Trunc | src/main/java/com/globex/dashboard/service/OrderState.java:101 | the `(long)` cast truncates toward zero: within one of the value, never past it |
| Java.JRem | src/main/java/com/globex/dashboard/messaging/OrderConsumer.java:65-66 | Java's `/` and `%` recompose the dividend, and the remainder has the dividend's sign |
| Time.OfEpochSecond | src/main/java/com/globex/dashboard/messaging/OrderConsumer.java:65-66 | `Instant.ofEpochSecond(s, n)` normalises the nano part into [0, 10^9) and denotes s·10^9 + n nanoseconds |
| Json.StringValue | src/main/java/com/globex/dashboard/messaging/OrderConsumer.java:97-102 | getStringValue: the field's text exactly when present and not null, else null |
| Json.DoubleValue | src/main/java/com/globex/dashboard/messaging/OrderConsumer.java:104-109 | getDoubleValue: 0.0 when missing or null, the number's value otherwise |
| Json.IntValue | src/main/java/com/globex/dashboard/messaging/LineItemConsumer.java:94-99 | getIntValue: 0 when missing or null, the integer otherwise |
| Json.IdValue | src/main/java/com/globex/dashboard/messaging/OrderConsumer.java:42-48 | id coercion: null iff the field is absent; an integer as its decimal string; a floating number as the decimal string of its truncation; any other node, JSON null included, as its asText ("null" for null); never "" for a number |
| Json.AsText | src/main/java/com/globex/dashboard/messaging/CustomerConsumer.java:45-46 | JsonNode.asText; no contract of its own, AsTextOfInteger states that the text of an integer reads back as that integer |
| Json.AsTextOfInteger | src/main/java/com/globex/dashboard/messaging/CustomerConsumer.java:49-51 | the text of an integer node is a decimal string that reads back as the integer |
| Json.AsLong | src/main/java/com/globex/dashboard/messaging/CustomerConsumer.java:50-51 | JsonNode.asLong; no contract of its own, AsLongTruncatesAsDouble relates it to asDouble |
| Json.AsDouble | src/main/java/com/globex/dashboard/messaging/OrderConsumer.java:104-109 | JsonNode.asDouble; no contract of its own, AsLongTruncatesAsDouble relates it to asLong |
| Json.AsLongTruncatesAsDouble | src/main/java/com/globex/dashboard/messaging/OrderConsumer.java:63 | for every node kind, asLong is the truncation toward zero of asDouble |
| Json.Gate | src/main/java/com/globex/dashboard/messaging/OrderConsumer.java:32-36 | only op c/u/r with a non-null `after` passes, and the skip reason says which check failed |
| Sorting.SortDesc | src/main/java/com/globex/dashboard/service/OrderState.java:63-66 | the reversed comparator sort returns a permutation of its input that is non-increasing by the key |
| Sorting.PrefixDominates | src/main/java/com/globex/dashboard/service/OrderState.java:63-67 | after sorting and `limit(n)`, every element left out has a key no larger than every kept one |
| EntityStore.LineTotalAppend | src/main/java/com/globex/dashboard/service/OrderState.java:53-55 | the total of a concatenation is the sum of the totals |
| EntityStore.LineTotalPermutation | src/main/java/com/globex/dashboard/service/OrderState.java:36-38 | the total does not depend on the order of the line items |
| EntityStore.LineTotal | src/main/java/com/globex/dashboard/service/OrderState.java:53-55 | Σ unitPrice × quantity of a list; no contract of its own, LineTotalAppend and LineTotalPermutation state it |
| EntityStore.UpsertCustomer | src/main/java/com/globex/dashboard/service/OrderState.java:25-27 | the upsertCustomer transition; no contract of its own, UpsertCustomerEffect and UpsertCustomerKeepsInvariant state it |
| EntityStore.UpsertOrder | src/main/java/com/globex/dashboard/service/OrderState.java:29-41 | the upsertOrder transition; no contract of its own, UpsertOrderEffect and UpsertOrderKeepsInvariant state it |
| EntityStore.UpsertLineItem | src/main/java/com/globex/dashboard/service/OrderState.java:43-58 | the upsertLineItem transition; no contract of its own, UpsertLineItemEffect, UpsertLineItemFrame and UpsertLineItemKeepsInvariant state it |
| EntityStore.WithoutId | src/main/java/com/globex/dashboard/service/OrderState.java:44-45 | removeIf keeps only entries with another id, in their order, every such entry stays a member, and the list itself is returned when no entry has the id; WithoutIdCounts adds that each one keeps its multiplicity, which makes the result exactly removeIf's |
| EntityStore.WithoutIdCounts | src/main/java/com/globex/dashboard/service/OrderState.java:44-45 | removeIf keeps every entry with another id as many times as it occurs, and no entry with the id |
| EntityStore.WithoutIdAppend | src/main/java/com/globex/dashboard/service/OrderState.java:44-45 | removeIf over a concatenation is removeIf over each part |
| EntityStore.EmptyIsValid | src/main/java/com/globex/dashboard/service/OrderState.java:21-23 | the empty store satisfies the invariant |
| EntityStore.UpsertCustomerKeepsInvariant | src/main/java/com/globex/dashboard/service/OrderState.java:25-27 | upsertCustomer preserves the invariant |
| EntityStore.UpsertOrderKeepsInvariant | src/main/java/com/globex/dashboard/service/OrderState.java:29-41 | upsertOrder preserves the invariant, including every order total |
| EntityStore.UpsertLineItemKeepsInvariant | src/main/java/com/globex/dashboard/service/OrderState.java:43-58 | upsertLineItem preserves the invariant: ids unique and filed under their order, totals equal to the list sum |
| EntityStore.ReplayKeepsInvariant | src/main/java/com/globex/dashboard/service/OrderState.java:25-58 | any sequence of upserts in any order keeps the invariant |
| EntityStore.UpsertCustomerEffect | src/main/java/com/globex/dashboard/service/OrderState.java:25-27 | upsertCustomer puts the customer at its id and changes no other customer, order or line item |
| EntityStore.UpsertOrderEffect | src/main/java/com/globex/dashboard/service/OrderState.java:29-41 | upsertOrder stores the order at its id, with the stored items' total when there are items and the supplied total otherwise; nothing else changes |
| EntityStore.UpsertLineItemEffect | src/main/java/com/globex/dashboard/service/OrderState.java:43-58 | upsertLineItem throws iff a stored entry of that order has a null id; otherwise the item ends the order's list, no earlier entry has its id, and the entries before it are the old list without that id |
| EntityStore.UpsertLineItemFrame | src/main/java/com/globex/dashboard/service/OrderState.java:50-57 | after a successful upsertLineItem an existing order takes the sum of its new list and keeps its other fields, no order is created or dropped, and other orders, other lists and the customers are unchanged |
| EntityStore.WithoutIdKeepsUnique | src/main/java/com/globex/dashboard/service/OrderState.java:44-45 | removeIf on a list with unique ids leaves a list with unique ids |
| EntityStore.UpsertedListValid | src/main/java/com/globex/dashboard/service/OrderState.java:44-51 | the list upsertLineItem files stays under its order and keeps its ids unique |
| EntityStore.LineItemWithoutIdBlocksOrder | src/main/java/com/globex/dashboard/service/OrderState.java:44-45 | after a line item with a null id is stored, every later line item of that order throws |
| EntityStore.UpsertLineItemIdempotent | src/main/java/com/globex/dashboard/service/OrderState.java:43-58 | repeating a successful upsertLineItem changes nothing |
| EntityStore.UpsertsAreIdempotent | src/main/java/com/globex/dashboard/service/OrderState.java:25-58 | applying any upsert twice is the same as applying it once |
| EntityStore.ArrivalOrderIrrelevant | src/main/java/com/globex/dashboard/service/OrderState.java:29-57 | an order and two of its items give the same stored total, the sum of both amounts, whether the order arrives first, between or last |
| Views.CustomerNameJoin | src/main/java/com/globex/dashboard/service/OrderState.java:69-71 | the name is "Unknown" when the customer id is null or not stored, the stored customer's name otherwise |
| Views.CustomerName | src/main/java/com/globex/dashboard/service/OrderState.java:69-71 | the name join; no contract of its own, CustomerNameJoin states it |
| Views.NamedOrders | src/main/java/com/globex/dashboard/service/OrderState.java:61-62 | the filter keeps exactly the stored orders with a non-null id |
| Views.NamedOrdersCount | src/main/java/com/globex/dashboard/service/OrderState.java:61-62 | over distinct keys, the filter keeps one order per key whose order has an id |
| Views.NamedOrdersCover | src/main/java/com/globex/dashboard/service/OrderState.java:61-62 | over an enumeration of the map, the filter keeps as many orders as there are non-null ids |
| Views.SelectRecent | src/main/java/com/globex/dashboard/service/OrderState.java:61-67 | `min(limit, #orders with an id)` orders taken from the filtered ones (a sub-multiset of them), newest first (a missing createdAt as the epoch), none left out newer than one kept |
| Views.PrefixSubMultiset | src/main/java/com/globex/dashboard/service/OrderState.java:67 | `.limit` keeps a prefix, whose multiset is contained in that of the whole stream |
| Views.KeptPrefix | src/main/java/com/globex/dashboard/service/OrderState.java:63-67 | the first n of the sorted named orders are stored orders with ids, and none left out is newer than any kept |
| Views.RecentOrders | src/main/java/com/globex/dashboard/service/OrderState.java:60-80 | a negative limit throws IllegalArgumentException; otherwise row i is the view of the i-th order SelectRecent picks, so `min(limit, #orders with an id)` rows, each the view of a stored order |
| Views.RowsOf | src/main/java/com/globex/dashboard/service/OrderState.java:68-79 | one row per selected order, in order, each that order's view |
| Views.RowsAreStoredViews | src/main/java/com/globex/dashboard/service/OrderState.java:68-79 | every row of a selection of stored orders is the view of a stored order carrying the row's id |
| Views.OrderViewOf | src/main/java/com/globex/dashboard/service/OrderState.java:72-77 | one OrderView; no contract of its own, RowsOf and RecentOrdersNewestFirst state it |
| Views.RecentOrdersNewestFirst | src/main/java/com/globex/dashboard/service/OrderState.java:63-66 | when every order has a createdAt, the rows are non-increasing by createdAt |
| Views.PickingItems | src/main/java/com/globex/dashboard/service/OrderState.java:148-154 | one item view per stored line item, in order; "Unknown Product" for a null name; the quantity copied, so the quantities sum to the items' sum |
| Views.SpendRemove | src/main/java/com/globex/dashboard/service/OrderState.java:86-94 | a customer's spend is the same whichever order of the map is summed first |
| Views.SpendWithoutOrders | src/main/java/com/globex/dashboard/service/OrderState.java:86-94 | a customer with no order spends nothing |
| Views.Spend | src/main/java/com/globex/dashboard/service/OrderState.java:86-94 | Σ totalAmount over a customer's orders; no contract of its own, SpendRemove and SpendWithoutOrders state it, and TotalSpendByCustomer is proved equal to it |
| Views.LoyaltyRow | src/main/java/com/globex/dashboard/service/OrderState.java:98-106 | the loyalty row of one customer; no contract of its own, GetLoyaltyByCustomer and RowsAreLoyaltyRows state it |
| Views.LoyaltyPointsTruncate | src/main/java/com/globex/dashboard/service/OrderState.java:101 | points are at most a hundred times the spend, and less than one point below it |
| Views.LoyaltyPoints | src/main/java/com/globex/dashboard/service/OrderState.java:101 | `(long) (totalSpend * 100)`; no contract of its own, LoyaltyPointsTruncate states it |
| Views.OrderCustomerIds | src/main/java/com/globex/dashboard/service/OrderState.java:127-132 | a customer id is in the set iff some stored order carries it |
| Views.MissingCustomerIds | src/main/java/com/globex/dashboard/resource/DashboardResource.java:47-51 | an id is missing iff some order carries it and no customer is stored under it |
| Views.MissingCustomerRendersUnknown | src/main/java/com/globex/dashboard/resource/DashboardResource.java:47-51 | the orders of a missing customer render "Unknown"; those of a customer who is not missing render the stored name |
| Views.UpsertsNeverShrink | src/main/java/com/globex/dashboard/service/OrderState.java:115-121 | no upsert removes an id; a count grows by one exactly when the upserted id is new |
| Warehouse.SumQuantitiesAppend | src/main/java/com/globex/dashboard/model/WarehouseView.java:21 | the quantity sum of a concatenation is the sum of the parts' sums |
| Warehouse.TotalItemsBounds | src/main/java/com/globex/dashboard/model/WarehouseView.java:21 | a null list counts 0 items; non-negative quantities give a total at least each quantity |
| Warehouse.SumQuantities | src/main/java/com/globex/dashboard/model/WarehouseView.java:21 | Σ quantity of a list; no contract of its own, SumQuantitiesAppend and NonNegativeSum state it |
| Warehouse.TotalItems | src/main/java/com/globex/dashboard/model/WarehouseView.java:21 | the constructor's count; no contract of its own, TotalItemsBounds states it |
| Warehouse.NonNegativeSum | src/main/java/com/globex/dashboard/model/WarehouseView.java:21 | non-negative quantities sum to a non-negative total bounding each one |
| Warehouse.WarehouseView.constructor | src/main/java/com/globex/dashboard/model/WarehouseView.java:16-22 | the fields are as given and totalItems is the quantity sum, 0 for a null list |
| Warehouse.WarehouseView.SetItems | src/main/java/com/globex/dashboard/model/WarehouseView.java:52-55 | setItems replaces the list, makes totalItems its sum again, and leaves orderId, customerName and createdAt alone |
| Warehouse.WarehouseView.SetTotalItems | src/main/java/com/globex/dashboard/model/WarehouseView.java:61-63 | setTotalItems overwrites the count; the sum invariant survives iff the new value happens to be the sum |
| Service.OrderState.constructor | src/main/java/com/globex/dashboard/service/OrderState.java:21-23 | the three maps start empty and the invariant holds |
| Service.OrderState.UpsertCustomer | src/main/java/com/globex/dashboard/service/OrderState.java:25-27 | the new state is the upsertCustomer transition of the old one, and the invariant is kept |
| Service.OrderState.UpsertOrder | src/main/java/com/globex/dashboard/service/OrderState.java:29-41 | the new state is the upsertOrder transition, total recomputation included, and the invariant is kept |
| Service.OrderState.UpsertLineItem | src/main/java/com/globex/dashboard/service/OrderState.java:43-58 | the removeIf loop and append give the upsertLineItem transition; it reports the NullPointerException and leaves the state unchanged when an entry has a null id; the invariant is kept |
| Service.FindNullId | src/main/java/com/globex/dashboard/service/OrderState.java:44-45 | the first pass of removeIf finds a null id exactly when the list holds one |
| Service.Compact | src/main/java/com/globex/dashboard/service/OrderState.java:44-45 | the second pass of removeIf keeps exactly the entries without the id, in order |
| Service.OrderState.GetCustomerCount | src/main/java/com/globex/dashboard/service/OrderState.java:115-117 | the number of stored customers |
| Service.OrderState.GetOrderCount | src/main/java/com/globex/dashboard/service/OrderState.java:119-121 | the number of stored orders, at least the number recentOrders can show |
| Service.OrderState.TotalSpendByCustomer | src/main/java/com/globex/dashboard/service/OrderState.java:83-94 | the merge loop yields one entry per customer id among the orders, holding that customer's spend |
| Service.Merge | src/main/java/com/globex/dashboard/service/OrderState.java:86-93 | one merge adds the order's amount to its customer's entry (creating it), and an order without a customer id changes nothing |
| Service.SumStep | src/main/java/com/globex/dashboard/service/OrderState.java:86-93 | one more order merged keeps the loop's invariant: ids seen so far, and seen sums plus the spend still to come equal the total spend |
| Service.BuildRows | src/main/java/com/globex/dashboard/service/OrderState.java:96-107 | one row per spend entry, each with the customer's name (or "Unknown"), the spend and its truncated points |
| Service.BuildStep | src/main/java/com/globex/dashboard/service/OrderState.java:98-106 | adding the row of one more customer keeps one row per customer done, each with that customer's spend |
| Service.RowsAreLoyaltyRows | src/main/java/com/globex/dashboard/service/OrderState.java:96-107 | with the spend of the first loop, every built row is its customer's loyalty row, and no customer has two |
| Service.OrderState.GetLoyaltyByCustomer | src/main/java/com/globex/dashboard/service/OrderState.java:82-113 | exactly one row per distinct customer id among the orders, each that customer's spend and points, non-increasing by points |
| Service.RowsKeepCustomers | src/main/java/com/globex/dashboard/service/OrderState.java:110-112 | sorting the rows keeps each row and one row per customer |
| Service.OrderState.GetWarehouseOrders | src/main/java/com/globex/dashboard/service/OrderState.java:134-164 | a negative limit throws; otherwise one fresh, distinct view per order recentOrders selects, with its name, createdAt (now if missing) and picking list, totalItems in sync |
| Service.BuildViews | src/main/java/com/globex/dashboard/service/OrderState.java:142-163 | the map stage builds one fresh, distinct view per selected order, in order |
| Service.NewView | src/main/java/com/globex/dashboard/service/OrderState.java:143-161 | one warehouse view describing the given order |
| CustomerConsumer.Normalize | src/main/java/com/globex/dashboard/messaging/CustomerConsumer.java:32-91 | upsert iff op c/u/r, `after` present and a non-empty resolved id; the customer has that id, the trimmed full name FullName(p), and an email iff the field is present and not null, holding its text |
| CustomerConsumer.Consume | src/main/java/com/globex/dashboard/messaging/CustomerConsumer.java:25-95 | the store takes upsertCustomer of the normalised record, or is unchanged on a skip; nothing escapes |
| CustomerConsumer.UserIdWins | src/main/java/com/globex/dashboard/messaging/CustomerConsumer.java:45-48 | a present, non-null user_id decides the id whatever `id` holds |
| CustomerConsumer.EmptyUserIdSkips | src/main/java/com/globex/dashboard/messaging/CustomerConsumer.java:45-85 | an empty user_id does not fall back to `id`: the event is skipped |
| CustomerConsumer.NumericIdFallback | src/main/java/com/globex/dashboard/messaging/CustomerConsumer.java:49-53 | without user_id a numeric id becomes its decimal string, and distinct numbers give distinct ids |
| CustomerConsumer.NullIdBecomesTextNull | src/main/java/com/globex/dashboard/messaging/CustomerConsumer.java:54-58 | a present JSON-null id goes down asText and stores the customer under "null" |
| CustomerConsumer.NoIdSkips | src/main/java/com/globex/dashboard/messaging/CustomerConsumer.java:59-61 | neither user_id nor id: skipped |
| CustomerConsumer.FullNameCases | src/main/java/com/globex/dashboard/messaging/CustomerConsumer.java:64-68 | both halves give "first last", a missing half gives the other alone |
| CustomerConsumer.CustomerId | src/main/java/com/globex/dashboard/messaging/CustomerConsumer.java:43-61 | the id resolution; no contract of its own, UserIdWins, EmptyUserIdSkips, NumericIdFallback, NullIdBecomesTextNull and NoIdSkips state it |
| CustomerConsumer.FullName | src/main/java/com/globex/dashboard/messaging/CustomerConsumer.java:63-68 | the name rule; no contract of its own, FullNameCases states it |
| CustomerConsumer.RowRoundTrip | src/main/java/com/globex/dashboard/messaging/CustomerConsumer.java:41-77 | a well-formed row becomes the customer it describes |
| OrderConsumer.OfEpochMicrosExact | src/main/java/com/globex/dashboard/messaging/OrderConsumer.java:61-66 | the instant lies exactly `order_ts` microseconds from the epoch, for either sign |
| OrderConsumer.OfEpochMicrosSplit | src/main/java/com/globex/dashboard/messaging/OrderConsumer.java:65-66 | for m ≥ 0: seconds m / 10^6, nanos (m % 10^6)·1000, a multiple of 1000 in [0, 999_999_000], recomposing m |
| OrderConsumer.OfEpochMicrosMonotone | src/main/java/com/globex/dashboard/messaging/OrderConsumer.java:63-66 | later timestamps give later instants |
| OrderConsumer.CreatedAtChain | src/main/java/com/globex/dashboard/messaging/OrderConsumer.java:60-81 | order_ts when present, else the parsed created_at (now if unparsable), else now |
| OrderConsumer.OfEpochMicros | src/main/java/com/globex/dashboard/messaging/OrderConsumer.java:63-66 | the order_ts conversion; no contract of its own, OfEpochMicrosExact, OfEpochMicrosSplit and OfEpochMicrosMonotone state it |
| OrderConsumer.CreatedAt | src/main/java/com/globex/dashboard/messaging/OrderConsumer.java:60-81 | the createdAt fallback chain; no contract of its own, CreatedAtChain states it |
| OrderConsumer.TotalAmount | src/main/java/com/globex/dashboard/messaging/OrderConsumer.java:52-58 | 0.0 when total_amount is missing or null, getDoubleValue otherwise, so the number itself for a numeric node |
| OrderConsumer.Normalize | src/main/java/com/globex/dashboard/messaging/OrderConsumer.java:32-89 | upsert iff op c/u/r, `after` present and a non-empty id; the order has that id, the customer_id text, the total TotalAmount(p) (0.0 when missing) and the createdAt CreatedAt(p) |
| OrderConsumer.Consume | src/main/java/com/globex/dashboard/messaging/OrderConsumer.java:25-95 | the store takes upsertOrder of the normalised record, or is unchanged on a skip |
| OrderConsumer.RowRoundTrip | src/main/java/com/globex/dashboard/messaging/OrderConsumer.java:39-66 | a well-formed row becomes the order it describes, created `order_ts` microseconds after the epoch |
| OrderConsumer.NullIdBecomesTextNull | src/main/java/com/globex/dashboard/messaging/OrderConsumer.java:42-48 | a present JSON-null id is stored as "null" |
| OrderConsumer.MissingIdSkips | src/main/java/com/globex/dashboard/messaging/OrderConsumer.java:83-89 | an absent or empty id is skipped |
| LineItemConsumer.PriceCases | src/main/java/com/globex/dashboard/messaging/LineItemConsumer.java:62-76 | textual price parsed, 0.0 if unparsable; numeric price as is; missing or null price 0.0 |
| LineItemConsumer.Price | src/main/java/com/globex/dashboard/messaging/LineItemConsumer.java:62-76 | the price rule; no contract of its own, PriceCases states it |
| LineItemConsumer.LineItemOf | src/main/java/com/globex/dashboard/messaging/LineItemConsumer.java:38-76 | the item the setters build; no contract of its own, Normalize states it field by field |
| LineItemConsumer.Normalize | src/main/java/com/globex/dashboard/messaging/LineItemConsumer.java:30-78 | upsert iff op c/u/r and `after` present, with no id guard; the item carries IdValue of id and order_id, getStringValue of product_code, getIntValue of quantity and Price(p), so null ids iff the fields are absent and 0 defaults for quantity and price |
| LineItemConsumer.Consume | src/main/java/com/globex/dashboard/messaging/LineItemConsumer.java:25-85 | the store takes upsertLineItem of the record, or stays unchanged when it throws or the event is skipped |
| LineItemConsumer.RowRoundTrip | src/main/java/com/globex/dashboard/messaging/LineItemConsumer.java:37-78 | a well-formed row becomes the item it describes, with a textual or a numeric price |
| LineItemConsumer.MissingIdPoisonsOrder | src/main/java/com/globex/dashboard/messaging/LineItemConsumer.java:40-78 | an item without an id is still stored, and afterwards every item of its order is rejected by a swallowed exception |
| Scenarios.DecimalIds | src/main/java/com/globex/dashboard/messaging/LineItemConsumer.java:42 | the ids 1, 2 and 100 render as "1", "2" and "100" |
| Scenarios.CustomerIsNormalised | src/main/java/com/globex/dashboard/messaging/CustomerConsumer.java:41-77 | the sample customer row becomes customer "42", "Ana Lee", no email |
| Scenarios.OrderIsNormalised | src/main/java/com/globex/dashboard/messaging/OrderConsumer.java:39-85 | the sample order row becomes order "100" at second 1690000000 with total 0.0 |
| Scenarios.ItemsAreNormalised | src/main/java/com/globex/dashboard/messaging/LineItemConsumer.java:37-78 | the sample items: 2 × 9.99 from a textual price, 1 × 5 from a numeric one |
| Scenarios.IngestAll | src/main/java/com/globex/dashboard/service/OrderState.java:25-58 | the four events leave order "100" with both items and a total of 24.98 |
| Scenarios.SingleOrderView | src/main/java/com/globex/dashboard/service/OrderState.java:60-80 | with one stored order, any positive limit shows exactly that order |
| Scenarios.RecentOrderView | src/main/java/com/globex/dashboard/service/OrderState.java:60-80 | recentOrders(1) shows order "100" for "Ana Lee" at 24.98 |
| Scenarios.LoyaltyOfAnaLee | src/main/java/com/globex/dashboard/service/OrderState.java:82-113 | the one loyalty row: "42", "Ana Lee", spend 24.98, 2498 points |

## Left out

- Concurrency: the `synchronized` methods and the blocking consumers are modelled as one sequential object.
- getCustomerIds (src/main/java/com/globex/dashboard/service/OrderState.java:123-125) returns a live view of the customer map's key set. Only its value is modelled, as `Model().customers.Keys`; the aliasing is not.
- Jackson: `readValue` and `valueToTree` are replaced by the `Envelope`/`JVal` datatypes. A message that fails to parse, or an `after` that is not an object, is not modelled.
- `Double.parseDouble`, `Instant.parse` and the string-to-number coercion inside Jackson's `asLong`/`asInt` are oracles passed as parameters, not parsers.
- IEEE-754 doubles: prices, totals and spend are `real`, so rounding and the summation order of `DoubleStream.sum` are not modelled.
- Java.Trunc: does not model the saturation of `(long)` at the bounds of a 64-bit long.
- Warehouse.SumQuantities: does not model 32-bit wrap-around of the `int` quantity sum; quantities and their sum are unbounded integers.
- Json.IntValue: does not model the 32-bit narrowing of `asInt` or the 64-bit range of `asLong`.
- Json.IdValue: does not model the 64-bit wrap-around of `asLong`, so an integer id outside the `long` range keeps its full decimal form instead of the wrapped one.
- OrderConsumer.OfEpochMicros: does not model the DateTimeException that `Instant.ofEpochSecond` throws outside the Instant range, or the `now` fallback that follows it.
- Instants are compared by their nanosecond count from the epoch, which agrees with `Instant.compareTo` for normalised instants (`nano` in [0, 10^9)). `OfEpochSecond` always normalises, but the `Instant.parse` oracle and the `now` parameter are not required to, so on a non-normalised instant from either the sort key can disagree with `compareTo`.
- Views.OrderViewOf and Service.NewView: take one `now` for the whole call, while the code calls `Instant.now()` once per row; this matters only for stored orders without `createdAt`, which no consumer produces.
- Logging (all `LOG` calls, and the field-name loop when a customer is skipped) is left out.
- The HTTP resources are not part of this model, except the missing-customer-id difference of the debug endpoint.
- Object aliasing: `upsertOrder` stores the caller's `Order` object and later mutates its total. The model keeps records by value.
- HashMap iteration order: each view takes an arbitrary enumeration of the order keys, and the loyalty loops pick keys with `:|`. Ties between equal timestamps or equal points are therefore not fixed.
- The no-argument constructors and the plain getters and setters of the model classes. Customer.java is not part of this model; its fields are taken from their use in the consumers.
- Warehouse.WarehouseView: `orderId`, `customerName` and `createdAt` are never null in the model, since getWarehouseOrders always supplies them.
