# Content registry canister, modelled in Dafny

This project models the content-registry canister of chain-content-vault.
The canister is an Internet Computer service that keeps two stable maps:

- `CONTENT_REGISTRY` holds content registrations by id.
- `PAYMENT_RECORDS` holds payment records by payment id.

It offers three update calls: `register_content`, `record_payment` and
`update_content_status`. It offers six query calls: `get_content`,
`get_content_by_creator`, `get_payments_for_content`, `get_payments_by_buyer`,
`has_purchased_content` and `get_stats`.

Files:

- `string_order.dfy` (module `StringOrder`) gives the key order of the maps.
  Rust orders `String` keys byte-wise over UTF-8, which is the same as
  code-point order. The module also holds the ascending key sequence of a map
  and the `filter`/`map`/`collect` and `any` pipelines run over it.
- `map_sum.dfy` (module `MapSum`) sums a weight over the values of a map
  and over a list. The counter invariant is stated with it. `SelectSum`
  connects the two: it sums the same weight over what a filtering query lists.
- `registry.dfy` (module `Registry`) holds the records, the state of the two
  maps, and each update call as a function from a state to a result and a new
  state. It also holds the query calls as functions of a state and two
  invariants:
  - `Valid` is the structural invariant. Every record is stored under its own
    id. Creators and buyers are never anonymous. Every payment names stored
    content.
  - `Consistent` is the counter invariant. Each content's `totalSales` and
    `totalRevenue` equal the count and the sum of `amountIcp` over the stored
    payments that reference it.
- `registry_properties.dfy` (module `RegistryProperties`) holds the lemmas.
- `canister.dfy` (module `Canister`) holds class `ContentRegistryCanister`.
  Its two map fields are updated in place by the three update methods. Each
  method is proved to give exactly the result and the maps of the matching
  `Registry` function. Each also keeps `Valid`. `register_content` keeps
  `Consistent` when no stored payment references the id, `record_payment`
  when the payment id is unused, and `update_content_status` always.

The runtime's `ic_cdk::caller()` and `ic_cdk::api::time()` are the explicit
parameters `caller` and `now`. The anonymous principal is `Principal([0x04])`.

The canister is weaker than a hardened ledger would be, and the model keeps it that way:

- Ids are chosen by the caller.
  - Re-registering an id replaces the record and zeroes its counters. There
    is no `AlreadyExists` error.
  - Re-using a payment id replaces the earlier payment.
- The only amount check is "amount below price". Overpayment is accepted.
- Nothing checks that a transaction hash is unique.
- The buyer is always the caller.
- Errors are the code's own strings, checked in the code's order.
- The listing queries return records in ascending key order, not in time order.
- `get_stats` returns the number of payment records, not total revenue.

Because of the two overwrite cases, the counter invariant is not kept by
every call. The lemmas prove exactly when it is:

- Registering content keeps it exactly when no stored payment references the
  id. That covers every unused id, and also a re-registered id nobody has
  paid for.
- A payment keeps it when the payment id is unused, and always breaks it
  when the payment id is in use.

In a consistent state, a record's `total_sales` is the number of payments
`get_payments_for_content` lists for it, and its `total_revenue` is the sum
of their amounts.

## Model

| member | source | states |
|---|---|---|
| StringOrder.InOrder | canisters/content_registry/src/lib.rs:71-79 | the keys of a map, as a B-tree iterator visits them: strictly ascending in `String` order, each key exactly once |
| StringOrder.Matching | canisters/content_registry/src/lib.rs:191-194 | filtering keys keeps exactly the keys whose value passes the test, and keeps them ascending |
| StringOrder.Select | canisters/content_registry/src/lib.rs:188-195 | `filter` + `map` + `collect` over a map yields exactly the stored values that pass the test |
| StringOrder.SelectSpec | canisters/content_registry/src/lib.rs:188-195 | `filter` + `map` + `collect` over a map yields the values of exactly the passing entries, in ascending key order |
| StringOrder.Any | canisters/content_registry/src/lib.rs:227-232 | `any` over the keys is true exactly when some entry passes the test |
| Registry.RegisterContent | canisters/content_registry/src/lib.rs:83-115 | only an anonymous caller is refused, and a refusal changes nothing. On success `get_content(id)` returns the returned record, `id` is the only id that can be added, and the payment map is unchanged |
| Registry.RecordPayment | canisters/content_registry/src/lib.rs:118-175 | succeeds exactly when the caller is not anonymous and the content exists, is active and costs at most the amount. A refusal changes nothing. A success stores the returned payment under `payment_id` with the caller as buyer, and adds no content id |
| Registry.UpdateContentStatus | canisters/content_registry/src/lib.rs:236-260 | succeeds exactly when the record exists and the caller created it. A refusal changes nothing. A success stores and returns the record with the new `is_active`; the payment map and every other record are unchanged |
| Registry.GetContent | canisters/content_registry/src/lib.rs:178-183 | returns a record exactly when the id is stored, and then the stored one |
| Registry.GetContentByCreator | canisters/content_registry/src/lib.rs:186-196 | a record is listed exactly when it is stored and has that creator |
| Registry.GetPaymentsForContent | canisters/content_registry/src/lib.rs:199-209 | a payment is listed exactly when it is stored and references that content |
| Registry.GetPaymentsByBuyer | canisters/content_registry/src/lib.rs:212-222 | a payment is listed exactly when it is stored and has that buyer |
| Registry.HasPurchasedContent | canisters/content_registry/src/lib.rs:225-233 | true exactly when some stored payment has that buyer and that content id |
| Registry.GetStats | canisters/content_registry/src/lib.rs:263-269 | the number of stored content ids and the number of stored payment ids: a count of payments, not a sum of amounts |
| Canister.ContentRegistryCanister.constructor | canisters/content_registry/src/lib.rs:67-80 | both maps start empty, and the empty state is valid and consistent |
| Canister.ContentRegistryCanister.RegisterContent | canisters/content_registry/src/lib.rs:83-115 | the call returns exactly what `Registry.RegisterContent` describes and leaves exactly its maps; it keeps `Valid`, and keeps `Consistent` when no stored payment references the id |
| Canister.ContentRegistryCanister.RecordPayment | canisters/content_registry/src/lib.rs:118-175 | the call returns exactly what `Registry.RecordPayment` describes and leaves exactly its maps; it keeps `Valid`, and keeps `Consistent` when the payment id is fresh |
| Canister.ContentRegistryCanister.UpdateContentStatus | canisters/content_registry/src/lib.rs:236-260 | the call returns exactly what `Registry.UpdateContentStatus` describes and leaves exactly its maps; it keeps `Valid` and `Consistent` |
| RegistryProperties.RegisterContentAnonymous | canisters/content_registry/src/lib.rs:91-95 | an anonymous caller gets "Anonymous users cannot register content" and neither map changes |
| RegistryProperties.RegisterContentStores | canisters/content_registry/src/lib.rs:97-114 | any other caller gets back, and `get_content(id)` then returns, a record with that id, the caller as creator, the given fields, `created_at = now`, zero counters and `is_active`; other entries and the payment map are unchanged |
| RegistryProperties.RegisterUnreferencedKeepsConsistency | canisters/content_registry/src/lib.rs:97-112 | registering under an id that no stored payment references keeps the counter invariant, whether the id is new or re-registered |
| RegistryProperties.ReregisterBreaksConsistency | canisters/content_registry/src/lib.rs:110-112 | re-registering an id that a stored payment references zeroes its counters and breaks the counter invariant |
| RegistryProperties.RegisterKeepsConsistencyIff | canisters/content_registry/src/lib.rs:91-112 | for a caller that is not anonymous, registering keeps a consistent state consistent exactly when no stored payment references the id |
| RegistryProperties.FreshContentHasNoPurchases | canisters/content_registry/src/lib.rs:97-112 | content just registered under an unused id has no buyer and lists no payments |
| RegistryProperties.RecordPaymentChecks | canisters/content_registry/src/lib.rs:125-147 | the checks run in order: anonymous buyer, content not found, content not active, amount below price. The first failure decides the error, and a failure changes nothing. The call succeeds exactly when all four pass, so overpayment succeeds |
| RegistryProperties.RecordPaymentStores | canisters/content_registry/src/lib.rs:150-174 | on success the payment is stored under `payment_id`. The caller is its buyer and the content's creator is copied in. The content's sales rise by 1 and its revenue by the amount paid. No other field or entry changes |
| RegistryProperties.TransactionHashNotChecked | canisters/content_registry/src/lib.rs:127-147 | a payment that passes the four checks succeeds even when a stored payment already carries the same transaction hash: there is no replay protection |
| RegistryProperties.RecordPaymentKeepsConsistency | canisters/content_registry/src/lib.rs:161-172 | a payment under an unused payment id keeps every content's counters equal to the count and sum of its payments |
| RegistryProperties.ReusedPaymentIdBreaksConsistency | canisters/content_registry/src/lib.rs:161-163 | in a valid, consistent state, a successful payment under a payment id already in use always breaks the counter invariant |
| RegistryProperties.PurchaseVisibleAfterPayment | canisters/content_registry/src/lib.rs:150-163 | after a successful payment, `has_purchased_content(caller, content_id)` is true |
| RegistryProperties.RecordPaymentKeepsValid | canisters/content_registry/src/lib.rs:150-172 | `record_payment` keeps the structural invariant |
| RegistryProperties.RegisterContentKeepsValid | canisters/content_registry/src/lib.rs:91-112 | `register_content` keeps the structural invariant |
| RegistryProperties.UpdateContentStatusChecks | canisters/content_registry/src/lib.rs:237-259 | "Content not found" comes before the caller is checked. Anyone but the creator gets "Only the creator can update content status". A failure changes nothing. A success changes only `is_active` of that record and returns the updated record |
| RegistryProperties.AnonymousCannotUpdateStatus | canisters/content_registry/src/lib.rs:249-251 | in a valid state the anonymous principal can never change a status |
| RegistryProperties.UpdateContentStatusKeepsConsistency | canisters/content_registry/src/lib.rs:253-257 | changing a status keeps the counter invariant |
| RegistryProperties.UpdateContentStatusKeepsValid | canisters/content_registry/src/lib.rs:244-257 | `update_content_status` keeps the structural invariant |
| RegistryProperties.EmptyIsValidAndConsistent | canisters/content_registry/src/lib.rs:67-80 | the empty maps satisfy both invariants |
| RegistryProperties.GetContentCarriesId | canisters/content_registry/src/lib.rs:178-183 | in a valid state the record `get_content(id)` returns carries `id` as its own id |
| RegistryProperties.GetContentByCreatorSpec | canisters/content_registry/src/lib.rs:186-196 | every listed record is stored and belongs to the creator; every stored record of the creator is listed; ids strictly ascend |
| RegistryProperties.GetPaymentsForContentSpec | canisters/content_registry/src/lib.rs:199-209 | every listed payment is stored and references the content; every such stored payment is listed; ids strictly ascend |
| RegistryProperties.GetPaymentsByBuyerSpec | canisters/content_registry/src/lib.rs:212-222 | every listed payment is stored and is the buyer's; every stored payment of the buyer is listed; ids strictly ascend |
| RegistryProperties.HasPurchasedContentSpec | canisters/content_registry/src/lib.rs:225-233 | `has_purchased_content(b, c)` holds exactly when some stored payment id carries buyer `b` and content `c` (the key-indexed form of the function's contract) |
| MapSum.SelectSum | canisters/content_registry/src/lib.rs:199-209 | summing a weight over what a filtering query lists gives the sum over the whole map, when the weight is zero on what the filter drops |
| RegistryProperties.ListingMeasuresSums | canisters/content_registry/src/lib.rs:199-209 | `get_payments_for_content(c)` lists as many payments as reference `c`, and their amounts add up to the sum the counter invariant uses |
| RegistryProperties.CountersMatchListing | canisters/content_registry/src/lib.rs:199-209 | in a consistent state `total_sales` is the length of `get_payments_for_content(c)` and `total_revenue` the sum of the listed amounts |
| RegistryProperties.UnreferencedContentHasNoPurchases | canisters/content_registry/src/lib.rs:199-232 | with no stored payment referencing a content, nobody has bought it and it lists no payments |
| RegistryProperties.PurchaseScenario | canisters/content_registry/src/lib.rs:83-175 | a worked run: content is registered at 500 and paid for, giving counters 1 and 500 and a purchase. A payment reusing the hash under a new id is accepted. A payment of 400 is refused and changes nothing |
| RegistryProperties.StatsAfterRegister | canisters/content_registry/src/lib.rs:263-269 | `get_stats` counts one more content record after a successful registration under an unused id, otherwise the same; the payment count is unchanged |
| RegistryProperties.StatsAfterPayment | canisters/content_registry/src/lib.rs:263-269 | the second value of `get_stats` counts payment records. It rises by 1 after a successful payment under an unused payment id, not by the amount paid |

## Left out

- Storage plumbing is not modelled: `Storable` encoding through Candid, `StableBTreeMap`, `MemoryManager` and `thread_local!`. The maps are Dafny `map`s, and B-tree iteration is the ascending key sequence.
- `ic_cdk::caller()` and `ic_cdk::api::time()` are not modelled. They are the parameters `caller` and `now`.
- Canister.ContentRegistryCanister.RecordPayment: prices, amounts, counters and timestamps are unbounded naturals, not `u64`. What `total_sales += 1` and `total_revenue += amount_icp` do on overflow depends on how the canister is built, so overflow is not modelled.
- Query calls are not methods of the class. They are functions of the `State` value that `Snapshot()` returns.
- Strings are sequences of code points. No byte encoding of keys or texts is modelled.
- The React pages and components, the mock wallet hook, the Plug connection glue and the generated Candid interface are not part of this model. They hold no registry logic.
