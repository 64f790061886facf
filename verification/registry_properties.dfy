/**
 * What the registry's update and query calls guarantee, and where the
 * counter invariant holds and where it does not.
 */
module RegistryProperties {
  import opened StringOrder
  import opened MapSum
  import opened Registry

  // ------------------------------------------------------ register_content

  /** An anonymous caller is refused and neither map changes. */
  lemma RegisterContentAnonymous(s: State, now: nat, id: string, title: string,
                                 description: string, contentHash: string, priceIcp: nat)
    ensures RegisterContent(s, Anonymous, now, id, title, description, contentHash, priceIcp)
            == Outcome(Err(AnonymousRegistration), s)
  {
  }

  /**
   * Any other caller gets back, and finds under `id`, a record it created at
   * `now` with zero counters that is active; no other entry changes.
   */
  lemma RegisterContentStores(s: State, caller: Principal, now: nat, id: string, title: string,
                              description: string, contentHash: string, priceIcp: nat)
    requires caller != Anonymous
    ensures var out := RegisterContent(s, caller, now, id, title, description, contentHash, priceIcp);
      && out.result.Ok?
      && GetContent(out.state, id) == Some(out.result.value)
      && out.result.value == ContentRegistration(id, caller, title, description, contentHash,
                                                 priceIcp, now, 0, 0, true)
      && (forall other | other != id :: GetContent(out.state, other) == GetContent(s, other))
      && out.state.payments == s.payments
  {
  }

  /** Content that no payment references has no sales and no revenue. */
  lemma UnreferencedContentHasNoSales(payments: map<string, PaymentRecord>, id: string)
    requires forall k | k in payments :: payments[k].contentId != id
    ensures SalesOf(payments, id) == 0 && RevenueOf(payments, id) == 0
  {
    forall k | k in payments
      ensures SaleWeight(id)(payments[k]) == 0 && RevenueWeight(id)(payments[k]) == 0
    {
    }
    SumOverZero(payments, SaleWeight(id));
    SumOverZero(payments, RevenueWeight(id));
  }

  /**
   * Registering under an id that no stored payment references keeps the
   * counters consistent: the new record's zero counters are the right
   * count. This covers every id not yet in use in a valid state, and also
   * re-registering a stored id nobody has paid for.
   */
  lemma RegisterUnreferencedKeepsConsistency(s: State, caller: Principal, now: nat, id: string,
                                             title: string, description: string,
                                             contentHash: string, priceIcp: nat)
    requires Consistent(s)
    requires forall k | k in s.payments :: s.payments[k].contentId != id
    ensures Consistent(RegisterContent(s, caller, now, id, title, description, contentHash,
                                       priceIcp).state)
  {
    UnreferencedContentHasNoSales(s.payments, id);
    var after := RegisterContent(s, caller, now, id, title, description, contentHash, priceIcp).state;
    assert after.payments == s.payments;
    forall k | k in after.contents
      ensures after.contents[k].totalSales == SalesOf(after.payments, k)
      ensures after.contents[k].totalRevenue == RevenueOf(after.payments, k)
    {
      if k != id {
        assert after.contents[k] == s.contents[k];
      }
    }
  }

  /**
   * Registering again under an id some payment references resets the
   * counters to zero although the payment is still stored: the invariant
   * breaks.
   */
  lemma ReregisterBreaksConsistency(s: State, caller: Principal, now: nat, id: string,
                                    title: string, description: string, contentHash: string,
                                    priceIcp: nat, paymentId: string)
    requires caller != Anonymous
    requires paymentId in s.payments && s.payments[paymentId].contentId == id
    ensures !Consistent(RegisterContent(s, caller, now, id, title, description, contentHash,
                                        priceIcp).state)
  {
    var after := RegisterContent(s, caller, now, id, title, description, contentHash, priceIcp).state;
    SumOverRemove(s.payments, paymentId, SaleWeight(id));
    assert SalesOf(after.payments, id) >= 1;
    assert after.contents[id].totalSales == 0;
  }

  /**
   * For a caller that is not anonymous, registering keeps a consistent state
   * consistent exactly when no stored payment references the id.
   */
  lemma RegisterKeepsConsistencyIff(s: State, caller: Principal, now: nat, id: string,
                                    title: string, description: string, contentHash: string,
                                    priceIcp: nat)
    requires Consistent(s) && caller != Anonymous
    ensures Consistent(RegisterContent(s, caller, now, id, title, description, contentHash,
                                       priceIcp).state)
            <==> forall k | k in s.payments :: s.payments[k].contentId != id
  {
    if forall k | k in s.payments :: s.payments[k].contentId != id {
      RegisterUnreferencedKeepsConsistency(s, caller, now, id, title, description, contentHash,
                                           priceIcp);
    } else {
      var paymentId :| paymentId in s.payments && s.payments[paymentId].contentId == id;
      ReregisterBreaksConsistency(s, caller, now, id, title, description, contentHash, priceIcp,
                                  paymentId);
    }
  }

  // -------------------------------------------------------- record_payment

  /**
   * The checks run in the order anonymous buyer, missing content, inactive
   * content, amount below price; the first that fails decides the error, a
   * failure changes nothing, and passing all four succeeds.
   */
  lemma RecordPaymentChecks(s: State, caller: Principal, now: nat, paymentId: string,
                            contentId: string, amountIcp: nat, transactionHash: string)
    ensures var out := RecordPayment(s, caller, now, paymentId, contentId, amountIcp, transactionHash);
      && (caller == Anonymous ==> out.result == Err(AnonymousPayment))
      && (caller != Anonymous && contentId !in s.contents ==> out.result == Err(ContentNotFound))
      && ((caller != Anonymous && contentId in s.contents && !s.contents[contentId].isActive)
            ==> out.result == Err(ContentNotActive))
      && ((caller != Anonymous && contentId in s.contents && s.contents[contentId].isActive
           && amountIcp < s.contents[contentId].priceIcp)
            ==> out.result == Err(InsufficientPayment))
      && (out.result.Ok? <==>
            && caller != Anonymous
            && contentId in s.contents
            && s.contents[contentId].isActive
            && amountIcp >= s.contents[contentId].priceIcp)
      && (out.result.Err? ==> out.state == s)
  {
  }

  /**
   * A successful payment is stored under `paymentId` with the caller as
   * buyer and the content's creator copied in; the content's sales rise by
   * one and its revenue by the amount paid, which may exceed the price;
   * nothing else changes.
   */
  lemma RecordPaymentStores(s: State, caller: Principal, now: nat, paymentId: string,
                            contentId: string, amountIcp: nat, transactionHash: string)
    requires caller != Anonymous && contentId in s.contents
    requires s.contents[contentId].isActive && amountIcp >= s.contents[contentId].priceIcp
    ensures var out := RecordPayment(s, caller, now, paymentId, contentId, amountIcp, transactionHash);
      var c := s.contents[contentId];
      && out.result == Ok(PaymentRecord(paymentId, contentId, caller, c.creator, amountIcp, now,
                                        transactionHash))
      && out.state.payments == s.payments[paymentId := out.result.value]
      && out.state.contents.Keys == s.contents.Keys
      && out.state.contents[contentId].totalSales == c.totalSales + 1
      && out.state.contents[contentId].totalRevenue == c.totalRevenue + amountIcp
      && out.state.contents[contentId]
           == c.(totalSales := out.state.contents[contentId].totalSales,
                 totalRevenue := out.state.contents[contentId].totalRevenue)
      && (forall other | other in s.contents && other != contentId ::
            out.state.contents[other] == s.contents[other])
  {
  }

  /**
   * There is no replay protection: a payment succeeds although a stored
   * payment already carries the same transaction hash. This is a corollary of
   * the success condition in `RecordPaymentChecks`, kept to record that the
   * hash plays no part in it.
   */
  lemma TransactionHashNotChecked(s: State, caller: Principal, now: nat, paymentId: string,
                                  contentId: string, amountIcp: nat, transactionHash: string,
                                  earlier: string)
    requires earlier in s.payments && s.payments[earlier].transactionHash == transactionHash
    requires caller != Anonymous && contentId in s.contents
    requires s.contents[contentId].isActive && amountIcp >= s.contents[contentId].priceIcp
    ensures RecordPayment(s, caller, now, paymentId, contentId, amountIcp, transactionHash).result.Ok?
  {
  }

  /** The two sums move together when one payment is stored under a key. */
  lemma SumsAfterStore(payments: map<string, PaymentRecord>, paymentId: string,
                       payment: PaymentRecord, id: string)
    ensures SalesOf(payments[paymentId := payment], id)
              + (if paymentId in payments && payments[paymentId].contentId == id then 1 else 0)
            == SalesOf(payments, id) + (if payment.contentId == id then 1 else 0)
    ensures RevenueOf(payments[paymentId := payment], id)
              + (if paymentId in payments && payments[paymentId].contentId == id
                 then payments[paymentId].amountIcp else 0)
            == RevenueOf(payments, id) + (if payment.contentId == id then payment.amountIcp else 0)
  {
    SumOverUpdate(payments, paymentId, payment, SaleWeight(id));
    SumOverUpdate(payments, paymentId, payment, RevenueWeight(id));
  }

  /**
   * A payment under a payment id not yet in use keeps every content's
   * counters equal to the count and sum of the payments that reference it.
   */
  lemma RecordPaymentKeepsConsistency(s: State, caller: Principal, now: nat, paymentId: string,
                                      contentId: string, amountIcp: nat, transactionHash: string)
    requires Consistent(s)
    requires paymentId !in s.payments
    ensures Consistent(RecordPayment(s, caller, now, paymentId, contentId, amountIcp,
                                     transactionHash).state)
  {
    var out := RecordPayment(s, caller, now, paymentId, contentId, amountIcp, transactionHash);
    if out.result.Ok? {
      forall id | id in out.state.contents
        ensures out.state.contents[id].totalSales == SalesOf(out.state.payments, id)
        ensures out.state.contents[id].totalRevenue == RevenueOf(out.state.payments, id)
      {
        SumsAfterStore(s.payments, paymentId, out.result.value, id);
      }
    }
  }

  /**
   * A payment under a payment id already in use replaces the stored payment
   * but still adds to the counters, so the invariant breaks, whichever
   * content the replaced payment referenced.
   */
  lemma ReusedPaymentIdBreaksConsistency(s: State, caller: Principal, now: nat, paymentId: string,
                                         contentId: string, amountIcp: nat, transactionHash: string)
    requires Valid(s) && Consistent(s)
    requires paymentId in s.payments
    requires RecordPayment(s, caller, now, paymentId, contentId, amountIcp, transactionHash).result.Ok?
    ensures !Consistent(RecordPayment(s, caller, now, paymentId, contentId, amountIcp,
                                      transactionHash).state)
  {
    var out := RecordPayment(s, caller, now, paymentId, contentId, amountIcp, transactionHash);
    var replaced := s.payments[paymentId].contentId;
    SumsAfterStore(s.payments, paymentId, out.result.value, replaced);
    if replaced == contentId {
      assert out.state.contents[contentId].totalSales == SalesOf(s.payments, contentId) + 1;
      assert SalesOf(out.state.payments, contentId) == SalesOf(s.payments, contentId);
    } else {
      assert out.state.contents[replaced] == s.contents[replaced];
      assert SalesOf(out.state.payments, replaced) + 1 == SalesOf(s.payments, replaced);
    }
  }

  // ------------------------------------------------- update_content_status

  /**
   * A missing record is reported before the caller is looked at; anyone but
   * the record's creator is refused; a failure changes nothing; a success
   * changes `isActive` of that one record and nothing else.
   */
  lemma UpdateContentStatusChecks(s: State, caller: Principal, contentId: string, isActive: bool)
    ensures var out := UpdateContentStatus(s, caller, contentId, isActive);
      && (contentId !in s.contents ==> out.result == Err(ContentNotFound))
      && ((contentId in s.contents && s.contents[contentId].creator != caller)
            ==> out.result == Err(NotCreator))
      && (out.result.Err? ==> out.state == s)
      && (out.result.Ok? <==> contentId in s.contents && s.contents[contentId].creator == caller)
      && (out.result.Ok? ==>
            && out.result.value == s.contents[contentId].(isActive := isActive)
            && out.state == s.(contents := s.contents[contentId := out.result.value]))
  {
  }

  /** Creators are never anonymous, so the anonymous principal can never change a status. */
  lemma AnonymousCannotUpdateStatus(s: State, contentId: string, isActive: bool)
    requires Valid(s)
    ensures UpdateContentStatus(s, Anonymous, contentId, isActive).result.Err?
    ensures UpdateContentStatus(s, Anonymous, contentId, isActive).state == s
  {
  }

  /** Switching a record on or off leaves its counters, and so the invariant, alone. */
  lemma UpdateContentStatusKeepsConsistency(s: State, caller: Principal, contentId: string,
                                            isActive: bool)
    requires Consistent(s)
    ensures Consistent(UpdateContentStatus(s, caller, contentId, isActive).state)
  {
  }

  // ------------------------------------------------- the structural invariant

  lemma EmptyIsValidAndConsistent()
    ensures Valid(Empty) && Consistent(Empty)
  {
  }

  /** `register_content` keeps the structural invariant, overwrites included. */
  lemma RegisterContentKeepsValid(s: State, caller: Principal, now: nat, id: string,
                                  title: string, description: string, contentHash: string,
                                  priceIcp: nat)
    requires Valid(s)
    ensures Valid(RegisterContent(s, caller, now, id, title, description, contentHash,
                                  priceIcp).state)
  {
  }

  /** `record_payment` keeps the structural invariant, overwrites included. */
  lemma RecordPaymentKeepsValid(s: State, caller: Principal, now: nat, paymentId: string,
                                contentId: string, amountIcp: nat, transactionHash: string)
    requires Valid(s)
    ensures Valid(RecordPayment(s, caller, now, paymentId, contentId, amountIcp,
                                transactionHash).state)
  {
  }

  /** `update_content_status` keeps the structural invariant. */
  lemma UpdateContentStatusKeepsValid(s: State, caller: Principal, contentId: string,
                                      isActive: bool)
    requires Valid(s)
    ensures Valid(UpdateContentStatus(s, caller, contentId, isActive).state)
  {
  }

  // --------------------------------------------------------------- queries

  /**
   * In a valid state the record `get_content` finds under an id carries that
   * id (that it finds exactly the stored record is `GetContent`'s contract).
   */
  lemma GetContentCarriesId(s: State, id: string)
    requires Valid(s)
    ensures GetContent(s, id).Some? ==> GetContent(s, id).value.id == id
  {
  }

  /** `get_content_by_creator` lists exactly the creator's records, by ascending id. */
  lemma GetContentByCreatorSpec(s: State, creator: Principal)
    requires Valid(s)
    ensures var r := GetContentByCreator(s, creator);
      && (forall i | 0 <= i < |r| ::
            r[i].id in s.contents && s.contents[r[i].id] == r[i] && r[i].creator == creator)
      && (forall id | id in s.contents && s.contents[id].creator == creator ::
            s.contents[id] in r)
      && (forall i, j | 0 <= i < j < |r| :: Below(r[i].id, r[j].id))
  {
    var r := GetContentByCreator(s, creator);
    var ks := SelectedKeys(s.contents, CreatedBy(creator));
    SelectSpec(s.contents, CreatedBy(creator));
    forall i | 0 <= i < |r|
      ensures r[i].id == ks[i] && r[i].creator == creator
    {
    }
    forall i, j | 0 <= i < j < |r|
      ensures Below(r[i].id, r[j].id)
    {
      assert Below(ks[i], ks[j]);
    }
  }

  /** `get_payments_for_content` lists exactly the payments for that content, by ascending id. */
  lemma GetPaymentsForContentSpec(s: State, contentId: string)
    requires Valid(s)
    ensures var r := GetPaymentsForContent(s, contentId);
      && (forall i | 0 <= i < |r| ::
            r[i].id in s.payments && s.payments[r[i].id] == r[i] && r[i].contentId == contentId)
      && (forall id | id in s.payments && s.payments[id].contentId == contentId ::
            s.payments[id] in r)
      && (forall i, j | 0 <= i < j < |r| :: Below(r[i].id, r[j].id))
  {
    var r := GetPaymentsForContent(s, contentId);
    var ks := SelectedKeys(s.payments, ForContent(contentId));
    SelectSpec(s.payments, ForContent(contentId));
    forall i | 0 <= i < |r|
      ensures r[i].id == ks[i] && r[i].contentId == contentId
    {
    }
    forall i, j | 0 <= i < j < |r|
      ensures Below(r[i].id, r[j].id)
    {
      assert Below(ks[i], ks[j]);
    }
  }

  /** `get_payments_by_buyer` lists exactly the buyer's payments, by ascending id. */
  lemma GetPaymentsByBuyerSpec(s: State, buyer: Principal)
    requires Valid(s)
    ensures var r := GetPaymentsByBuyer(s, buyer);
      && (forall i | 0 <= i < |r| ::
            r[i].id in s.payments && s.payments[r[i].id] == r[i] && r[i].buyer == buyer)
      && (forall id | id in s.payments && s.payments[id].buyer == buyer ::
            s.payments[id] in r)
      && (forall i, j | 0 <= i < j < |r| :: Below(r[i].id, r[j].id))
  {
    var r := GetPaymentsByBuyer(s, buyer);
    var ks := SelectedKeys(s.payments, BoughtBy(buyer));
    SelectSpec(s.payments, BoughtBy(buyer));
    forall i | 0 <= i < |r|
      ensures r[i].id == ks[i] && r[i].buyer == buyer
    {
    }
    forall i, j | 0 <= i < j < |r|
      ensures Below(r[i].id, r[j].id)
    {
      assert Below(ks[i], ks[j]);
    }
  }

  /**
   * `has_purchased_content` holds exactly when some stored payment id carries
   * that buyer and that content: the key-indexed form of the function's own
   * contract, which `PurchaseVisibleAfterPayment` and
   * `UnreferencedContentHasNoPurchases` use.
   */
  lemma HasPurchasedContentSpec(s: State, buyer: Principal, contentId: string)
    ensures HasPurchasedContent(s, buyer, contentId) <==>
              exists id :: id in s.payments && s.payments[id].buyer == buyer
                           && s.payments[id].contentId == contentId
  {
    var ks := InOrder(s.payments.Keys);
    if HasPurchasedContent(s, buyer, contentId) {
      var id :| id in ks && s.payments[id].buyer == buyer && s.payments[id].contentId == contentId;
      assert id in s.payments;
    } else {
      forall id | id in s.payments
        ensures !(s.payments[id].buyer == buyer && s.payments[id].contentId == contentId)
      {
        assert id in ks;
      }
    }
  }

  /** After a successful payment the buyer has purchased the content. */
  lemma PurchaseVisibleAfterPayment(s: State, caller: Principal, now: nat, paymentId: string,
                                    contentId: string, amountIcp: nat, transactionHash: string)
    requires caller != Anonymous && contentId in s.contents
    requires s.contents[contentId].isActive && amountIcp >= s.contents[contentId].priceIcp
    ensures HasPurchasedContent(RecordPayment(s, caller, now, paymentId, contentId, amountIcp,
                                              transactionHash).state, caller, contentId)
  {
    var after := RecordPayment(s, caller, now, paymentId, contentId, amountIcp, transactionHash).state;
    HasPurchasedContentSpec(after, caller, contentId);
    assert paymentId in after.payments;
  }

  /**
   * The two sums the counter invariant uses are what `get_payments_for_content`
   * shows: it lists as many payments as `SalesOf` counts, and their amounts
   * add up to `RevenueOf`.
   */
  lemma ListingMeasuresSums(s: State, contentId: string)
    ensures |GetPaymentsForContent(s, contentId)| == SalesOf(s.payments, contentId)
    ensures SeqSum(GetPaymentsForContent(s, contentId), Paid) == RevenueOf(s.payments, contentId)
  {
    var r := GetPaymentsForContent(s, contentId);
    SelectSum(s.payments, ForContent(contentId), SaleWeight(contentId));
    SelectSum(s.payments, ForContent(contentId), RevenueWeight(contentId));
    SeqSumCount(r, SaleWeight(contentId));
    SeqSumAgree(r, RevenueWeight(contentId), Paid);
  }

  /**
   * In a consistent state a content record's counters are what the canister
   * lists for it: `totalSales` is the number of payments
   * `get_payments_for_content` returns and `totalRevenue` the sum of their
   * amounts.
   */
  lemma CountersMatchListing(s: State, contentId: string)
    requires Consistent(s) && contentId in s.contents
    ensures s.contents[contentId].totalSales == |GetPaymentsForContent(s, contentId)|
    ensures s.contents[contentId].totalRevenue == SeqSum(GetPaymentsForContent(s, contentId), Paid)
  {
    ListingMeasuresSums(s, contentId);
  }

  /** With no payment referencing `contentId`, nobody has bought it and it lists no payments. */
  lemma UnreferencedContentHasNoPurchases(s: State, contentId: string, buyer: Principal)
    requires forall k | k in s.payments :: s.payments[k].contentId != contentId
    ensures !HasPurchasedContent(s, buyer, contentId)
    ensures GetPaymentsForContent(s, contentId) == []
  {
    HasPurchasedContentSpec(s, buyer, contentId);
    MatchingNone(s.payments, InOrder(s.payments.Keys), ForContent(contentId));
  }

  /** Content just registered under a fresh id has no payments and no buyer. */
  lemma FreshContentHasNoPurchases(s: State, caller: Principal, now: nat, id: string, title: string,
                                   description: string, contentHash: string, priceIcp: nat,
                                   buyer: Principal)
    requires Valid(s) && id !in s.contents
    ensures var after := RegisterContent(s, caller, now, id, title, description, contentHash,
                                         priceIcp).state;
      && !HasPurchasedContent(after, buyer, id)
      && GetPaymentsForContent(after, id) == []
  {
    var after := RegisterContent(s, caller, now, id, title, description, contentHash, priceIcp).state;
    assert after.payments == s.payments;
    UnreferencedContentHasNoPurchases(after, id, buyer);
  }

  /** `get_stats` after `register_content`: one more record unless the id was already in use. */
  lemma StatsAfterRegister(s: State, caller: Principal, now: nat, id: string, title: string,
                           description: string, contentHash: string, priceIcp: nat)
    ensures var out := RegisterContent(s, caller, now, id, title, description, contentHash, priceIcp);
      GetStats(out.state)
        == (GetStats(s).0 + (if out.result.Ok? && id !in s.contents then 1 else 0), GetStats(s).1)
  {
  }

  /**
   * `get_stats` after `record_payment`: its second value counts payment
   * records, so it rises by one for a payment under a fresh id, not by the
   * amount paid.
   */
  lemma StatsAfterPayment(s: State, caller: Principal, now: nat, paymentId: string,
                          contentId: string, amountIcp: nat, transactionHash: string)
    ensures var out := RecordPayment(s, caller, now, paymentId, contentId, amountIcp, transactionHash);
      GetStats(out.state)
        == (GetStats(s).0, GetStats(s).1 + (if out.result.Ok? && paymentId !in s.payments then 1 else 0))
  {
  }

  /**
   * A creator lists content at 500 e8s and a buyer pays for it. A second
   * payment that reuses the transaction hash under a new payment id is
   * accepted. A payment of 400 is refused.
   */
  lemma PurchaseScenario()
    ensures var creator, buyer := Principal([1]), Principal([2]);
      var registered := RegisterContent(Empty, creator, 1, "song-a", "Song A", "", "h", 500);
      var paid := RecordPayment(registered.state, buyer, 2, "pay-1", "song-a", 500, "tx-1");
      var replayed := RecordPayment(paid.state, buyer, 3, "pay-2", "song-a", 500, "tx-1");
      var short := RecordPayment(paid.state, buyer, 4, "pay-3", "song-a", 400, "tx-2");
      && registered.result.Ok? && registered.result.value.totalSales == 0
      && paid.result.Ok?
      && paid.state.contents["song-a"].totalSales == 1
      && paid.state.contents["song-a"].totalRevenue == 500
      && HasPurchasedContent(paid.state, buyer, "song-a")
      && replayed.result.Ok?
      && replayed.state.contents["song-a"].totalSales == 2
      && short.result == Err(InsufficientPayment)
      && short.state == paid.state
  {
    var creator, buyer := Principal([1]), Principal([2]);
    var registered := RegisterContent(Empty, creator, 1, "song-a", "Song A", "", "h", 500);
    PurchaseVisibleAfterPayment(registered.state, buyer, 2, "pay-1", "song-a", 500, "tx-1");
  }
}
