/**
 * The canister's update calls as they run: one object owns the two stable
 * maps, and each call reads them, decides, and writes entries back in place.
 * Every method is proved to leave exactly the result and the maps that the
 * matching function of module `Registry` describes, so the properties proved
 * about those functions hold of the canister, to keep the structural
 * invariant `Registry.Valid`, and to keep the counter invariant
 * `Registry.Consistent` wherever the code does.
 */
module Canister {
  import opened Registry
  import opened RegistryProperties

  class ContentRegistryCanister {
    /** `CONTENT_REGISTRY`: content records by id. */
    var contentRegistry: map<string, ContentRegistration>
    /** `PAYMENT_RECORDS`: payment records by payment id. */
    var paymentRecords: map<string, PaymentRecord>

    /** The two maps as one value. */
    function Snapshot(): State
      reads this
    {
      State(contentRegistry, paymentRecords)
    }

    /** Both maps start empty. */
    constructor ()
      ensures Snapshot() == Empty
      ensures Valid(Snapshot()) && Consistent(Snapshot())
    {
      contentRegistry := map[];
      paymentRecords := map[];
      new;
      EmptyIsValidAndConsistent();
    }

    method RegisterContent(caller: Principal, now: nat, id: string, title: string,
                           description: string, contentHash: string, priceIcp: nat)
      returns (r: Result<ContentRegistration>)
      modifies this
      ensures Outcome(r, Snapshot())
              == Registry.RegisterContent(old(Snapshot()), caller, now, id, title, description,
                                          contentHash, priceIcp)
      ensures old(Valid(Snapshot())) ==> Valid(Snapshot())
      ensures old(Consistent(Snapshot()))
              && (forall k | k in old(paymentRecords) :: old(paymentRecords)[k].contentId != id)
              ==> Consistent(Snapshot())
    {
      ghost var s := Snapshot();
      if Valid(s) {
        RegisterContentKeepsValid(s, caller, now, id, title, description, contentHash, priceIcp);
      }
      if Consistent(s) && forall k | k in s.payments :: s.payments[k].contentId != id {
        RegisterUnreferencedKeepsConsistency(s, caller, now, id, title, description, contentHash,
                                             priceIcp);
      }
      if caller == Anonymous {
        return Err(AnonymousRegistration);
      }
      var content := ContentRegistration(id, caller, title, description, contentHash,
                                         priceIcp, now, 0, 0, true);
      contentRegistry := contentRegistry[id := content];
      r := Ok(content);
    }

    method RecordPayment(caller: Principal, now: nat, paymentId: string, contentId: string,
                         amountIcp: nat, transactionHash: string)
      returns (r: Result<PaymentRecord>)
      modifies this
      ensures Outcome(r, Snapshot())
              == Registry.RecordPayment(old(Snapshot()), caller, now, paymentId, contentId,
                                        amountIcp, transactionHash)
      ensures old(Valid(Snapshot())) ==> Valid(Snapshot())
      ensures old(Consistent(Snapshot())) && paymentId !in old(paymentRecords)
              ==> Consistent(Snapshot())
    {
      ghost var s := Snapshot();
      if caller == Anonymous {
        r := Err(AnonymousPayment);
      } else if contentId !in contentRegistry {
        r := Err(ContentNotFound);
      } else {
        var content := contentRegistry[contentId];
        if !content.isActive {
          r := Err(ContentNotActive);
        } else if amountIcp < content.priceIcp {
          r := Err(InsufficientPayment);
        } else {
          var payment := PaymentRecord(paymentId, contentId, caller, content.creator,
                                       amountIcp, now, transactionHash);
          paymentRecords := paymentRecords[paymentId := payment];
          var updated := content;
          updated := updated.(totalSales := updated.totalSales + 1);
          updated := updated.(totalRevenue := updated.totalRevenue + amountIcp);
          contentRegistry := contentRegistry[contentId := updated];
          r := Ok(payment);
        }
      }
      // The first postcondition, stated here so that the lemma calls below
      // can rely on it.
      assert Outcome(r, Snapshot())
             == Registry.RecordPayment(s, caller, now, paymentId, contentId, amountIcp,
                                       transactionHash);
      if Valid(s) {
        RecordPaymentKeepsValid(s, caller, now, paymentId, contentId, amountIcp, transactionHash);
      }
      if paymentId !in s.payments && Consistent(s) {
        RecordPaymentKeepsConsistency(s, caller, now, paymentId, contentId, amountIcp,
                                      transactionHash);
      }
    }

    method UpdateContentStatus(caller: Principal, contentId: string, isActive: bool)
      returns (r: Result<ContentRegistration>)
      modifies this
      ensures Outcome(r, Snapshot())
              == Registry.UpdateContentStatus(old(Snapshot()), caller, contentId, isActive)
      ensures old(Valid(Snapshot())) ==> Valid(Snapshot())
      ensures old(Consistent(Snapshot())) ==> Consistent(Snapshot())
    {
      ghost var s := Snapshot();
      if Valid(s) {
        UpdateContentStatusKeepsValid(s, caller, contentId, isActive);
      }
      if Consistent(s) {
        UpdateContentStatusKeepsConsistency(s, caller, contentId, isActive);
      }
      if contentId !in contentRegistry {
        return Err(ContentNotFound);
      }
      var content := contentRegistry[contentId];
      if content.creator != caller {
        return Err(NotCreator);
      }
      content := content.(isActive := isActive);
      contentRegistry := contentRegistry[contentId := content];
      r := Ok(content);
    }
  }
}
