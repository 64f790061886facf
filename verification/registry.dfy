/**
 * The content-registry canister as values: its two records, the state held
 * in its two stable maps, the three update calls as functions from a state
 * to a result and a new state, and the six query calls as functions of a
 * state.
 *
 * The principal making a call and the canister clock are explicit
 * parameters (`caller`, `now`) where the canister asks the runtime for them.
 * Amounts, prices, counters and timestamps are `u64` in the canister and
 * unbounded naturals here.
 */
module Registry {
  import opened StringOrder
  import opened MapSum

  /** An Internet Computer principal, compared only for equality. */
  datatype Principal = Principal(bytes: seq<bv8>)

  /** The anonymous principal: the single byte 0x04. */
  const Anonymous: Principal := Principal([4])

  datatype ContentRegistration = ContentRegistration(
    id: string,
    creator: Principal,
    title: string,
    description: string,
    contentHash: string,
    priceIcp: nat,         // price in e8s
    createdAt: nat,
    totalSales: nat,
    totalRevenue: nat,
    isActive: bool)

  datatype PaymentRecord = PaymentRecord(
    id: string,
    contentId: string,
    buyer: Principal,
    creator: Principal,
    amountIcp: nat,
    timestamp: nat,
    transactionHash: string)

  /** The update calls' `Result<_, String>`. */
  datatype Result<T> = Ok(value: T) | Err(message: string)

  datatype Option<T> = None | Some(value: T)

  /** The contents of the two stable maps. */
  datatype State = State(
    contents: map<string, ContentRegistration>,
    payments: map<string, PaymentRecord>)

  /** What an update call returns, and the state it leaves behind. */
  datatype Outcome<T> = Outcome(result: Result<T>, state: State)

  const AnonymousRegistration := "Anonymous users cannot register content"
  const AnonymousPayment := "Anonymous users cannot make payments"
  const ContentNotFound := "Content not found"
  const ContentNotActive := "Content is not active"
  const InsufficientPayment := "Insufficient payment amount"
  const NotCreator := "Only the creator can update content status"

  const Empty := State(map[], map[])

  // ---------------------------------------------------------------- updates

  /**
   * `register_content`: store a fresh record under `id`, replacing any record
   * already there. Only the anonymous caller is refused; on success the
   * returned record is what `get_content(id)` finds, no other id appears and
   * the payments are untouched.
   */
  function RegisterContent(s: State, caller: Principal, now: nat, id: string, title: string,
                           description: string, contentHash: string, priceIcp: nat)
    : (out: Outcome<ContentRegistration>)
    ensures out.result.Ok? <==> caller != Anonymous
    ensures out.result.Err? ==> out.state == s
    ensures out.result.Ok? ==>
              && GetContent(out.state, id) == Some(out.result.value)
              && out.state.contents.Keys == s.contents.Keys + {id}
              && out.state.payments == s.payments
  {
    if caller == Anonymous then Outcome(Err(AnonymousRegistration), s)
    else
      var content := ContentRegistration(id, caller, title, description, contentHash,
                                         priceIcp, now, 0, 0, true);
      Outcome(Ok(content), s.(contents := s.contents[id := content]))
  }

  /**
   * `record_payment`: the caller buys `contentId`; the payment is stored
   * under `paymentId`. It succeeds exactly when the caller is not anonymous
   * and the content exists, is active and costs no more than the amount;
   * a success stores the returned payment, with the caller as buyer, and
   * adds no content id.
   */
  function RecordPayment(s: State, caller: Principal, now: nat, paymentId: string,
                         contentId: string, amountIcp: nat, transactionHash: string)
    : (out: Outcome<PaymentRecord>)
    ensures out.result.Ok? <==>
              && caller != Anonymous
              && contentId in s.contents
              && s.contents[contentId].isActive
              && amountIcp >= s.contents[contentId].priceIcp
    ensures out.result.Err? ==> out.state == s
    ensures out.result.Ok? ==>
              && out.result.value.buyer == caller
              && out.result.value.contentId == contentId
              && out.state.payments == s.payments[paymentId := out.result.value]
              && out.state.contents.Keys == s.contents.Keys
  {
    if caller == Anonymous then Outcome(Err(AnonymousPayment), s)
    else if contentId !in s.contents then Outcome(Err(ContentNotFound), s)
    else
      var content := s.contents[contentId];
      if !content.isActive then Outcome(Err(ContentNotActive), s)
      else if amountIcp < content.priceIcp then Outcome(Err(InsufficientPayment), s)
      else
        var payment := PaymentRecord(paymentId, contentId, caller, content.creator,
                                     amountIcp, now, transactionHash);
        var updated := content.(totalSales := content.totalSales + 1,
                                totalRevenue := content.totalRevenue + amountIcp);
        Outcome(Ok(payment), State(s.contents[contentId := updated],
                                   s.payments[paymentId := payment]))
  }

  /**
   * `update_content_status`: the creator switches a record on or off. It
   * succeeds exactly when the record exists and the caller created it; a
   * success stores and returns the record with the new flag, and touches
   * nothing else.
   */
  function UpdateContentStatus(s: State, caller: Principal, contentId: string, isActive: bool)
    : (out: Outcome<ContentRegistration>)
    ensures out.result.Ok? <==> contentId in s.contents && s.contents[contentId].creator == caller
    ensures out.result.Err? ==> out.state == s
    ensures out.result.Ok? ==>
              && out.result.value.isActive == isActive
              && out.state.contents == s.contents[contentId := out.result.value]
              && out.state.payments == s.payments
  {
    if contentId !in s.contents then Outcome(Err(ContentNotFound), s)
    else
      var content := s.contents[contentId];
      if content.creator != caller then Outcome(Err(NotCreator), s)
      else
        var updated := content.(isActive := isActive);
        Outcome(Ok(updated), s.(contents := s.contents[contentId := updated]))
  }

  // ---------------------------------------------------------------- queries

  // The filters the queries apply to each stored value.

  function CreatedBy(creator: Principal): ContentRegistration -> bool
  {
    (c: ContentRegistration) => c.creator == creator
  }

  function ForContent(contentId: string): PaymentRecord -> bool
  {
    (p: PaymentRecord) => p.contentId == contentId
  }

  function BoughtBy(buyer: Principal): PaymentRecord -> bool
  {
    (p: PaymentRecord) => p.buyer == buyer
  }

  function Purchase(buyer: Principal, contentId: string): PaymentRecord -> bool
  {
    (p: PaymentRecord) => p.buyer == buyer && p.contentId == contentId
  }

  /** `get_content`: the record stored under `id`, if any. */
  function GetContent(s: State, id: string): (r: Option<ContentRegistration>)
    ensures r.Some? <==> id in s.contents
    ensures r.Some? ==> r.value == s.contents[id]
  {
    if id in s.contents then Some(s.contents[id]) else None
  }

  /** `get_content_by_creator`: exactly the stored records with that creator. */
  function GetContentByCreator(s: State, creator: Principal): (r: seq<ContentRegistration>)
    ensures forall c :: c in r <==> c in s.contents.Values && c.creator == creator
  {
    Select(s.contents, CreatedBy(creator))
  }

  /** `get_payments_for_content`: exactly the stored payments for that content. */
  function GetPaymentsForContent(s: State, contentId: string): (r: seq<PaymentRecord>)
    ensures forall p :: p in r <==> p in s.payments.Values && p.contentId == contentId
  {
    Select(s.payments, ForContent(contentId))
  }

  /** `get_payments_by_buyer`: exactly the stored payments of that buyer. */
  function GetPaymentsByBuyer(s: State, buyer: Principal): (r: seq<PaymentRecord>)
    ensures forall p :: p in r <==> p in s.payments.Values && p.buyer == buyer
  {
    Select(s.payments, BoughtBy(buyer))
  }

  /** `has_purchased_content`: some stored payment is by `buyer` for `contentId`. */
  function HasPurchasedContent(s: State, buyer: Principal, contentId: string): (b: bool)
    ensures b <==> exists p :: p in s.payments.Values && p.buyer == buyer && p.contentId == contentId
  {
    var ks := InOrder(s.payments.Keys);
    var b := Any(s.payments, ks, Purchase(buyer, contentId));
    assert b <==> exists p :: p in s.payments.Values && p.buyer == buyer && p.contentId == contentId
    by {
      if b {
        var k :| k in ks && Purchase(buyer, contentId)(s.payments[k]);
        assert s.payments[k] in s.payments.Values;
      } else {
        forall p | p in s.payments.Values
          ensures !(p.buyer == buyer && p.contentId == contentId)
        {
          var k :| k in s.payments && s.payments[k] == p;
          assert k in ks;
        }
      }
    }
    b
  }

  /**
   * `get_stats`: the number of content ids and the number of payment ids
   * (a count of payment records, not a sum of amounts).
   */
  function GetStats(s: State): (r: (nat, nat))
    ensures r.0 == |s.contents.Keys| && r.1 == |s.payments.Keys|
  {
    (|s.contents|, |s.payments|)
  }

  // ------------------------------------------------------------ invariants

  /**
   * What every reachable state satisfies: each record is stored under its own
   * id, no anonymous principal is a creator or a buyer, and every payment
   * names a content record (records are never removed).
   */
  ghost predicate Valid(s: State)
  {
    && (forall id | id in s.contents ::
          s.contents[id].id == id && s.contents[id].creator != Anonymous)
    && (forall id | id in s.payments ::
          && s.payments[id].id == id
          && s.payments[id].contentId in s.contents
          && s.payments[id].buyer != Anonymous
          && s.payments[id].creator != Anonymous)
  }

  /** One for a payment that references `contentId`, zero for any other. */
  function SaleWeight(contentId: string): PaymentRecord -> nat
  {
    (p: PaymentRecord) => if p.contentId == contentId then 1 else 0
  }

  /** The amount of a payment that references `contentId`, zero for any other. */
  function RevenueWeight(contentId: string): PaymentRecord -> nat
  {
    (p: PaymentRecord) => if p.contentId == contentId then p.amountIcp else 0
  }

  /** The amount a payment paid. */
  function Paid(p: PaymentRecord): nat
  {
    p.amountIcp
  }

  /** The number of stored payments that reference `contentId`. */
  ghost function SalesOf(payments: map<string, PaymentRecord>, contentId: string): nat
  {
    SumOver(payments, SaleWeight(contentId))
  }

  /** The sum of `amountIcp` over the stored payments that reference `contentId`. */
  ghost function RevenueOf(payments: map<string, PaymentRecord>, contentId: string): nat
  {
    SumOver(payments, RevenueWeight(contentId))
  }

  /** Each content record's counters agree with the payment map. */
  ghost predicate Consistent(s: State)
  {
    forall id | id in s.contents ::
      && s.contents[id].totalSales == SalesOf(s.payments, id)
      && s.contents[id].totalRevenue == RevenueOf(s.payments, id)
  }
}
