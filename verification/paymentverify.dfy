/**
 * The server route that checks a payment with the payment gateway: it
 * requires both ids, fetches an access token, looks the payment up, and
 * accepts it only when the gateway's amount equals the amount the client
 * sent and the gateway reports it paid.
 */
module PaymentVerify {
  import opened Wrappers

  /**
   * The request body's fields as they arrive: an absent field is None; the
   * ids are falsy (rejected) when absent or empty.
   */
  datatype Body = Body(impUid: Option<string>, merchantUid: Option<string>, amount: Option<int>)

  /** The gateway's payment record, as far as the route reads it. */
  datatype PaymentData = PaymentData(
    impUid: string,
    merchantUid: string,
    amount: int,
    status: string,
    paidAt: int,
    buyerName: string,
    buyerEmail: string)

  /** A gateway call's outcome: the network failed, or a JSON reply with its `code` and payload. */
  datatype Reply<T> = NetworkError | Answered(code: int, payload: T)

  /** Why the route answered 500: the JSON body, the token call, or the lookup failed. */
  datatype Cause = UnreadableBody | TokenRefused | LookupRefused | NetworkFailure

  datatype Outcome =
    | MissingParameters                                   // 400
    | AmountMismatch(expected: Option<int>, actual: int)  // 400
    | NotCompleted(status: string)                        // 400
    | Verified(data: PaymentData)                         // 200
    | VerificationFailed(cause: Cause)                // 500

  function HttpStatus(o: Outcome): (r: int)
    ensures r == 200 <==> o.Verified?
    ensures r == 500 <==> o.VerificationFailed?
  {
    match o
    case Verified(_) => 200
    case VerificationFailed(_) => 500
    case _ => 400
  }

  /** JavaScript truthiness of an optional string field. */
  predicate Truthy(field: Option<string>) {
    field.Some? && field.value != []
  }

  /**
   * `getIamportToken`: the access token from a reply whose code is 0; any other
   * code, or a network failure, throws.
   */
  function AccessToken(reply: Reply<string>): (r: Result<string, Cause>)
    ensures r.Success? <==> reply.Answered? && reply.code == 0
  {
    match reply
    case NetworkError => Failure(NetworkFailure)
    case Answered(code, token) => if code != 0 then Failure(TokenRefused) else Success(token)
  }

  /** `getPaymentData`: likewise for the lookup of one payment. */
  function PaymentLookup(reply: Reply<PaymentData>): (r: Result<PaymentData, Cause>)
    ensures r.Success? <==> reply.Answered? && reply.code == 0
  {
    match reply
    case NetworkError => Failure(NetworkFailure)
    case Answered(code, data) => if code != 0 then Failure(LookupRefused) else Success(data)
  }

  /**
   * `POST`: `body` is None when the request is not valid JSON or is the JSON
   * `null`, whose destructuring throws just as a parse error does; `tokenReply` is
   * the token endpoint's answer and `lookup(impUid, token)` the payments
   * endpoint's answer for that id and token.
   */
  function Verify(body: Option<Body>, tokenReply: Reply<string>,
                  lookup: (string, string) -> Reply<PaymentData>): (r: Outcome)
    ensures body.None? ==> r == VerificationFailed(UnreadableBody)
    ensures r.Verified? ==> body.Some? && body.value.amount == Some(r.data.amount) && r.data.status == "paid"
    ensures r.AmountMismatch? ==> body.Some? && r.expected == body.value.amount && r.expected != Some(r.actual)
  {
    match body
    case None => VerificationFailed(UnreadableBody)
    case Some(b) =>
      if !Truthy(b.impUid) || !Truthy(b.merchantUid) then MissingParameters
      else match AccessToken(tokenReply)
        case Failure(f) => VerificationFailed(f)
        case Success(token) =>
          match PaymentLookup(lookup(b.impUid.value, token))
          case Failure(f) => VerificationFailed(f)
          case Success(data) =>
            if b.amount != Some(data.amount) then AmountMismatch(b.amount, data.amount)
            else if data.status != "paid" then NotCompleted(data.status)
            else Verified(data)
  }

  // ---------------------------------------------------------------- lemmas

  /**
   * The route answers 200 exactly when the body names both ids, both gateway
   * calls answer with code 0, the gateway's amount equals the client's and its
   * status is "paid"; the echoed record is the gateway's.
   */
  lemma VerifiedIff(body: Option<Body>, tokenReply: Reply<string>, lookup: (string, string) -> Reply<PaymentData>)
    ensures var r := Verify(body, tokenReply, lookup);
            HttpStatus(r) == 200 <==>
              body.Some? && Truthy(body.value.impUid) && Truthy(body.value.merchantUid)
              && tokenReply.Answered? && tokenReply.code == 0
              && var reply := lookup(body.value.impUid.value, tokenReply.payload);
                 reply.Answered? && reply.code == 0
                 && body.value.amount == Some(reply.payload.amount) && reply.payload.status == "paid"
                 && r == Verified(reply.payload)
  {
  }

  /** A body missing either id is refused with 400 before the gateway is asked anything. */
  lemma MissingIdsRefused(body: Body, tokenReply: Reply<string>, lookup: (string, string) -> Reply<PaymentData>)
    requires !Truthy(body.impUid) || !Truthy(body.merchantUid)
    ensures Verify(Some(body), tokenReply, lookup) == MissingParameters
    ensures HttpStatus(Verify(Some(body), tokenReply, lookup)) == 400
  {
  }

  /**
   * The amount is compared only with what the client itself sent, so whatever
   * a paid payment's amount, a body quoting that amount is verified.
   */
  lemma ClientQuotedAmountDecides(impUid: string, merchantUid: string, token: string, data: PaymentData,
                                  lookup: (string, string) -> Reply<PaymentData>)
    requires impUid != [] && merchantUid != []
    requires lookup(impUid, token) == Answered(0, data) && data.status == "paid"
    ensures Verify(Some(Body(Some(impUid), Some(merchantUid), Some(data.amount))), Answered(0, token), lookup) == Verified(data)
  {
  }

  /** A differing amount is reported with both figures, whatever the payment's status. */
  lemma MismatchReportsBoth(b: Body, token: string, data: PaymentData, lookup: (string, string) -> Reply<PaymentData>)
    requires Truthy(b.impUid) && Truthy(b.merchantUid)
    requires lookup(b.impUid.value, token) == Answered(0, data)
    requires b.amount != Some(data.amount)
    ensures Verify(Some(b), Answered(0, token), lookup) == AmountMismatch(b.amount, data.amount)
  {
  }
}
