/** One order POST to the broker and the three-way classification of what came back. */
module KisMutation {
  import opened Prelude
  import opened Text
  import opened KstTimestamp
  import opened BrokerTime

  /** A response body; `None` stands for a missing field or one that is not a string. */
  datatype Envelope = Envelope(
    rtCd: Option<string>, msgCd: Option<string>, msg1: Option<string>, orderNo: Option<string>, orderTime: Option<string>)

  /** What happened on the wire: the body is `None` when it is not a KIS envelope at all. */
  datatype Wire =
    | NeverSent
    | SentAndThrew(body: Option<Envelope>)
    | SentAndReturned(body: Option<Envelope>)

  datatype Failure = BusinessRejection | TransportUnknown

  datatype Outcome = Accepted(orderNo: string, date: string, time: string) | Rejected | Unknown

  predicate IsRejectionCode(code: Option<string>) {
    && code.Some? && |code.value| > 0 && AllDigits(code.value) && code.value[0] != '0'
  }

  /** A rejection code together with both message fields, one of them not blank. */
  predicate IsExplicitRejection(body: Envelope) {
    && IsRejectionCode(body.rtCd)
    && body.msgCd.Some? && body.msg1.Some?
    && (Trim(body.msgCd.value) != "" || Trim(body.msg1.value) != "")
  }

  predicate IsKisEnvelope(body: Option<Envelope>) {
    body.Some? && body.value.rtCd.Some?
  }

  predicate IsBusinessRejection(body: Option<Envelope>) {
    IsKisEnvelope(body) && IsExplicitRejection(body.value)
  }

  /** The request is sent at most once; every failure after that is unknown unless the broker refused. */
  function Post(wire: Wire): Result<Envelope, Failure> {
    match wire
    case NeverSent => Err(BusinessRejection)
    case SentAndThrew(body) => Err(if IsBusinessRejection(body) then BusinessRejection else TransportUnknown)
    case SentAndReturned(body) =>
      if !IsKisEnvelope(body) then Err(TransportUnknown)
      else if body.value.rtCd == Some("0") then Ok(body.value)
      else if IsBusinessRejection(body) then Err(BusinessRejection)
      else Err(TransportUnknown)
  }

  function ClassifyResponse(body: Envelope, call: int): Outcome {
    if body.rtCd != Some("0") then
      if IsExplicitRejection(body) then Rejected else Unknown
    else
      var orderNo := if body.orderNo.Some? then Trim(body.orderNo.value) else "";
      if orderNo == "" then Unknown
      else
        match ResolveBrokerTimestamp(body.orderTime, call)
        case None => Unknown
        case Some(stamp) => Accepted(orderNo, stamp.date, stamp.time)
  }

  function ClassifyFailure(failure: Failure): Outcome {
    match failure
    case BusinessRejection => Rejected
    case TransportUnknown => Unknown
  }

  function Order(wire: Wire, call: int): Outcome {
    match Post(wire)
    case Ok(body) => ClassifyResponse(body, call)
    case Err(failure) => ClassifyFailure(failure)
  }

  /** The broker's own words that it refused the order. */
  predicate Refused(wire: Wire) {
    !wire.NeverSent? && wire.body.Some? && IsExplicitRejection(wire.body.value)
  }

  /**
   `REJECTED` means that nothing was sent or that the broker refused in so many words. Every other
   failure, in particular any that loses the response, is `UNKNOWN`.
   */
  lemma RejectedExactly(wire: Wire, call: int)
    ensures Order(wire, call) == Rejected <==> wire.NeverSent? || Refused(wire)
    ensures Refused(wire)
       <==> && !wire.NeverSent? && wire.body.Some? && wire.body.value.rtCd.Some?
            && wire.body.value.rtCd.value != "" && wire.body.value.rtCd.value[0] != '0'
            && (forall i :: 0 <= i < |wire.body.value.rtCd.value| ==> '0' <= wire.body.value.rtCd.value[i] <= '9')
            && wire.body.value.msgCd.Some? && wire.body.value.msg1.Some?
            && !(Trim(wire.body.value.msgCd.value) == "" && Trim(wire.body.value.msg1.value) == "")
  {
  }

  /**
   `ACCEPTED` needs a success code, an order number and a broker time near the call, and hands on that
   number, trimmed, with the day and clock of that time.
   */
  lemma AcceptedExactly(wire: Wire, call: int)
    ensures Order(wire, call).Accepted?
       <==> && wire.SentAndReturned? && wire.body.Some?
            && wire.body.value.rtCd == Some("0")
            && wire.body.value.orderNo.Some? && Trim(wire.body.value.orderNo.value) != ""
            && ResolveBrokerTimestamp(wire.body.value.orderTime, call).Some?
    ensures Order(wire, call).Accepted? ==>
              && Order(wire, call).orderNo == Trim(wire.body.value.orderNo.value)
              && Order(wire, call).date == ResolveBrokerTimestamp(wire.body.value.orderTime, call).value.date
              && Order(wire, call).time == ResolveBrokerTimestamp(wire.body.value.orderTime, call).value.time
  {
  }

  /** The same of the classification alone, which is also reached with answers that were not checked before. */
  lemma ResponsesClassifiedExactly(body: Envelope, call: int)
    ensures ClassifyResponse(body, call).Rejected?
       <==> && body.rtCd.Some? && body.rtCd.value != "" && body.rtCd.value[0] != '0' && AllDigits(body.rtCd.value)
            && body.msgCd.Some? && body.msg1.Some? && !(IsBlank(body.msgCd.value) && IsBlank(body.msg1.value))
    ensures ClassifyResponse(body, call).Accepted?
       <==> && body.rtCd == Some("0") && body.orderNo.Some? && !IsBlank(body.orderNo.value)
            && ResolveBrokerTimestamp(body.orderTime, call).Some?
    ensures ClassifyResponse(body, call).Accepted? ==>
              ClassifyResponse(body, call).orderNo == Trim(body.orderNo.value)
  {
    hide Trim, IsBlank, ResolveBrokerTimestamp;
    if body.orderNo.Some? { BlankExactlyWhen(body.orderNo.value); }
    if body.msgCd.Some? { BlankExactlyWhen(body.msgCd.value); }
    if body.msg1.Some? { BlankExactlyWhen(body.msg1.value); }
  }

  /** `hasCompleteOrderIdentity`. */
  predicate HasCompleteIdentity(orderNo: string, date: string, time: string) {
    Trim(orderNo) != "" && Trim(date) != "" && Trim(time) != ""
  }

  lemma CompleteExactlyWhen(orderNo: string, date: string, time: string)
    ensures HasCompleteIdentity(orderNo, date, time) <==> !IsBlank(orderNo) && !IsBlank(date) && !IsBlank(time)
  {
    hide Trim, IsBlank;
    BlankExactlyWhen(orderNo);
    BlankExactlyWhen(date);
    BlankExactlyWhen(time);
  }

  /**
   An accepted order always carries a complete identity, and the date and time it is stored under
   parse back to an instant within ten minutes of the call, which is what recovery later searches for.
   */
  lemma AcceptedOrderCanBeFound(wire: Wire, call: int)
    requires Order(wire, call).Accepted?
    requires 100 <= KstYear(call - MAX_BROKER_TIME_SKEW_MS) && KstYear(call + MAX_BROKER_TIME_SKEW_MS) <= 9999
    ensures var order := Order(wire, call);
            && HasCompleteIdentity(order.orderNo, order.date, order.time)
            && IsCalendarDate(order.date)
            && ParseKstTimestamp(order.date, order.time).Some?
            && Abs(ParseKstTimestamp(order.date, order.time).value - call) <= MAX_BROKER_TIME_SKEW_MS
  {
    hide ResolveBrokerTimestamp, ParseKstTimestamp, KstYear, Trim, IsCalendarDate, IsTime;
    var body := wire.body.value;
    var stamp := ResolveBrokerTimestamp(body.orderTime, call).value;
    StampIsNear(body.orderTime, call);
    YearsFollowInstants(call - MAX_BROKER_TIME_SKEW_MS, stamp.instant);
    YearsFollowInstants(stamp.instant, call + MAX_BROKER_TIME_SKEW_MS);
    AcceptedStampParses(body.orderTime, call);
    TrimTrims(body.orderNo.value);
    ShapesOfStamps(stamp.date, stamp.time);
    DigitsAreTrimmed(stamp.date);
    DigitsAreTrimmed(stamp.time);
  }

  lemma StampIsNear(raw: Option<string>, call: int)
    requires ResolveBrokerTimestamp(raw, call).Some?
    ensures Abs(ResolveBrokerTimestamp(raw, call).value.instant - call) <= MAX_BROKER_TIME_SKEW_MS
  {
  }
}
