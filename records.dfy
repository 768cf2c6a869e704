/**
 * The records that flow through the pipeline: the provider's raw call-detail
 * records and the attributed calls the statistics engine consumes.
 */
module Records {
  import opened Common

  /** A phone number as text (after normalisation: "7" followed by digits). */
  type Phone = string

  datatype Direction = Incoming | Outgoing

  /**
   * One call-detail record as the telephony provider returns it.
   * `portalUserId` and `failedCode` may be absent; the call type is the
   * provider's numeric marker (2 means an incoming call).
   */
  datatype RawCall = RawCall(
    id: string,
    portalUserId: Option<string>,
    portalNumber: string,
    phoneNumber: string,
    duration: int,
    startDate: string,
    callType: int,
    failedCode: Option<string>)

  /** A call attributed to a known manager, with its phone number normalised. */
  datatype Call = Call(
    id: string,
    userId: string,
    userName: string,
    portalNumber: string,
    phone: Phone,
    duration: int,
    startDate: string,
    direction: Direction,
    failedCode: Option<string>)

  /** Provider call type that marks an incoming call. */
  const IncomingCallType: int := 2

  /** Failure code of an incoming call nobody picked up. */
  const MissedCode: string := "304"

  /** Failure code of a call that was connected. */
  const SuccessCode: string := "200"

  /** An incoming call that was not picked up (it counts as missed). */
  predicate IsMissed(c: Call) {
    c.direction == Incoming && c.failedCode == Some(MissedCode)
  }

  /** A connected call, in either direction. */
  predicate IsAnswered(c: Call) {
    c.failedCode == Some(SuccessCode)
  }
}
