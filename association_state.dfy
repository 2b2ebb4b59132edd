/**
 * The states, timers and events of an SCTP association (the TCB of
 * section 13.2 of RFC 4960), and the choice between a delayed and an
 * immediate SACK after inbound DATA (section 6.2 of RFC 4960).
 */
module AssociationStates {

  /** Association states of section 4 of RFC 4960, in the crate's naming. */
  datatype AssociationState =
    | Closed
    | CookieWait
    | CookieEchoed
    | Established
    | ShutdownAckSent
    | ShutdownPending
    | ShutdownReceived
    | ShutdownSent

  datatype Side = Client | Server

  /** The association's timers; the model tracks which of them are running. */
  datatype Timer = T1Init | T1Cookie | T2Shutdown | T3Rtx | Reconfig | Ack

  datatype AckState = Idle | Immediate | Delay

  datatype AckMode = Normal | NoDelay | AlwaysDelay

  /** Application-facing events the modelled code queues. */
  datatype Event = Connected | DatagramReceived | StreamOpened

  /** Endpoint-facing events the modelled code queues. */
  datatype EndpointEvent = Drained

  /** Which trigger the receive path sets after handling inbound DATA or FORWARD TSN. */
  datatype AckTrigger = DelayedAck | ImmediateAck

  /**
   * The tail of `handle_peer_last_tsn_and_acknowledgement`: an ack may be
   * delayed unless one is already due, the sender asked for an immediate
   * SACK, a gap was seen, or the ack mode forbids delaying; `AlwaysDelay`
   * delays in any case. A delay is only armed from the idle state.
   */
  function AckDecision(ackState: AckState, sackImmediately: bool, hasPacketLoss: bool, ackMode: AckMode): AckTrigger {
    if (ackState != Immediate && !sackImmediately && !hasPacketLoss && ackMode == Normal) || ackMode == AlwaysDelay then
      if ackState == Idle then DelayedAck else ImmediateAck
    else
      ImmediateAck
  }

  /**
   * The SACK is delayed exactly when the ack state is idle and either the
   * mode always delays, or the mode is normal with no packet loss and no
   * request for an immediate SACK.
   */
  lemma AckDecisionDelaysExactly(ackState: AckState, sackImmediately: bool, hasPacketLoss: bool, ackMode: AckMode)
    ensures AckDecision(ackState, sackImmediately, hasPacketLoss, ackMode) == DelayedAck <==>
              ackState == Idle && (ackMode == AlwaysDelay || (ackMode == Normal && !sackImmediately && !hasPacketLoss))
    ensures ackMode == NoDelay ==> AckDecision(ackState, sackImmediately, hasPacketLoss, ackMode) == ImmediateAck
  {
  }
}
