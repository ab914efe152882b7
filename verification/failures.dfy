/** The errors the publication core raises or passes on. */
module Failures {

  datatype Error =
    | PublicationClosed     // an offer returned CLOSED
    | MaxPositionExceeded   // an offer returned MAX_POSITION_EXCEEDED
    | NotConnectedTimeout   // NOT_CONNECTED outlived the connect timeout
    | BackPressuredTimeout  // BACK_PRESSURED outlived the backpressure timeout
    | AdminActionTimeout    // ADMIN_ACTION outlived the admin-action timeout
    | NotConnected          // one failed connectivity probe
    | RetriesExhausted      // every connectivity probe failed
    | Overflow              // a second buffer arrived while one was held
    | Cancelled             // a processor was dropped without a recorded error
    | ResourceDisposal      // close() was called off the event-loop thread
    | Foreign(code: nat)    // an exception raised by code outside this model
}
