// Values carried by the HTC transmit path (htc/htc_packet.h, htc/htc_internal.h).

module TxTypes {

  // The packet tags that change how the transmit path treats a packet.
  datatype Tag = Ordinary | AutoPm | RuntimePut | Bundled

  /** The part of an HTC packet the transmit path reads or writes.
      `netbuf` is the handle of its network buffer; it identifies the packet. */
  datatype TxPacket = TxPacket(
    netbuf: nat,
    length: nat,              // ActualLength
    tag: Tag,
    fragments: nat,           // transmit resources the packet takes on a pipe without credit flow
    creditsUsed: nat,
    needCreditUpdate: bool)   // HTC_FLAGS_NEED_CREDIT_UPDATE in SendFlags

  /** Per-endpoint constants, fixed when the service is connected. */
  datatype EndpointConfig = EndpointConfig(
    isEndpoint0: bool,
    isWmiControl: bool,
    creditFlow: bool,         // TxCreditFlowEnabled
    creditSize: nat,          // TxCreditSize
    creditsPerMaxMsg: nat,    // TxCreditsPerMaxMsg
    headerLength: nat,        // HTC_HDR_LENGTH
    maxTxQueueDepth: int,
    hasSendFull: bool,        // an EpSendFull callback is installed
    hasPaddingCallback: bool) // an ep_padding_credit_update callback is installed
  {
    predicate Valid() { creditSize > 0 }
  }
}
