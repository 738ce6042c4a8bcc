/** Carrier-independent protocol identifiers, negotiation values and frames. */
module ProtocolTypes {
  import opened Common

  type FlowId = u64

  /** A 16-byte opaque identifier. */
  type Id16 = b: Bytes | |b| == 16 witness seq(16, _ => 1)

  /** The 16-byte values whose constructor refuses the all-zero array. */
  type NonZeroId16 = b: Id16 | exists i :: 0 <= i < |b| && b[i] != 0 witness (assert NONZERO_WITNESS[0] != 0; NONZERO_WITNESS)

  const NONZERO_WITNESS: Id16 := [1, 0, 0, 0, 0, 0, 0, 0, 0, 0, 0, 0, 0, 0, 0, 0]

  /** A 32-byte attachment proof. */
  type Proof = b: Bytes | |b| == 32 witness seq(32, _ => 0)

  datatype VersionRange = VersionRange(minimum: u16, maximum: u16) {
    predicate IsValid() { minimum <= maximum }

    predicate Includes(version: u16) { minimum <= version <= maximum }

    /** The newest version inside both ranges. */
    function Negotiate(peer: VersionRange): Option<u16> {
      var low := if minimum > peer.minimum then minimum else peer.minimum;
      var high := if maximum < peer.maximum then maximum else peer.maximum;
      if IsValid() && peer.IsValid() && low <= high then Some(high) else None
    }
  }

  datatype CapabilityAdvertisement = CapabilityAdvertisement(required: u64, optional: u64)

  datatype NegotiationOffer = NegotiationOffer(
    versions: VersionRange, capabilities: CapabilityAdvertisement, clientNonce: NonZeroId16)

  datatype NegotiatedParameters = NegotiatedParameters(
    version: u16, capabilities: u64, clientNonce: NonZeroId16, serverNonce: NonZeroId16)

  datatype ProtocolErrorCode =
    | NoSharedVersion
    | IncompatibleCapabilities
    | AuthenticationFailed
    | ReplayDetected
    | ProtocolViolation
    | ResourceLimit
    | FlowNotFound
    | FlowState
    | ResumeUnsupported
    | Internal
    | Unknown(code: u16)

  datatype Frame =
    | Offer(offer: NegotiationOffer)
    | Accept(parameters: NegotiatedParameters)
    | Attach(sessionId: Id16, epoch: u64, attachmentId: NonZeroId16,
             attachParameters: NegotiatedParameters, proof: Proof)
    | AttachAccepted(sessionId: Id16, epoch: u64, attachmentId: NonZeroId16)
    | StreamOpen(flowId: FlowId)
    | StreamData(flowId: FlowId, epoch: u64, sequence: u64, bytes: Bytes)
    | StreamAcknowledgement(flowId: FlowId, epoch: u64, through: u64)
    | StreamFinish(flowId: FlowId, epoch: u64, finalNextSequence: u64)
    | StreamReset(flowId: FlowId, error: ProtocolErrorCode)
    | ConnectionClose(error: ProtocolErrorCode)
    | UnknownOptional(frameType: u8, payload: Bytes)
}
