/** What the batch validator and the step-up policy share. */
module AppVault {
  import opened Text

  datatype DeviceLifecycleState = DevicePending | DeviceActive | DeviceSuspended | DeviceRevoked

  datatype AuthenticatedDevice = AuthenticatedDevice(subject: Text, deviceId: Text, lifecycle: DeviceLifecycleState)

  datatype PolicyError =
    | InvalidClock | InvalidDeviceContext | InactiveDevice | EmptyBatch | BatchTooLarge | InvalidMutation
    | WrongApplication | WrongNamespace | SourceDeviceMismatch | FutureMutation | DuplicateMutation
    | DuplicateRecordClock | LogicalClockOutOfRange | SignatureRejected | InvalidRequestContext
    | InvalidChallenge | TerminalChallenge | ChallengeNotYetValid | ChallengeExpired | RequestContextMismatch
    | InvalidProof | ProofContextMismatch | ProofNotYetValid | ProofExpired | ProofLifetimeExceeded
    | ProofPredatesChallenge | ProofOutlivesChallenge

  function DeviceFault(d: AuthenticatedDevice): Option<PolicyError> {
    if !IsPortableIdentifier(d.subject) || !IsPortableIdentifier(d.deviceId) then Some(InvalidDeviceContext)
    else if d.lifecycle != DeviceActive then Some(InactiveDevice)
    else None
  }
}
