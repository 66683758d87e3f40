/** The registration idempotency ledger row and the shape each state must have. */
module LedgerRows {
  import opened Common
  import opened Text

  /** One row of registration_idempotency_records. Columns that are not Option are NOT NULL. */
  datatype LedgerRow = LedgerRow(
    keyHash: string,
    fingerprint: Option<string>,
    fingerprintVersion: Option<string>,
    state: string,
    outcome: Option<string>,
    registrationId: Option<nat>,
    outboxId: Option<nat>)

  const DELIVERY_FAILED := "otp_delivery_failed"
  const NEUTRALIZED := "registration_neutralized"
  const REPLAY_EXPIRED := "registration_replay_expired"

  const LIVE_STATES: seq<string> := ["pending", "succeeded", "failed"]
  const TERMINAL_STATES: seq<string> := ["retired", "erased"]

  predicate BoundFingerprint(row: LedgerRow, version: string) {
    && row.fingerprintVersion == Some(version)
    && row.fingerprint.Some? && LowerHex64(row.fingerprint.value)
  }

  predicate Links(row: LedgerRow, registration: bool, outbox: bool, outcome: Option<string>) {
    && row.registrationId.Some? == registration
    && row.outboxId.Some? == outbox
    && row.outcome == outcome
  }

  /** The gate's state/link/fingerprint inventory of one row. */
  predicate LedgerStateExact(record: Option<LedgerRow>, state: string, version: string) {
    && record.Some? && record.value.state == state && (version == "v1" || version == "v2")
    && LowerHex64(record.value.keyHash)
    && var row := record.value;
       if state == "pending" then BoundFingerprint(row, version) && Links(row, true, true, None)
       else if state == "succeeded" then BoundFingerprint(row, version) && Links(row, true, false, None)
       else if state == "failed" then BoundFingerprint(row, version) && Links(row, false, false, Some(DELIVERY_FAILED))
       else if state == "neutralized" then BoundFingerprint(row, version) && Links(row, false, false, Some(NEUTRALIZED))
       else if state == "retired" || state == "erased" then
         row.fingerprint.None? && row.fingerprintVersion.None? && Links(row, false, false, Some(REPLAY_EXPIRED))
       else false
  }
}
