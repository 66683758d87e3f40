/** The otp_outbox row and the exact shapes the gate demands of it. Ciphertexts stand for what they seal. */
module Outbox {
  import opened Common
  import opened Text

  datatype OutboxRow = OutboxRow(
    status: string,
    attempts: nat,
    maxAttempts: nat,
    providerKey: string,
    claimToken: Option<string>,
    claimedAt: Option<int>,
    leaseExpiresAt: Option<int>,
    nextAttemptAt: Option<int>,
    code: Option<string>,
    destination: Option<string>,
    keyVersion: string,
    lastError: Option<string>,
    deliveredAt: Option<int>,
    receiptHash: Option<string>,
    receiptKeyVersion: Option<string>,
    legacyDestinationRetained: bool)

  const SEND_FAILED := "provider_send_failed"

  predicate Sealed(text: Option<string>) { text.Some? && text.value != "" }

  predicate NoReceipt(row: OutboxRow) {
    row.deliveredAt.None? && row.receiptHash.None? && row.receiptKeyVersion.None?
  }

  predicate NoClaim(row: OutboxRow) {
    row.claimToken.None? && row.claimedAt.None? && row.leaseExpiresAt.None?
  }

  predicate Standing(row: OutboxRow, attempts: nat) {
    && row.attempts == attempts && 0 < row.maxAttempts <= 10
    && LowerHex64(row.providerKey) && row.keyVersion == "v1" && !row.legacyDestinationRetained
  }

  predicate ClaimedExact(row: OutboxRow, attempts: nat, expectedLastError: Option<string>) {
    && row.status == "claimed" && Standing(row, attempts)
    && row.claimToken.Some? && LowerHex64(row.claimToken.value)
    && row.claimedAt.Some? && row.leaseExpiresAt.Some? && row.leaseExpiresAt.value > row.claimedAt.value
    && row.nextAttemptAt.None? && Sealed(row.code) && Sealed(row.destination)
    && row.lastError == expectedLastError && NoReceipt(row)
  }

  predicate FailedExact(row: OutboxRow, attempts: nat) {
    && row.status == "failed" && Standing(row, attempts)
    && NoClaim(row) && row.nextAttemptAt.Some? && Sealed(row.code) && Sealed(row.destination)
    && row.lastError == Some(SEND_FAILED) && NoReceipt(row)
  }

  predicate SentExact(row: OutboxRow, attempts: nat) {
    && row.status == "sent" && Standing(row, attempts)
    && NoClaim(row) && row.nextAttemptAt.None? && row.code.None? && row.destination.None?
    && row.lastError.None? && row.deliveredAt.Some?
    && row.receiptHash.Some? && LowerHex64(row.receiptHash.value) && row.receiptKeyVersion == Some("v1")
  }

  /** Staged, not yet claimed. */
  predicate PendingExact(row: OutboxRow) {
    && row.status == "pending" && Standing(row, 0)
    && NoClaim(row) && row.nextAttemptAt.None? && Sealed(row.code) && Sealed(row.destination)
    && row.lastError.None? && NoReceipt(row)
  }

  /** Fenced off by retention: nothing left to relay. */
  predicate VoidExact(row: OutboxRow, attempts: nat) {
    row.status == "void" && Standing(row, attempts) && NoClaim(row) && row.code.None? && row.destination.None?
    && NoReceipt(row)
  }

  /** The row has the exact shape of its status. */
  predicate Exact(row: OutboxRow) {
    || PendingExact(row)
    || (row.attempts > 0 && ClaimedExact(row, row.attempts, None))
    || (row.attempts > 1 && ClaimedExact(row, row.attempts, Some(SEND_FAILED)))
    || (row.attempts > 0 && FailedExact(row, row.attempts))
    || (row.attempts > 0 && SentExact(row, row.attempts))
    || VoidExact(row, row.attempts)
  }
}
