/** Rows of login_attempts and auth_sessions. Columns that are not Option are NOT NULL; times are
    microseconds. */
module AuthRows {
  import opened Common

  datatype LoginRow = LoginRow(
    opaqueId: string,
    lookupHash: string,
    registrationId: Option<nat>,
    challengeId: Option<nat>,
    status: string,
    expiresAt: int,
    consumedAt: Option<int>,
    createdAt: int,
    updatedAt: int,
    deletedAt: Option<int>,
    metadata: Option<string>)

  datatype SessionRow = SessionRow(
    userId: Option<nat>,
    tokenHash: string,
    status: string,
    expiresAt: int,
    lastSeenAt: int,
    revokedAt: Option<int>,
    createdAt: int,
    updatedAt: int,
    deletedAt: Option<int>,
    metadata: Option<string>)
}
