/** The four CHECK constraints of revision 0018, compared with the gate's own shape predicate. */
module SqlLedger {
  import opened Common
  import opened Text
  import opened SqlLogic
  import opened LedgerRows

  function StateCheck(row: LedgerRow): Truth {
    In(Some(row.state), ["pending", "succeeded", "failed", "retired", "erased"])
  }

  function KeyHashCheck(row: LedgerRow): Truth {
    HexShape(Some(row.keyHash), 64)
  }

  function RequestHashCheck(row: LedgerRow): Truth {
    var state := Some(row.state);
    In(state, LIVE_STATES)
      .And(Eq(row.fingerprintVersion, Some("v1")))
      .And(IsNotNull(row.fingerprint))
      .And(Eq(Length(row.fingerprint), Some(64)))
      .And(AllHex(row.fingerprint))
    .Or(In(state, TERMINAL_STATES).And(IsNull(row.fingerprint)).And(IsNull(row.fingerprintVersion)))
  }

  function StateLinksCheck(row: LedgerRow): Truth {
    var state := Some(row.state);
    Eq(state, Some("pending")).And(IsNotNull(row.registrationId)).And(IsNotNull(row.outboxId)).And(IsNull(row.outcome))
    .Or(Eq(state, Some("succeeded")).And(IsNotNull(row.registrationId)).And(IsNull(row.outboxId))
        .And(IsNull(row.outcome)))
    .Or(Eq(state, Some("failed")).And(IsNull(row.registrationId)).And(IsNull(row.outboxId))
        .And(Eq(row.outcome, Some(DELIVERY_FAILED))))
    .Or(In(state, TERMINAL_STATES).And(IsNull(row.registrationId)).And(IsNull(row.outboxId))
        .And(Eq(row.outcome, Some(REPLAY_EXPIRED))))
  }

  /** PostgreSQL stores the row: no CHECK evaluates to FALSE. */
  predicate Admitted(row: LedgerRow) {
    && StateCheck(row).CheckAdmits()
    && KeyHashCheck(row).CheckAdmits()
    && RequestHashCheck(row).CheckAdmits()
    && StateLinksCheck(row).CheckAdmits()
  }

  /** A query filtering on the four conditions would return the row: every one evaluates to TRUE. */
  predicate Selected(row: LedgerRow) {
    && StateCheck(row).WhereKeeps()
    && KeyHashCheck(row).WhereKeeps()
    && RequestHashCheck(row).WhereKeeps()
    && StateLinksCheck(row).WhereKeeps()
  }

  /** A live row whose fingerprint version is NULL. */
  predicate VersionMissing(row: LedgerRow) {
    row.state in LIVE_STATES && row.fingerprintVersion.None?
  }

  /** A failed or terminal row whose outcome is NULL. */
  predicate OutcomeMissing(row: LedgerRow) {
    (row.state == "failed" || row.state in TERMINAL_STATES) && row.outcome.None?
  }

  /** The row with its missing version and outcome filled in as its state demands. */
  function Completed(row: LedgerRow): LedgerRow {
    var versioned := if VersionMissing(row) then row.(fingerprintVersion := Some("v1")) else row;
    if OutcomeMissing(row) then
      versioned.(outcome := Some(if row.state == "failed" then DELIVERY_FAILED else REPLAY_EXPIRED))
    else versioned
  }

  /** Three-valued logic makes the stored rows a strict superset of the exact ones: a row is admitted
      exactly when filling its missing version and outcome gives an exact v1 row. */
  lemma AdmittedExactly(row: LedgerRow)
    ensures Admitted(row) <==>
            row.state != "neutralized" && LedgerStateExact(Some(Completed(row)), row.state, "v1")
  {
    HexShapeIsHexText(Some(row.keyHash), 64);
    HexShapeIsHexText(row.fingerprint, 64);
  }

  /** A WHERE over the same four conditions has no such gap. */
  lemma SelectedExactly(row: LedgerRow)
    ensures Selected(row) <==> row.state != "neutralized" && LedgerStateExact(Some(row), row.state, "v1")
  {
    HexShapeIsHexText(Some(row.keyHash), 64);
    HexShapeIsHexText(row.fingerprint, 64);
  }

  /** The admitted rows that the gate's predicate rejects are exactly those with a NULL version in a
      live state or a NULL outcome in failed, retired or erased. */
  lemma AdmittedButNotExact(row: LedgerRow)
    requires Admitted(row)
    ensures !LedgerStateExact(Some(row), row.state, "v1") <==> VersionMissing(row) || OutcomeMissing(row)
  {
    AdmittedExactly(row);
  }

  /** Both gaps are inhabited. */
  lemma GapsInhabited(hash: string)
    requires LowerHex64(hash)
    ensures Admitted(LedgerRow(hash, Some(hash), None, "pending", None, Some(1), Some(2)))
    ensures Admitted(LedgerRow(hash, Some(hash), None, "failed", None, None, None))
    ensures Admitted(LedgerRow(hash, None, None, "erased", None, None, None))
  {
    HexShapeIsHexText(Some(hash), 64);
  }
}
