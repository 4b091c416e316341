/** The records of a run's journal, as they read once a line has been decoded. */
module JournalRecords {
  import opened Wrappers
  import opened Decimals
  import opened Types

  /**
    What the status vocabulary says of a status string: final on the exchange,
    still live there, one of the final statuses only the journal itself writes,
    or not in the vocabulary.
  */
  datatype Status = ExchangeTerminal | ExchangeLive | JournalTerminal | Unrecognised

  predicate IsTerminalOrderStatus(status: Status) {
    status.ExchangeTerminal?
  }

  predicate IsValidJournalTerminalStatus(status: Status) {
    IsTerminalOrderStatus(status) || status.JournalTerminal?
  }

  datatype PhaseText = PhaseText(kind: string, side: string, size: Text, reduceOnly: bool)

  const FINGERPRINT_VERSION: nat := 3

  datatype Fingerprint = Fingerprint(
    version: nat,
    symbol: string,
    side: string,
    requestMode: string,
    requestValue: Text,
    perSlice: Text,
    totalAdjusted: Text,
    totalRequested: Text,
    slices: nat,
    durationMs: nat,
    slippageBps: Text,
    maxNotionalUsd: Text,
    maxBookAgeMs: nat,
    settleRetries: nat,
    childAlgo: string,
    followPollSecs: nat,
    followRepostSecs: nat,
    followThresholdBps: Text,
    network: string,
    agent: Option<string>,
    master: Option<string>,
    positionMode: Option<string>,
    initialPositionSzi: Option<Text>,
    targetPositionSzi: Option<Text>,
    positionRequestedValue: Option<Text>,
    positionReferencePrice: Option<Text>,
    positionPhases: seq<PhaseText>,
    reduceOnly: bool,
    absoluteDeadlineUnixMs: Option<nat>)

  datatype RunHeader = RunHeader(
    runId: string,
    network: string,
    agent: Option<string>,
    master: Option<string>,
    symbol: Symbol,
    side: Side,
    slices: nat,
    planHash: string,
    fingerprint: Option<Fingerprint>,
    startedAtUnixMs: nat,
    deadlineUnixMs: Option<nat>)

  /** The partition a run belongs to: one writer per network and agent. */
  datatype RunKey = RunKey(network: string, agent: Option<string>)

  function KeyOf(header: RunHeader): RunKey {
    RunKey(header.network, header.agent)
  }

  datatype WholeRun = WholeRun(
    requestedTotal: Option<Text>,
    adjustedTotal: Option<Text>,
    accountedNotional: Text,
    capRemaining: Option<Text>,
    trustedVwap: Option<Text>,
    logicalElapsedMs: nat,
    unresolvedCloids: nat)

  datatype JournalRecord =
    | Header(header: RunHeader)
    | Prepared(sliceIdx: nat, cloid: Cloid, nonce: Option<nat>, symbol: Symbol, side: Side, tif: Option<Tif>,
      px: Text, sz: Text)
    | SubmittedUnknown(sliceIdx: nat, cloid: Cloid)
    | Acknowledged(sliceIdx: nat, cloid: Cloid, oid: Option<nat>, status: Status)
    | Terminal(sliceIdx: nat, cloid: Cloid, status: Status, filledSz: Text, avgPx: Option<Text>)
    | FinalReport(completed: bool, filledTotal: Text, unknownCloids: seq<Cloid>, note: string,
      wholeRun: Option<WholeRun>)
    | Abandoned(note: string)

  /** Why a journal is refused. */
  datatype ReplayError =
    | MissingHeader
    | HeaderNotFirst
    | DuplicateHeader
    | MissingPrepared(cloid: Cloid)
    | ConflictingPrepared(cloid: Cloid)
    | SliceIndexChanged(cloid: Cloid)
    | InvalidTransition(cloid: Cloid)
    | InvalidTerminalStatus(cloid: Cloid)
    | AbandonedWithUnresolved(unresolved: nat)
    | RecordAfterAbandoned
    | CompletedFinalReportNotComplete
    | FinalReportUnknownCloidsMismatch
    | RecordAfterCompletedFinalReport
    | InvalidFinalReportFilledTotal
    | FinalReportFilledTotalMismatch
    | InvalidFingerprintMaxNotional
    | InvalidFingerprint(field: string)
    | InvalidWholeRunSummary
    | InvalidDecimal(cloid: Cloid)
    | NegativeSize(cloid: Cloid)
    | NonPositivePrice(cloid: Cloid)
    | FilledSizeExceedsPrepared(cloid: Cloid)
    | AveragePriceViolatesLimit(cloid: Cloid)
    | MissingAveragePriceForShort(cloid: Cloid)
    | TerminalAccountingRegressed(cloid: Cloid)
    | Overflow
}
