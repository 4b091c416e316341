/**
  What a journal says, read off its records alone: each cloid's terms are its
  Prepared record, its state is that of the last record about it, and it is
  credited with its last Terminal record only.  The replay state machine
  accepts exactly the journals this reading finds admissible, and its tables
  are this reading.
*/
module LogReading {
  import opened Wrappers
  import opened Decimals
  import opened Types
  import opened JournalRecords
  import opened Replay
  import opened ReplayTheory

  // ---- the reading ----

  predicate About(rec: JournalRecord, c: Cloid) {
    (rec.Prepared? || IsOutcome(rec)) && rec.cloid == c
  }

  function LastAbout(records: seq<JournalRecord>, c: Cloid): (r: Option<JournalRecord>)
    ensures r.Some? ==> About(r.value, c)
  {
    if records == [] then None
    else if About(records[|records| - 1], c) then Some(records[|records| - 1])
    else LastAbout(records[..|records| - 1], c)
  }

  /** The cloids in the order their orders were prepared. */
  function PreparedCloids(records: seq<JournalRecord>): seq<Cloid> {
    if records == [] then
      []
    else
      var last := records[|records| - 1];
      PreparedCloids(records[..|records| - 1]) + if last.Prepared? then [last.cloid] else []
  }

  /** The terms a cloid was prepared with. */
  function TermsOf(records: seq<JournalRecord>, c: Cloid): Option<Intent> {
    if records == [] then None
    else
      var last := records[|records| - 1];
      if last.Prepared? && last.cloid == c then Some(IntentOf(last)) else TermsOf(records[..|records| - 1], c)
  }

  function LogIntents(records: seq<JournalRecord>): map<Cloid, Intent> {
    map c | c in PreparedCloids(records) && TermsOf(records, c).Some? :: TermsOf(records, c).value
  }

  function LogStates(records: seq<JournalRecord>): map<Cloid, CloidState> {
    map c | c in PreparedCloids(records) && LastAbout(records, c).Some? :: StateOf(LastAbout(records, c).value)
  }

  function CreditOf(terms: Option<Intent>, c: Cloid, rec: JournalRecord): Result<Fill, ReplayError>
    requires rec.Terminal?
  {
    if terms.Some? && terms.value.px.Numeral? && terms.value.sz.Numeral?
    then Credit(c, LimitOf(terms.value), rec.filledSz, rec.avgPx)
    else Err(MissingPrepared(c))
  }

  /** The last terminal record of each cloid that has reached one, as credited. */
  function LogFills(records: seq<JournalRecord>): map<Cloid, Fill> {
    map c |
      c in PreparedCloids(records) && LastAbout(records, c).Some? && LastAbout(records, c).value.Terminal? &&
      CreditOf(TermsOf(records, c), c, LastAbout(records, c).value).Ok?
      :: CreditOf(TermsOf(records, c), c, LastAbout(records, c).value).value
  }

  function LogUnresolved(records: seq<JournalRecord>): seq<Cloid> {
    Unresolved(PreparedCloids(records), LogStates(records))
  }

  function LogTotals(records: seq<JournalRecord>): Result<Totals, ReplayError> {
    TotalsOf(PreparedCloids(records), LogFills(records))
  }

  function LogHeader(records: seq<JournalRecord>): Option<RunHeader> {
    if records != [] && records[0].Header? then Some(records[0].header) else None
  }

  // ---- which record may come next ----

  predicate AdmissibleReport(past: seq<JournalRecord>, rec: JournalRecord)
    requires rec.FinalReport?
  {
    && LogTotals(past).Ok?
    && Parse(rec.filledTotal) == Some(LogTotals(past).value.filledSz)
    && CheckWholeRun(LogHeader(past), rec.wholeRun, LogTotals(past).value, |LogUnresolved(past)|).Ok?
    && if rec.completed then rec.unknownCloids == [] && LogUnresolved(past) == []
       else NamesExactly(rec.unknownCloids, LogUnresolved(past))
  }

  /** A terminal record stays within the order's terms and never takes back what the last one credited. */
  predicate AdmissibleTerminal(past: seq<JournalRecord>, rec: JournalRecord)
    requires rec.Terminal?
  {
    var credit := CreditOf(TermsOf(past, rec.cloid), rec.cloid, rec);
    IsValidJournalTerminalStatus(rec.status) && credit.Ok? && !Regresses(LogFills(past), rec.cloid, credit.value)
  }

  predicate Admissible(past: seq<JournalRecord>, rec: JournalRecord) {
    && (past != [] ==> !Closes(past[|past| - 1]))
    && (rec.Header? <==> past == [])
    && match rec
       case Header(header) => CheckHeader(header).Ok?
       case Prepared(_, c, _, _, _, _, px, sz) => TermsOf(past, c).None? && CheckIntent(c, sz, px).Ok?
       case SubmittedUnknown(i, c) =>
         TermsOf(past, c).Some? && TermsOf(past, c).value.sliceIdx == i &&
         LastAbout(past, c).Some? && LastAbout(past, c).value.Prepared?
       case Acknowledged(i, c, _, _) =>
         TermsOf(past, c).Some? && TermsOf(past, c).value.sliceIdx == i &&
         LastAbout(past, c).Some? && !LastAbout(past, c).value.Terminal?
       case Terminal(i, c, _, _, _) =>
         TermsOf(past, c).Some? && TermsOf(past, c).value.sliceIdx == i && AdmissibleTerminal(past, rec)
       case FinalReport(_, _, _, _, _) => AdmissibleReport(past, rec)
       case Abandoned(_) => LogUnresolved(past) == []
  }

  predicate AdmissibleAt(records: seq<JournalRecord>, n: nat)
    requires n < |records|
  {
    Admissible(records[..n], records[n])
  }

  // ---- the replay tables are the reading ----

  ghost predicate ReadsAt(records: seq<JournalRecord>, st: State, c: Cloid) {
    var terms, last := TermsOf(records, c), LastAbout(records, c);
    && (c in st.prepared <==> terms.Some?) && (terms.Some? ==> st.prepared[c] == terms.value)
    && (c in st.states <==> last.Some?) && (last.Some? ==> st.states[c] == StateOf(last.value))
    && (c in st.fills <==> last.Some? && last.value.Terminal?)
    && (c in st.fills ==> CreditOf(terms, c, last.value) == Ok(st.fills[c]))
  }

  ghost predicate Reads(records: seq<JournalRecord>, st: State) {
    && st.header == LogHeader(records)
    && st.order == PreparedCloids(records)
    && forall c :: ReadsAt(records, st, c)
  }

  /** One more record changes the reading of the cloid it is about, and of no other. */
  lemma ReadingExtends(past: seq<JournalRecord>, rec: JournalRecord, c: Cloid)
    ensures TermsOf(past + [rec], c) == if rec.Prepared? && rec.cloid == c then Some(IntentOf(rec))
      else TermsOf(past, c)
    ensures LastAbout(past + [rec], c) == if About(rec, c) then Some(rec) else LastAbout(past, c)
    ensures PreparedCloids(past + [rec]) == PreparedCloids(past) + if rec.Prepared? then [rec.cloid] else []
    ensures LogHeader(past + [rec]) == if past == [] then (if rec.Header? then Some(rec.header) else None)
      else LogHeader(past)
  {
    var now := past + [rec];
    assert now[..|now| - 1] == past && now[|now| - 1] == rec;
  }

  lemma ReadsAtStep(past: seq<JournalRecord>, st: State, rec: JournalRecord, next: State, c: Cloid)
    requires ReadsAt(past, st, c) && Effect(st, rec, next) && (c in st.prepared <==> c in st.states)
    ensures ReadsAt(past + [rec], next, c)
  {
    ReadingExtends(past, rec, c);
  }

  lemma ReadsStep(
    past: seq<JournalRecord>, st: State, rec: JournalRecord, next: State, records: seq<JournalRecord>)
    requires Consistent(st) && Reads(past, st) && Effect(st, rec, next) && records == past + [rec]
    requires past == [] <==> st.header.None?
    ensures Reads(records, next)
  {
    ReadingExtends(past, rec, 0);
    forall c
      ensures ReadsAt(records, next, c)
    {
      assert ReadsAt(past, st, c);
      ReadsAtStep(past, st, rec, next, c);
    }
  }

  /** An accepted journal's tables say exactly what its records say. */
  lemma {:induction false} TablesAreTheReading(records: seq<JournalRecord>)
    requires Fold(records).Ok?
    ensures Reads(records, Fold(records).value)
  {
    if records == [] {
    } else {
      var init, last := records[..|records| - 1], records[|records| - 1];
      assert records == init + [last];
      LastStep(records);
      TablesAreTheReading(init);
      FoldConsistent(init);
      ReadsStep(init, Fold(init).value, last, Fold(records).value, records);
    }
  }

  lemma ReadingIntents(records: seq<JournalRecord>, st: State)
    requires Indexed(st.order, st.prepared, st.states) && Reads(records, st)
    ensures st.prepared == LogIntents(records)
  {
    forall c
      ensures c in st.order <==> TermsOf(records, c).Some?
      ensures c in st.prepared ==> st.prepared[c] == TermsOf(records, c).value
    {
      assert ReadsAt(records, st, c);
      assert c in st.order <==> c in Members(st.order);
    }
  }

  lemma ReadingStates(records: seq<JournalRecord>, st: State)
    requires Indexed(st.order, st.prepared, st.states) && Reads(records, st)
    ensures st.states == LogStates(records)
  {
    forall c
      ensures c in st.order <==> LastAbout(records, c).Some?
      ensures c in st.states ==> st.states[c] == StateOf(LastAbout(records, c).value)
    {
      assert ReadsAt(records, st, c);
      assert c in st.order <==> c in Members(st.order);
    }
  }

  lemma ReadingFills(records: seq<JournalRecord>, st: State)
    requires Indexed(st.order, st.prepared, st.states) && Reads(records, st)
    ensures st.fills == LogFills(records)
  {
    var fills := LogFills(records);
    forall c
      ensures (c in st.fills <==> c in fills) && (c in st.fills ==> st.fills[c] == fills[c])
    {
      assert ReadsAt(records, st, c);
      assert c in st.order <==> c in Members(st.order);
    }
  }

  /** The tables, entry for entry, are what the log says. */
  lemma ReadingTables(records: seq<JournalRecord>, st: State)
    requires Consistent(st) && Reads(records, st)
    ensures st.prepared == LogIntents(records) && st.states == LogStates(records) && st.fills == LogFills(records)
  {
    ReadingIntents(records, st);
    ReadingStates(records, st);
    ReadingFills(records, st);
  }

  /**
    On an accepted journal: the header is the first record's, each cloid was
    prepared once, every table entry is the log's, and the totals are those
    of the last terminal records alone.
  */
  lemma ReplayIsTheReading(records: seq<JournalRecord>)
    requires ReplayJournal(records).Ok?
    ensures var r := ReplayJournal(records).value;
      && LogHeader(records) == Some(r.summary.header)
      && NoDuplicates(PreparedCloids(records))
      && r.prepared == LogIntents(records)
      && r.summary.cloids == CloidStates(PreparedCloids(records), LogStates(records))
      && LogTotals(records) == Ok(r.totals)
  {
    FoldConsistent(records);
    TablesAreTheReading(records);
    ReadingTables(records, Fold(records).value);
  }

  // ---- accepted means admissible throughout ----

  lemma OutcomeAdmissible(past: seq<JournalRecord>, st: State, rec: JournalRecord)
    requires IsOutcome(rec) && Consistent(st) && Reads(past, st) && st.fills == LogFills(past)
    ensures StepOutcome(st, rec).Ok? <==>
      TermsOf(past, rec.cloid).Some? && TermsOf(past, rec.cloid).value.sliceIdx == rec.sliceIdx &&
      (rec.SubmittedUnknown? ==> LastAbout(past, rec.cloid).Some? && LastAbout(past, rec.cloid).value.Prepared?) &&
      (rec.Acknowledged? ==> LastAbout(past, rec.cloid).Some? && !LastAbout(past, rec.cloid).value.Terminal?) &&
      (rec.Terminal? ==> AdmissibleTerminal(past, rec))
  {
    assert ReadsAt(past, st, rec.cloid);
  }

  lemma ReportAdmissible(past: seq<JournalRecord>, st: State, rec: JournalRecord)
    requires rec.FinalReport? && Reads(past, st) && st.fills == LogFills(past) && st.states == LogStates(past)
    ensures StepReport(st, rec).Ok? <==> AdmissibleReport(past, rec)
  {
  }

  lemma StepAdmissible(past: seq<JournalRecord>, st: State, rec: JournalRecord)
    requires Fold(past) == Ok(st)
    ensures Step(st, rec).Ok? <==> Admissible(past, rec)
  {
    FoldConsistent(past);
    TablesAreTheReading(past);
    ReadingTables(past, st);
    if past != [] {
      ClosedByLastRecord(past);
    }
    if IsOutcome(rec) {
      OutcomeAdmissible(past, st, rec);
    } else if rec.FinalReport? {
      ReportAdmissible(past, st, rec);
    } else if rec.Prepared? {
      assert ReadsAt(past, st, rec.cloid);
    }
  }

  /** Whether a record was admissible is settled by what came before it. */
  lemma AdmissibleThroughout(init: seq<JournalRecord>, last: JournalRecord)
    ensures (forall n :: 0 <= n < |init + [last]| ==> AdmissibleAt(init + [last], n)) <==>
      (forall n :: 0 <= n < |init| ==> AdmissibleAt(init, n)) && Admissible(init, last)
  {
    var records := init + [last];
    forall n | 0 <= n < |records|
      ensures AdmissibleAt(records, n) <==> if n < |init| then AdmissibleAt(init, n) else Admissible(init, last)
    {
      AdmissibleInPrefix(init, last, n);
    }
    assert AdmissibleAt(records, |init|) <==> Admissible(init, last);
  }

  lemma AdmissibleInPrefix(init: seq<JournalRecord>, last: JournalRecord, n: nat)
    requires n <= |init|
    ensures AdmissibleAt(init + [last], n) <==> if n < |init| then AdmissibleAt(init, n) else Admissible(init, last)
  {
    assert (init + [last])[..n] == init[..n];
    assert init[..|init|] == init;
  }

  lemma {:induction false} FoldAdmissible(records: seq<JournalRecord>)
    ensures Fold(records).Ok? <==> forall n :: 0 <= n < |records| ==> AdmissibleAt(records, n)
  {
    if records != [] {
      var init, last := records[..|records| - 1], records[|records| - 1];
      assert records == init + [last];
      FoldAdmissible(init);
      FoldAppend(init, last);
      AdmissibleThroughout(init, last);
      if Fold(init).Ok? {
        StepAdmissible(init, Fold(init).value, last);
      }
    }
  }

  /**
    A journal is accepted exactly when it is not empty, every record is
    admissible after the ones before it, and its totals fit a decimal.
  */
  lemma AcceptedExactly(records: seq<JournalRecord>)
    ensures ReplayJournal(records).Ok? <==>
      records != [] && LogTotals(records).Ok? && forall n :: 0 <= n < |records| ==> AdmissibleAt(records, n)
  {
    FoldAdmissible(records);
    if records != [] && Fold(records).Ok? {
      FoldConsistent(records);
      TablesAreTheReading(records);
      ReadingTables(records, Fold(records).value);
    }
  }
}
