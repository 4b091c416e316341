/** What holds of every accepted journal, and of every prefix of one. */
module ReplayTheory {
  import opened Wrappers
  import opened Decimals
  import opened Types
  import opened JournalRecords
  import opened Replay

  // ---- lists of cloids ----

  /** A list names as many cloids as it has entries exactly when it has no repetition. */
  lemma {:induction false} DistinctCount(s: seq<Cloid>)
    ensures |Members(s)| <= |s|
    ensures |Members(s)| == |s| <==> NoDuplicates(s)
  {
    if s != [] {
      var init, last := s[..|s| - 1], s[|s| - 1];
      DistinctCount(init);
      assert s == init + [last];
      if last in init {
        assert Members(s) == Members(init);
      } else {
        assert Members(s) == Members(init) + {last};
      }
    }
  }

  // ---- the shape of a replay state ----

  ghost predicate FillConsistent(fill: Fill) {
    0.0 <= fill.filledSz <= MAX && 0.0 <= fill.notional <= MAX &&
    (fill.filledSz == 0.0 ==> fill.notional == 0.0 && fill.avgPx.None?) &&
    (fill.avgPx.Some? ==> 0.0 < fill.avgPx.value <= MAX && fill.notional == fill.filledSz * fill.avgPx.value)
  }

  ghost predicate IntentConsistent(intent: Intent) {
    Parse(intent.sz).Some? && intent.sz.value >= 0.0 && Parse(intent.px).Some? && intent.px.value > 0.0
  }

  /** One entry of `order` for each prepared cloid. */
  ghost predicate Indexed(order: seq<Cloid>, prepared: map<Cloid, Intent>, states: map<Cloid, CloidState>) {
    NoDuplicates(order) && Members(order) == prepared.Keys == states.Keys
  }

  ghost predicate CreditedFor(c: Cloid, intent: Intent, state: CloidState, fill: Fill) {
    IntentConsistent(intent) && state.Closed? && FillConsistent(fill) &&
    Credit(c, LimitOf(intent), state.filledSz, state.avgPx) == Ok(fill)
  }

  /** Exactly the closed cloids carry a fill, each the credit of its last terminal record. */
  ghost predicate Credited(prepared: map<Cloid, Intent>, states: map<Cloid, CloidState>, fills: map<Cloid, Fill>) {
    && (forall c :: c in prepared ==> IntentConsistent(prepared[c]))
    && (forall c :: c in fills <==> IsClosed(states, c))
    && (forall c :: c in fills ==> c in prepared && CreditedFor(c, prepared[c], states[c], fills[c]))
  }

  ghost predicate Consistent(st: State) {
    && Indexed(st.order, st.prepared, st.states)
    && Credited(st.prepared, st.states, st.fills)
    && (st.header.None? ==> st == INITIAL)
    && (st.abandoned || st.completedFinal ==> Unresolved(st.order, st.states) == [])
    && (st.completedFinal <==> st.lastCompleted == Some(true))
    && (st.completedFinal ==> st.lastUnknown == Some([]))
    && (st.finalReportSeen <==> st.lastCompleted.Some?)
  }

  lemma ProductSigns(x: real, y: real)
    requires x >= 0.0 && y > 0.0
    ensures x * y >= 0.0
  {
  }

  lemma CreditConsistent(c: Cloid, limit: Limit, filledSz: Text, avgPx: Option<Text>)
    requires limit.px > 0.0 && Credit(c, limit, filledSz, avgPx).Ok?
    ensures FillConsistent(Credit(c, limit, filledSz, avgPx).value)
    ensures Parse(filledSz) == Some(Credit(c, limit, filledSz, avgPx).value.filledSz)
  {
    if filledSz.value > 0.0 {
      var price := AccountedPrice(c, limit, avgPx).value;
      ProductSigns(filledSz.value, price);
    }
  }

  lemma {:induction false} UnresolvedMembers(order: seq<Cloid>, states: map<Cloid, CloidState>)
    ensures forall c :: c in Unresolved(order, states) <==> c in order && !IsClosed(states, c)
  {
    if order != [] {
      UnresolvedMembers(order[..|order| - 1], states);
      assert order == order[..|order| - 1] + [order[|order| - 1]];
    }
  }

  lemma {:induction false} UnresolvedDistinct(order: seq<Cloid>, states: map<Cloid, CloidState>)
    requires NoDuplicates(order)
    ensures NoDuplicates(Unresolved(order, states))
  {
    if order != [] {
      UnresolvedDistinct(order[..|order| - 1], states);
      UnresolvedMembers(order[..|order| - 1], states);
    }
  }

  /** What an accepted record leaves alone, and what it can only be accepted in. */
  ghost predicate Effect(st: State, rec: JournalRecord, next: State) {
    && !st.abandoned && !st.completedFinal
    && (rec.Header? <==> st.header.None?)
    && next.header.Some?
    && (rec.Header? ==> next.header == Some(rec.header))
    && (!rec.Header? ==> next.header == st.header && next.maxNotional == st.maxNotional)
    && (rec.Header? || rec.FinalReport? || rec.Abandoned? ==>
          next.prepared == st.prepared && next.fills == st.fills && next.order == st.order && next.states == st.states)
    && (!rec.FinalReport? ==>
          next.finalReportSeen == st.finalReportSeen && next.lastCompleted == st.lastCompleted &&
          next.lastUnknown == st.lastUnknown && next.completedFinal == st.completedFinal)
    && (rec.FinalReport? ==>
          next.finalReportSeen && next.lastCompleted == Some(rec.completed) && next.completedFinal == rec.completed &&
          next.lastUnknown == Some(rec.unknownCloids) &&
          (rec.completed ==> rec.unknownCloids == [] && Unresolved(st.order, st.states) == []))
    && next.abandoned == rec.Abandoned?
    && (rec.Abandoned? ==> Unresolved(st.order, st.states) == [])
    && (rec.Prepared? ==>
          rec.cloid !in st.prepared && IntentConsistent(IntentOf(rec)) &&
          next.prepared == st.prepared[rec.cloid := IntentOf(rec)] && next.order == st.order + [rec.cloid] &&
          next.states == st.states[rec.cloid := PreparedOnly] && next.fills == st.fills)
    && (IsOutcome(rec) ==>
          rec.cloid in st.prepared && rec.cloid in st.states && st.prepared[rec.cloid].sliceIdx == rec.sliceIdx &&
          Allowed(st.states[rec.cloid], rec) &&
          next.prepared == st.prepared && next.order == st.order &&
          next.states == st.states[rec.cloid := StateOf(rec)])
    && (rec.SubmittedUnknown? || rec.Acknowledged? ==> next.fills == st.fills)
    && (rec.Terminal? ==>
          var intent := st.prepared[rec.cloid];
          IsValidJournalTerminalStatus(rec.status) && intent.px.Numeral? && intent.sz.Numeral? &&
          var credit := Credit(rec.cloid, LimitOf(intent), rec.filledSz, rec.avgPx);
          credit.Ok? && !Regresses(st.fills, rec.cloid, credit.value) &&
          next.fills == st.fills[rec.cloid := credit.value])
  }

  /** The state a record about a cloid puts it in. */
  function StateOf(rec: JournalRecord): CloidState
    requires IsOutcome(rec) || rec.Prepared?
  {
    match rec
    case Prepared(_, _, _, _, _, _, _, _) => PreparedOnly
    case SubmittedUnknown(_, _) => Unknown
    case Acknowledged(_, _, _, _) => Resting
    case Terminal(_, _, _, filledSz, avgPx) => Closed(filledSz, avgPx)
  }

  lemma HeaderEffect(st: State, rec: JournalRecord)
    requires rec.Header? && Step(st, rec).Ok?
    ensures Effect(st, rec, Step(st, rec).value)
  {
  }

  lemma ReportEffect(st: State, rec: JournalRecord)
    requires rec.FinalReport? && Step(st, rec).Ok?
    ensures Effect(st, rec, Step(st, rec).value)
  {
  }

  lemma OtherEffect(st: State, rec: JournalRecord)
    requires !rec.Header? && !rec.FinalReport? && Step(st, rec).Ok?
    ensures Effect(st, rec, Step(st, rec).value)
  {
  }

  lemma StepEffect(st: State, rec: JournalRecord)
    requires Step(st, rec).Ok?
    ensures Effect(st, rec, Step(st, rec).value)
  {
    if rec.Header? {
      HeaderEffect(st, rec);
    } else if rec.FinalReport? {
      ReportEffect(st, rec);
    } else {
      OtherEffect(st, rec);
    }
  }

  lemma AppendDistinct(s: seq<Cloid>, c: Cloid)
    requires NoDuplicates(s) && c !in s
    ensures NoDuplicates(s + [c]) && Members(s + [c]) == Members(s) + {c}
  {
  }

  lemma PreparedCredited(st: State, rec: JournalRecord, next: State)
    requires rec.Prepared? && Consistent(st) && Effect(st, rec, next)
    ensures Credited(next.prepared, next.states, next.fills)
  {
    assert rec.cloid !in st.states;
  }

  lemma PreparedConsistent(st: State, rec: JournalRecord, next: State)
    requires rec.Prepared? && Consistent(st) && Effect(st, rec, next)
    ensures Consistent(next)
  {
    assert rec.cloid !in st.order;
    AppendDistinct(st.order, rec.cloid);
    PreparedCredited(st, rec, next);
  }

  lemma OutcomeCredited(st: State, rec: JournalRecord, next: State)
    requires IsOutcome(rec) && Consistent(st) && Effect(st, rec, next)
    ensures Credited(next.prepared, next.states, next.fills)
  {
    var c := rec.cloid;
    if rec.Terminal? {
      CreditConsistent(c, LimitOf(st.prepared[c]), rec.filledSz, rec.avgPx);
      assert CreditedFor(c, next.prepared[c], next.states[c], next.fills[c]);
    } else {
      assert c !in st.fills;
    }
  }

  lemma OutcomeConsistent(st: State, rec: JournalRecord, next: State)
    requires IsOutcome(rec) && Consistent(st) && Effect(st, rec, next)
    ensures Consistent(next)
  {
    assert next.states.Keys == st.states.Keys;
    OutcomeCredited(st, rec, next);
  }

  lemma EffectConsistent(st: State, rec: JournalRecord, next: State)
    requires Consistent(st) && Effect(st, rec, next)
    ensures Consistent(next)
  {
    if rec.Prepared? {
      PreparedConsistent(st, rec, next);
    } else if IsOutcome(rec) {
      OutcomeConsistent(st, rec, next);
    }
  }

  lemma StepConsistent(st: State, rec: JournalRecord)
    requires Consistent(st) && Step(st, rec).Ok?
    ensures Consistent(Step(st, rec).value)
  {
    StepEffect(st, rec);
    EffectConsistent(st, rec, Step(st, rec).value);
  }

  lemma {:induction false} FoldConsistent(records: seq<JournalRecord>)
    requires Fold(records).Ok?
    ensures Consistent(Fold(records).value)
    ensures records != [] ==> Fold(records).value.header.Some?
  {
    if records != [] {
      var init, last := records[..|records| - 1], records[|records| - 1];
      FoldConsistent(init);
      StepConsistent(Fold(init).value, last);
      StepEffect(Fold(init).value, last);
    }
  }

  /** One more record is one more step. */
  lemma FoldAppend(records: seq<JournalRecord>, rec: JournalRecord)
    ensures Fold(records + [rec]) == if Fold(records).Ok? then Step(Fold(records).value, rec) else Fold(records)
  {
    assert (records + [rec])[..|records|] == records;
  }

  /** An accepted journal is an accepted shorter one and the effect of its last record. */
  lemma LastStep(records: seq<JournalRecord>)
    requires records != [] && Fold(records).Ok?
    ensures Fold(records[..|records| - 1]).Ok?
    ensures Consistent(Fold(records[..|records| - 1]).value) && Consistent(Fold(records).value)
    ensures Effect(Fold(records[..|records| - 1]).value, records[|records| - 1], Fold(records).value)
  {
    FoldConsistent(records);
    FoldConsistent(records[..|records| - 1]);
    StepEffect(Fold(records[..|records| - 1]).value, records[|records| - 1]);
  }

  /** Once refused, a journal stays refused: the first error is the whole journal's. */
  lemma {:induction false} ErrorsStick(records: seq<JournalRecord>, n: nat)
    requires n <= |records|
    ensures Fold(records[..n]).Err? ==> Fold(records) == Fold(records[..n])
    ensures Fold(records).Ok? ==> Fold(records[..n]).Ok?
  {
    if n == |records| {
      assert records[..n] == records;
    } else {
      var init := records[..|records| - 1];
      ErrorsStick(init, n);
      assert init[..n] == records[..n];
    }
  }

  // ---- sums ----

  lemma {:induction false} SumNonNegative(order: seq<Cloid>, fills: map<Cloid, Fill>, m: Measure)
    requires forall c :: c in fills ==> FillConsistent(fills[c])
    ensures Sum(order, fills, m) >= 0.0
  {
    if order != [] {
      SumNonNegative(order[..|order| - 1], fills, m);
    }
  }

  lemma {:induction false} SumMonotone(order: seq<Cloid>, before: map<Cloid, Fill>, after: map<Cloid, Fill>, m: Measure)
    requires forall c :: c in after ==> Amount(after[c], m) >= 0.0
    requires forall c :: c in before ==> c in after && Amount(before[c], m) <= Amount(after[c], m)
    ensures Sum(order, before, m) <= Sum(order, after, m)
  {
    if order != [] {
      SumMonotone(order[..|order| - 1], before, after, m);
    }
  }

  lemma {:induction false} SumExtends(order: seq<Cloid>, c: Cloid, fills: map<Cloid, Fill>, m: Measure)
    ensures Sum(order + [c], fills, m) == Sum(order, fills, m) + if c in fills then Amount(fills[c], m) else 0.0
  {
    assert (order + [c])[..|order|] == order;
  }

  /** The exact effect of one record on the two sums: nothing ever comes off them. */
  lemma StepMonotone(st: State, rec: JournalRecord, m: Measure)
    requires Consistent(st) && Step(st, rec).Ok?
    ensures var next := Step(st, rec).value; Sum(st.order, st.fills, m) <= Sum(next.order, next.fills, m)
    ensures st.order <= Step(st, rec).value.order
  {
    StepConsistent(st, rec);
    StepEffect(st, rec);
    EffectMonotone(st, rec, Step(st, rec).value, m);
  }

  lemma EffectMonotone(st: State, rec: JournalRecord, next: State, m: Measure)
    requires Consistent(st) && Effect(st, rec, next) && Consistent(next)
    ensures Sum(st.order, st.fills, m) <= Sum(next.order, next.fills, m)
    ensures st.order <= next.order
  {
    if rec.Prepared? {
      SumExtends(st.order, rec.cloid, st.fills, m);
    } else {
      SumMonotone(st.order, st.fills, next.fills, m);
    }
  }

  lemma {:induction false} SumsGrowAlong(records: seq<JournalRecord>, n: nat, m: Measure)
    requires n <= |records| && Fold(records).Ok?
    ensures Fold(records[..n]).Ok?
    ensures var past, now := Fold(records[..n]).value, Fold(records).value;
      Sum(past.order, past.fills, m) <= Sum(now.order, now.fills, m) && past.order <= now.order
  {
    if n == |records| {
      assert records[..n] == records;
    } else {
      var init := records[..|records| - 1];
      SumsGrowAlong(init, n, m);
      assert init[..n] == records[..n];
      FoldConsistent(init);
      StepMonotone(Fold(init).value, records[|records| - 1], m);
    }
  }

  /**
    Every non-empty prefix of an accepted journal is accepted, and filled
    size and accounted notional never decrease along the journal.
  */
  lemma PrefixAccepted(records: seq<JournalRecord>, n: nat)
    requires 0 < n <= |records| && ReplayJournal(records).Ok?
    ensures ReplayJournal(records[..n]).Ok?
    ensures ReplayJournal(records[..n]).value.totals.filledSz <= ReplayJournal(records).value.totals.filledSz
    ensures ReplayJournal(records[..n]).value.totals.notional <= ReplayJournal(records).value.totals.notional
    ensures ReplayJournal(records[..n]).value.maxNotional == ReplayJournal(records).value.maxNotional
    ensures ReplayJournal(records[..n]).value.summary.header == ReplayJournal(records).value.summary.header
  {
    SumsGrowAlong(records, n, Size);
    SumsGrowAlong(records, n, Notional);
    FoldConsistent(records[..n]);
    HeaderIsFrozen(records, n);
  }

  lemma {:induction false} HeaderIsFrozen(records: seq<JournalRecord>, n: nat)
    requires 0 < n <= |records| && Fold(records).Ok?
    ensures Fold(records[..n]).Ok?
    ensures Fold(records[..n]).value.maxNotional == Fold(records).value.maxNotional
    ensures Fold(records[..n]).value.header == Fold(records).value.header
  {
    if n == |records| {
      assert records[..n] == records;
    } else {
      var init := records[..|records| - 1];
      HeaderIsFrozen(init, n);
      assert init[..n] == records[..n];
      FoldConsistent(init);
      StepEffect(Fold(init).value, records[|records| - 1]);
    }
  }

  /** The part of the cap still open to new orders. */
  function OpenCap(replay: ValidatedReplay): Option<real> {
    match replay.maxNotional
    case None => None
    case Some(cap) => Some(CapRemaining(cap, replay.totals.notional))
  }

  /** However a journal goes on, the remaining cap never grows back. */
  lemma CapNeverGrowsBack(records: seq<JournalRecord>, more: seq<JournalRecord>)
    requires records != [] && ReplayJournal(records + more).Ok?
    ensures ReplayJournal(records).Ok?
    ensures OpenCap(ReplayJournal(records).value).Some? <==> OpenCap(ReplayJournal(records + more).value).Some?
    ensures OpenCap(ReplayJournal(records).value).Some? ==>
      0.0 <= OpenCap(ReplayJournal(records + more).value).value <= OpenCap(ReplayJournal(records).value).value
  {
    PrefixAccepted(records + more, |records|);
    assert (records + more)[..|records|] == records;
  }

  // ---- the two filled-size computations, and the unresolved list ----

  lemma {:induction false} SummaryFilled(order: seq<Cloid>, st: State)
    requires Consistent(st)
    ensures FilledOf(CloidStates(order, st.states)) == Sum(order, st.fills, Size)
  {
    if order != [] {
      var init, c := order[..|order| - 1], order[|order| - 1];
      SummaryFilled(init, st);
      var cs := CloidStates(order, st.states);
      assert cs[..|cs| - 1] == CloidStates(init, st.states);
      if c in st.fills {
        CreditConsistent(c, LimitOf(st.prepared[c]), st.states[c].filledSz, st.states[c].avgPx);
      }
    }
  }

  lemma {:induction false} SummaryUnresolved(order: seq<Cloid>, states: map<Cloid, CloidState>)
    ensures NotClosed(CloidStates(order, states)) == Unresolved(order, states)
  {
    if order != [] {
      var init := order[..|order| - 1];
      SummaryUnresolved(init, states);
      var cs := CloidStates(order, states);
      assert cs[..|cs| - 1] == CloidStates(init, states);
    }
  }

  /**
    On every accepted journal the summary's sum over state texts equals the
    accounting's sum over credited fills, and the unresolved list names each
    non-terminal cloid once and nothing else.
  */
  lemma TwoComputationsAgree(records: seq<JournalRecord>)
    requires ReplayJournal(records).Ok?
    ensures var r := ReplayJournal(records).value;
      && r.summary.TotalFilled() == r.totals.filledSz
      && NoDuplicates(r.summary.UnresolvedCloids())
      && (forall c :: c in r.summary.UnresolvedCloids() <==>
            exists i :: 0 <= i < |r.summary.cloids| && r.summary.cloids[i].0 == c && !r.summary.cloids[i].1.Closed?)
  {
    var st := Fold(records).value;
    FoldConsistent(records);
    SummaryFilled(st.order, st);
    SummaryUnresolved(st.order, st.states);
    UnresolvedDistinct(st.order, st.states);
    NotClosedMembers(CloidStates(st.order, st.states));
  }

  lemma {:induction false} NotClosedMembers(cs: seq<(Cloid, CloidState)>)
    ensures forall c :: c in NotClosed(cs) <==> exists i :: 0 <= i < |cs| && cs[i].0 == c && !cs[i].1.Closed?
  {
    if cs != [] {
      var init, last := cs[..|cs| - 1], cs[|cs| - 1];
      NotClosedMembers(init);
      assert NotClosed(cs) == NotClosed(init) + if last.1.Closed? then [] else [last.0];
    }
  }

  // ---- when a run counts as complete ----

  /** The records that end a journal for good. */
  predicate Closes(rec: JournalRecord) {
    rec.Abandoned? || (rec.FinalReport? && rec.completed)
  }

  lemma ClosedByLastRecord(records: seq<JournalRecord>)
    requires records != [] && Fold(records).Ok?
    ensures var st := Fold(records).value; (st.abandoned || st.completedFinal) <==> Closes(records[|records| - 1])
  {
    var init := records[..|records| - 1];
    FoldConsistent(init);
    StepEffect(Fold(init).value, records[|records| - 1]);
  }

  /**
    An accepted journal reads as complete exactly when its last record
    abandons it or reports completion.  Every order is then resolved and no
    longer journal beginning this way is accepted.
  */
  lemma CompleteExactlyWhenClosed(records: seq<JournalRecord>)
    requires ReplayJournal(records).Ok?
    ensures var summary := ReplayJournal(records).value.summary;
      !summary.IsIncomplete() <==> Closes(records[|records| - 1])
    ensures Closes(records[|records| - 1]) ==> ReplayJournal(records).value.summary.UnresolvedCloids() == []
    ensures Closes(records[|records| - 1]) ==>
      forall more: seq<JournalRecord> :: more != [] ==> ReplayJournal(records + more).Err?
  {
    var st, summary := Fold(records).value, ReplayJournal(records).value.summary;
    FoldConsistent(records);
    ClosedByLastRecord(records);
    SummaryUnresolved(st.order, st.states);
    UnresolvedMembers(st.order, st.states);
    if st.completedFinal {
      forall i | 0 <= i < |summary.cloids|
        ensures summary.cloids[i].1.Closed?
      {
        assert st.order[i] !in Unresolved(st.order, st.states);
      }
    }
    if Closes(records[|records| - 1]) {
      forall more: seq<JournalRecord> | more != []
        ensures ReplayJournal(records + more).Err?
      {
        ErrorsStick(records + more, |records| + 1);
        var longer := (records + more)[..|records| + 1];
        assert longer[..|longer| - 1] == records;
      }
    }
  }
}
