/**
  Which record an accepted, open journal takes next, and what the journal then
  accounts for, told from the fields of the records themselves and their
  places in the log.
*/
module RecordRules {
  import opened Wrappers
  import opened Decimals
  import opened Types
  import opened JournalRecords
  import opened Replay
  import opened ReplayTheory
  import opened LogReading

  // ---- places in the log ----

  predicate Mentions(rec: JournalRecord, c: Cloid) {
    match rec
    case Prepared(_, cloid, _, _, _, _, _, _) => cloid == c
    case SubmittedUnknown(_, cloid) => cloid == c
    case Acknowledged(_, cloid, _, _) => cloid == c
    case Terminal(_, cloid, _, _, _) => cloid == c
    case _ => false
  }

  /** The k-th record is the last one about `c`. */
  ghost predicate LastOn(records: seq<JournalRecord>, k: int, c: Cloid) {
    0 <= k < |records| && Mentions(records[k], c) && forall j :: k < j < |records| ==> !Mentions(records[j], c)
  }

  ghost predicate PreparedAt(records: seq<JournalRecord>, i: int, c: Cloid) {
    0 <= i < |records| && records[i].Prepared? && records[i].cloid == c
  }

  lemma {:induction false} LastAboutIsLast(records: seq<JournalRecord>, c: Cloid)
    ensures forall k :: LastOn(records, k, c) ==> LastAbout(records, c) == Some(records[k])
    ensures LastAbout(records, c).Some? ==> exists k :: LastOn(records, k, c)
    ensures LastAbout(records, c).Some? <==> exists i :: 0 <= i < |records| && Mentions(records[i], c)
  {
    if records != [] {
      var init, n := records[..|records| - 1], |records| - 1;
      LastAboutIsLast(init, c);
      if Mentions(records[n], c) {
        assert LastOn(records, n, c);
        forall k | LastOn(records, k, c)
          ensures k == n
        {
        }
      } else {
        forall k
          ensures LastOn(records, k, c) <==> LastOn(init, k, c)
        {
        }
      }
    }
  }

  lemma {:induction false} PreparedSomewhere(records: seq<JournalRecord>, c: Cloid)
    ensures c in PreparedCloids(records) <==> exists i :: PreparedAt(records, i, c)
    ensures TermsOf(records, c).Some? <==> exists i :: PreparedAt(records, i, c)
  {
    if records != [] {
      var init, n := records[..|records| - 1], |records| - 1;
      PreparedSomewhere(init, c);
      assert forall i :: i < n ==> (PreparedAt(records, i, c) <==> PreparedAt(init, i, c));
      if exists i :: PreparedAt(records, i, c) {
        var i :| PreparedAt(records, i, c);
        assert i == n || PreparedAt(init, i, c);
      }
      if exists i :: PreparedAt(init, i, c) {
        var i :| PreparedAt(init, i, c);
        assert PreparedAt(records, i, c);
      }
      if records[n].Prepared? && records[n].cloid == c {
        assert PreparedAt(records, n, c);
      }
    }
  }

  // ---- an order's terms are its Prepared record's ----

  /** The terms a Prepared record states, field by field. */
  ghost predicate StatesTerms(rec: JournalRecord, terms: Intent) {
    && rec.Prepared? && terms.sliceIdx == rec.sliceIdx && terms.symbol == rec.symbol && terms.side == rec.side
    && terms.tif == rec.tif && terms.px == rec.px && terms.sz == rec.sz
  }

  /** A prepared cloid is not prepared again. */
  lemma NeverPreparedAgain(records: seq<JournalRecord>, c: Cloid)
    requires records != [] && Fold(records).Ok? && TermsOf(records[..|records| - 1], c).Some?
    ensures !PreparedAt(records, |records| - 1, c)
  {
    var init := records[..|records| - 1];
    LastStep(records);
    TablesAreTheReading(init);
    assert ReadsAt(init, Fold(init).value, c);
  }

  lemma {:induction false} TermsAreStated(records: seq<JournalRecord>, i: nat, c: Cloid)
    requires Fold(records).Ok? && PreparedAt(records, i, c)
    ensures TermsOf(records, c).Some? && StatesTerms(records[i], TermsOf(records, c).value)
  {
    var init := records[..|records| - 1];
    if i < |init| {
      ErrorsStick(records, |init|);
      assert PreparedAt(init, i, c);
      TermsAreStated(init, i, c);
      NeverPreparedAgain(records, c);
    }
  }

  /** Each order is replayed under exactly the terms its Prepared record states. */
  lemma PreparedTermsAreTheRecord(records: seq<JournalRecord>, i: nat)
    requires ReplayJournal(records).Ok? && i < |records| && records[i].Prepared?
    ensures var r := ReplayJournal(records).value;
      && records[i].cloid in r.prepared
      && r.prepared[records[i].cloid] ==
           Intent(records[i].sliceIdx, records[i].symbol, records[i].side, records[i].tif, records[i].px, records[i].sz)
  {
    var c := records[i].cloid;
    TermsAreStated(records, i, c);
    PreparedSomewhere(records, c);
    ReplayIsTheReading(records);
    assert PreparedAt(records, i, c);
  }

  // ---- what a terminal record is worth ----

  /** Filled size as text says it; what cannot be read counts for nothing. */
  function SizeOf(rec: JournalRecord): real {
    if rec.Terminal? && rec.filledSz.Numeral? then rec.filledSz.value else 0.0
  }

  /** A fill is accounted at the reported average price, or without one at the order's own limit. */
  function Paid(order: JournalRecord, rec: JournalRecord): real {
    if !rec.Terminal? || SizeOf(rec) == 0.0 then 0.0
    else
      match rec.avgPx
      case Some(Numeral(px, _)) => SizeOf(rec) * px
      case _ => if order.Prepared? && order.px.Numeral? then SizeOf(rec) * order.px.value else 0.0
  }

  ghost predicate PriceFits(order: JournalRecord, avgPx: Option<Text>)
    requires order.Prepared? && order.px.Numeral?
  {
    match avgPx
    case Some(text) =>
      Parse(text).Some? && text.value > 0.0 &&
      (order.side.Long? ==> text.value <= order.px.value) && (order.side.Short? ==> text.value >= order.px.value)
    case None => order.side.Long? || order.tif == Some(Alo)
  }

  /** A fill within its order's size and limit, and within what a decimal can hold. */
  ghost predicate AmountFits(order: JournalRecord, rec: JournalRecord) {
    && order.Prepared? && order.px.Numeral? && order.sz.Numeral?
    && rec.Terminal? && Parse(rec.filledSz).Some? && rec.filledSz.value >= 0.0
    && (rec.filledSz.value > 0.0 ==>
          rec.filledSz.value <= order.sz.value && PriceFits(order, rec.avgPx) && Paid(order, rec) <= MAX)
  }

  /** A terminal record that may be the first one of its order. */
  ghost predicate FillFits(order: JournalRecord, rec: JournalRecord) {
    && AmountFits(order, rec) && rec.sliceIdx == order.sliceIdx
    && (rec.status.ExchangeTerminal? || rec.status.JournalTerminal?)
  }

  lemma PaidNonNegative(order: JournalRecord, rec: JournalRecord)
    requires order.Prepared? && order.px.Numeral? && order.px.value > 0.0
    requires rec.Terminal? && SizeOf(rec) > 0.0 && PriceFits(order, rec.avgPx)
    ensures Paid(order, rec) >= 0.0
  {
    ProductSigns(SizeOf(rec), if rec.avgPx.Some? then rec.avgPx.value.value else order.px.value);
  }

  /** The credit of a terminal record, in terms of its own fields and its order's. */
  lemma PaidIsCredited(order: JournalRecord, terms: Intent, c: Cloid, rec: JournalRecord)
    requires StatesTerms(order, terms) && IntentConsistent(terms) && rec.Terminal?
    ensures var credit := Credit(c, LimitOf(terms), rec.filledSz, rec.avgPx);
      && (credit.Ok? <==> AmountFits(order, rec))
      && (credit.Ok? ==> credit.value.filledSz == SizeOf(rec) && credit.value.notional == Paid(order, rec))
      && (credit.Ok? ==> (credit.value.avgPx.Some? <==> SizeOf(rec) > 0.0 && rec.avgPx.Some?))
  {
    if Parse(rec.filledSz).Some? && rec.filledSz.value > 0.0 && PriceFits(order, rec.avgPx) {
      PaidNonNegative(order, rec);
    }
  }

  // ---- what is accounted for ----

  function LastSize(records: seq<JournalRecord>, c: Cloid): real {
    match LastAbout(records, c)
    case Some(rec) => SizeOf(rec)
    case None => 0.0
  }

  function LastPaid(records: seq<JournalRecord>, order: JournalRecord): real {
    if !order.Prepared? then 0.0
    else
      match LastAbout(records, order.cloid)
      case Some(rec) => Paid(order, rec)
      case None => 0.0
  }

  /** What the orders among the first `n` records have filled, by the last record about each. */
  function FilledIn(records: seq<JournalRecord>, n: nat): real
    requires n <= |records|
  {
    if n == 0 then 0.0
    else
      FilledIn(records, n - 1) + if records[n - 1].Prepared? then LastSize(records, records[n - 1].cloid) else 0.0
  }

  function PaidIn(records: seq<JournalRecord>, n: nat): real
    requires n <= |records|
  {
    if n == 0 then 0.0 else PaidIn(records, n - 1) + LastPaid(records, records[n - 1])
  }

  /** Every fill was reported with its price. */
  ghost predicate AllReported(records: seq<JournalRecord>) {
    forall i :: 0 <= i < |records| && records[i].Prepared? && LastSize(records, records[i].cloid) > 0.0 ==>
      LastAbout(records, records[i].cloid).value.avgPx.Some?
  }

  /** One order's entry in the fills the log gives. */
  lemma OneOrder(records: seq<JournalRecord>, i: nat, c: Cloid)
    requires Fold(records).Ok? && PreparedAt(records, i, c)
    ensures c in LogFills(records) ==>
      var fill := LogFills(records)[c];
      && fill.filledSz == LastSize(records, c) && fill.notional == LastPaid(records, records[i])
      && (fill.avgPx.Some? <==> LastSize(records, c) > 0.0 && LastAbout(records, c).value.avgPx.Some?)
    ensures c in LogFills(records) <==> LastAbout(records, c).Some? && LastAbout(records, c).value.Terminal?
    ensures c !in LogFills(records) ==> LastSize(records, c) == 0.0 && LastPaid(records, records[i]) == 0.0
  {
    var st := Fold(records).value;
    FoldConsistent(records);
    TablesAreTheReading(records);
    ReadingTables(records, st);
    assert ReadsAt(records, st, c);
    TermsAreStated(records, i, c);
    var terms := TermsOf(records, c).value;
    if c in st.fills {
      PaidIsCredited(records[i], terms, c, LastAbout(records, c).value);
    }
  }

  lemma PreparedPrefix(records: seq<JournalRecord>, n: nat)
    requires 0 < n <= |records|
    ensures PreparedCloids(records[..n]) ==
      PreparedCloids(records[..n - 1]) + if records[n - 1].Prepared? then [records[n - 1].cloid] else []
  {
    assert records[..n][..n - 1] == records[..n - 1];
  }

  /** The table has this order's amounts, or nothing where they are zero. */
  ghost predicate Tabulates(records: seq<JournalRecord>, i: nat, fills: map<Cloid, Fill>) {
    i < |records| && records[i].Prepared? ==>
      var c := records[i].cloid;
      LastSize(records, c) == (if c in fills then fills[c].filledSz else 0.0) &&
      LastPaid(records, records[i]) == (if c in fills then fills[c].notional else 0.0)
  }

  lemma OneMoreAmount(records: seq<JournalRecord>, n: nat, fills: map<Cloid, Fill>, m: Measure)
    requires 0 < n <= |records|
    ensures var before, rec := Sum(PreparedCloids(records[..n - 1]), fills, m), records[n - 1];
      Sum(PreparedCloids(records[..n]), fills, m) ==
      if rec.Prepared? && rec.cloid in fills then before + Amount(fills[rec.cloid], m) else before
  {
    PreparedPrefix(records, n);
    var order, rec := PreparedCloids(records[..n - 1]), records[n - 1];
    if rec.Prepared? {
      SumExtends(order, rec.cloid, fills, m);
    } else {
      assert order + [] == order;
    }
  }

  lemma PaidStep(records: seq<JournalRecord>, n: nat, paid: real)
    requires 0 < n <= |records| && paid == LastPaid(records, records[n - 1])
    ensures PaidIn(records, n) == PaidIn(records, n - 1) + paid
    ensures !records[n - 1].Prepared? ==> paid == 0.0
  {
  }

  lemma FilledStep(records: seq<JournalRecord>, n: nat)
    requires 0 < n <= |records|
    ensures FilledIn(records, n) ==
      FilledIn(records, n - 1) + if records[n - 1].Prepared? then LastSize(records, records[n - 1].cloid) else 0.0
  {
  }

  lemma {:induction false} SumsOverOrders(records: seq<JournalRecord>, n: nat, fills: map<Cloid, Fill>)
    requires n <= |records| && forall i :: 0 <= i < n ==> Tabulates(records, i, fills)
    ensures Sum(PreparedCloids(records[..n]), fills, Size) == FilledIn(records, n)
    ensures Sum(PreparedCloids(records[..n]), fills, Notional) == PaidIn(records, n)
  {
    if n > 0 {
      SumsOverOrders(records, n - 1, fills);
      assert Tabulates(records, n - 1, fills);
      OneMoreAmount(records, n, fills, Size);
      OneMoreAmount(records, n, fills, Notional);
      FilledStep(records, n);
      PaidStep(records, n, LastPaid(records, records[n - 1]));
    }
  }

  lemma SumsOfTheLog(records: seq<JournalRecord>)
    requires Fold(records).Ok?
    ensures Sum(PreparedCloids(records), LogFills(records), Size) == FilledIn(records, |records|)
    ensures Sum(PreparedCloids(records), LogFills(records), Notional) == PaidIn(records, |records|)
  {
    forall i | 0 <= i < |records|
      ensures Tabulates(records, i, LogFills(records))
    {
      if records[i].Prepared? {
        OneOrder(records, i, records[i].cloid);
      }
    }
    SumsOverOrders(records, |records|, LogFills(records));
    assert records[..|records|] == records;
  }

  lemma PricedMeansReported(records: seq<JournalRecord>)
    requires Fold(records).Ok?
    ensures AllPriced(LogFills(records)) <==> AllReported(records)
  {
    var fills := LogFills(records);
    forall i | 0 <= i < |records| && records[i].Prepared?
      ensures records[i].cloid in fills ==> fills[records[i].cloid].filledSz == LastSize(records, records[i].cloid)
      ensures records[i].cloid in fills ==>
        (fills[records[i].cloid].avgPx.Some? <==>
           LastSize(records, records[i].cloid) > 0.0 && LastAbout(records, records[i].cloid).value.avgPx.Some?)
      ensures records[i].cloid !in fills ==> LastSize(records, records[i].cloid) == 0.0
    {
      OneOrder(records, i, records[i].cloid);
    }
    forall c | c in fills
      ensures exists i :: PreparedAt(records, i, c)
    {
      PreparedSomewhere(records, c);
    }
  }

  /** The log's totals, as the report check consults them. */
  lemma TotalsByTheRecords(records: seq<JournalRecord>)
    requires Fold(records).Ok?
    ensures LogTotals(records).Ok? <==> FilledIn(records, |records|) <= MAX && PaidIn(records, |records|) <= MAX
    ensures LogTotals(records).Ok? ==>
      var totals := LogTotals(records).value;
      && totals.filledSz == FilledIn(records, |records|) && totals.notional == PaidIn(records, |records|)
      && (totals.vwap.Some? <==> FilledIn(records, |records|) > 0.0 && AllReported(records))
      && (totals.vwap.Some? ==> totals.filledSz > 0.0 && totals.vwap.value == totals.notional / totals.filledSz)
  {
    SumsOfTheLog(records);
    PricedMeansReported(records);
  }

  /**
    What an accepted journal accounts for, by its records: each order's last
    record counts, and only if it is terminal; a fill costs its size at the
    price reported, or else at the order's limit; an average price is trusted
    exactly when something filled and every fill was reported with a price.  A
    journal whose every record is admissible is refused only when these sums
    do not fit.
  */
  lemma AccountedByTheRecords(records: seq<JournalRecord>)
    requires records != [] && Fold(records).Ok?
    ensures ReplayJournal(records).Ok? <==> FilledIn(records, |records|) <= MAX && PaidIn(records, |records|) <= MAX
    ensures ReplayJournal(records).Ok? ==>
      var totals := ReplayJournal(records).value.totals;
      && totals.filledSz == FilledIn(records, |records|) && totals.notional == PaidIn(records, |records|)
      && (totals.vwap.Some? <==> FilledIn(records, |records|) > 0.0 && AllReported(records))
  {
    TotalsByTheRecords(records);
    AcceptedExactly(records);
    FoldAdmissible(records);
    if ReplayJournal(records).Ok? {
      ReplayIsTheReading(records);
    }
  }

  /** Each order is reported in the state its last record puts it in. */
  lemma StatesByTheRecords(records: seq<JournalRecord>, i: nat, k: nat, c: Cloid)
    requires ReplayJournal(records).Ok? && PreparedAt(records, i, c) && LastOn(records, k, c)
    ensures var state :=
        match records[k]
        case SubmittedUnknown(_, _) => Unknown
        case Acknowledged(_, _, _, _) => Resting
        case Terminal(_, _, _, filledSz, avgPx) => Closed(filledSz, avgPx)
        case _ => PreparedOnly;
      (c, state) in ReplayJournal(records).value.summary.cloids
  {
    var st := Fold(records).value;
    FoldConsistent(records);
    TablesAreTheReading(records);
    assert ReadsAt(records, st, c);
    PreparedSomewhere(records, c);
    LastAboutIsLast(records, c);
    var j :| 0 <= j < |st.order| && st.order[j] == c;
    assert ReplayJournal(records).value.summary.cloids[j] == (c, st.states[c]);
  }

  // ---- which record may come next ----

  /** Accepted so far and not closed. */
  ghost predicate IsOpen(records: seq<JournalRecord>) {
    records != [] && Fold(records).Ok? &&
    var last := records[|records| - 1];
    !last.Abandoned? && !(last.FinalReport? && last.completed)
  }

  lemma NextIsAdmissible(records: seq<JournalRecord>, rec: JournalRecord)
    requires IsOpen(records)
    ensures Fold(records + [rec]).Ok? <==> Admissible(records, rec)
  {
    FoldAppend(records, rec);
    StepAdmissible(records, Fold(records).value, rec);
  }

  /** A later terminal record takes back neither size nor notional. */
  ghost predicate TakesNothingBack(order: JournalRecord, before: JournalRecord, rec: JournalRecord) {
    before.Terminal? ==> SizeOf(before) <= SizeOf(rec) && Paid(order, before) <= Paid(order, rec)
  }

  /** The rule for terminal records, on the order's Prepared record and the last record about it. */
  lemma TerminalAcceptedExactly(records: seq<JournalRecord>, i: nat, k: nat, rec: JournalRecord)
    requires IsOpen(records) && rec.Terminal? && PreparedAt(records, i, rec.cloid) && LastOn(records, k, rec.cloid)
    ensures Fold(records + [rec]).Ok? <==>
      FillFits(records[i], rec) && TakesNothingBack(records[i], records[k], rec)
  {
    var c := rec.cloid;
    NextIsAdmissible(records, rec);
    TermsAreStated(records, i, c);
    LastAboutIsLast(records, c);
    TermsRead(records, c);
    var terms := TermsOf(records, c).value;
    PaidIsCredited(records[i], terms, c, rec);
    OneOrder(records, i, c);
  }

  lemma TermsRead(records: seq<JournalRecord>, c: Cloid)
    requires Fold(records).Ok? && TermsOf(records, c).Some?
    ensures IntentConsistent(TermsOf(records, c).value)
  {
    FoldConsistent(records);
    TablesAreTheReading(records);
    assert ReadsAt(records, Fold(records).value, c);
  }

  /** An order is opened once, with a size and a price that read. */
  lemma PreparedAcceptedExactly(records: seq<JournalRecord>, rec: JournalRecord)
    requires IsOpen(records) && rec.Prepared?
    ensures Fold(records + [rec]).Ok? <==>
      && (forall i :: !PreparedAt(records, i, rec.cloid))
      && Parse(rec.sz).Some? && rec.sz.value >= 0.0 && Parse(rec.px).Some? && rec.px.value > 0.0
  {
    NextIsAdmissible(records, rec);
    PreparedSomewhere(records, rec.cloid);
  }

  /**
    A submission of unknown outcome only follows the Prepared record itself,
    an acknowledgement anything but a terminal record; both keep the slice.
  */
  lemma ProgressAcceptedExactly(records: seq<JournalRecord>, i: nat, k: nat, rec: JournalRecord)
    requires IsOpen(records) && (rec.SubmittedUnknown? || rec.Acknowledged?)
    requires PreparedAt(records, i, rec.cloid) && LastOn(records, k, rec.cloid)
    ensures Fold(records + [rec]).Ok? <==>
      rec.sliceIdx == records[i].sliceIdx &&
      (if rec.SubmittedUnknown? then records[k].Prepared? else !records[k].Terminal?)
  {
    NextIsAdmissible(records, rec);
    TermsAreStated(records, i, rec.cloid);
    LastAboutIsLast(records, rec.cloid);
  }

  /** Nothing is recorded about an order that was not prepared, and there is one header. */
  lemma StrangersAreRefused(records: seq<JournalRecord>, rec: JournalRecord)
    requires IsOpen(records)
    requires rec.Header? ||
      ((rec.SubmittedUnknown? || rec.Acknowledged? || rec.Terminal?) && forall i :: !PreparedAt(records, i, rec.cloid))
    ensures Fold(records + [rec]).Err?
  {
    NextIsAdmissible(records, rec);
    if !rec.Header? {
      PreparedSomewhere(records, rec.cloid);
    }
  }

  lemma PastIsOpen(past: seq<JournalRecord>, rec: JournalRecord)
    requires Fold(past + [rec]).Ok? && !rec.Header?
    ensures IsOpen(past)
  {
    FoldAppend(past, rec);
    LastStep(past + [rec]);
    assert (past + [rec])[..|past|] == past;
    if past != [] {
      ClosedByLastRecord(past);
    }
  }

  /** Once prepared, an order is not prepared again further down. */
  lemma NotPreparedLater(records: seq<JournalRecord>, a: nat, b: nat, c: Cloid)
    requires Fold(records).Ok? && PreparedAt(records, a, c) && a < b < |records|
    ensures !PreparedAt(records, b, c)
  {
    var upTo, past := records[..b + 1], records[..b];
    ErrorsStick(records, b + 1);
    assert upTo[..|upTo| - 1] == past;
    assert PreparedAt(past, a, c);
    PreparedSomewhere(past, c);
    NeverPreparedAgain(upTo, c);
  }

  lemma PreparedOnce(records: seq<JournalRecord>, h: nat, i: nat, c: Cloid)
    requires Fold(records).Ok? && PreparedAt(records, h, c) && PreparedAt(records, i, c)
    ensures h == i
  {
    if h < i {
      NotPreparedLater(records, h, i, c);
    } else if i < h {
      NotPreparedLater(records, i, h, c);
    }
  }

  lemma PreparedBefore(past: seq<JournalRecord>, rec: JournalRecord) returns (h: nat, k: nat)
    requires IsOpen(past) && rec.Terminal? && Fold(past + [rec]).Ok?
    ensures PreparedAt(past, h, rec.cloid) && LastOn(past, k, rec.cloid)
  {
    if forall i :: !PreparedAt(past, i, rec.cloid) {
      StrangersAreRefused(past, rec);
    }
    h :| PreparedAt(past, h, rec.cloid);
    LastAboutIsLast(past, rec.cloid);
    assert Mentions(past[h], rec.cloid);
    k :| LastOn(past, k, rec.cloid);
  }

  lemma AcceptedFill(past: seq<JournalRecord>, rec: JournalRecord) returns (h: nat)
    requires rec.Terminal? && Fold(past + [rec]).Ok?
    ensures PreparedAt(past, h, rec.cloid) && FillFits(past[h], rec)
  {
    PastIsOpen(past, rec);
    var k;
    h, k := PreparedBefore(past, rec);
    TerminalAcceptedExactly(past, h, k, rec);
  }

  lemma AcceptedFillAt(records: seq<JournalRecord>, j: nat) returns (h: nat)
    requires Fold(records).Ok? && j < |records| && records[j].Terminal?
    ensures h < j && PreparedAt(records, h, records[j].cloid) && FillFits(records[h], records[j])
  {
    ErrorsStick(records, j + 1);
    assert records[..j + 1] == records[..j] + [records[j]];
    h := AcceptedFill(records[..j], records[j]);
    assert records[..j][h] == records[h];
  }

  /** Every terminal record of an accepted journal follows its order's Prepared record and stays within it. */
  lemma FillsObeyTheirOrder(records: seq<JournalRecord>, i: nat, j: nat)
    requires Fold(records).Ok? && i < |records| && j < |records|
    requires records[i].Prepared? && records[j].Terminal? && records[i].cloid == records[j].cloid
    ensures i < j && FillFits(records[i], records[j])
  {
    var h := AcceptedFillAt(records, j);
    PreparedOnce(records, h, i, records[j].cloid);
  }
}
