/** Why the accounted notional bounds what an order can really have cost. */
module CapAccounting {
  import opened Wrappers
  import opened Decimals
  import opened Types
  import opened JournalRecords
  import opened Replay
  import opened ReplayTheory

  /** One match on the exchange; an order's fill is made of any number of them. */
  datatype Execution = Execution(size: real, price: real)

  function ExecutedSize(es: seq<Execution>): real {
    if es == [] then 0.0 else ExecutedSize(es[..|es| - 1]) + es[|es| - 1].size
  }

  function ExecutedNotional(es: seq<Execution>): real {
    if es == [] then 0.0 else ExecutedNotional(es[..|es| - 1]) + es[|es| - 1].size * es[|es| - 1].price
  }

  /** Prices the exchange may match an order at: never past its limit. */
  ghost predicate Permitted(price: real, limit: Limit) {
    price > 0.0 && if limit.side.Long? then price <= limit.px else price >= limit.px
  }

  /**
    A history of matches that could lie behind a credited fill.  A reported
    average is the average of the matches; where none is reported, a post-only
    order is taken to have been matched at its own price.
  */
  ghost predicate Explains(es: seq<Execution>, limit: Limit, fill: Fill) {
    && (forall i :: 0 <= i < |es| ==> es[i].size >= 0.0 && Permitted(es[i].price, limit))
    && ExecutedSize(es) == fill.filledSz
    && (fill.avgPx.Some? ==> ExecutedNotional(es) == fill.filledSz * fill.avgPx.value)
    && (fill.avgPx.None? && limit.tif == Some(Alo) ==> forall i :: 0 <= i < |es| ==> es[i].price == limit.px)
  }

  lemma ProductMonotone(x: real, y: real, z: real)
    requires x >= 0.0 && y <= z
    ensures x * y <= x * z
  {
  }

  lemma Distributes(x: real, y: real, z: real)
    ensures (x + y) * z == x * z + y * z
  {
  }

  lemma {:induction false} NotionalAtMost(es: seq<Execution>, px: real)
    requires forall i :: 0 <= i < |es| ==> es[i].size >= 0.0 && es[i].price <= px
    ensures ExecutedNotional(es) <= ExecutedSize(es) * px
  {
    if es != [] {
      var init, last := es[..|es| - 1], es[|es| - 1];
      NotionalAtMost(init, px);
      ProductMonotone(last.size, last.price, px);
      Distributes(ExecutedSize(init), last.size, px);
    }
  }

  /** A credited fill is never worth less than what was executed. */
  lemma FillCovers(c: Cloid, limit: Limit, filledSz: Text, avgPx: Option<Text>, fill: Fill, es: seq<Execution>)
    requires limit.px > 0.0 && Credit(c, limit, filledSz, avgPx) == Ok(fill) && Explains(es, limit, fill)
    ensures ExecutedNotional(es) <= fill.notional
    ensures fill.avgPx.Some? || fill.filledSz == 0.0 ==> ExecutedNotional(es) == fill.notional
  {
    CreditConsistent(c, limit, filledSz, avgPx);
    if fill.filledSz == 0.0 {
      NotionalOfNothing(es);
    } else if fill.avgPx.None? {
      assert limit.side.Long? || limit.tif == Some(Alo);
      NotionalAtMost(es, limit.px);
    }
  }

  /** What was really paid or received, over every cloid with a fill. */
  function TrueNotional(order: seq<Cloid>, fills: map<Cloid, Fill>, history: map<Cloid, seq<Execution>>): real {
    if order == [] then
      0.0
    else
      var c := order[|order| - 1];
      TrueNotional(order[..|order| - 1], fills, history) +
      if c in fills && c in history then ExecutedNotional(history[c]) else 0.0
  }

  ghost predicate History(st: State, history: map<Cloid, seq<Execution>>) {
    forall c :: c in st.fills ==>
      c in history && c in st.prepared && IntentConsistent(st.prepared[c]) &&
        Explains(history[c], LimitOf(st.prepared[c]), st.fills[c])
  }

  lemma {:induction false} SumCovers(order: seq<Cloid>, st: State, history: map<Cloid, seq<Execution>>)
    requires Consistent(st) && History(st, history)
    ensures TrueNotional(order, st.fills, history) <= Sum(order, st.fills, Notional)
    ensures AllPriced(st.fills) ==> TrueNotional(order, st.fills, history) == Sum(order, st.fills, Notional)
  {
    if order != [] {
      var c := order[|order| - 1];
      SumCovers(order[..|order| - 1], st, history);
      if c in st.fills {
        FillCovers(c, LimitOf(st.prepared[c]), st.states[c].filledSz, st.states[c].avgPx, st.fills[c], history[c]);
      }
    }
  }

  lemma {:induction false} SizeNonNegative(es: seq<Execution>)
    requires forall i :: 0 <= i < |es| ==> es[i].size >= 0.0
    ensures ExecutedSize(es) >= 0.0
  {
    if es != [] {
      SizeNonNegative(es[..|es| - 1]);
    }
  }

  lemma {:induction false} NotionalOfNothing(es: seq<Execution>)
    requires forall i :: 0 <= i < |es| ==> es[i].size >= 0.0
    requires ExecutedSize(es) == 0.0
    ensures ExecutedNotional(es) == 0.0
  {
    if es != [] {
      SizeNonNegative(es[..|es| - 1]);
      NotionalOfNothing(es[..|es| - 1]);
      assert es[|es| - 1].size * es[|es| - 1].price == 0.0;
    }
  }

  /** What `size` is worth at `price`. */
  function Worth(price: real, size: real): real {
    price * size
  }

  lemma QuotientTimes(x: real, y: real)
    requires y > 0.0
    ensures Worth(x / y, y) == x
  {
  }

  /** A trusted average price multiplies back to exactly the accounted notional. */
  lemma VwapIsExact(order: seq<Cloid>, fills: map<Cloid, Fill>)
    requires TotalsOf(order, fills).Ok? && TotalsOf(order, fills).value.vwap.Some?
    ensures var totals := TotalsOf(order, fills).value; Worth(totals.vwap.value, totals.filledSz) == totals.notional
    ensures AllPriced(fills)
  {
    QuotientTimes(Sum(order, fills, Notional), Sum(order, fills, Size));
  }

  ghost predicate Sound(totals: Totals, executed: real) {
    executed <= totals.notional &&
    (totals.vwap.Some? ==> executed == totals.notional && Worth(totals.vwap.value, totals.filledSz) == totals.notional)
  }

  lemma TotalsAreSound(st: State, totals: Totals, history: map<Cloid, seq<Execution>>)
    requires Consistent(st) && History(st, history) && TotalsOf(st.order, st.fills) == Ok(totals)
    ensures Sound(totals, TrueNotional(st.order, st.fills, history))
  {
    SumCovers(st.order, st, history);
    assert totals.filledSz == Sum(st.order, st.fills, Size) && totals.notional == Sum(st.order, st.fills, Notional);
    if totals.vwap.Some? {
      VwapIsExact(st.order, st.fills);
    }
  }

  /** One match for the whole fill, at the reported average or else at the limit. */
  function OneMatch(limit: Limit, fill: Fill): seq<Execution> {
    if fill.filledSz == 0.0 then []
    else [Execution(fill.filledSz, if fill.avgPx.Some? then fill.avgPx.value else limit.px)]
  }

  lemma OneMatchExplains(c: Cloid, limit: Limit, filledSz: Text, avgPx: Option<Text>, fill: Fill)
    requires limit.px > 0.0 && Credit(c, limit, filledSz, avgPx) == Ok(fill)
    ensures Explains(OneMatch(limit, fill), limit, fill)
  {
    CreditConsistent(c, limit, filledSz, avgPx);
    var es := OneMatch(limit, fill);
    if es != [] {
      assert es[..|es| - 1] == [];
    }
  }

  function SimplestHistory(prepared: map<Cloid, Intent>, fills: map<Cloid, Fill>): map<Cloid, seq<Execution>> {
    map c | c in fills && c in prepared && prepared[c].px.Numeral? && prepared[c].sz.Numeral?
      :: OneMatch(LimitOf(prepared[c]), fills[c])
  }

  /** No accepted journal is without a history that could lie behind it. */
  lemma EveryJournalHasAHistory(records: seq<JournalRecord>)
    requires ReplayJournal(records).Ok?
    ensures Fold(records).Ok?
    ensures var st := Fold(records).value; History(st, SimplestHistory(st.prepared, st.fills))
  {
    var st := Fold(records).value;
    FoldConsistent(records);
    forall c | c in st.fills
      ensures c in st.prepared && IntentConsistent(st.prepared[c])
      ensures Explains(OneMatch(LimitOf(st.prepared[c]), st.fills[c]), LimitOf(st.prepared[c]), st.fills[c])
    {
      assert CreditedFor(c, st.prepared[c], st.states[c], st.fills[c]);
      OneMatchExplains(c, LimitOf(st.prepared[c]), st.states[c].filledSz, st.states[c].avgPx, st.fills[c]);
    }
  }

  /**
    The cap is charged soundly: whatever matches really lay behind an accepted
    journal's fills, the notional they came to is at most the accounted one.
    When the journal yields a trusted average price, that price times the
    filled size is exactly the accounted notional and exactly what was executed.
  */
  lemma AccountedNotionalIsSound(records: seq<JournalRecord>, st: State, history: map<Cloid, seq<Execution>>)
    requires ReplayJournal(records).Ok? && Fold(records) == Ok(st) && History(st, history)
    ensures Sound(ReplayJournal(records).value.totals, TrueNotional(st.order, st.fills, history))
  {
    FoldConsistent(records);
    TotalsAreSound(st, ReplayJournal(records).value.totals, history);
  }
}
