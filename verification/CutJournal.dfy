/**
  What survives when a journal file is cut short: reading and replaying what
  is left gives an earlier state of the same run.  A line decodes to a written
  record, whose decimals are text; `meaning` is what the replay makes of it.
*/
module CutJournal {
  import opened Wrappers
  import opened JournalRecords
  import opened Replay
  import opened ReplayTheory
  import opened JournalFile
  import CrashRuns

  function Meanings<R>(meaning: R -> JournalRecord, written: seq<R>): (records: seq<JournalRecord>)
    ensures |records| == |written| && forall i :: 0 <= i < |written| ==> records[i] == meaning(written[i])
  {
    seq(|written|, i requires 0 <= i < |written| => meaning(written[i]))
  }

  function ReplayFile<R>(codec: Codec<R>, meaning: R -> JournalRecord, bytes: seq<Byte>): Option<ValidatedReplay> {
    var written := ParseRecords(codec, bytes);
    if written.Ok? && ReplayJournal(Meanings(meaning, written.value)).Ok?
    then Some(ReplayJournal(Meanings(meaning, written.value)).value)
    else None
  }

  /** The earlier replay belongs to the same run and has credited no more. */
  predicate EarlierIn(past: ValidatedReplay, now: ValidatedReplay) {
    && past.summary.header == now.summary.header
    && past.maxNotional == now.maxNotional
    && past.totals.filledSz <= now.totals.filledSz
    && past.totals.notional <= now.totals.notional
  }

  /** Fewer written records mean an earlier state. */
  lemma FewerRecords<R>(meaning: R -> JournalRecord, cut: seq<R>, full: seq<R>)
    requires cut != [] && cut <= full && ReplayJournal(Meanings(meaning, full)).Ok?
    ensures ReplayJournal(Meanings(meaning, cut)).Ok?
    ensures EarlierIn(ReplayJournal(Meanings(meaning, cut)).value, ReplayJournal(Meanings(meaning, full)).value)
  {
    assert Meanings(meaning, cut) == Meanings(meaning, full)[..|cut|];
    PrefixAccepted(Meanings(meaning, full), |cut|);
  }

  /**
    An accepted journal file cut anywhere after its header object still reads
    and is still accepted, as an earlier state of the run.
  */
  lemma CutFileIsAccepted<R(!new)>(
    codec: Codec<R>, meaning: R -> JournalRecord, header: R, bytes: seq<Byte>, n: nat)
    requires JsonObjects(codec) && CrashRuns.StartsWith(codec, header, bytes) && CrashRuns.TornForGood(codec, bytes)
    requires |codec.encode(header)| <= n <= |bytes| && ReplayFile(codec, meaning, bytes).Some?
    ensures ParseRecords(codec, bytes[..n]).Ok?
    ensures ParseRecords(codec, bytes[..n]).value <= ParseRecords(codec, bytes).value
    ensures ReplayFile(codec, meaning, bytes[..n]).Some?
    ensures EarlierIn(ReplayFile(codec, meaning, bytes[..n]).value, ReplayFile(codec, meaning, bytes).value)
  {
    CrashRuns.CutAnywhere(codec, header, bytes, n);
    FewerRecords(meaning, ParseRecords(codec, bytes[..n]).value, ParseRecords(codec, bytes).value);
  }

  /**
    Every file a run of appends, crashes and repairs leaves behind has that
    property: if what was logged is accepted, so is any cut of the file, and
    the accepted records are a beginning of the log.
  */
  lemma CutOfAnyRun<R(!new)>(
    codec: Codec<R>, meaning: R -> JournalRecord, header: R, events: seq<CrashRuns.Event<R>>, n: nat)
    requires JsonObjects(codec) && CrashRuns.IsRun(codec, header, events)
    requires var d := CrashRuns.After(codec, header, events);
      ReplayJournal(Meanings(meaning, CrashRuns.Records(d.log))).Ok? && |codec.encode(header)| <= n <= |d.bytes|
    ensures var d := CrashRuns.After(codec, header, events);
      && ParseRecords(codec, d.bytes[..n]).Ok? && ParseRecords(codec, d.bytes[..n]).value <= CrashRuns.Records(d.log)
      && ReplayFile(codec, meaning, d.bytes[..n]).Some?
      && EarlierIn(ReplayFile(codec, meaning, d.bytes[..n]).value,
                   ReplayJournal(Meanings(meaning, CrashRuns.Records(d.log))).value)
  {
    CrashRuns.RunFile(codec, header, events);
    CutFileIsAccepted(codec, meaning, header, CrashRuns.After(codec, header, events).bytes, n);
  }

  // ---- every journal has such a file ----

  /** The k-th written record means the k-th record of the journal. */
  function KthRecord(records: seq<JournalRecord>): (meaning: nat -> JournalRecord)
    requires records != []
    ensures forall k :: 0 <= k < |records| ==> meaning(k) == records[k]
  {
    (k: nat) => if k < |records| then records[k] else records[0]
  }

  function Appends(n: nat): seq<CrashRuns.Event<nat>> {
    if n == 0 then [] else Appends(n - 1) + [CrashRuns.Append(n)]
  }

  /** The log holds 0, 1, 2 and so on. */
  ghost predicate Counts(log: seq<CrashRuns.Entry<nat>>, n: nat) {
    |log| == n && forall i :: 0 <= i < n ==> log[i].rec == i
  }

  lemma {:induction false} AppendsRun(codec: Codec<nat>, n: nat)
    ensures CrashRuns.IsRun(codec, 0, Appends(n))
    ensures var d := CrashRuns.After(codec, 0, Appends(n)); d.open && Counts(d.log, n + 1)
  {
    if n > 0 {
      AppendsRun(codec, n - 1);
      assert Appends(n)[..|Appends(n)| - 1] == Appends(n - 1);
    }
  }

  lemma KthMeanings(records: seq<JournalRecord>, log: seq<CrashRuns.Entry<nat>>)
    requires records != [] && Counts(log, |records|)
    ensures Meanings(KthRecord(records), CrashRuns.Records(log)) == records
  {
  }

  /** A run of the journal writes a file that these lemmas speak about, and it replays to this. */
  ghost predicate WritesFile<R(!new)>(
    codec: Codec<R>, meaning: R -> JournalRecord, header: R, events: seq<CrashRuns.Event<R>>, replay: ValidatedReplay)
  {
    && JsonObjects(codec) && CrashRuns.IsRun(codec, header, events)
    && var bytes := CrashRuns.After(codec, header, events).bytes;
       && CrashRuns.StartsWith(codec, header, bytes) && CrashRuns.TornForGood(codec, bytes)
       && ReplayFile(codec, meaning, bytes) == Some(replay)
  }

  lemma FileMeans<R(!new)>(
    codec: Codec<R>, meaning: R -> JournalRecord, header: R, events: seq<CrashRuns.Event<R>>,
    records: seq<JournalRecord>, replay: ValidatedReplay)
    requires JsonObjects(codec) && CrashRuns.IsRun(codec, header, events) && ReplayJournal(records) == Ok(replay)
    requires Meanings(meaning, CrashRuns.Records(CrashRuns.After(codec, header, events).log)) == records
    ensures WritesFile(codec, meaning, header, events, replay)
  {
    CrashRuns.RunFile(codec, header, events);
  }

  /** Some run's log means any journal whatever. */
  lemma NumberedRun(codec: Codec<nat>, records: seq<JournalRecord>)
    requires records != []
    ensures CrashRuns.IsRun(codec, 0, Appends(|records| - 1))
    ensures var log := CrashRuns.After(codec, 0, Appends(|records| - 1)).log;
      Meanings(KthRecord(records), CrashRuns.Records(log)) == records
  {
    AppendsRun(codec, |records| - 1);
    KthMeanings(records, CrashRuns.After(codec, 0, Appends(|records| - 1)).log);
  }

  /**
    The hypotheses can be met for every journal there is: any accepted journal
    is what some file means, under some encoding that keeps the promises,
    written record by record.
  */
  lemma EveryJournalHasAFile(records: seq<JournalRecord>, replay: ValidatedReplay)
    requires ReplayJournal(records) == Ok(replay)
    ensures records != [] && WritesFile(CodecOfNumbers(), KthRecord(records), 0, Appends(|records| - 1), replay)
  {
    NumberedRun(CodecOfNumbers(), records);
    PromisesCanBeKept();
    FileMeans(CodecOfNumbers(), KthRecord(records), 0, Appends(|records| - 1), records, replay);
  }
}
