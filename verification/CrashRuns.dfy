/**
  Every run of a journal through appends, crashes and reopenings.  A crash
  during an append keeps any prefix of the line being written; a crash during
  a repair keeps the file as it was or as repaired; synced bytes survive.
*/
module CrashRuns {
  import opened Wrappers
  import opened JournalFile

  /** A record that reached the file, and whether its append returned. */
  datatype Entry<R> = Entry(rec: R, acknowledged: bool)

  datatype Disk<R> = Disk(bytes: seq<Byte>, log: seq<Entry<R>>, open: bool, crashes: nat)

  datatype Event<R> =
    | Append(rec: R)
    | CrashDuringAppend(rec: R, kept: nat)
    | Crash
    | Reopen
    | CrashDuringRepair(finished: bool)

  function Start<R>(codec: Codec<R>, header: R): Disk<R> {
    Disk(Line(codec, header), [Entry(header, true)], true, 0)
  }

  predicate Enabled<R>(codec: Codec<R>, d: Disk<R>, e: Event<R>) {
    match e
    case Append(_) => d.open
    case CrashDuringAppend(rec, kept) => d.open && kept <= |Line(codec, rec)|
    case Crash => d.open
    case Reopen => !d.open
    case CrashDuringRepair(_) => !d.open
  }

  /** Opening fails closed, and changes nothing, when the file cannot be repaired. */
  function Next<R>(codec: Codec<R>, d: Disk<R>, e: Event<R>): Disk<R>
    requires Enabled(codec, d, e)
  {
    match e
    case Append(rec) => d.(bytes := d.bytes + Line(codec, rec), log := d.log + [Entry(rec, true)])
    case CrashDuringAppend(rec, kept) =>
      Disk(d.bytes + Line(codec, rec)[..kept],
           if kept >= |codec.encode(rec)| then d.log + [Entry(rec, false)] else d.log,
           false, d.crashes + 1)
    case Crash => d.(open := false, crashes := d.crashes + 1)
    case Reopen =>
      (match Repair(codec, d.bytes)
       case Ok(fixed) => d.(bytes := fixed, open := true)
       case Err(_) => d)
    case CrashDuringRepair(finished) =>
      (match Repair(codec, d.bytes)
       case Ok(fixed) => d.(bytes := if finished then fixed else d.bytes, crashes := d.crashes + 1)
       case Err(_) => d)
  }

  /**
    Nothing is ruled out: an open journal can take any record and can die with
    any part of its line written, a closed one can be reopened, and a repair
    can be cut short before or after it took effect.
  */
  lemma EverythingCanHappen<R>(codec: Codec<R>, d: Disk<R>, rec: R, kept: nat)
    requires kept <= |codec.encode(rec)| + 1
    ensures d.open ==>
      && Enabled(codec, d, Crash) && Enabled(codec, d, Append(rec)) && Enabled(codec, d, CrashDuringAppend(rec, kept))
      && Next(codec, d, Append(rec)).bytes == d.bytes + (codec.encode(rec) + [10])
      && Next(codec, d, CrashDuringAppend(rec, kept)).bytes == d.bytes + (codec.encode(rec) + [10])[..kept]
      && Next(codec, d, Crash).bytes == d.bytes
    ensures !d.open ==>
      && Enabled(codec, d, Reopen)
      && Enabled(codec, d, CrashDuringRepair(true)) && Enabled(codec, d, CrashDuringRepair(false))
      && Next(codec, d, CrashDuringRepair(false)).bytes == d.bytes
      && Next(codec, d, CrashDuringRepair(true)).bytes == Next(codec, d, Reopen).bytes
  {
  }

  predicate IsRun<R>(codec: Codec<R>, header: R, events: seq<Event<R>>)
    decreases |events|, 0
  {
    events == [] ||
    (IsRun(codec, header, events[..|events| - 1]) &&
     Enabled(codec, After(codec, header, events[..|events| - 1]), events[|events| - 1]))
  }

  function After<R>(codec: Codec<R>, header: R, events: seq<Event<R>>): Disk<R>
    requires IsRun(codec, header, events)
    decreases |events|, 1
  {
    if events == [] then Start(codec, header)
    else Next(codec, After(codec, header, events[..|events| - 1]), events[|events| - 1])
  }

  function Records<R>(log: seq<Entry<R>>): (records: seq<R>)
    ensures |records| == |log| && forall i :: 0 <= i < |log| ==> records[i] == log[i].rec
  {
    seq(|log|, i requires 0 <= i < |log| => log[i].rec)
  }

  function Acknowledged<R>(log: seq<Entry<R>>): seq<R> {
    if log == [] then []
    else Acknowledged(log[..|log| - 1]) + if log[|log| - 1].acknowledged then [log[|log| - 1].rec] else []
  }

  /** The records whose append returned, in the order it did. */
  function Appended<R>(events: seq<Event<R>>): seq<R> {
    if events == [] then []
    else Appended(events[..|events| - 1]) + if events[|events| - 1].Append? then [events[|events| - 1].rec] else []
  }

  /** An unterminated line that does not read has no readable beginning either. */
  ghost predicate TornForGood<R>(codec: Codec<R>, bytes: seq<Byte>) {
    StaysTorn(codec, Tail(bytes))
  }

  ghost predicate StaysTorn<R>(codec: Codec<R>, tail: seq<Byte>) {
    !Blank(tail) && codec.decode(tail).None? ==> forall n :: 0 <= n <= |tail| ==> !Reads(codec, tail[..n])
  }

  predicate Reads<R>(codec: Codec<R>, line: seq<Byte>) {
    !Blank(line) && codec.decode(line).Some?
  }

  ghost predicate Sound<R>(codec: Codec<R>, d: Disk<R>) {
    && d.log != []
    && ParseRecords(codec, d.bytes) == Ok(Records(d.log))
    && TornForGood(codec, d.bytes)
    && (d.open ==> AtBoundary(d.bytes))
  }

  /** An encoded record is a line of its own that reads as the record. */
  lemma EncodedReads<R(!new)>(codec: Codec<R>, rec: R, line: nat, out: seq<R>)
    requires JsonObjects(codec)
    ensures NEWLINE !in codec.encode(rec) && codec.encode(rec) != []
    ensures !Blank(codec.encode(rec)) && codec.decode(codec.encode(rec)) == Some(rec)
    ensures ParseLine(codec, codec.encode(rec), line, out) == Ok(out + [rec])
  {
    assert !IsAsciiWhitespace(codec.encode(rec)[0]);
  }

  /** What one appended line adds to the segments. */
  lemma SegmentsOfAppended(bytes: seq<Byte>, text: seq<Byte>)
    requires AtBoundary(bytes) && NEWLINE !in text
    ensures Complete(bytes + (text + [NEWLINE])) == Complete(bytes) + [text] && Tail(bytes + (text + [NEWLINE])) == []
  {
    AppendToTail(bytes, text);
    AppendNewline(bytes + text);
    assert bytes + (text + [NEWLINE]) == bytes + text + [NEWLINE];
    assert [] + text == text;
  }

  lemma ParseOneMore<R>(codec: Codec<R>, lines: seq<seq<Byte>>, line: seq<Byte>)
    requires ParseLines(codec, lines).Ok?
    ensures ParseLines(codec, lines + [line]) == ParseLine(codec, line, |lines| + 1, ParseLines(codec, lines).value)
  {
    assert (lines + [line])[..|lines|] == lines;
  }

  lemma ReadAppended<R(!new)>(codec: Codec<R>, bytes: seq<Byte>, rec: R, out: seq<R>)
    requires JsonObjects(codec) && AtBoundary(bytes) && ParseRecords(codec, bytes) == Ok(out)
    ensures ParseRecords(codec, bytes + Line(codec, rec)) == Ok(out + [rec])
    ensures AtBoundary(bytes + Line(codec, rec))
  {
    EncodedReads(codec, rec, |Complete(bytes)| + 1, out);
    SegmentsOfAppended(bytes, codec.encode(rec));
    ParseOneMore(codec, Complete(bytes), codec.encode(rec));
  }

  /** A torn append reads as nothing until its last byte of JSON is down, and as the record from then on. */
  lemma ReadTorn<R(!new)>(codec: Codec<R>, bytes: seq<Byte>, rec: R, kept: nat, out: seq<R>)
    requires JsonObjects(codec) && AtBoundary(bytes) && ParseRecords(codec, bytes) == Ok(out) && out != []
    requires kept <= |codec.encode(rec)|
    ensures var torn := bytes + Line(codec, rec)[..kept];
      ParseRecords(codec, torn) == Ok(if kept == |codec.encode(rec)| then out + [rec] else out) &&
        TornForGood(codec, torn)
  {
    var text := codec.encode(rec);
    assert Line(codec, rec)[..kept] == text[..kept];
    AppendToTail(bytes, text[..kept]);
    assert Tail(bytes + text[..kept]) == text[..kept];
    assert text[..|text|] == text;
    assert !IsAsciiWhitespace(text[0]);
    forall n | 0 <= n <= kept < |text|
      ensures !Reads(codec, text[..kept][..n])
    {
      assert text[..kept][..n] == text[..n];
    }
    if kept > 0 {
      assert text[..kept][0] == text[0];
    }
  }

  lemma RepairSettles<R>(codec: Codec<R>, bytes: seq<Byte>)
    requires ParseRecords(codec, bytes).Ok?
    ensures Repair(codec, bytes).Ok? && TornForGood(codec, Repair(codec, bytes).value)
  {
    RepairPreservesReading(codec, bytes);
  }

  lemma StepSound<R(!new)>(codec: Codec<R>, d: Disk<R>, e: Event<R>)
    requires JsonObjects(codec) && Sound(codec, d) && Enabled(codec, d, e)
    ensures Sound(codec, Next(codec, d, e))
    ensures e.Reopen? ==> Next(codec, d, e).open
  {
    match e
    case Append(rec) =>
      ReadAppended(codec, d.bytes, rec, Records(d.log));
      assert Records(d.log + [Entry(rec, true)]) == Records(d.log) + [rec];
    case CrashDuringAppend(rec, kept) =>
      assert Records(d.log + [Entry(rec, false)]) == Records(d.log) + [rec];
      if kept <= |codec.encode(rec)| {
        ReadTorn(codec, d.bytes, rec, kept, Records(d.log));
      } else {
        assert Line(codec, rec)[..kept] == Line(codec, rec);
        ReadAppended(codec, d.bytes, rec, Records(d.log));
      }
    case Crash =>
    case Reopen =>
      RepairPreservesReading(codec, d.bytes);
      RepairSettles(codec, d.bytes);
    case CrashDuringRepair(_) =>
      RepairPreservesReading(codec, d.bytes);
      RepairSettles(codec, d.bytes);
  }

  lemma StartSound<R(!new)>(codec: Codec<R>, header: R)
    requires JsonObjects(codec)
    ensures Sound(codec, Start(codec, header))
  {
    HeaderLineReads(codec, header);
    assert Records([Entry(header, true)]) == [header];
  }

  lemma HeaderLineReads<R(!new)>(codec: Codec<R>, header: R)
    requires JsonObjects(codec)
    ensures ParseRecords(codec, Line(codec, header)) == Ok([header])
    ensures Complete(Line(codec, header)) == [codec.encode(header)] && Tail(Line(codec, header)) == []
    ensures ParseLines(codec, [codec.encode(header)]) == Ok([header])
  {
    EncodedReads(codec, header, 1, []);
    SegmentsOfAppended([], codec.encode(header));
    ParseOneMore(codec, [], codec.encode(header));
    assert [] + Line(codec, header) == Line(codec, header);
    assert [] + [codec.encode(header)] == [codec.encode(header)];
    assert [] + [header] == [header];
  }

  lemma {:induction false} RunSound<R(!new)>(codec: Codec<R>, header: R, events: seq<Event<R>>)
    requires JsonObjects(codec) && IsRun(codec, header, events)
    ensures Sound(codec, After(codec, header, events))
  {
    if events == [] {
      StartSound(codec, header);
    } else {
      RunSound(codec, header, events[..|events| - 1]);
      StepSound(codec, After(codec, header, events[..|events| - 1]), events[|events| - 1]);
    }
  }

  lemma {:induction false} LogKeepsAppends<R>(codec: Codec<R>, header: R, events: seq<Event<R>>)
    requires IsRun(codec, header, events)
    ensures var d := After(codec, header, events);
      Acknowledged(d.log) == [header] + Appended(events) && |d.log| <= |Acknowledged(d.log)| + d.crashes
  {
    if events == [] {
      assert Start(codec, header).log[..0] == [];
    } else {
      var before, after := After(codec, header, events[..|events| - 1]), After(codec, header, events);
      LogKeepsAppends(codec, header, events[..|events| - 1]);
      if after.log != before.log {
        assert after.log[..|after.log| - 1] == before.log;
      }
    }
  }

  /**
    After any run of appends, crashes, interrupted repairs and reopenings
    behind a durable header, the file reads as exactly the log: every
    acknowledged record once and in order, and at most one unacknowledged
    record for each crash.  Reopening never fails.
  */
  lemma FileReadsAsTheLog<R(!new)>(codec: Codec<R>, header: R, events: seq<Event<R>>)
    requires JsonObjects(codec) && IsRun(codec, header, events)
    ensures var d := After(codec, header, events);
      && ParseRecords(codec, d.bytes) == Ok(Records(d.log))
      && Acknowledged(d.log) == [header] + Appended(events)
      && |d.log| <= 1 + |Appended(events)| + d.crashes
      && (Enabled(codec, d, Reopen) ==> Next(codec, d, Reopen).open)
  {
    RunSound(codec, header, events);
    LogKeepsAppends(codec, header, events);
    var d := After(codec, header, events);
    if !d.open {
      StepSound(codec, d, Reopen);
    }
  }

  // ---- cutting a file anywhere ----

  ghost predicate StartsWith<R>(codec: Codec<R>, header: R, bytes: seq<Byte>) {
    Line(codec, header) <= bytes
  }

  /** A file that starts with the header line reads the header first. */
  lemma {:induction false} HeaderReadFirst<R(!new)>(codec: Codec<R>, header: R, bytes: seq<Byte>)
    requires JsonObjects(codec) && StartsWith(codec, header, bytes)
    ensures var lines := Complete(bytes);
      |lines| > 0 && (ParseLines(codec, lines).Ok? ==> [header] <= ParseLines(codec, lines).value)
    decreases |bytes|
  {
    if bytes == Line(codec, header) {
      HeaderLineReads(codec, header);
    } else {
      var init := bytes[..|bytes| - 1];
      assert Line(codec, header) <= init;
      HeaderReadFirst(codec, header, init);
      if bytes[|bytes| - 1] == NEWLINE && ParseLines(codec, Complete(init)).Ok? {
        ParseOneMore(codec, Complete(init), Tail(init));
      } else if bytes[|bytes| - 1] == NEWLINE {
        assert Complete(bytes)[..|Complete(init)|] == Complete(init);
      }
    }
  }

  /** Losing one more byte from the end loses at most the last record read. */
  lemma CutOneByte<R(!new)>(codec: Codec<R>, header: R, bytes: seq<Byte>)
    requires JsonObjects(codec) && bytes != [] && StartsWith(codec, header, bytes[..|bytes| - 1])
    requires TornForGood(codec, bytes) && ParseRecords(codec, bytes).Ok?
    ensures var init := bytes[..|bytes| - 1];
      ParseRecords(codec, init).Ok? &&
      [header] <= ParseRecords(codec, init).value <= ParseRecords(codec, bytes).value &&
      TornForGood(codec, init)
  {
    var init, last := bytes[..|bytes| - 1], bytes[|bytes| - 1];
    HeaderReadFirst(codec, header, init);
    if last == NEWLINE {
      var lines := Complete(bytes);
      assert lines[..|lines| - 1] == Complete(init) && lines[|lines| - 1] == Tail(init);
    } else {
      CutTornTail(codec, Tail(bytes), last, ParseLines(codec, Complete(bytes)).value);
    }
  }

  lemma CutTornTail<R(!new)>(codec: Codec<R>, tail: seq<Byte>, last: Byte, out: seq<R>)
    requires JsonObjects(codec) && tail != [] && out != []
    requires StaysTorn(codec, tail)
    ensures var shorter := tail[..|tail| - 1];
      && ParseTail(codec, shorter, 0, out).Ok? && ParseTail(codec, tail, 0, out).Ok?
      && out <= ParseTail(codec, shorter, 0, out).value <= ParseTail(codec, tail, 0, out).value
      && StaysTorn(codec, shorter)
  {
    var shorter := tail[..|tail| - 1];
    forall n | 0 <= n <= |shorter|
      ensures shorter[..n] == tail[..n]
    {
    }
    assert tail[..|tail|] == tail;
  }

  /** The longest cut a byte shorter: down to the header line by single bytes, then to its object. */
  lemma CutOneMore<R(!new)>(codec: Codec<R>, header: R, longer: seq<Byte>)
    requires JsonObjects(codec) && |codec.encode(header)| < |longer| && StartsWith(codec, header, longer)
    requires TornForGood(codec, longer) && ParseRecords(codec, longer).Ok?
    ensures var shorter := longer[..|longer| - 1];
      && ParseRecords(codec, shorter).Ok? && TornForGood(codec, shorter)
      && [header] <= ParseRecords(codec, shorter).value <= ParseRecords(codec, longer).value
  {
    if |longer| == |codec.encode(header)| + 1 {
      assert longer == Line(codec, header);
      assert longer[..|longer| - 1] == codec.encode(header);
      CutToHeader(codec, header);
      HeaderLineReads(codec, header);
    } else {
      assert StartsWith(codec, header, longer[..|longer| - 1]);
      CutOneByte(codec, header, longer);
    }
  }

  /** Any cut that leaves the header object reads as a beginning of the full file. */
  lemma {:induction false} CutAnywhere<R(!new)>(codec: Codec<R>, header: R, bytes: seq<Byte>, n: nat)
    requires JsonObjects(codec) && StartsWith(codec, header, bytes) && |codec.encode(header)| <= n <= |bytes|
    requires TornForGood(codec, bytes) && ParseRecords(codec, bytes).Ok?
    ensures ParseRecords(codec, bytes[..n]).Ok?
    ensures [header] <= ParseRecords(codec, bytes[..n]).value <= ParseRecords(codec, bytes).value
    ensures TornForGood(codec, bytes[..n])
    decreases |bytes| - n
  {
    if n == |bytes| {
      assert bytes[..n] == bytes;
      HeaderReadFirst(codec, header, bytes);
    } else {
      CutAnywhere(codec, header, bytes, n + 1);
      assert bytes[..n + 1][..n] == bytes[..n];
      assert StartsWith(codec, header, bytes[..n + 1]);
      CutOneMore(codec, header, bytes[..n + 1]);
    }
  }

  lemma CutToHeader<R(!new)>(codec: Codec<R>, header: R)
    requires JsonObjects(codec)
    ensures var text := codec.encode(header); ParseRecords(codec, text) == Ok([header]) && TornForGood(codec, text)
  {
    var text := codec.encode(header);
    EncodedReads(codec, header, 1, []);
    AppendToTail([], text);
    assert [] + text == text;
    assert [] + [header] == [header];
  }

  /** Bytes cut here still read, as a beginning of what they read as whole. */
  ghost predicate CutReads<R>(codec: Codec<R>, header: R, bytes: seq<Byte>, n: nat)
    requires n <= |bytes|
  {
    var cut, full := ParseRecords(codec, bytes[..n]), ParseRecords(codec, bytes);
    full.Ok? && cut.Ok? && [header] <= cut.value <= full.value
  }

  /** Cutting a torn line back to a readable beginning exposes a record the whole file does not hold. */
  lemma ExposedRecord<R>(codec: Codec<R>, header: R, head: seq<Byte>, tail: seq<Byte>, n: nat)
    requires AtBoundary(head) && NEWLINE !in tail && n <= |tail| && Reads(codec, tail[..n])
    requires !Blank(tail) && codec.decode(tail).None? && ParseRecords(codec, head + tail).Ok?
    ensures !CutReads(codec, header, head + tail, |head| + n)
  {
    OneRecordMore(codec, head, tail, n);
    assert (head + tail)[..|head| + n] == head + tail[..n];
  }

  lemma SplitAtTail(bytes: seq<Byte>)
    ensures AtBoundary(bytes[..|bytes| - |Tail(bytes)|]) && NEWLINE !in Tail(bytes)
  {
    SegmentsRejoin(bytes);
    CutTail(bytes);
  }

  /** Behind the same lines, a readable beginning of a torn line reads as one record more. */
  lemma OneRecordMore<R>(codec: Codec<R>, head: seq<Byte>, tail: seq<Byte>, n: nat)
    requires AtBoundary(head) && NEWLINE !in tail && n <= |tail| && Reads(codec, tail[..n])
    requires !Blank(tail) && codec.decode(tail).None? && ParseRecords(codec, head + tail).Ok?
    ensures ParseRecords(codec, head + tail[..n]).Ok?
    ensures !(ParseRecords(codec, head + tail[..n]).value <= ParseRecords(codec, head + tail).value)
  {
    AppendToTail(head, tail);
    assert [] + tail == tail;
    TornReading(codec, head + tail);
    ReadsAfter(codec, head, tail[..n]);
    OneTooMany(ParseRecords(codec, head + tail).value, codec.decode(tail[..n]).value);
  }

  lemma OneTooMany<R>(out: seq<R>, extra: R)
    ensures !(out + [extra] <= out)
  {
  }

  lemma TornReading<R>(codec: Codec<R>, bytes: seq<Byte>)
    requires ParseRecords(codec, bytes).Ok? && !Blank(Tail(bytes)) && codec.decode(Tail(bytes)).None?
    ensures ParseLines(codec, Complete(bytes)) == ParseRecords(codec, bytes)
  {
  }

  /** A readable last line counts as one more record. */
  lemma ReadsAfter<R>(codec: Codec<R>, head: seq<Byte>, line: seq<Byte>)
    requires AtBoundary(head) && NEWLINE !in line && Reads(codec, line) && ParseLines(codec, Complete(head)).Ok?
    ensures ParseRecords(codec, head + line) == Ok(ParseLines(codec, Complete(head)).value + [codec.decode(line).value])
  {
    AppendToTail(head, line);
    assert [] + line == line;
  }

  lemma {:induction false} TailIsSuffix(bytes: seq<Byte>)
    ensures bytes[|bytes| - |Tail(bytes)|..] == Tail(bytes)
  {
    if bytes != [] && bytes[|bytes| - 1] != NEWLINE {
      TailIsSuffix(bytes[..|bytes| - 1]);
    }
  }

  /** The last segment never reaches back into the header line. */
  lemma {:induction false} HeaderSurvives<R>(codec: Codec<R>, header: R, bytes: seq<Byte>)
    requires StartsWith(codec, header, bytes)
    ensures |Line(codec, header)| <= |bytes| - |Tail(bytes)|
    ensures StartsWith(codec, header, bytes[..|bytes| - |Tail(bytes)|])
    decreases |bytes|
  {
    if bytes[|bytes| - 1] != NEWLINE {
      HeaderSurvives(codec, header, bytes[..|bytes| - 1]);
    }
  }

  /**
    Exactly when every cut is harmless: a readable file behind a header line
    loses only records from its end, wherever it is cut after the header
    object, if and only if no beginning of its torn line reads as a record.
  */
  lemma CutsHarmlessExactly<R(!new)>(codec: Codec<R>, header: R, bytes: seq<Byte>)
    requires JsonObjects(codec) && StartsWith(codec, header, bytes) && ParseRecords(codec, bytes).Ok?
    ensures TornForGood(codec, bytes) <==>
      forall n :: |codec.encode(header)| <= n <= |bytes| ==> CutReads(codec, header, bytes, n)
  {
    if TornForGood(codec, bytes) {
      forall n | |codec.encode(header)| <= n <= |bytes|
        ensures CutReads(codec, header, bytes, n)
      {
        CutAnywhere(codec, header, bytes, n);
      }
    } else {
      var n :| 0 <= n <= |Tail(bytes)| && Reads(codec, Tail(bytes)[..n]);
      var head := bytes[..|bytes| - |Tail(bytes)|];
      HeaderSurvives(codec, header, bytes);
      SplitAtTail(bytes);
      TailIsSuffix(bytes);
      assert bytes == head + Tail(bytes);
      ExposedRecord(codec, header, head, Tail(bytes), n);
    }
  }

  /** No run ever loses the header line. */
  lemma {:induction false} RunKeepsHeader<R>(codec: Codec<R>, header: R, events: seq<Event<R>>)
    requires IsRun(codec, header, events)
    ensures StartsWith(codec, header, After(codec, header, events).bytes)
  {
    if events != [] {
      RunKeepsHeader(codec, header, events[..|events| - 1]);
      HeaderSurvives(codec, header, After(codec, header, events[..|events| - 1]).bytes);
    }
  }

  lemma RunFile<R(!new)>(codec: Codec<R>, header: R, events: seq<Event<R>>)
    requires JsonObjects(codec) && IsRun(codec, header, events)
    ensures var d := After(codec, header, events);
      StartsWith(codec, header, d.bytes) && TornForGood(codec, d.bytes) &&
        ParseRecords(codec, d.bytes) == Ok(Records(d.log))
  {
    RunSound(codec, header, events);
    RunKeepsHeader(codec, header, events);
  }
}
