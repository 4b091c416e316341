/**
  The journal on disk: one JSON object per line, appended and synced record
  by record, read back with a torn last line dropped, and repaired to a line
  boundary before anything more is appended.
*/
module JournalFile {
  import opened Wrappers

  newtype Byte = n: int | 0 <= n < 256

  const NEWLINE: Byte := 10
  const OPEN_BRACE: Byte := 123

  predicate IsAsciiWhitespace(b: Byte) {
    b == 9 || b == 10 || b == 12 || b == 13 || b == 32
  }

  predicate Blank(line: seq<Byte>) {
    forall i :: 0 <= i < |line| ==> IsAsciiWhitespace(line[i])
  }

  /** How a record is written as JSON text, and how a line of text is read as one. */
  datatype Codec<!R> = Codec(encode: R -> seq<Byte>, decode: seq<Byte> -> Option<R>)

  /**
    What RFC 8259 promises of any JSON encoding of objects: the text opens
    with a brace and holds no raw newline (sections 4 and 7), reads back as
    the object, and nothing shorter than the object reads at all; once the
    object has ended, only white space can follow, so text that reads and is
    cut off anywhere after that point reads the same.
  */
  ghost predicate JsonObjects<R(!new)>(codec: Codec<R>) {
    && (forall r: R :: codec.encode(r) != [] && codec.encode(r)[0] == OPEN_BRACE && NEWLINE !in codec.encode(r))
    && (forall r: R :: codec.decode(codec.encode(r)) == Some(r))
    && (forall r: R, n: nat :: n < |codec.encode(r)| ==> codec.decode(codec.encode(r)[..n]) == None)
    && (forall text: seq<Byte>, n: nat, m: nat ::
          n <= m <= |text| && codec.decode(text).Some? && codec.decode(text[..n]).Some? ==>
          codec.decode(text[..m]) == codec.decode(text))
  }

  function Braces(n: nat): (text: seq<Byte>)
    ensures |text| == n + 2
  {
    [OPEN_BRACE] + seq(n, _ => 97) + [125]
  }

  function ReadBraces(text: seq<Byte>): Option<nat> {
    if |text| >= 2 && text == Braces(|text| - 2) then Some(|text| - 2) else None
  }

  function CodecOfNumbers(): Codec<nat> {
    Codec(Braces, ReadBraces)
  }

  /** The promises can be kept together: a number written as that many letters between braces. */
  lemma PromisesCanBeKept()
    ensures JsonObjects(CodecOfNumbers())
  {
    forall text: seq<Byte>, n: nat, m: nat | n <= m <= |text| && ReadBraces(text).Some? && ReadBraces(text[..n]).Some?
      ensures ReadBraces(text[..m]) == ReadBraces(text)
    {
      assert text[..n][n - 1] == text[n - 1];
      assert text[..|text|] == text;
    }
  }

  // ---- segments between newlines ----

  /** The newline-terminated lines, without their newlines. */
  function Complete(bytes: seq<Byte>): seq<seq<Byte>> {
    if bytes == [] then []
    else
      var init := bytes[..|bytes| - 1];
      if bytes[|bytes| - 1] == NEWLINE then Complete(init) + [Tail(init)] else Complete(init)
  }

  /** What follows the last newline. */
  function Tail(bytes: seq<Byte>): (tail: seq<Byte>)
    ensures |tail| <= |bytes|
  {
    if bytes == [] then []
    else if bytes[|bytes| - 1] == NEWLINE then []
    else Tail(bytes[..|bytes| - 1]) + [bytes[|bytes| - 1]]
  }

  function Joined(lines: seq<seq<Byte>>): seq<Byte> {
    if lines == [] then [] else Joined(lines[..|lines| - 1]) + lines[|lines| - 1] + [NEWLINE]
  }

  /** The segments are the file: joined by newlines they give it back, and none holds one. */
  lemma {:induction false} SegmentsRejoin(bytes: seq<Byte>)
    ensures Joined(Complete(bytes)) + Tail(bytes) == bytes
    ensures NEWLINE !in Tail(bytes) && forall i :: 0 <= i < |Complete(bytes)| ==> NEWLINE !in Complete(bytes)[i]
  {
    if bytes != [] {
      SegmentsRejoin(bytes[..|bytes| - 1]);
      assert bytes == bytes[..|bytes| - 1] + [bytes[|bytes| - 1]];
    }
  }

  predicate AtBoundary(bytes: seq<Byte>) {
    bytes == [] || bytes[|bytes| - 1] == NEWLINE
  }

  /** Bytes without a newline only lengthen the last segment. */
  lemma {:induction false} AppendToTail(bytes: seq<Byte>, more: seq<Byte>)
    requires NEWLINE !in more
    ensures Complete(bytes + more) == Complete(bytes) && Tail(bytes + more) == Tail(bytes) + more
  {
    if more == [] {
      assert bytes + more == bytes;
    } else {
      var init := more[..|more| - 1];
      AppendToTail(bytes, init);
      assert (bytes + more)[..|bytes + more| - 1] == bytes + init;
    }
  }

  /** A newline turns the last segment into a line. */
  lemma AppendNewline(bytes: seq<Byte>)
    ensures Complete(bytes + [NEWLINE]) == Complete(bytes) + [Tail(bytes)] && Tail(bytes + [NEWLINE]) == []
  {
    assert (bytes + [NEWLINE])[..|bytes|] == bytes;
  }

  /** Cutting the last segment off leaves the lines and ends at a boundary. */
  lemma {:induction false} CutTail(bytes: seq<Byte>)
    ensures var head := bytes[..|bytes| - |Tail(bytes)|];
      Complete(head) == Complete(bytes) && Tail(head) == [] && AtBoundary(head)
  {
    if bytes == [] {
    } else if bytes[|bytes| - 1] == NEWLINE {
      assert bytes[..|bytes|] == bytes;
    } else {
      var init := bytes[..|bytes| - 1];
      CutTail(init);
      assert bytes[..|bytes| - |Tail(bytes)|] == init[..|init| - |Tail(init)|];
    }
  }

  // ---- reading ----

  datatype ParseError = ParseError(line: nat)

  /** A line that ends in a newline must be blank or read as a record. */
  function ParseLine<R>(codec: Codec<R>, text: seq<Byte>, line: nat, out: seq<R>): Result<seq<R>, ParseError> {
    if Blank(text) then Ok(out)
    else match codec.decode(text)
      case Some(r) => Ok(out + [r])
      case None => Err(ParseError(line))
  }

  /** The unterminated last line may also be torn, once something has been read before it. */
  function ParseTail<R>(codec: Codec<R>, text: seq<Byte>, line: nat, out: seq<R>): Result<seq<R>, ParseError> {
    if !Blank(text) && codec.decode(text).None? && out != [] then Ok(out) else ParseLine(codec, text, line, out)
  }

  function ParseLines<R>(codec: Codec<R>, lines: seq<seq<Byte>>): Result<seq<R>, ParseError> {
    if lines == [] then
      Ok([])
    else
      var out :- ParseLines(codec, lines[..|lines| - 1]);
      ParseLine(codec, lines[|lines| - 1], |lines|, out)
  }

  function ParseRecords<R>(codec: Codec<R>, bytes: seq<Byte>): Result<seq<R>, ParseError> {
    var out :- ParseLines(codec, Complete(bytes));
    ParseTail(codec, Tail(bytes), |Complete(bytes)| + 1, out)
  }

  method Split(bytes: seq<Byte>) returns (segments: seq<seq<Byte>>)
    ensures segments == Complete(bytes) + [Tail(bytes)]
  {
    segments := [];
    var current: seq<Byte> := [];
    for i := 0 to |bytes|
      invariant segments == Complete(bytes[..i]) && current == Tail(bytes[..i])
    {
      assert bytes[..i + 1][..i] == bytes[..i];
      if bytes[i] == NEWLINE {
        segments, current := segments + [current], [];
      } else {
        current := current + [bytes[i]];
      }
    }
    assert bytes[..|bytes|] == bytes;
    segments := segments + [current];
  }

  lemma {:induction false} ParseLinesStops<R>(codec: Codec<R>, lines: seq<seq<Byte>>, n: nat)
    requires n <= |lines| && ParseLines(codec, lines[..n]).Err?
    ensures ParseLines(codec, lines) == ParseLines(codec, lines[..n])
  {
    if n == |lines| {
      assert lines[..n] == lines;
    } else {
      var init := lines[..|lines| - 1];
      assert init[..n] == lines[..n];
      ParseLinesStops(codec, init, n);
    }
  }

  /** The parser's loop over the segments between newlines. */
  method ReadAll<R>(codec: Codec<R>, bytes: seq<Byte>) returns (r: Result<seq<R>, ParseError>)
    ensures r == ParseRecords(codec, bytes)
  {
    var segments := Split(bytes);
    ghost var lines := Complete(bytes);
    var out := [];
    for i := 0 to |segments|
      invariant i <= |lines| ==> ParseLines(codec, lines[..i]) == Ok(out)
      invariant i == |segments| ==> ParseRecords(codec, bytes) == Ok(out)
    {
      assert i < |lines| ==> lines[..i + 1][..i] == lines[..i];
      assert lines[..|lines|] == lines;
      if Blank(segments[i]) {
        continue;
      }
      match codec.decode(segments[i]) {
        case Some(rec) => out := out + [rec];
        case None =>
          if i + 1 == |segments| && out != [] {
            return Ok(out);
          }
          if i < |lines| {
            ParseLinesStops(codec, lines, i + 1);
          }
          return Err(ParseError(i + 1));
      }
    }
    r := Ok(out);
  }

  // ---- what reading means, segment by segment ----

  /** Some byte is none of tab, line feed, form feed, carriage return and space. */
  ghost predicate HasText(line: seq<Byte>) {
    exists i :: 0 <= i < |line| && line[i] != 9 && line[i] != 10 && line[i] != 12 && line[i] != 13 && line[i] != 32
  }

  ghost predicate IsRecord<R>(codec: Codec<R>, line: seq<Byte>) {
    HasText(line) && codec.decode(line).Some?
  }

  ghost predicate IsCorrupt<R>(codec: Codec<R>, line: seq<Byte>) {
    HasText(line) && codec.decode(line).None?
  }

  /**
    A corrupt segment is a fault if a newline ended it, or if it is the
    unterminated last one and nothing before it is a record.
  */
  ghost predicate IsFault<R>(codec: Codec<R>, segments: seq<seq<Byte>>, i: int) {
    0 <= i < |segments| && IsCorrupt(codec, segments[i]) &&
    (i < |segments| - 1 || forall j :: 0 <= j < i ==> !IsRecord(codec, segments[j]))
  }

  ghost function Decoded<R>(codec: Codec<R>, segments: seq<seq<Byte>>): seq<R> {
    if segments == [] then []
    else
      var last := segments[|segments| - 1];
      Decoded(codec, segments[..|segments| - 1]) + if IsRecord(codec, last) then [codec.decode(last).value] else []
  }

  lemma {:induction false} NothingDecoded<R>(codec: Codec<R>, segments: seq<seq<Byte>>)
    ensures Decoded(codec, segments) == [] <==> forall j :: 0 <= j < |segments| ==> !IsRecord(codec, segments[j])
  {
    if segments != [] {
      NothingDecoded(codec, segments[..|segments| - 1]);
    }
  }

  lemma {:induction false} LinesExactly<R>(codec: Codec<R>, lines: seq<seq<Byte>>)
    ensures ParseLines(codec, lines).Ok? <==> forall i :: 0 <= i < |lines| ==> !IsCorrupt(codec, lines[i])
    ensures ParseLines(codec, lines).Ok? ==> ParseLines(codec, lines).value == Decoded(codec, lines)
    ensures ParseLines(codec, lines).Err? ==>
      var n := ParseLines(codec, lines).error.line - 1;
      0 <= n < |lines| && IsCorrupt(codec, lines[n]) && forall i :: 0 <= i < n ==> !IsCorrupt(codec, lines[i])
  {
    if lines != [] {
      LinesExactly(codec, lines[..|lines| - 1]);
      assert Blank(lines[|lines| - 1]) <==> !HasText(lines[|lines| - 1]);
    }
  }

  /**
    Reading fails exactly when some segment is a fault, and names the first
    one; otherwise it gives the segments that are records, in order, and the
    only corrupt segment there can be is an unterminated last one.
  */
  lemma ReadingExactly<R>(codec: Codec<R>, bytes: seq<Byte>)
    ensures var segments, read := Complete(bytes) + [Tail(bytes)], ParseRecords(codec, bytes);
      && (read.Err? <==> exists i :: IsFault(codec, segments, i))
      && (read.Err? ==>
            IsFault(codec, segments, read.error.line - 1) &&
            forall i :: 0 <= i < read.error.line - 1 ==> !IsFault(codec, segments, i))
      && (read.Ok? ==>
            read.value == Decoded(codec, segments) &&
            forall i :: 0 <= i < |segments| - 1 ==> !IsCorrupt(codec, segments[i]))
  {
    var lines, tail := Complete(bytes), Tail(bytes);
    var segments := lines + [tail];
    LinesExactly(codec, lines);
    NothingDecoded(codec, lines);
    assert segments[..|lines|] == lines;
    assert forall i :: 0 <= i < |lines| ==> segments[i] == lines[i];
    assert Blank(tail) <==> !HasText(tail);
    if ParseLines(codec, lines).Err? {
      assert IsFault(codec, segments, ParseLines(codec, lines).error.line - 1);
    } else if ParseRecords(codec, bytes).Err? {
      assert IsFault(codec, segments, |lines|);
    }
  }

  // ---- repair ----

  function Repair<R>(codec: Codec<R>, bytes: seq<Byte>): Result<seq<Byte>, ParseError> {
    if AtBoundary(bytes) then
      Ok(bytes)
    else
      var _ :- ParseRecords(codec, bytes);
      if Blank(Tail(bytes)) || codec.decode(Tail(bytes)).Some? then
        Ok(bytes + [NEWLINE])
      else
        Ok(bytes[..|bytes| - |Tail(bytes)|])
  }

  /**
    Repairing any readable file succeeds, leaves it at a line boundary and
    leaves what it reads as unchanged; a repaired file is its own repair.  An
    unreadable file that does not end at a boundary is refused.
  */
  lemma RepairPreservesReading<R>(codec: Codec<R>, bytes: seq<Byte>)
    ensures ParseRecords(codec, bytes).Ok? ==> Repair(codec, bytes).Ok?
    ensures Repair(codec, bytes).Ok? ==>
      var fixed := Repair(codec, bytes).value;
      && AtBoundary(fixed)
      && ParseRecords(codec, fixed) == ParseRecords(codec, bytes)
      && Repair(codec, fixed) == Ok(fixed)
    ensures Repair(codec, bytes).Err? <==> !AtBoundary(bytes) && ParseRecords(codec, bytes).Err?
    ensures Repair(codec, bytes).Err? ==> Repair(codec, bytes).error == ParseRecords(codec, bytes).error
  {
    AppendNewline(bytes);
    CutTail(bytes);
  }

  /** Repair adds one newline, or takes away a corrupt last segment and nothing else. */
  lemma RepairTouchesOnlyTheTail<R>(codec: Codec<R>, bytes: seq<Byte>)
    requires Repair(codec, bytes).Ok?
    ensures var fixed := Repair(codec, bytes).value;
      if AtBoundary(bytes) then fixed == bytes
      else if IsCorrupt(codec, Tail(bytes)) then fixed + Tail(bytes) == bytes
      else fixed == bytes + [10]
  {
    assert Blank(Tail(bytes)) <==> !HasText(Tail(bytes));
    TailEnds(bytes);
  }

  lemma {:induction false} TailEnds(bytes: seq<Byte>)
    ensures bytes[..|bytes| - |Tail(bytes)|] + Tail(bytes) == bytes
  {
    if bytes != [] && bytes[|bytes| - 1] != NEWLINE {
      var init := bytes[..|bytes| - 1];
      TailEnds(init);
      assert bytes[..|bytes| - |Tail(bytes)|] == init[..|init| - |Tail(init)|];
    }
  }

  function Line<R>(codec: Codec<R>, rec: R): seq<Byte> {
    codec.encode(rec) + [NEWLINE]
  }

  /** An open journal file, changed in place. */
  class Handle<R> {
    var bytes: seq<Byte>

    constructor (contents: seq<Byte>)
      ensures bytes == contents
    {
      bytes := contents;
    }

    method Record(codec: Codec<R>, rec: R)
      modifies this
      ensures bytes == old(bytes) + codec.encode(rec) + [10]
      ensures bytes == old(bytes) + Line(codec, rec)
    {
      var line := codec.encode(rec);
      line := line + [NEWLINE];
      bytes := bytes + line;
    }

    method RestoreLineBoundary(codec: Codec<R>) returns (error: Option<ParseError>)
      modifies this
      ensures match Repair(codec, old(bytes))
        case Ok(fixed) => error == None && bytes == fixed
        case Err(e) => error == Some(e) && bytes == old(bytes)
    {
      if bytes == [] || bytes[|bytes| - 1] == NEWLINE {
        return None;
      }
      var read := ReadAll(codec, bytes);
      if read.Err? {
        return Some(read.error);
      }
      var tail := Tail(bytes);
      if Blank(tail) || codec.decode(tail).Some? {
        bytes := bytes + [NEWLINE];
      } else {
        bytes := bytes[..|bytes| - |tail|];
      }
      return None;
    }
  }
}
