/** Reading journal records from a buffered stream (src/diagnostics/audit.rs). The reader
    hands out the stream in chunks of any nonempty sizes; a failing read is left out. */
module ReadRecord {
  import opened Basics
  import Lines

  const RECORD_BYTES: nat := 64 * 1024

  datatype Record = Text(bytes: seq<Byte>) | Oversized

  ghost predicate NonEmpty(chunks: seq<seq<Byte>>) {
    forall i :: 0 <= i < |chunks| ==> chunks[i] != []
  }

  // ------------------------------------------------------------ the records of a stream

  function RecordOf(line: seq<Byte>): Record {
    if |Lines.Stripped(line)| > RECORD_BYTES then Oversized else Text(Lines.Stripped(line))
  }

  /** One record for each line of the stream. */
  function RecordsOf(stream: seq<Byte>): seq<Record>
    decreases |stream|
  {
    if stream == [] then []
    else [RecordOf(stream[..Lines.FirstEnd(stream)])] + RecordsOf(stream[Lines.FirstEnd(stream)..])
  }

  /** They are the newline-split lines, in order. */
  lemma {:induction false} RecordsAreLines(stream: seq<Byte>)
    ensures |RecordsOf(stream)| == |Lines.Split(stream)|
    ensures forall i :: 0 <= i < |RecordsOf(stream)| ==> RecordsOf(stream)[i] == RecordOf(Lines.Split(stream)[i])
    decreases |stream|
  {
    if stream != [] {
      RecordsAreLines(stream[Lines.FirstEnd(stream)..]);
    }
  }

  // ------------------------------------------------------------ within one chunk

  /** Index of the first newline, or the length. */
  function Newline(bytes: seq<Byte>): (n: nat)
    ensures n <= |bytes| && (forall p :: 0 <= p < n ==> bytes[p] != NEWLINE) && (n < |bytes| ==> bytes[n] == NEWLINE)
  {
    if bytes == [] || bytes[0] == NEWLINE then 0 else 1 + Newline(bytes[1..])
  }

  ghost predicate Flat(bytes: seq<Byte>) {
    forall p :: 0 <= p < |bytes| ==> bytes[p] != NEWLINE
  }

  lemma {:induction false} FirstEndAt(stream: seq<Byte>, n: nat)
    requires n < |stream| && Flat(stream[..n]) && stream[n] == NEWLINE
    ensures Lines.FirstEnd(stream) == n + 1 && Lines.Stripped(stream[..n + 1]) == stream[..n]
  {
    var line := stream[..n];
    assert forall p :: 0 <= p < n ==> stream[p] == line[p];
  }

  lemma {:induction false} FirstEndFlat(stream: seq<Byte>)
    requires Flat(stream)
    ensures Lines.FirstEnd(stream) == |stream| && Lines.Stripped(stream) == stream
  {
  }

  // ------------------------------------------------------------ the reader

  class Reader {
    var chunks: seq<seq<Byte>>

    ghost predicate Valid()
      reads this
    {
      NonEmpty(chunks)
    }

    ghost function Rest(): seq<Byte>
      reads this
    {
      Concat(chunks)
    }

    constructor (chunks: seq<seq<Byte>>)
      requires NonEmpty(chunks)
      ensures Valid() && Rest() == Concat(chunks)
    {
      this.chunks := chunks;
    }

    /** `consume`: drops the first `n` bytes of the current chunk. */
    method Consume(n: nat)
      requires Valid() && chunks != [] && n <= |chunks[0]|
      modifies this
      ensures Valid() && Rest() == old(Rest())[n..] && n <= |old(Rest())|
      ensures |Concat(chunks)| == |old(Rest())| - n
    {
      ghost var tail := Concat(chunks[1..]);
      assert Rest() == chunks[0] + tail;
      assert (chunks[0] + tail)[n..] == chunks[0][n..] + tail;
      if n == |chunks[0]| {
        chunks := chunks[1..];
      } else {
        var rest := chunks[0][n..];
        assert ([rest] + chunks[1..])[1..] == chunks[1..];
        chunks := [rest] + chunks[1..];
      }
    }
  }

  /** What the loop has taken of the current line, against the stream it started from. */
  ghost predicate Reading(stream: seq<Byte>, taken: nat, output: seq<Byte>, oversized: bool) {
    && taken <= |stream| && Flat(stream[..taken])
    && (oversized <==> taken > RECORD_BYTES)
    && (!oversized ==> output == stream[..taken])
  }

  /** The next `count` bytes of the chunk continue the line. */
  lemma {:induction false} TakeMore(stream: seq<Byte>, taken: nat, bytes: seq<Byte>, count: nat, tail: seq<Byte>)
    requires taken <= |stream| && Flat(stream[..taken]) && stream[taken..] == bytes + tail && count == Newline(bytes)
    ensures taken + |bytes| <= |stream|
    ensures Flat(stream[..taken + count]) && stream[..taken + count] == stream[..taken] + bytes[..count]
    ensures count < |bytes| ==> stream[taken + count] == NEWLINE
  {
    assert forall p :: 0 <= p < |bytes| ==> stream[taken + p] == stream[taken..][p] == bytes[p];
  }

  /** Takes the part of a chunk that belongs to the current line. */
  method TakeChunk(
    bytes: seq<Byte>, output: seq<Byte>, oversized: bool, ghost stream: seq<Byte>, ghost taken: nat, ghost tail: seq<Byte>)
    returns (count: nat, output': seq<Byte>, oversized': bool)
    requires Reading(stream, taken, output, oversized) && stream[taken..] == bytes + tail
    ensures count <= |bytes| && taken + |bytes| <= |stream|
    ensures Reading(stream, taken + count, output', oversized')
    ensures count < |bytes| ==> stream[taken + count] == NEWLINE
  {
    count := Newline(bytes);
    TakeMore(stream, taken, bytes, count, tail);
    oversized' := oversized || |output| + count > RECORD_BYTES;
    output' := if oversized' then output else output + bytes[..count];
  }

  function Finished(output: seq<Byte>, oversized: bool): Record {
    if oversized then Oversized else Text(output)
  }

  /** At a newline or at the end of the stream, what was taken is the first record. */
  lemma {:induction false} LineTaken(stream: seq<Byte>, taken: nat, output: seq<Byte>, oversized: bool)
    requires Reading(stream, taken, output, oversized) && (taken < |stream| ==> stream[taken] == NEWLINE)
    ensures var n := if taken < |stream| then taken + 1 else taken;
            Lines.FirstEnd(stream) == n && RecordOf(stream[..n]) == Finished(output, oversized)
  {
    if taken < |stream| {
      FirstEndAt(stream, taken);
    } else {
      assert stream[..taken] == stream;
      FirstEndFlat(stream);
    }
  }

  /** `read_record`: the first record of what is left, whatever the chunks. */
  method Read(reader: Reader) returns (r: Option<Record>)
    requires reader.Valid()
    modifies reader
    ensures reader.Valid()
    ensures var stream := old(reader.Rest());
            if stream == [] then r == None && reader.Rest() == []
            else
              && r == Some(RecordOf(stream[..Lines.FirstEnd(stream)]))
              && reader.Rest() == stream[Lines.FirstEnd(stream)..]
  {
    var output: seq<Byte>, oversized, readAny := [], false, false;
    ghost var stream, taken: nat := reader.Rest(), 0;
    while reader.chunks != []
      invariant reader.Valid() && Reading(stream, taken, output, oversized)
      invariant reader.Rest() == stream[taken..] && readAny == (taken > 0)
      decreases |reader.Rest()|
    {
      var bytes := reader.chunks[0];
      readAny := true;
      var count;
      count, output, oversized := TakeChunk(bytes, output, oversized, stream, taken, Concat(reader.chunks[1..]));
      taken := taken + count;
      if count < |bytes| {
        LineTaken(stream, taken, output, oversized);
        reader.Consume(count + 1);
        return Some(Finished(output, oversized));
      }
      reader.Consume(count);
    }
    LineTaken(stream, taken, output, oversized);
    r := if readAny then Some(Finished(output, oversized)) else None;
  }

  /** Reads every record. The result depends on the bytes alone, not on the chunks. */
  method ReadAll(chunks: seq<seq<Byte>>) returns (records: seq<Record>)
    requires NonEmpty(chunks)
    ensures records == RecordsOf(Concat(chunks))
  {
    var reader := new Reader(chunks);
    records := [];
    while true
      invariant reader.Valid() && fresh(reader)
      invariant records + RecordsOf(reader.Rest()) == RecordsOf(Concat(chunks))
      decreases |reader.Rest()|
    {
      ghost var rest := reader.Rest();
      var r := Read(reader);
      if r.None? {
        assert rest == [];
        return records;
      }
      OneRecordMore(records, rest, r.value, reader.Rest());
      records := records + [r.value];
    }
  }

  lemma {:induction false} OneRecordMore(records: seq<Record>, stream: seq<Byte>, r: Record, rest: seq<Byte>)
    requires stream != [] && r == RecordOf(stream[..Lines.FirstEnd(stream)]) && rest == stream[Lines.FirstEnd(stream)..]
    ensures records + RecordsOf(stream) == (records + [r]) + RecordsOf(rest)
  {
  }
}
