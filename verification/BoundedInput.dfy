/**
 Bounded reads from a byte stream: the whole stream within a byte budget, and line-delimited records within
 a byte, a record-size and a record-count budget, whatever the sizes of the individual reads.
 */
module BoundedInput {
  import opened Utf8
  import opened Wrappers

  const LF: byte := 10
  const BLOCK: nat := 64 * 1024

  datatype InputError = ByteLimit | RecordBytes(line: nat) | RecordLimit | BlankLine(line: nat) | Malformed(line: nat)

  function Min(a: nat, b: nat): nat {
    if a < b then a else b
  }

  /** The length of the physical line at the front: up to and including its line feed, or to the end. */
  function LineLength(data: seq<byte>): (n: nat)
    ensures n <= |data| && (data != [] ==> n > 0)
    ensures forall k :: 0 <= k < n - 1 ==> data[k] != LF
    ensures 0 < n < |data| ==> data[n - 1] == LF
  {
    if data == [] then 0
    else if data[0] == LF then 1
    else 1 + LineLength(data[1..])
  }

  /** A readable stream over some bytes; reads may return less than was asked for. */
  class ByteStream {
    const data: seq<byte>
    var position: nat

    ghost predicate Valid()
      reads this
    {
      position <= |data|
    }

    /** What has not been read yet. */
    function Rest(): seq<byte>
      requires Valid()
      reads this
    {
      data[position..]
    }

    constructor (data: seq<byte>)
      ensures Valid() && this.data == data && position == 0
    {
      this.data := data;
      position := 0;
    }

    /** Up to `limit` bytes, in a piece of any size; nothing only at the end or when nothing is asked for. */
    method Read(limit: nat) returns (block: seq<byte>)
      requires Valid()
      modifies this
      ensures Valid() && position == old(position) + |block| && |block| <= limit
      ensures block == data[old(position)..position]
      ensures block == [] <==> limit == 0 || old(position) == |data|
    {
      var most := Min(limit, |data| - position);
      var size: nat :| size <= most && (size == 0 <==> most == 0);
      block := data[position..position + size];
      position := position + size;
    }

    /** The rest of the current physical line, but at most `limit` bytes of it. */
    method ReadLine(limit: nat) returns (line: seq<byte>)
      requires Valid()
      modifies this
      ensures Valid() && position == old(position) + |line|
      ensures line == old(Rest())[..Min(limit, LineLength(old(Rest())))]
    {
      var size := Min(limit, LineLength(data[position..]));
      line := data[position..][..size];
      position := position + size;
    }
  }

  /**
   Reads the stream to its end if it fits the budget, and otherwise stops after at most one byte more
   than the budget.
   */
  method ReadStreamBounded(source: ByteStream, maxBytes: nat) returns (r: Result<seq<byte>, InputError>)
    requires source.Valid()
    modifies source
    ensures source.Valid()
    ensures r == if |old(source.Rest())| <= maxBytes then Ok(old(source.Rest())) else Err(ByteLimit)
    ensures r.Ok? ==> source.position == |source.data|
    ensures source.position <= old(source.position) + maxBytes + 1
  {
    var chunks: seq<byte> := [];
    var remaining := maxBytes;
    while true
      invariant source.Valid() && 0 <= remaining <= maxBytes
      invariant source.position == old(source.position) + |chunks| && |chunks| == maxBytes - remaining
      invariant chunks == source.data[old(source.position)..source.position]
      decreases |source.data| - source.position
    {
      var block := source.Read(Min(BLOCK, remaining + 1));
      if block == [] {
        assert chunks == old(source.Rest());
        return Ok(chunks);
      }
      assert |old(source.Rest())| == |source.data| - old(source.position);
      if |block| > remaining {
        return Err(ByteLimit);
      }
      chunks := chunks + block;
      remaining := remaining - |block|;
    }
  }

  // ----- line-delimited records -----

  datatype Limits = Limits(maxBytes: nat, maxRecordBytes: nat, maxRecords: nat, allowBlank: bool)

  predicate IsBlank(line: seq<byte>) {
    forall k :: 0 <= k < |line| ==> line[k] in {32, 9, 13, 10}
  }

  type Parser<!Record> = seq<byte> -> Option<Record>

  function PhysicalLines(data: seq<byte>): seq<seq<byte>> {
    if data == [] then [] else [data[..LineLength(data)]] + PhysicalLines(data[LineLength(data)..])
  }

  /** One complete physical line against the budgets left; a blank line yields no record. */
  function ReadRecord<Record>(line: seq<byte>, number: nat, remaining: nat, limits: Limits, parse: Parser<Record>)
    : Result<Option<Record>, InputError>
  {
    if |line| > Min(limits.maxRecordBytes, remaining) then
      Err(if remaining <= limits.maxRecordBytes then ByteLimit else RecordBytes(number))
    else if number > limits.maxRecords then Err(RecordLimit)
    else if IsBlank(line) then
      if limits.allowBlank then Ok(None) else Err(BlankLine(number))
    else match parse(line)
      case None => Err(Malformed(number))
      case Some(record) => Ok(Some(record))
  }

  function Prepend<Record>(front: seq<Record>, r: Result<seq<Record>, InputError>): Result<seq<Record>, InputError> {
    match r
    case Ok(rest) => Ok(front + rest)
    case Err(_) => r
  }

  function AsSeq<Record>(record: Option<Record>): seq<Record> {
    match record
    case None => []
    case Some(r) => [r]
  }

  /** The records of the remaining physical lines, or the first error. */
  function RecordsOf<Record>(lines: seq<seq<byte>>, done: nat, remaining: nat, limits: Limits, parse: Parser<Record>)
    : Result<seq<Record>, InputError>
    decreases |lines|
  {
    if lines == [] then Ok([])
    else match ReadRecord(lines[0], done + 1, remaining, limits, parse)
      case Err(error) => Err(error)
      case Ok(record) =>
        Prepend(AsSeq(record), RecordsOf(lines[1..], done + 1, remaining - |lines[0]|, limits, parse))
  }

  /** The load of a file whose metadata promised `statSize` bytes and whose content is `data`. */
  function Load<Record>(statSize: nat, data: seq<byte>, limits: Limits, parse: Parser<Record>): Result<seq<Record>, InputError> {
    if statSize > limits.maxBytes then Err(ByteLimit)
    else RecordsOf(PhysicalLines(data), 0, limits.maxBytes, limits, parse)
  }

  lemma PrependTwice<Record>(a: seq<Record>, b: seq<Record>, r: Result<seq<Record>, InputError>)
    ensures Prepend(a, Prepend(b, r)) == Prepend(a + b, r)
  {
    if r.Ok? {
      assert a + (b + r.value) == (a + b) + r.value;
    }
  }

  /** One turn of the loop, told by the complete physical line at the front. */
  lemma RecordsUnfold<Record>(left: seq<byte>, done: nat, remaining: nat, limits: Limits, parse: Parser<Record>)
    ensures left == [] ==> RecordsOf(PhysicalLines(left), done, remaining, limits, parse) == Ok([])
    ensures left != [] && LineLength(left) > Min(limits.maxRecordBytes, remaining) ==>
              RecordsOf(PhysicalLines(left), done, remaining, limits, parse)
              == Err(if remaining <= limits.maxRecordBytes then ByteLimit else RecordBytes(done + 1))
    ensures left != [] && LineLength(left) <= Min(limits.maxRecordBytes, remaining) ==>
              var n := LineLength(left);
              var first := ReadRecord(left[..n], done + 1, remaining, limits, parse);
              RecordsOf(PhysicalLines(left), done, remaining, limits, parse)
              == if first.Err? then Err(first.error)
                 else Prepend(AsSeq(first.value),
                              RecordsOf(PhysicalLines(left[n..]), done + 1, remaining - n, limits, parse))
  {
    hide IsBlank, LineLength;
    if left != [] {
      assert PhysicalLines(left)[1..] == PhysicalLines(left[LineLength(left)..]);
    }
  }

  method CheckRecord<Record>(line: seq<byte>, lineNumber: nat, remaining: nat, limits: Limits, parse: Parser<Record>)
    returns (r: Result<Option<Record>, InputError>)
    requires |line| <= Min(limits.maxRecordBytes, remaining)
    ensures r == ReadRecord(line, lineNumber, remaining, limits, parse)
  {
    // A blank line uses up the record budget like any other.
    if lineNumber > limits.maxRecords { return Err(RecordLimit); }
    if !IsBlank(line) {
      var record := parse(line);
      if record.None? { return Err(Malformed(lineNumber)); }
      return Ok(record);
    }
    if !limits.allowBlank { return Err(BlankLine(lineNumber)); }
    r := Ok(None);
  }

  method StrictJsonlLoad<Record>(source: ByteStream, statSize: nat, limits: Limits, parse: Parser<Record>)
    returns (r: Result<seq<Record>, InputError>)
    requires source.Valid() && source.position == 0
    modifies source
    ensures r == Load(statSize, source.data, limits, parse)
    ensures r.Ok? ==> source.position == |source.data|
    ensures source.position <= limits.maxBytes + 1
  {
    hide RecordsOf, PhysicalLines, ReadRecord;
    if statSize > limits.maxBytes { return Err(ByteLimit); }
    var records: seq<Record> := [];
    var remaining, lineNumber := limits.maxBytes, 0;
    ghost var whole := RecordsOf(PhysicalLines(source.data), 0, limits.maxBytes, limits, parse);
    assert whole.Ok? ==> [] + whole.value == whole.value;
    assert source.Rest() == source.data;
    while true
      invariant source.Valid() && 0 <= remaining <= limits.maxBytes && lineNumber >= 0
      invariant source.position == limits.maxBytes - remaining
      invariant whole == Prepend(records, RecordsOf(PhysicalLines(source.Rest()), lineNumber, remaining, limits, parse))
      decreases |source.data| - source.position
    {
      ghost var left := source.Rest();
      var line := source.ReadLine(Min(limits.maxRecordBytes, remaining) + 1);
      assert source.Rest() == left[|line|..];
      RecordsUnfold(left, lineNumber, remaining, limits, parse);
      if line == [] {
        assert left == [] && records + [] == records;
        return Ok(records);
      }
      var before := remaining;
      lineNumber := lineNumber + 1;
      if |line| > remaining { return Err(ByteLimit); }
      remaining := remaining - |line|;
      if |line| > limits.maxRecordBytes { return Err(RecordBytes(lineNumber)); }
      assert line == left[..LineLength(left)];
      var record := CheckRecord(line, lineNumber, before, limits, parse);
      if record.Err? { return Err(record.error); }
      PrependTwice(records, AsSeq(record.value),
                   RecordsOf(PhysicalLines(source.Rest()), lineNumber, remaining, limits, parse));
      records := records + AsSeq(record.value);
    }
  }

  // ----- what a successful load means -----

  function Concat(lines: seq<seq<byte>>): seq<byte> {
    if lines == [] then [] else lines[0] + Concat(lines[1..])
  }

  predicate IsPhysicalLine(line: seq<byte>, last: bool) {
    line != [] && (forall k :: 0 <= k < |line| - 1 ==> line[k] != LF) && (line[|line| - 1] == LF || last)
  }

  lemma FrontIsPhysical(data: seq<byte>)
    requires data != []
    ensures IsPhysicalLine(data[..LineLength(data)], LineLength(data) == |data|)
  {
  }

  /** The physical lines are complete, in order, and together are the file. */
  lemma {:induction false} LinesAreTheFile(data: seq<byte>)
    ensures Concat(PhysicalLines(data)) == data
    ensures forall k :: 0 <= k < |PhysicalLines(data)| ==>
              IsPhysicalLine(PhysicalLines(data)[k], k == |PhysicalLines(data)| - 1)
  {
    hide LineLength;
    if data != [] {
      var n := LineLength(data);
      LinesAreTheFile(data[n..]);
      assert data == data[..n] + data[n..];
      FrontIsPhysical(data);
      assert n < |data| ==> PhysicalLines(data[n..]) != [];
    }
  }

  /** A record is accepted from a complete line: blank where allowed, or parsed. */
  predicate LineAccepted<Record>(line: seq<byte>, limits: Limits, parse: Parser<Record>) {
    |line| <= limits.maxRecordBytes && (if OnlySpace(line) then limits.allowBlank else parse(line).Some?)
  }

  /** Spaces, tabs and line ends only. */
  predicate OnlySpace(line: seq<byte>) {
    forall b :: b in line ==> b == 32 || b == 9 || b == 13 || b == 10
  }

  lemma BlankIsOnlySpace(line: seq<byte>)
    ensures IsBlank(line) <==> OnlySpace(line)
  {
    if OnlySpace(line) {
      assert forall k :: 0 <= k < |line| ==> line[k] in line;
    }
  }

  function RecordsIn<Record>(lines: seq<seq<byte>>, parse: Parser<Record>): seq<Record> {
    if lines == [] then []
    else (if OnlySpace(lines[0]) then [] else AsSeq(parse(lines[0]))) + RecordsIn(lines[1..], parse)
  }

  predicate AllAccepted<Record>(lines: seq<seq<byte>>, limits: Limits, parse: Parser<Record>) {
    lines == [] || (LineAccepted(lines[0], limits, parse) && AllAccepted(lines[1..], limits, parse))
  }

  lemma {:induction false} RecordsOfIsExact<Record>(lines: seq<seq<byte>>, done: nat, remaining: nat, limits: Limits,
                                                    parse: Parser<Record>)
    requires done <= limits.maxRecords
    ensures RecordsOf(lines, done, remaining, limits, parse).Ok? <==>
            |Concat(lines)| <= remaining && done + |lines| <= limits.maxRecords && AllAccepted(lines, limits, parse)
    ensures RecordsOf(lines, done, remaining, limits, parse).Ok? ==>
            RecordsOf(lines, done, remaining, limits, parse).value == RecordsIn(lines, parse)
    decreases |lines|
  {
    hide IsBlank, OnlySpace;
    if lines != [] {
      BlankIsOnlySpace(lines[0]);
    }
    if lines != [] && ReadRecord(lines[0], done + 1, remaining, limits, parse).Ok? {
      RecordsOfIsExact(lines[1..], done + 1, remaining - |lines[0]|, limits, parse);
    }
  }

  /**
   A load succeeds exactly when the promised and the actual size, every line and the number of lines are
   within their limits and every complete physical line is acceptable; it then returns the records of
   all the lines of the file. No part of a line is ever taken for a record.
   */
  lemma LoadIsExact<Record>(statSize: nat, data: seq<byte>, limits: Limits, parse: Parser<Record>)
    ensures Load(statSize, data, limits, parse).Ok? <==>
            && statSize <= limits.maxBytes && |data| <= limits.maxBytes
            && |PhysicalLines(data)| <= limits.maxRecords
            && AllAccepted(PhysicalLines(data), limits, parse)
    ensures Load(statSize, data, limits, parse).Ok? ==>
            Load(statSize, data, limits, parse).value == RecordsIn(PhysicalLines(data), parse)
  {
    LinesAreTheFile(data);
    RecordsOfIsExact(PhysicalLines(data), 0, limits.maxBytes, limits, parse);
  }
}
