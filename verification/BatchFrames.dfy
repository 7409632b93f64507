/**
 The batch response of an object reader: for each requested object a header line, the bytes, and a line feed.
 The committed source is accepted when every body has the recorded length and hash and nothing follows.
 */
module BatchFrames {
  import opened BoundedInput
  import opened Decimals
  import opened Utf8
  import opened Wrappers

  type Hash = seq<byte> -> string

  /** What the manifest records about one source file. */
  datatype Entry = Entry(bytes: nat, sha: string)

  datatype FrameError = NotAscii | NotBlob(entry: nat) | BadSize | BadFrame | Differs(entry: nat) | Trailing

  predicate IsSpace(c: char) {
    '\t' <= c <= '\r' || '\U{1C}' <= c <= ' '
  }

  predicate IsAscii(line: seq<byte>) {
    forall k :: 0 <= k < |line| ==> line[k] < 128
  }

  function AsText(line: seq<byte>): (s: string)
    requires IsAscii(line)
    ensures |s| == |line|
  {
    seq(|line|, k requires 0 <= k < |line| => line[k] as char)
  }

  function WordLength(s: string): (n: nat)
    ensures n <= |s| && (s != "" && !IsSpace(s[0]) ==> n > 0)
  {
    if s == "" || IsSpace(s[0]) then 0 else 1 + WordLength(s[1..])
  }

  /** The fields between runs of white space. */
  function Fields(s: string): seq<string>
    decreases |s|
  {
    if s == "" then []
    else if IsSpace(s[0]) then Fields(s[1..])
    else [s[..WordLength(s)]] + Fields(s[WordLength(s)..])
  }

  /** Digits in groups: single underscores are allowed between two digits. */
  predicate Grouped(s: string) {
    && s != "" && IsDigit(s[0]) && IsDigit(s[|s| - 1])
    && (forall k :: 0 < k < |s| && s[k] == '_' ==> s[k - 1] != '_')
    && (forall k :: 0 <= k < |s| ==> IsDigit(s[k]) || s[k] == '_')
  }

  function Ungroup(s: string): (digits: string)
    requires forall k :: 0 <= k < |s| ==> IsDigit(s[k]) || s[k] == '_'
    ensures AllDigits(digits)
  {
    if s == "" then "" else if s[0] == '_' then Ungroup(s[1..]) else [s[0]] + Ungroup(s[1..])
  }

  function IntValue(field: string): Option<int> {
    var signed := field != "" && (field[0] == '+' || field[0] == '-');
    var digits := if signed then field[1..] else field;
    if !Grouped(digits) then None
    else
      var value: int := ParseNat(Ungroup(digits));
      Some(if field[0] == '-' then -value else value)
  }

  function HeaderSize(line: seq<byte>, entry: nat): Result<int, FrameError> {
    if !IsAscii(line) then Err(NotAscii)
    else
      var fields := Fields(AsText(line));
      if |fields| != 3 || fields[1] != "blob" then Err(NotBlob(entry))
      else match IntValue(fields[2])
        case None => Err(BadSize)
        case Some(size) => Ok(size)
  }

  datatype Frame = Frame(body: seq<byte>, rest: seq<byte>)

  /** The frame at the front of the response; a negative size reads everything and leaves no line feed. */
  function ReadFrame(data: seq<byte>, entry: nat): Result<Frame, FrameError> {
    var n := LineLength(data);
    match HeaderSize(data[..n], entry)
    case Err(error) => Err(error)
    case Ok(size) =>
      var left := data[n..];
      var taken := if size < 0 then |left| else Min(size, |left|);
      if taken == |left| || left[taken] != LF then Err(BadFrame) else Ok(Frame(left[..taken], left[taken + 1..]))
  }

  predicate Matches(body: seq<byte>, entry: Entry, hash: Hash) {
    |body| == entry.bytes && hash(body) == entry.sha
  }

  /** The verdict on the rest of the response, for the rest of the entries. */
  function Check(data: seq<byte>, entries: seq<Entry>, done: nat, hash: Hash): Result<bool, FrameError>
    decreases |entries|
  {
    if entries == [] then if data == [] then Ok(true) else Err(Trailing)
    else match ReadFrame(data, done)
      case Err(error) => Err(error)
      case Ok(frame) =>
        if !Matches(frame.body, entries[0], hash) then Err(Differs(done)) else Check(frame.rest, entries[1..], done + 1, hash)
  }

  /** The response held in memory: reads are as long as asked for, up to the end. */
  class ByteBuffer {
    const data: seq<byte>
    var position: nat

    ghost predicate Valid()
      reads this
    {
      position <= |data|
    }

    function Rest(): seq<byte>
      requires Valid()
      reads this
    {
      data[position..]
    }

    constructor (data: seq<byte>)
      ensures Valid() && this.data == data && position == 0
    {
      this.data, position := data, 0;
    }

    method ReadLine() returns (line: seq<byte>)
      requires Valid()
      modifies this
      ensures Valid() && line == old(Rest())[..LineLength(old(Rest()))] && Rest() == old(Rest())[|line|..]
    {
      line := data[position..][..LineLength(data[position..])];
      assert data[position..][|line|..] == data[position + |line|..];
      position := position + |line|;
    }

    /** All the rest when the size is negative. */
    method Read(size: int) returns (block: seq<byte>)
      requires Valid()
      modifies this
      ensures Valid() && |block| == if size < 0 then |old(Rest())| else Min(size, |old(Rest())|)
      ensures block == old(Rest())[..|block|] && Rest() == old(Rest())[|block|..]
    {
      var taken := if size < 0 then |data| - position else Min(size, |data| - position);
      block := data[position..position + taken];
      assert data[position..][taken..] == data[position + taken..];
      position := position + taken;
    }
  }

  /** Header, body and line feed of one object. */
  method ReadObject(stream: ByteBuffer, entry: nat) returns (r: Result<seq<byte>, FrameError>)
    requires stream.Valid()
    modifies stream
    ensures stream.Valid()
    ensures r.Ok? ==> ReadFrame(old(stream.Rest()), entry) == Ok(Frame(r.value, stream.Rest()))
    ensures r.Err? ==> ReadFrame(old(stream.Rest()), entry) == Err(r.error)
  {
    hide HeaderSize, LineLength;
    ghost var data := stream.Rest();
    var header := stream.ReadLine();
    ghost var left := stream.Rest();
    var size := HeaderSize(header, entry);
    if size.Err? { return Err(size.error); }
    var body := stream.Read(size.value);
    ghost var after := stream.Rest();
    assert after != [] ==> after[0] == left[|body|];
    var terminator := stream.Read(1);
    assert terminator == [LF] <==> after != [] && after[0] == LF;
    if terminator != [LF] { return Err(BadFrame); }
    assert stream.Rest() == left[|body| + 1..];
    r := Ok(body);
  }

  method RequireCommittedSource(response: seq<byte>, entries: seq<Entry>, hash: Hash) returns (r: Result<bool, FrameError>)
    ensures r == Check(response, entries, 0, hash)
  {
    hide HeaderSize, LineLength, Matches, ReadFrame;
    var stream := new ByteBuffer(response);
    assert stream.Rest() == response && entries[0..] == entries;
    for i := 0 to |entries|
      invariant stream.Valid()
      invariant Check(response, entries, 0, hash) == Check(stream.Rest(), entries[i..], i, hash)
    {
      ghost var left := entries[i..];
      assert left[1..] == entries[i + 1..];
      var body := ReadObject(stream, i);
      if body.Err? { return Err(body.error); }
      if !Matches(body.value, entries[i], hash) { return Err(Differs(i)); }
    }
    assert entries[|entries|..] == [];
    var trailing := stream.Read(-1);
    r := if trailing == [] then Ok(true) else Err(Trailing);
  }

  // ----- what is accepted -----

  /** A header line that announces a body of this length, whatever the bytes of the body are. */
  predicate IsHeader(header: seq<byte>, length: nat) {
    && header != [] && header[|header| - 1] == LF && (forall k :: 0 <= k < |header| - 1 ==> header[k] != LF)
    && HeaderSize(header, 0) == Ok(length)
  }

  datatype Part = Part(header: seq<byte>, body: seq<byte>)

  function Text(parts: seq<Part>): seq<byte> {
    if parts == [] then [] else parts[0].header + (parts[0].body + ([LF] + Text(parts[1..])))
  }

  predicate Proper(parts: seq<Part>) {
    forall i :: 0 <= i < |parts| ==> IsHeader(parts[i].header, |parts[i].body|)
  }

  /** The bodies are the recorded files, in order. */
  predicate Committed(parts: seq<Part>, entries: seq<Entry>, hash: Hash) {
    |parts| == |entries| && forall i :: 0 <= i < |parts| ==> Matches(parts[i].body, entries[i], hash)
  }

  lemma {:induction false} LineThenMore(line: seq<byte>, rest: seq<byte>)
    requires line != [] && line[|line| - 1] == LF && forall k :: 0 <= k < |line| - 1 ==> line[k] != LF
    ensures LineLength(line + rest) == |line|
  {
    if |line| > 1 {
      assert (line + rest)[1..] == line[1..] + rest;
      LineThenMore(line[1..], rest);
    }
  }

  lemma HeaderSizeAnyEntry(line: seq<byte>, a: nat, b: nat)
    ensures HeaderSize(line, a).Ok? ==> HeaderSize(line, b) == HeaderSize(line, a)
  {
  }

  lemma PartIsRead(part: Part, rest: seq<byte>, entry: nat)
    requires IsHeader(part.header, |part.body|)
    ensures ReadFrame(part.header + (part.body + ([LF] + rest)), entry) == Ok(Frame(part.body, rest))
  {
    hide HeaderSize, LineLength;
    var left := part.body + ([LF] + rest);
    var data := part.header + left;
    LineThenMore(part.header, left);
    assert data[..|part.header|] == part.header && data[|part.header|..] == left;
    HeaderSizeAnyEntry(part.header, 0, entry);
    assert left[..|part.body|] == part.body && left[|part.body| + 1..] == rest;
  }

  lemma ReadIsPart(data: seq<byte>, entry: nat) returns (part: Part)
    requires ReadFrame(data, entry).Ok?
    ensures IsHeader(part.header, |part.body|) && part.body == ReadFrame(data, entry).value.body
    ensures data == part.header + (part.body + ([LF] + ReadFrame(data, entry).value.rest))
  {
    hide HeaderSize;
    var n, frame := LineLength(data), ReadFrame(data, entry).value;
    part := Part(data[..n], frame.body);
    HeaderSizeAnyEntry(part.header, entry, 0);
    var left := data[n..];
    assert n < |data| && left == frame.body + ([LF] + frame.rest);
    assert data == data[..n] + left;
  }

  lemma {:induction false} CommittedIsAccepted(parts: seq<Part>, entries: seq<Entry>, done: nat, hash: Hash)
    requires Proper(parts) && Committed(parts, entries, hash)
    ensures Check(Text(parts), entries, done, hash) == Ok(true)
    decreases |parts|
  {
    hide Matches, IsHeader, ReadFrame;
    if parts != [] {
      PartIsRead(parts[0], Text(parts[1..]), done);
      CommittedIsAccepted(parts[1..], entries[1..], done + 1, hash);
    }
  }

  lemma {:induction false} AcceptedIsCommitted(data: seq<byte>, entries: seq<Entry>, done: nat, hash: Hash) returns (parts: seq<Part>)
    requires Check(data, entries, done, hash).Ok?
    ensures Proper(parts) && Committed(parts, entries, hash) && data == Text(parts)
    decreases |entries|
  {
    hide Matches, IsHeader, ReadFrame;
    if entries == [] {
      parts := [];
    } else {
      var first := ReadIsPart(data, done);
      var rest := AcceptedIsCommitted(ReadFrame(data, done).value.rest, entries[1..], done + 1, hash);
      parts := [first] + rest;
      assert parts[1..] == rest;
    }
  }

  /** A response is accepted exactly when it is one frame per entry, each body as recorded, and nothing else. */
  lemma AcceptsExactlyCommitted(response: seq<byte>, entries: seq<Entry>, hash: Hash)
    ensures Check(response, entries, 0, hash).Ok? <==>
            exists parts :: Proper(parts) && Committed(parts, entries, hash) && response == Text(parts)
  {
    hide Check, Proper, Committed, Text;
    if Check(response, entries, 0, hash).Ok? {
      var parts := AcceptedIsCommitted(response, entries, 0, hash);
    }
    if exists parts :: Proper(parts) && Committed(parts, entries, hash) && response == Text(parts) {
      var parts :| Proper(parts) && Committed(parts, entries, hash) && response == Text(parts);
      CommittedIsAccepted(parts, entries, 0, hash);
    }
  }

  // ----- the rendering of a blob sequence -----

  function Bytes(s: string): (line: seq<byte>)
    requires forall k :: 0 <= k < |s| ==> s[k] < 128 as char
    ensures |line| == |s| && IsAscii(line) && AsText(line) == s
    ensures forall k :: 0 <= k < |s| ==> line[k] as int == s[k] as int
  {
    seq(|s|, k requires 0 <= k < |s| => s[k] as byte)
  }

  predicate IsName(name: string) {
    name != "" && forall k :: 0 <= k < |name| ==> name[k] < 128 as char && !IsSpace(name[k])
  }

  /** The object reader's header: the object name, its type and its size. */
  function HeaderText(name: string, length: nat): string {
    name + (" " + ("blob" + (" " + (Dec(length) + "\n"))))
  }

  lemma {:induction false} WordThenSpace(word: string, space: char, rest: string)
    requires IsSpace(space) && forall k :: 0 <= k < |word| ==> !IsSpace(word[k])
    ensures WordLength(word + ([space] + rest)) == |word|
  {
    if word == "" {
      assert word + ([space] + rest) == [space] + rest;
    } else {
      assert (word + ([space] + rest))[1..] == word[1..] + ([space] + rest);
      WordThenSpace(word[1..], space, rest);
    }
  }

  lemma FieldThenSpace(word: string, space: char, rest: string)
    requires word != "" && IsSpace(space) && forall k :: 0 <= k < |word| ==> !IsSpace(word[k])
    ensures Fields(word + ([space] + rest)) == [word] + Fields(rest)
  {
    hide WordLength;
    var s := word + ([space] + rest);
    WordThenSpace(word, space, rest);
    assert s[0] == word[0] && s[..|word|] == word && s[|word|..] == [space] + rest;
    assert ([space] + rest)[1..] == rest;
    assert Fields([space] + rest) == Fields(rest);
  }

  lemma {:induction false} UngroupDigits(s: string)
    requires AllDigits(s)
    ensures Ungroup(s) == s
  {
    if s != "" {
      assert forall k :: 0 <= k < |s[1..]| ==> s[1..][k] == s[k + 1];
      UngroupDigits(s[1..]);
      assert IsDigit(s[0]);
    }
  }

  lemma IntValueDec(n: nat)
    ensures IntValue(Dec(n)) == Some(n)
  {
    hide Dec, ParseNat, Ungroup;
    var s := Dec(n);
    assert IsDigit(s[0]) && IsDigit(s[|s| - 1]);
    UngroupDigits(s);
    ParseDec(n);
  }

  lemma HeaderFields(name: string, length: nat)
    requires IsName(name)
    ensures Fields(HeaderText(name, length)) == [name, "blob", Dec(length)]
  {
    hide Dec, Fields, WordLength;
    var digits := Dec(length);
    assert forall k :: 0 <= k < |digits| ==> IsDigit(digits[k]) && !IsSpace(digits[k]);
    FieldThenSpace(name, ' ', "blob" + (" " + (digits + "\n")));
    FieldThenSpace("blob", ' ', digits + "\n");
    assert digits + "\n" == digits + ("\n" + "");
    FieldThenSpace(digits, '\n', "");
    NoFields();
    assert [name] + (["blob"] + ([digits] + [])) == [name, "blob", digits];
  }

  lemma NoFields()
    ensures Fields("") == []
  {
  }

  lemma HeaderIsAscii(name: string, length: nat)
    requires IsName(name)
    ensures HeaderText(name, length) != ""
    ensures forall k :: 0 <= k < |HeaderText(name, length)| ==> HeaderText(name, length)[k] < 128 as char
    ensures forall k :: 0 <= k < |HeaderText(name, length)| - 1 ==> HeaderText(name, length)[k] != '\n'
    ensures HeaderText(name, length)[|HeaderText(name, length)| - 1] == '\n'
  {
    hide Dec;
    var digits := Dec(length);
    assert forall k :: 0 <= k < |digits| ==> IsDigit(digits[k]);
    assert forall k :: 0 <= k < |name| ==> !IsSpace(name[k]);
  }

  function Header(name: string, length: nat): (line: seq<byte>)
    requires IsName(name)
    ensures IsAscii(line) && AsText(line) == HeaderText(name, length)
  {
    HeaderIsAscii(name, length);
    Bytes(HeaderText(name, length))
  }

  lemma HeaderIsHeader(name: string, length: nat)
    requires IsName(name)
    ensures IsHeader(Header(name, length), length)
  {
    hide Dec, Fields, HeaderText, IntValue;
    HeaderIsAscii(name, length);
    HeaderFields(name, length);
    IntValueDec(length);
    var line, text := Header(name, length), HeaderText(name, length);
    assert forall k :: 0 <= k < |line| ==> AsText(line)[k] as int == line[k] as int;
    assert |line| == |text| && line[|line| - 1] as int == text[|line| - 1] as int;
  }

  datatype Blob = Blob(name: string, content: seq<byte>)

  function Parts(blobs: seq<Blob>): (parts: seq<Part>)
    requires forall i :: 0 <= i < |blobs| ==> IsName(blobs[i].name)
    ensures |parts| == |blobs|
    ensures forall i :: 0 <= i < |blobs| ==> parts[i] == Part(Header(blobs[i].name, |blobs[i].content|), blobs[i].content)
  {
    seq(|blobs|, i requires 0 <= i < |blobs| => Part(Header(blobs[i].name, |blobs[i].content|), blobs[i].content))
  }

  predicate Recorded(files: seq<seq<byte>>, entries: seq<Entry>, hash: Hash) {
    |files| == |entries| && forall i :: 0 <= i < |files| ==> Matches(files[i], entries[i], hash)
  }

  predicate Carries(parts: seq<Part>, files: seq<seq<byte>>) {
    |parts| == |files| && forall i :: 0 <= i < |parts| ==> parts[i].body == files[i]
  }

  /** With a collision-free hash, an accepted response carries exactly the files that the manifest was made from. */
  lemma AcceptsExactlyTheFiles(response: seq<byte>, files: seq<seq<byte>>, entries: seq<Entry>, hash: Hash)
    requires Recorded(files, entries, hash)
    requires forall a, b :: hash(a) == hash(b) ==> a == b
    ensures Check(response, entries, 0, hash).Ok? <==> exists parts :: Proper(parts) && Carries(parts, files) && response == Text(parts)
  {
    hide Check, Proper, Text;
    forall parts: seq<Part>
      ensures Committed(parts, entries, hash) <==> Carries(parts, files)
    {
      if Committed(parts, entries, hash) {
        forall i | 0 <= i < |parts|
          ensures parts[i].body == files[i]
        {
          assert Matches(parts[i].body, entries[i], hash) && Matches(files[i], entries[i], hash);
        }
      }
      if Carries(parts, files) {
        forall i | 0 <= i < |parts|
          ensures Matches(parts[i].body, entries[i], hash)
        {
          assert Matches(files[i], entries[i], hash);
        }
      }
    }
    AcceptsExactlyCommitted(response, entries, hash);
  }

  /**
   The rendering of any sequence of blobs, whatever bytes they hold, is accepted exactly when the blobs are as
   many as the entries and have the recorded lengths and hashes.
   */
  lemma RenderingIsRead(blobs: seq<Blob>, entries: seq<Entry>, hash: Hash)
    requires forall i :: 0 <= i < |blobs| ==> IsName(blobs[i].name)
    ensures Check(Text(Parts(blobs)), entries, 0, hash).Ok? <==>
            |blobs| == |entries| && forall i :: 0 <= i < |blobs| ==> Matches(blobs[i].content, entries[i], hash)
  {
    hide Check, Header, IsHeader, Matches, Text;
    var parts := Parts(blobs);
    forall i | 0 <= i < |parts|
      ensures IsHeader(parts[i].header, |parts[i].body|)
    {
      HeaderIsHeader(blobs[i].name, |blobs[i].content|);
    }
    if Committed(parts, entries, hash) {
      CommittedIsAccepted(parts, entries, 0, hash);
      assert forall i :: 0 <= i < |blobs| ==> Matches(parts[i].body, entries[i], hash);
    }
    if Check(Text(parts), entries, 0, hash).Ok? {
      var again := AcceptedIsCommitted(Text(parts), entries, 0, hash);
      OneReading(parts, again);
    }
  }

  /** Frames are unambiguous: two frame sequences with the same bytes have the same bodies. */
  lemma {:induction false} OneReading(a: seq<Part>, b: seq<Part>)
    requires Proper(a) && Proper(b) && Text(a) == Text(b)
    ensures a == b
    decreases |a|
  {
    hide IsHeader, ReadFrame;
    assert (a != [] ==> Text(a) != []) && (b != [] ==> Text(b) != []);
    if a != [] && b != [] {
      PartIsRead(a[0], Text(a[1..]), 0);
      PartIsRead(b[0], Text(b[1..]), 0);
      SameHeader(a[0].header, b[0].header, a[0].body + ([LF] + Text(a[1..])), b[0].body + ([LF] + Text(b[1..])), |a[0].body|, |b[0].body|);
      OneReading(a[1..], b[1..]);
      assert a == [a[0]] + a[1..] && b == [b[0]] + b[1..];
    }
  }

  lemma SameHeader(h: seq<byte>, g: seq<byte>, x: seq<byte>, y: seq<byte>, m: nat, n: nat)
    requires IsHeader(h, m) && IsHeader(g, n) && h + x == g + y
    ensures h == g
  {
    hide HeaderSize, LineLength;
    LineThenMore(h, x);
    LineThenMore(g, y);
    assert h == (h + x)[..|h|] && g == (g + y)[..|g|];
  }
}
