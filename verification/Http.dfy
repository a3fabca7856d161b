/**
 HTTP/1.1 framing: the streaming request reader, against a parser of the whole byte stream
 (Content-Length framing, sections 6.2 and 6.3 of RFC 9112).
 */
module Http {
  import opened Prelude
  import opened Text
  import opened Utf8

  const HEADER_LIMIT: nat := 65536
  const CHUNK: nat := 1024

  /** CR LF CR LF. */
  const BLANK_LINE: Bytes := [13, 10, 13, 10]

  /** `Panicked` stands for the thread ending in the middle of the call. */
  datatype ReadError =
    ConnectionClosed | RequestTooLarge | MissingRequestLine | MissingMethod | MissingPath | ShortBody | IoError
    | Panicked

  /** How a stream ends once its bytes are used up: an orderly close, or a failing read. */
  datatype Ending = Closed | Failed

  datatype Request = Request(path: string, body: string)

  // ---------- searching ----------

  predicate OccursAt(haystack: Bytes, needle: Bytes, i: nat) {
    i + |needle| <= |haystack| && haystack[i..i + |needle|] == needle
  }

  predicate FirstAt(haystack: Bytes, needle: Bytes, i: nat) {
    OccursAt(haystack, needle, i) && forall j :: 0 <= j < i ==> !OccursAt(haystack, needle, j)
  }

  function FindFrom(haystack: Bytes, needle: Bytes, i: nat): (r: Option<nat>)
    ensures r.Some? ==> i <= r.value && OccursAt(haystack, needle, r.value)
    ensures r.Some? ==> forall j :: i <= j < r.value ==> !OccursAt(haystack, needle, j)
    ensures r.None? ==> forall j :: i <= j ==> !OccursAt(haystack, needle, j)
    decreases |haystack| - i
  {
    if i + |needle| > |haystack| then None
    else if OccursAt(haystack, needle, i) then Some(i)
    else FindFrom(haystack, needle, i + 1)
  }

  /** `windows(..).position(..)`. */
  function FindSubslice(haystack: Bytes, needle: Bytes): (r: Option<nat>)
    ensures r.Some? ==> FirstAt(haystack, needle, r.value)
    ensures r.None? ==> forall j :: !OccursAt(haystack, needle, j)
  {
    FindFrom(haystack, needle, 0)
  }

  lemma FindUnique(haystack: Bytes, needle: Bytes, i: nat)
    requires FirstAt(haystack, needle, i)
    ensures FindSubslice(haystack, needle) == Some(i)
  {
    hide OccursAt;
  }

  /** In a prefix, an occurrence is where it is in the whole. */
  lemma OccursInPrefix(s: Bytes, n: nat, needle: Bytes)
    requires n <= |s|
    ensures forall j: nat :: OccursAt(s[..n], needle, j) <==> j + |needle| <= n && OccursAt(s, needle, j)
  {
    forall j: nat
      ensures OccursAt(s[..n], needle, j) <==> j + |needle| <= n && OccursAt(s, needle, j)
    {
      if j + |needle| <= n {
        assert s[..n][j..j + |needle|] == s[j..j + |needle|];
      }
    }
  }

  // ---------- the head ----------

  function AbsorbHeader(length: u64, line: string): u64 {
    match SplitOnce(line, ':')
    case None => length
    case Some((name, value)) =>
      if EqIgnoreCase(name, "Content-Length") then
        match ParseUint(Trim(value), U64_MAX)
        case None => length
        case Some(n) => n
      else length
  }

  /** The last well-formed Content-Length, or 0. */
  function ContentLength(lines: seq<string>): u64 {
    if lines == [] then 0 else AbsorbHeader(ContentLength(lines[..|lines| - 1]), lines[|lines| - 1])
  }

  /** The length a header line declares, if it is a well-formed Content-Length, in any letter case. */
  function DeclaredLength(line: string): Option<u64> {
    var (name, value) :- SplitOnce(line, ':');
    if EqIgnoreCase(name, "Content-Length") then ParseUint(Trim(value), U64_MAX) else None
  }

  lemma AbsorbDeclared(length: u64, line: string)
    ensures AbsorbHeader(length, line) == if DeclaredLength(line).Some? then DeclaredLength(line).value else length
  {
    hide SplitOnce, Trim, ParseUint, EqIgnoreCase;
  }

  /** The last line that declares a length wins. */
  lemma {:induction false} LastLengthWins(lines: seq<string>, i: nat)
    requires i < |lines| && DeclaredLength(lines[i]).Some?
    requires forall j :: i < j < |lines| ==> DeclaredLength(lines[j]).None?
    ensures ContentLength(lines) == DeclaredLength(lines[i]).value
  {
    hide AbsorbHeader, DeclaredLength;
    var n := |lines| - 1;
    AbsorbDeclared(ContentLength(lines[..n]), lines[n]);
    if i < n {
      LastLengthWins(lines[..n], i);
    }
  }

  /** Without a declared length the body is empty. */
  lemma {:induction false} NoLengthIsZero(lines: seq<string>)
    requires forall i :: 0 <= i < |lines| ==> DeclaredLength(lines[i]).None?
    ensures ContentLength(lines) == 0
  {
    hide AbsorbHeader, DeclaredLength;
    if lines != [] {
      var n := |lines| - 1;
      AbsorbDeclared(ContentLength(lines[..n]), lines[n]);
      NoLengthIsZero(lines[..n]);
    }
  }

  datatype Head = Head(path: string, length: u64)

  function ParseHead(head: Bytes): Result<Head, ReadError> {
    var lines := Lines(DecodeLossy(head));
    if lines == [] then Err(MissingRequestLine)
    else
      var parts := SplitWs(lines[0]);
      if |parts| == 0 then Err(MissingMethod)
      else if |parts| == 1 then Err(MissingPath)
      else Ok(Head(parts[1], ContentLength(lines[1..])))
  }

  /** The end of the head: just after the first blank line. */
  function HeaderEnd(s: Bytes): Option<nat> {
    match FindSubslice(s, BLANK_LINE)
    case None => None
    case Some(i) => Some(i + 4)
  }

  /**
   The declared number of bytes after the head. Head size and declared length are added in 64 bits: a
   sum beyond them panics, on the addition itself where overflow is checked, and otherwise on slicing
   up to the wrapped sum, which lies before the head's end.
   */
  function Body(s: Bytes, start: nat, head: Head, ending: Ending): Result<Request, ReadError> {
    if start + head.length > U64_MAX then Err(Panicked)
    else if start + head.length <= |s| then Ok(Request(head.path, DecodeLossy(s[start..start + head.length])))
    else Err(if ending.Closed? then ShortBody else IoError)
  }

  /** Parse the stream as one piece at its first blank line. */
  function ParseAt(s: Bytes, start: nat, ending: Ending): Result<Request, ReadError>
    requires start <= |s|
  {
    var head :- ParseHead(s[..start]);
    Body(s, start, head, ending)
  }

  function ParseWhole(s: Bytes, ending: Ending): Result<Request, ReadError> {
    match HeaderEnd(s)
    case None =>
      Err(if |s| > HEADER_LIMIT then RequestTooLarge else if ending.Closed? then ConnectionClosed else IoError)
    case Some(start) => ParseAt(s, start, ending)
  }

  /** The head parses, and its size and the declared length exceed 64 bits together. */
  predicate LengthOverflows(s: Bytes) {
    HeaderEnd(s).Some? && HeaderEnd(s).value <= |s|
    && var start := HeaderEnd(s).value;
       ParseHead(s[..start]).Ok? && start + ParseHead(s[..start]).value.length > U64_MAX
  }

  // ---------- streams ----------

  function Flatten(chunks: seq<Bytes>): Bytes {
    if chunks == [] then [] else chunks[0] + Flatten(chunks[1..])
  }

  lemma {:induction false} FlattenAppend(a: seq<Bytes>, b: seq<Bytes>)
    ensures Flatten(a + b) == Flatten(a) + Flatten(b)
  {
    if a == [] {
      AppendNil(b);
      AppendNil(Flatten(b));
    } else {
      assert (a + b)[1..] == a[1..] + b;
      FlattenAppend(a[1..], b);
      Assoc(a[0], Flatten(a[1..]), Flatten(b));
    }
  }

  lemma FlattenOne(c: Bytes)
    ensures Flatten([c]) == c
  {
    AppendNil(c);
  }

  /** Reads return between 1 and 1024 bytes. */
  predicate ChunksOk(chunks: seq<Bytes>) {
    forall i :: 0 <= i < |chunks| ==> 1 <= |chunks[i]| <= CHUNK
  }

  /** How many bytes the first `k` reads return. */
  function Boundary(chunks: seq<Bytes>, k: nat): nat
    requires k <= |chunks|
  {
    |Flatten(chunks[..k])|
  }

  /** Some read ends past the header limit but before the head does. */
  predicate Overrun(chunks: seq<Bytes>, start: nat) {
    exists k: nat :: k <= |chunks| && HEADER_LIMIT < Boundary(chunks, k) < start
  }

  /** What the streaming reader returns, for any chunking. */
  ghost function Outcome(chunks: seq<Bytes>, ending: Ending): Result<Request, ReadError> {
    var s := Flatten(chunks);
    match HeaderEnd(s)
    case Some(start) => if Overrun(chunks, start) then Err(RequestTooLarge) else ParseAt(s, start, ending)
    case None => ParseWhole(s, ending)
  }

  class ByteStream {
    var chunks: seq<Bytes>
    const ending: Ending

    ghost predicate Valid()
      reads this
    {
      ChunksOk(chunks)
    }

    constructor (chunks: seq<Bytes>, ending: Ending)
      requires ChunksOk(chunks)
      ensures Valid() && this.chunks == chunks && this.ending == ending
    {
      this.chunks := chunks;
      this.ending := ending;
    }

    /** The next chunk; nothing at an orderly end; an error at a failing one. */
    method Read() returns (r: Result<Bytes, ReadError>)
      requires Valid()
      modifies this
      ensures Valid()
      ensures old(chunks) != [] ==> r == Ok(old(chunks)[0]) && chunks == old(chunks)[1..]
      ensures old(chunks) == [] ==> chunks == [] && r == if ending.Closed? then Ok([]) else Err(IoError)
    {
      if chunks != [] {
        r := Ok(chunks[0]);
        chunks := chunks[1..];
      } else if ending.Closed? {
        r := Ok([]);
      } else {
        r := Err(IoError);
      }
    }
  }

  // ---------- the streaming reader ----------

  /** The first blank line of a stream shows up as soon as enough of the stream has been read. */
  lemma HeaderEndInPrefix(s: Bytes, n: nat)
    requires n <= |s|
    ensures HeaderEnd(s[..n]).Some? ==> HeaderEnd(s) == HeaderEnd(s[..n]) && HeaderEnd(s).value <= n
    ensures HeaderEnd(s[..n]).None? && HeaderEnd(s).Some? ==> n < HeaderEnd(s).value
    ensures HeaderEnd(s).Some? ==> 4 <= HeaderEnd(s).value <= |s|
  {
    assert HeaderEnd(s).Some? ==> 4 <= HeaderEnd(s).value <= |s|;
    assert HeaderEnd(s[..n]).Some? ==> HeaderEnd(s[..n]).value <= n;
    hide OccursAt;
    OccursInPrefix(s, n, BLANK_LINE);
    match FindSubslice(s[..n], BLANK_LINE)
    case Some(i) => FindUnique(s, BLANK_LINE, i);
    case None =>
  }

  /** The state of the reader between reads: what was read, and what the stream still holds. */
  ghost predicate Reading(chunks: seq<Bytes>, done: seq<Bytes>, rest: seq<Bytes>, data: Bytes) {
    chunks == done + rest && data == Flatten(done)
  }

  lemma ReadOne(chunks: seq<Bytes>, done: seq<Bytes>, rest: seq<Bytes>, data: Bytes)
    requires Reading(chunks, done, rest, data) && rest != []
    ensures Reading(chunks, done + [rest[0]], rest[1..], data + rest[0])
  {
    FlattenAppend(done, [rest[0]]);
    FlattenOne(rest[0]);
    HeadTail(rest);
    Assoc(done, [rest[0]], rest[1..]);
  }

  lemma ReadingPrefix(chunks: seq<Bytes>, done: seq<Bytes>, rest: seq<Bytes>, data: Bytes)
    requires Reading(chunks, done, rest, data)
    ensures |data| <= |Flatten(chunks)| && data == Flatten(chunks)[..|data|]
    ensures rest == [] ==> data == Flatten(chunks)
    ensures |done| <= |chunks| && Boundary(chunks, |done|) == |data|
  {
    FlattenAppend(done, rest);
    assert chunks[..|done|] == done;
    AppendNil(done);
  }

  lemma {:induction false} BoundaryMonotone(chunks: seq<Bytes>, k: nat, m: nat)
    requires k <= m <= |chunks|
    ensures Boundary(chunks, k) <= Boundary(chunks, m) <= |Flatten(chunks)|
  {
    assert chunks[..m] == chunks[..k] + chunks[k..m];
    FlattenAppend(chunks[..k], chunks[k..m]);
    assert chunks == chunks[..m] + chunks[m..];
    FlattenAppend(chunks[..m], chunks[m..]);
  }

  /** No overrun when the reads before the last stay within the limit and the last reaches the head's end. */
  lemma NoOverrun(chunks: seq<Bytes>, k: nat, start: nat)
    requires k < |chunks| && Boundary(chunks, k) <= HEADER_LIMIT && start <= Boundary(chunks, k + 1)
    ensures !Overrun(chunks, start)
  {
    forall m: nat | m <= |chunks|
      ensures !(HEADER_LIMIT < Boundary(chunks, m) < start)
    {
      if m <= k {
        BoundaryMonotone(chunks, m, k);
      } else {
        BoundaryMonotone(chunks, k + 1, m);
      }
    }
  }

  /** The read loop for the head: stops at the first blank line, or once too much came without one. */
  method ReadHeader(stream: ByteStream) returns (r: Result<(Bytes, nat), ReadError>, ghost done: seq<Bytes>)
    requires stream.Valid()
    modifies stream
    ensures stream.Valid()
    ensures r.Err? ==> Outcome(old(stream.chunks), stream.ending) == Err(r.error)
    ensures r.Ok? ==> Reading(old(stream.chunks), done, stream.chunks, r.value.0)
    ensures r.Ok? ==> HeaderEnd(Flatten(old(stream.chunks))) == Some(r.value.1) && r.value.1 <= |r.value.0|
    ensures r.Ok? ==> !Overrun(old(stream.chunks), r.value.1) && |r.value.0| <= HEADER_LIMIT + CHUNK
  {
    hide Flatten, FindSubslice, HeaderEnd, Boundary, Overrun, ParseAt;
    ghost var chunks := stream.chunks;
    ghost var s := Flatten(chunks);
    var data: Bytes := [];
    done := [];
    ReadingStart(chunks);
    while true
      invariant stream.Valid() && Reading(chunks, done, stream.chunks, data)
      invariant |data| <= HEADER_LIMIT && HeaderEnd(data).None?
      decreases |stream.chunks|
    {
      ReadingPrefix(chunks, done, stream.chunks, data);
      HeaderEndInPrefix(s, |data|);
      label before:
      var read := stream.Read();
      if read.Err? {
        return Err(IoError), done;
      }
      if |read.value| == 0 {
        return Err(ConnectionClosed), done;
      }
      ReadOne(chunks, done, old@before(stream.chunks), data);
      done := done + [read.value];
      data := data + read.value;
      ReadingPrefix(chunks, done, stream.chunks, data);
      HeaderEndInPrefix(s, |data|);
      assert |chunks| >= |done| && chunks[..|done| - 1] == done[..|done| - 1];
      var index := FindSubslice(data, BLANK_LINE);
      if index.Some? {
        HeaderFound(data, index.value);
        NoOverrun(chunks, |done| - 1, index.value + 4);
        return Ok((data, index.value + 4)), done;
      }
      HeaderMissing(data);
      if |data| > HEADER_LIMIT {
        OverrunAt(chunks, stream.ending, |done|);
        return Err(RequestTooLarge), done;
      }
    }
  }

  lemma HeaderFound(data: Bytes, i: nat)
    requires FindSubslice(data, BLANK_LINE) == Some(i)
    ensures HeaderEnd(data) == Some(i + 4)
  {
  }

  lemma HeaderMissing(data: Bytes)
    requires FindSubslice(data, BLANK_LINE) == None
    ensures HeaderEnd(data) == None
  {
  }

  /** More than the limit without a blank line: too large, whatever follows. */
  lemma OverrunAt(chunks: seq<Bytes>, ending: Ending, k: nat)
    requires k <= |chunks| && Boundary(chunks, k) > HEADER_LIMIT
    requires HeaderEnd(Flatten(chunks)).Some? ==> Boundary(chunks, k) < HeaderEnd(Flatten(chunks)).value
    ensures Outcome(chunks, ending) == Err(RequestTooLarge)
  {
    hide FindSubslice, Flatten, ParseAt, HeaderEnd;
    assert Boundary(chunks, k) <= |Flatten(chunks)| by {
      BoundaryMonotone(chunks, k, k);
    }
    if HeaderEnd(Flatten(chunks)).Some? {
      assert Overrun(chunks, HeaderEnd(Flatten(chunks)).value);
    }
  }

  lemma ReadingStart(chunks: seq<Bytes>)
    ensures Reading(chunks, [], chunks, []) && HeaderEnd([]).None?
  {
    AppendNil(chunks);
  }

  /** The read loop for the body; surplus bytes are ignored. */
  method ReadBody(
    stream: ByteStream, ghost chunks: seq<Bytes>, ghost before: seq<Bytes>, header: Bytes, start: nat, head: Head)
    returns (r: Result<Request, ReadError>)
    requires stream.Valid() && Reading(chunks, before, stream.chunks, header) && start <= |header| <= U64_MAX
    modifies stream
    ensures r == Body(Flatten(chunks), start, head, stream.ending)
  {
    hide Flatten, DecodeLossy;
    ghost var s := Flatten(chunks);
    ghost var done := before;
    var data := header;
    var end := WrappingAdd(start, head.length);
    ReadingPrefix(chunks, done, stream.chunks, data);
    while |data| < end
      invariant stream.Valid() && Reading(chunks, done, stream.chunks, data)
      invariant |data| <= |s| && data == s[..|data|] && start <= |data|
      decreases |stream.chunks|
    {
      label before:
      var read := stream.Read();
      if read.Err? {
        ReadingPrefix(chunks, done, [], data);
        return Err(IoError);
      }
      if |read.value| == 0 {
        ReadingPrefix(chunks, done, [], data);
        break;
      }
      ReadOne(chunks, done, old@before(stream.chunks), data);
      done := done + [read.value];
      data := data + read.value;
      ReadingPrefix(chunks, done, stream.chunks, data);
    }
    if |data| < end {
      return Err(ShortBody);
    }
    if end < start {
      return Err(Panicked);
    }
    assert data[start..end] == s[start..end];
    return Ok(Request(head.path, DecodeLossy(data[start..end])));
  }

  /** The last well-formed Content-Length of the header lines. */
  method ScanContentLength(lines: seq<string>) returns (length: u64)
    ensures length == ContentLength(lines)
  {
    length := 0;
    for i := 0 to |lines|
      invariant length == ContentLength(lines[..i])
    {
      assert lines[..i + 1][..i] == lines[..i];
      length := AbsorbHeader(length, lines[i]);
    }
    assert lines[..|lines|] == lines;
  }

  /** The streaming reader refines the whole-stream parser; its header buffer stays bounded. */
  method ReadHttpRequest(stream: ByteStream) returns (r: Result<Request, ReadError>, ghost headerPeak: nat)
    requires stream.Valid()
    modifies stream
    ensures r == Outcome(old(stream.chunks), stream.ending)
    ensures headerPeak <= 66560
  {
    hide Flatten, Overrun, HeaderEnd, Body, Lines, SplitWs, ContentLength, DecodeLossy, Reading;
    ghost var chunks := stream.chunks;
    ghost var s := Flatten(chunks);
    headerPeak := 0;
    var header, done := ReadHeader(stream);
    if header.Err? {
      return Err(header.error), 0;
    }
    var (data, headerEnd) := header.value;
    headerPeak := |data|;
    ReadingPrefix(chunks, done, stream.chunks, data);
    assert data[..headerEnd] == s[..headerEnd];
    var lines := Lines(DecodeLossy(data[..headerEnd]));
    if lines == [] {
      return Err(MissingRequestLine), headerPeak;
    }
    var requestParts := SplitWs(lines[0]);
    if |requestParts| == 0 {
      return Err(MissingMethod), headerPeak;
    }
    if |requestParts| == 1 {
      return Err(MissingPath), headerPeak;
    }
    var length := ScanContentLength(lines[1..]);
    r := ReadBody(stream, chunks, done, data, headerEnd, Head(requestParts[1], length));
  }

  lemma HeadNeverPanics(head: Bytes)
    ensures ParseHead(head) != Err(Panicked)
  {
    hide DecodeLossy, Lines, SplitWs, ContentLength;
  }

  lemma ParsePanicsIff(s: Bytes, start: nat, ending: Ending)
    requires start <= |s|
    ensures ParseAt(s, start, ending) == Err(Panicked)
       <==> ParseHead(s[..start]).Ok? && start + ParseHead(s[..start]).value.length > U64_MAX
  {
    hide ParseHead, DecodeLossy;
    HeadNeverPanics(s[..start]);
  }

  /** The reader panics exactly when the head is read and its size and declared length exceed 64 bits together. */
  lemma PanicsIff(chunks: seq<Bytes>, ending: Ending)
    ensures Outcome(chunks, ending) == Err(Panicked)
       <==> LengthOverflows(Flatten(chunks)) && !Overrun(chunks, HeaderEnd(Flatten(chunks)).value)
  {
    hide Flatten, HeaderEnd, Overrun, ParseAt, ParseHead;
    var s := Flatten(chunks);
    HeaderEndInPrefix(s, |s|);
    if HeaderEnd(s).Some? {
      ParsePanicsIff(s, HeaderEnd(s).value, ending);
    }
  }

  // ---------- independence of the chunking ----------

  /** Streams on which the header limit cannot be hit for one chunking and missed for another. */
  predicate ChunkSafe(s: Bytes) {
    match HeaderEnd(s)
    case None => true
    case Some(start) => start <= 65537 || start > 66560
  }

  lemma {:induction false} CrossLimit(chunks: seq<Bytes>, k: nat) returns (m: nat)
    requires ChunksOk(chunks) && k <= |chunks| && Boundary(chunks, k) > HEADER_LIMIT
    ensures m <= k && HEADER_LIMIT < Boundary(chunks, m) <= HEADER_LIMIT + CHUNK
    decreases k
  {
    m := k;
    if k > 0 {
      assert chunks[..k] == chunks[..k - 1] + [chunks[k - 1]];
      FlattenAppend(chunks[..k - 1], [chunks[k - 1]]);
      FlattenOne(chunks[k - 1]);
      hide Flatten;
      if Boundary(chunks, k - 1) > HEADER_LIMIT {
        m := CrossLimit(chunks, k - 1);
      }
    }
  }

  /** On a chunk-safe stream the chunking does not matter. */
  lemma SafeOutcome(chunks: seq<Bytes>, ending: Ending)
    requires ChunksOk(chunks) && ChunkSafe(Flatten(chunks))
    ensures var s := Flatten(chunks);
            Outcome(chunks, ending) == (if HeaderEnd(s).Some? && HeaderEnd(s).value > HEADER_LIMIT + CHUNK
                                        then Err(RequestTooLarge) else ParseWhole(s, ending))
  {
    var s := Flatten(chunks);
    HeaderEndInPrefix(s, |s|);
    hide Flatten, HeaderEnd, ParseAt;
    if HeaderEnd(s).Some? && HeaderEnd(s).value > HEADER_LIMIT + CHUNK {
      assert chunks[..|chunks|] == chunks;
      var m := CrossLimit(chunks, |chunks|);
      assert Overrun(chunks, HeaderEnd(s).value);
    }
  }

  // Two chunkings that differ when the head ends in the grey zone after the limit.

  function Blocks(s: Bytes): seq<Bytes>
    decreases |s|
  {
    if |s| == 0 then [] else if |s| <= CHUNK then [s] else [s[..CHUNK]] + Blocks(s[CHUNK..])
  }

  lemma {:induction false} BlocksShape(s: Bytes)
    ensures ChunksOk(Blocks(s)) && Flatten(Blocks(s)) == s
    decreases |s|
  {
    if 0 < |s| <= CHUNK {
      FlattenOne(s);
    } else if |s| > CHUNK {
      BlocksShape(s[CHUNK..]);
      assert s == s[..CHUNK] + s[CHUNK..];
      assert Blocks(s)[1..] == Blocks(s[CHUNK..]);
    }
  }

  lemma {:induction false} BlocksBoundary(s: Bytes, k: nat)
    requires k <= |Blocks(s)|
    ensures Boundary(Blocks(s), k) == if CHUNK * k <= |s| then CHUNK * k else |s|
    decreases |s|
  {
    if k > 0 && 0 < |s| <= CHUNK {
      FlattenOne(s);
      assert Blocks(s)[..k] == [s];
    } else if k > 0 && |s| > CHUNK {
      BlocksBoundary(s[CHUNK..], k - 1);
      assert Blocks(s)[..k] == [s[..CHUNK]] + Blocks(s[CHUNK..])[..k - 1];
    }
  }

  /** The chunkings of one stream. */
  ghost predicate Chunks(chunks: seq<Bytes>, s: Bytes) {
    ChunksOk(chunks) && Flatten(chunks) == s
  }

  /** Cut one byte past the limit: the head is still open there. */
  lemma CutPastLimit(s: Bytes, start: nat) returns (a: seq<Bytes>)
    requires HEADER_LIMIT + 1 < start <= |s|
    ensures Chunks(a, s) && Overrun(a, start)
  {
    hide Flatten, Blocks;
    var head, one, rest := s[..HEADER_LIMIT], s[HEADER_LIMIT..HEADER_LIMIT + 1], s[HEADER_LIMIT + 1..];
    BlocksShape(head);
    BlocksShape(rest);
    a := Blocks(head) + [one] + Blocks(rest);
    FlattenAppend(Blocks(head) + [one], Blocks(rest));
    FlattenAppend(Blocks(head), [one]);
    FlattenOne(one);
    assert s == head + one + rest;
    assert a[..|Blocks(head)| + 1] == Blocks(head) + [one];
    assert Boundary(a, |Blocks(head)| + 1) == HEADER_LIMIT + 1;
  }

  /** Full reads only: the read that crosses the limit also reaches the end of the head. */
  lemma FullReads(s: Bytes, start: nat)
    requires start <= |s| && start <= HEADER_LIMIT + CHUNK
    ensures Chunks(Blocks(s), s) && !Overrun(Blocks(s), start)
  {
    BlocksShape(s);
    hide Flatten, Blocks, Boundary;
    forall k: nat | k <= |Blocks(s)|
      ensures !(HEADER_LIMIT < Boundary(Blocks(s), k) < start)
    {
      BlocksBoundary(s, k);
    }
  }

  lemma GreyZone(s: Bytes, ending: Ending) returns (a: seq<Bytes>, b: seq<Bytes>)
    requires !ChunkSafe(s)
    ensures Chunks(a, s) && Chunks(b, s) && Outcome(a, ending) != Outcome(b, ending)
  {
    hide Flatten, HeaderEnd, Blocks, Overrun, ParseAt, ChunksOk;
    HeaderEndInPrefix(s, |s|);
    var start := HeaderEnd(s).value;
    a := CutPastLimit(s, start);
    b := Blocks(s);
    FullReads(s, start);
    NeverTooLarge(s, start, ending);
  }

  lemma NeverTooLarge(s: Bytes, start: nat, ending: Ending)
    requires start <= |s|
    ensures ParseAt(s, start, ending) != Err(RequestTooLarge)
  {
    hide DecodeLossy, Lines, SplitWs, ContentLength;
  }

  /** The reader's answer is independent of how the network cuts the stream exactly on chunk-safe streams. */
  lemma ChunkingIff(s: Bytes, ending: Ending)
    ensures ChunkSafe(s) <==> forall a, b :: Chunks(a, s) && Chunks(b, s) ==> Outcome(a, ending) == Outcome(b, ending)
  {
    hide ChunkSafe, Outcome, ChunksOk;
    if ChunkSafe(s) {
      forall a, b | Chunks(a, s) && Chunks(b, s)
        ensures Outcome(a, ending) == Outcome(b, ending)
      {
        SafeOutcome(a, ending);
        SafeOutcome(b, ending);
      }
    } else {
      var a, b := GreyZone(s, ending);
    }
  }
}
