/**
 * The write callback libcurl calls while a range request is answered: once
 * for the status line, once per header line, then once or more per body
 * chunk.  The state it keeps is the part of `struct httpfs_buffer` the
 * callback touches: `status`, `in_header`, the three `remote_*` fields and the
 * cursor `len` into the destination buffer.
 *
 * `Step` and `Run` say, on values, what one call and a whole response do;
 * `ResponseBuffer` is the struct itself, whose `Feed` is proved to do what
 * `Step` says.  The response code libcurl reports through
 * curl_easy_getinfo is an input: `None` when the lookup fails.
 */
module ResponseParser {
  import opened LibcText
  import opened RangeHeader

  datatype Phase = AwaitingStatus | InHeaders | InBody

  /**
   * The callback's view of a fetch.  `captured` is what the body phase has
   * copied into the destination, so its length is the struct's `len`.
   */
  datatype ParseState = ParseState(
    status: int,
    inHeader: bool,
    remoteStart: int,
    remoteChunk: int,
    remoteSize: int,
    captured: seq<char>)
  {
    /** `status == 0` routes a call to status parsing, `in_header` to header parsing. */
    function Phase(): Phase
    {
      if status == 0 then AwaitingStatus else if inHeader then InHeaders else InBody
    }
  }

  function Rank(p: Phase): nat
  {
    match p
    case AwaitingStatus => 0
    case InHeaders => 1
    case InBody => 2
  }

  /**
   * What the callback returns: the whole chunk length when it takes the chunk,
   * or the sentinel (size_t)-1, which makes libcurl abort the transfer.
   */
  datatype Reply = Accepted(count: nat) | Rejected

  datatype StepResult = StepResult(reply: Reply, next: ParseState)

  /** A zeroed struct whose `remote_size` is then set to -1 ("unknown"). */
  const Initial: ParseState := ParseState(0, false, 0, 0, -1, [])

  const BlankLine: seq<char> := "\r\n"

  const PartialContent: int := 206
  const RangeNotSatisfiable: int := 416

  /** Status phase: only 2xx moves on; 416 is swallowed; anything else aborts. */
  function StatusStep(code: Option<int>, s: ParseState, chunk: seq<char>): (r: StepResult)
    ensures r.reply.Accepted? <==> code.Some? && (code.value == RangeNotSatisfiable || 200 <= code.value < 300)
    ensures r.reply.Accepted? ==> r.reply.count == |chunk|
    ensures r.next.captured == s.captured
    ensures r.next != s ==> code.Some? && r.next == s.(status := code.value, inHeader := true) && 200 <= r.next.status < 300
    ensures code == Some(RangeNotSatisfiable) ==> r.next == s
    ensures code.Some? && code.value != RangeNotSatisfiable && 200 <= code.value < 300 ==>
              r.next == s.(status := code.value, inHeader := true)
  {
    match code
    case None => StepResult(Rejected, s)
    case Some(c) =>
      if c == RangeNotSatisfiable then StepResult(Accepted(|chunk|), s)
      else if c < 200 || 300 <= c then StepResult(Rejected, s)
      else StepResult(Accepted(|chunk|), s.(status := c, inHeader := true))
  }

  /**
   * Header phase.  The blank line ends the headers, unless a 206 reply has not
   * yet given a usable Content-Range; a reply other than 206 is refused at its
   * first header line.
   */
  function HeaderStep(s: ParseState, chunk: seq<char>): (r: StepResult)
    ensures r.reply.Rejected? <==> s.status != PartialContent || (chunk == BlankLine && s.remoteSize == -1)
    ensures r.reply.Accepted? ==> r.reply.count == |chunk|
    ensures r.next.status == s.status && r.next.captured == s.captured
    ensures r.reply.Accepted? ==> (r.next.inHeader <==> s.inHeader && chunk != BlankLine)
    ensures s.status == PartialContent && ParseContentRange(chunk).Some? ==>
              var cr := ParseContentRange(chunk).value;
              r.next.remoteStart == cr.first && r.next.remoteChunk == cr.last + 1 - cr.first &&
              r.next.remoteSize == cr.complete
    ensures s.status != PartialContent || ParseContentRange(chunk).None? ==>
              r.next.remoteStart == s.remoteStart && r.next.remoteChunk == s.remoteChunk &&
              r.next.remoteSize == s.remoteSize
  {
    if chunk == BlankLine && s.status == PartialContent && s.remoteSize == -1 then StepResult(Rejected, s)
    else
      var s1 := if chunk == BlankLine then s.(inHeader := false) else s;
      if s.status != PartialContent then StepResult(Rejected, s1)
      else match ParseContentRange(chunk)
        case None => StepResult(Accepted(|chunk|), s1)
        case Some(cr) =>
          StepResult(Accepted(|chunk|),
                     s1.(remoteStart := cr.first, remoteChunk := cr.last + 1 - cr.first, remoteSize := cr.complete))
  }

  /** How many bytes of a chunk the body phase keeps: as many as there is room for. */
  function Room(destlen: nat, used: nat, chunkLength: nat): (k: nat)
    requires used <= destlen
    ensures k <= chunkLength && used + k <= destlen
    ensures k == chunkLength || used + k == destlen
  {
    if destlen - used >= chunkLength then chunkLength else destlen - used
  }

  /** Body phase: copy what fits, and report the whole chunk as taken. */
  function BodyStep(destlen: nat, s: ParseState, chunk: seq<char>): (r: StepResult)
    requires |s.captured| <= destlen
    ensures r.reply == Accepted(|chunk|)
    ensures r.next == s.(captured := Truncate(s.captured + chunk, destlen))
  {
    var k := Room(destlen, |s.captured|, |chunk|);
    assert k < |chunk| ==> (s.captured + chunk)[..destlen] == s.captured + chunk[..k];
    assert k == |chunk| ==> chunk[..k] == chunk;
    StepResult(Accepted(|chunk|), s.(captured := s.captured + chunk[..Room(destlen, |s.captured|, |chunk|)]))
  }

  /** One call of the write callback. */
  function Step(code: Option<int>, destlen: nat, s: ParseState, chunk: seq<char>): (r: StepResult)
    requires |s.captured| <= destlen
    ensures |r.next.captured| <= destlen
    ensures r.reply.Accepted? ==> r.reply.count == |chunk|
    ensures s.captured <= r.next.captured
    ensures s.Phase() != InBody ==> r.next.captured == s.captured
    ensures Rank(s.Phase()) <= Rank(r.next.Phase())
    ensures s.Phase() == InBody ==> r.next.Phase() == InBody && r.reply.Accepted?
    ensures s.Phase() == AwaitingStatus ==> r.next.Phase() != InBody
  {
    if s.status == 0 then StatusStep(code, s, chunk)
    else if s.inHeader then HeaderStep(s, chunk)
    else BodyStep(destlen, s, chunk)
  }

  /** A whole response: libcurl stops calling the callback once it refuses a chunk. */
  datatype RunResult = RunResult(ok: bool, state: ParseState)

  function Run(code: Option<int>, destlen: nat, s: ParseState, chunks: seq<seq<char>>): (r: RunResult)
    requires |s.captured| <= destlen
    ensures |r.state.captured| <= destlen
    ensures s.captured <= r.state.captured
    ensures Rank(s.Phase()) <= Rank(r.state.Phase())
    decreases |chunks|
  {
    if chunks == [] then RunResult(true, s)
    else
      var st := Step(code, destlen, s, chunks[0]);
      if st.reply.Rejected? then RunResult(false, st.next)
      else Run(code, destlen, st.next, chunks[1..])
  }

  /** The bytes of a sequence of chunks, in order. */
  function Concat(chunks: seq<seq<char>>): (r: seq<char>)
  {
    if chunks == [] then [] else chunks[0] + Concat(chunks[1..])
  }

  /** The first `destlen` bytes of `s`, or all of it if it is shorter. */
  function Truncate(s: seq<char>, destlen: nat): (r: seq<char>)
  {
    if |s| <= destlen then s else s[..destlen]
  }

  /** Running a response in two pieces is running it at once. */
  lemma {:induction false} RunAppend(code: Option<int>, destlen: nat, s: ParseState, a: seq<seq<char>>, b: seq<seq<char>>)
    requires |s.captured| <= destlen
    ensures var ra := Run(code, destlen, s, a);
            Run(code, destlen, s, a + b) == if ra.ok then Run(code, destlen, ra.state, b) else ra
    decreases |a|
  {
    if a != [] {
      assert (a + b)[0] == a[0];
      assert (a + b)[1..] == a[1..] + b;
      var st := Step(code, destlen, s, a[0]);
      if st.reply.Accepted? {
        RunAppend(code, destlen, st.next, a[1..], b);
      }
    } else {
      assert a + b == b;
    }
  }

  /**
   * After a 416 the status is never recorded, so every later chunk, headers
   * and body alike, goes back to status parsing and is swallowed: the fetch
   * succeeds and nothing is captured.
   */
  lemma {:induction false} RangeNotSatisfiableSwallowsAll(destlen: nat, s: ParseState, chunks: seq<seq<char>>)
    requires s.status == 0 && |s.captured| <= destlen
    ensures Run(Some(RangeNotSatisfiable), destlen, s, chunks) == RunResult(true, s)
    decreases |chunks|
  {
    if chunks != [] {
      RangeNotSatisfiableSwallowsAll(destlen, s, chunks[1..]);
    }
  }

  /**
   * A failed response-code lookup, or a code outside [200,300) other than
   * 416 (3xx included: redirects are not followed), aborts at the first chunk.
   */
  lemma BadStatusAborts(code: Option<int>, destlen: nat, s: ParseState, chunks: seq<seq<char>>)
    requires s.status == 0 && |s.captured| <= destlen
    requires code.None? || (code.value != RangeNotSatisfiable && (code.value < 200 || 300 <= code.value))
    requires chunks != []
    ensures Run(code, destlen, s, chunks) == RunResult(false, s)
  {
  }

  /** A 2xx reply other than 206 (a whole-resource 200 among them) aborts at its first header line. */
  lemma OtherSuccessAborts(c: int, destlen: nat, s: ParseState, chunks: seq<seq<char>>)
    requires s.status == 0 && |s.captured| <= destlen
    requires 200 <= c < 300 && c != PartialContent
    requires |chunks| >= 2
    ensures !Run(Some(c), destlen, s, chunks).ok
    ensures Run(Some(c), destlen, s, chunks).state.captured == s.captured
  {
    var s1 := s.(status := c, inHeader := true);
    assert Step(Some(c), destlen, s, chunks[0]) == StepResult(Accepted(|chunks[0]|), s1);
    assert chunks[1..][0] == chunks[1];
  }

  /** Header lines other than the blank line that carry no Content-Range change nothing. */
  predicate PlainHeaders(headers: seq<seq<char>>)
  {
    forall i :: 0 <= i < |headers| ==> headers[i] != BlankLine && ParseContentRange(headers[i]).None?
  }

  lemma {:induction false} PlainHeadersKeepState(destlen: nat, s: ParseState, headers: seq<seq<char>>)
    requires s.status == PartialContent && s.inHeader && |s.captured| <= destlen
    requires PlainHeaders(headers)
    ensures Run(Some(PartialContent), destlen, s, headers) == RunResult(true, s)
    decreases |headers|
  {
    if headers != [] {
      assert headers[0] != BlankLine && ParseContentRange(headers[0]).None?;
      PlainHeadersKeepState(destlen, s, headers[1..]);
    }
  }

  /** A 206 whose headers carry no usable Content-Range fails at the blank line. */
  lemma MissingContentRangeAborts(destlen: nat, statusLine: seq<char>, headers: seq<seq<char>>, rest: seq<seq<char>>)
    requires PlainHeaders(headers)
    ensures !Run(Some(PartialContent), destlen, Initial, [statusLine] + headers + [BlankLine] + rest).ok
  {
    var s1 := Initial.(status := PartialContent, inHeader := true);
    RunAppend(Some(PartialContent), destlen, Initial, [statusLine], headers + [BlankLine] + rest);
    assert [statusLine] + headers + [BlankLine] + rest == [statusLine] + (headers + ([BlankLine] + rest));
    RunAppend(Some(PartialContent), destlen, s1, headers, [BlankLine] + rest);
    PlainHeadersKeepState(destlen, s1, headers);
  }

  /**
   * In the body phase a run copies the body into the destination until it is
   * full, drops the rest, and succeeds.
   */
  lemma {:induction false} BodyCapture(destlen: nat, s: ParseState, chunks: seq<seq<char>>, code: Option<int>)
    requires s.Phase() == InBody && |s.captured| <= destlen
    ensures Run(code, destlen, s, chunks) ==
            RunResult(true, s.(captured := Truncate(s.captured + Concat(chunks), destlen)))
    decreases |chunks|
  {
    if chunks == [] {
      assert s.captured + [] == s.captured;
    } else {
      var c := chunks[0];
      var k := Room(destlen, |s.captured|, |c|);
      var s1 := s.(captured := s.captured + c[..k]);
      BodyCapture(destlen, s1, chunks[1..], code);
      var whole := s.captured + Concat(chunks);
      assert whole == s.captured + c + Concat(chunks[1..]);
      if k == |c| {
        assert c[..k] == c;
      } else {
        assert |s1.captured| == destlen;
        assert whole[..destlen] == s1.captured;
        assert (s1.captured + Concat(chunks[1..]))[..destlen] == s1.captured;
      }
    }
  }

  /** A 206 header line carrying a usable Content-Range records its three numbers. */
  lemma RangeLineStep(destlen: nat, s: ParseState, rangeLine: seq<char>, cr: ContentRange)
    requires s.status == PartialContent && s.inHeader && |s.captured| <= destlen
    requires ParseContentRange(rangeLine) == Some(cr)
    ensures Step(Some(PartialContent), destlen, s, rangeLine) ==
            StepResult(Accepted(|rangeLine|),
                       s.(remoteStart := cr.first, remoteChunk := cr.last + 1 - cr.first, remoteSize := cr.complete))
  {
    assert |rangeLine| >= |FieldName|;
  }

  /** Once a 206 has given its total size, the blank line opens the body. */
  lemma BlankLineStep(destlen: nat, s: ParseState)
    requires s.status == PartialContent && s.inHeader && s.remoteSize != -1 && |s.captured| <= destlen
    ensures Step(Some(PartialContent), destlen, s, BlankLine) == StepResult(Accepted(2), s.(inHeader := false))
  {
  }

  /** A run whose first step is known. */
  lemma RunFirst(code: Option<int>, destlen: nat, s: ParseState, c: seq<char>, rest: seq<seq<char>>, s': ParseState)
    requires |s.captured| <= destlen
    requires Step(code, destlen, s, c) == StepResult(Accepted(|c|), s')
    ensures Run(code, destlen, s, [c] + rest) == Run(code, destlen, s', rest)
  {
    assert ([c] + rest)[0] == c;
    assert ([c] + rest)[1..] == rest;
  }

  /** The Content-Range line, then the blank line that ends the headers, then the body. */
  lemma RangeLineThenBody(destlen: nat, s: ParseState, rangeLine: seq<char>, cr: ContentRange, body: seq<seq<char>>)
    requires s.status == PartialContent && s.inHeader && s.captured == []
    requires ParseContentRange(rangeLine) == Some(cr)
    ensures Run(Some(PartialContent), destlen, s, [rangeLine] + ([BlankLine] + body)) ==
            RunResult(true, s.(remoteStart := cr.first, remoteChunk := cr.last + 1 - cr.first,
                               remoteSize := cr.complete, inHeader := false,
                               captured := Truncate(Concat(body), destlen)))
  {
    var code := Some(PartialContent);
    var s2 := s.(remoteStart := cr.first, remoteChunk := cr.last + 1 - cr.first, remoteSize := cr.complete);
    var s3 := s2.(inHeader := false);
    RangeLineStep(destlen, s, rangeLine, cr);
    RunFirst(code, destlen, s, rangeLine, [BlankLine] + body, s2);
    BlankLineStep(destlen, s2);
    RunFirst(code, destlen, s2, BlankLine, body, s3);
    BodyCapture(destlen, s3, body, code);
    assert s3.captured + Concat(body) == Concat(body);
  }

  lemma ResponseShape(statusLine: seq<char>, headers: seq<seq<char>>, rangeLine: seq<char>, body: seq<seq<char>>)
    ensures [statusLine] + headers + [rangeLine, BlankLine] + body
         == [statusLine] + (headers + ([rangeLine] + ([BlankLine] + body)))
  {
  }

  /**
   * A well-formed 206 reply: its status line, header lines of no interest, a
   * Content-Range line, the blank line and the body.  The fetch succeeds, the
   * served span and the total size are those of the header, and the
   * destination holds the body as far as it has room.
   */
  lemma PartialContentCaptured(destlen: nat, statusLine: seq<char>, headers: seq<seq<char>>,
                               rangeLine: seq<char>, cr: ContentRange, body: seq<seq<char>>)
    requires PlainHeaders(headers)
    requires ParseContentRange(rangeLine) == Some(cr)
    ensures var r := Run(Some(PartialContent), destlen, Initial,
                         [statusLine] + headers + [rangeLine, BlankLine] + body);
            r.ok && r.state.Phase() == InBody &&
            r.state.remoteStart == cr.first && r.state.remoteChunk == cr.last + 1 - cr.first &&
            r.state.remoteSize == cr.complete &&
            r.state.captured == Truncate(Concat(body), destlen)
  {
    var code := Some(PartialContent);
    var s1 := Initial.(status := PartialContent, inHeader := true);
    var tail := [rangeLine] + ([BlankLine] + body);
    ResponseShape(statusLine, headers, rangeLine, body);
    RunFirst(code, destlen, Initial, statusLine, headers + tail, s1);
    RunAppend(code, destlen, s1, headers, tail);
    PlainHeadersKeepState(destlen, s1, headers);
    RangeLineThenBody(destlen, s1, rangeLine, cr, body);
  }

  /**
   * `struct httpfs_buffer`: the URL, the caller's destination `dest` with its
   * capacity `destlen`, the cursor `len` and the parse state.
   */
  class ResponseBuffer {
    const url: seq<char>
    var status: int
    var remoteStart: int
    var remoteChunk: int
    var remoteSize: int
    const dest: array<char>
    const destlen: nat
    var len: nat
    var inHeader: bool

    ghost predicate Valid()
      reads this
    {
      len <= destlen <= dest.Length
    }

    /** The value this struct stands for; `dest[..len]` is what the body phase copied. */
    ghost function State(): ParseState
      reads this, dest
      requires Valid()
    {
      ParseState(status, inHeader, remoteStart, remoteChunk, remoteSize, dest[..len])
    }

    /** The struct as the read path sets it up: zeroed, then url, dest, destlen and remote_size = -1. */
    constructor (url: seq<char>, dest: array<char>, destlen: nat)
      requires destlen <= dest.Length
      ensures Valid() && State() == Initial
      ensures this.url == url && this.dest == dest && this.destlen == destlen
    {
      this.url := url;
      this.dest := dest;
      this.destlen := destlen;
      status, inHeader := 0, false;
      remoteStart, remoteChunk, remoteSize := 0, 0, -1;
      len := 0;
    }

    /** my_parse_status */
    method ParseStatus(code: Option<int>, chunk: seq<char>) returns (reply: Reply)
      requires Valid()
      modifies this
      ensures Valid() && len == old(len)
      ensures StepResult(reply, State()) == StatusStep(code, old(State()), chunk)
    {
      if code.None? {
        return Rejected;
      }
      var response := code.value;
      if response == RangeNotSatisfiable {
        return Accepted(|chunk|);
      }
      if response < 200 || 300 <= response {
        return Rejected;
      }
      status := response;
      inHeader := true;
      return Accepted(|chunk|);
    }

    /** my_parse_header */
    method ParseHeader(chunk: seq<char>) returns (reply: Reply)
      requires Valid()
      modifies this
      ensures Valid() && len == old(len)
      ensures StepResult(reply, State()) == HeaderStep(old(State()), chunk)
    {
      if chunk == BlankLine {
        if status == PartialContent && remoteSize == -1 {
          return Rejected;
        }
        inHeader := false;
      }
      if status == PartialContent {
        var parsed := ParseContentRange(chunk);
        if parsed.Some? {
          remoteStart := parsed.value.first;
          remoteChunk := parsed.value.last + 1 - parsed.value.first;
          remoteSize := parsed.value.complete;
        }
      } else {
        return Rejected;
      }
      return Accepted(|chunk|);
    }

    /**
     * my_write_callback: dispatch on the phase; in the body phase copy what
     * fits at the cursor and report the whole chunk as taken.
     */
    method Feed(code: Option<int>, chunk: seq<char>) returns (reply: Reply)
      requires Valid()
      modifies this, dest
      ensures Valid() && old(len) <= len
      ensures StepResult(reply, State()) == Step(code, destlen, old(State()), chunk)
      ensures forall i :: len <= i < dest.Length ==> dest[i] == old(dest[i])
    {
      if status == 0 {
        reply := ParseStatus(code, chunk);
        return;
      }
      if inHeader {
        reply := ParseHeader(chunk);
        return;
      }
      var n := Room(destlen, len, |chunk|);
      CopyIn(chunk, n);
      len := len + n;
      reply := Accepted(|chunk|);
    }

    /** The memcpy of the body phase: the first `n` bytes of `chunk` go to `dest` at the cursor. */
    method CopyIn(chunk: seq<char>, n: nat)
      requires Valid() && n <= |chunk| && len + n <= destlen
      modifies dest
      ensures dest[..len] == old(dest[..len])
      ensures dest[len..len + n] == chunk[..n]
      ensures forall i :: len + n <= i < dest.Length ==> dest[i] == old(dest[i])
    {
      var i := 0;
      while i < n
        invariant 0 <= i <= n
        invariant dest[..len] == old(dest[..len])
        invariant forall j :: 0 <= j < i ==> dest[len + j] == chunk[j]
        invariant forall j :: len + i <= j < dest.Length ==> dest[j] == old(dest[j])
      {
        dest[len + i] := chunk[i];
        i := i + 1;
      }
      assert dest[len..len + n] == chunk[..n];
    }
  }
}
