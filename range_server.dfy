/**
 * A server that answers range requests for one resource as RFC 9110 says
 * (sections 14.2, 14.4, 15.3.7 and 15.5.17), and what the read path makes
 * of its replies: each read yields exactly the requested bytes that exist,
 * the first read learns the size, and reads that follow one another tile
 * the resource.
 */
module RangeServer {
  import opened LibcText
  import opened RangeHeader
  import opened ResponseParser
  import opened RangeFetch
  import opened HttpFs

  const OkStatusLine: seq<char> := "HTTP/1.1 200 OK\r\n"
  const PartialStatusLine: seq<char> := "HTTP/1.1 206 Partial Content\r\n"
  const UnsatisfiableStatusLine: seq<char> := "HTTP/1.1 416 Range Not Satisfiable\r\n"

  /** The Content-Range a 416 carries: no span, only the size. */
  function UnsatisfiedRangeLine(complete: nat): seq<char>
  {
    FieldName + " bytes */" + Decimal(complete) + "\r\n"
  }

  /** The whole resource, as a server sends it when it ignores a Range it cannot read. */
  function WholeResource(resource: seq<char>): Exchange
  {
    Exchange(Some(200), [OkStatusLine, BlankLine, resource], true)
  }

  /** A 206 reply carrying bytes `first` through `last` of the resource. */
  function PartialReply(resource: seq<char>, first: nat, last: nat): Exchange
    requires first <= last < |resource|
  {
    Exchange(Some(PartialContent),
             [PartialStatusLine, ContentRangeLine(ContentRange(first, last, |resource|)), BlankLine,
              resource[first..last + 1]],
             true)
  }

  /**
   * The reply to `Range: bytes=<range>`: a range starting past the end is
   * unsatisfiable; otherwise the span, cut at the end of the resource, is
   * served as a 206.
   */
  function Respond(resource: seq<char>, range: seq<char>): Exchange
  {
    match ParseRangeText(range)
    case None => WholeResource(resource)
    case Some(r) =>
      if r.last < r.first then WholeResource(resource)
      else if r.first >= |resource| then
        Exchange(Some(RangeNotSatisfiable),
                 [UnsatisfiableStatusLine, UnsatisfiedRangeLine(|resource|), BlankLine], true)
      else PartialReply(resource, r.first, if r.last < |resource| then r.last else |resource| - 1)
  }

  function Server(resource: seq<char>): Transport
  {
    (url, range) => Respond(resource, range)
  }

  function Min(a: nat, b: nat): nat { if a <= b then a else b }

  /** The request for `n` bytes at `offset` is answered with the bytes that exist. */
  lemma RespondToRead(resource: seq<char>, offset: nat, n: nat)
    requires offset < |resource| && 1 <= n && offset + n <= ULongLongModulus
    ensures Respond(resource, RangeText(offset, n)) == PartialReply(resource, offset, Min(offset + n, |resource|) - 1)
  {
    RangeTextRoundTrip(offset, n);
  }

  /** A 206 reply of the server is read in full into a destination with room for it. */
  lemma PartialReplyCaptured(resource: seq<char>, first: nat, last: nat, destlen: nat)
    requires first <= last < |resource| && last + 1 - first <= destlen
    ensures var f := FetchModel(PartialReply(resource, first, last), destlen, Initial);
            f.Fetched? && f.state.remoteSize == |resource| && f.state.captured == resource[first..last + 1]
  {
    var cr := ContentRange(first, last, |resource|);
    var body := resource[first..last + 1];
    var statusLine, rangeLine := PartialStatusLine, ContentRangeLine(cr);
    ParseContentRangeLine(cr);
    var e: seq<seq<char>> := [];
    assert [statusLine, rangeLine, BlankLine, body] == [statusLine] + e + [rangeLine, BlankLine] + [body];
    PartialContentCaptured(destlen, statusLine, e, rangeLine, cr, [body]);
    assert Concat([body]) == body + [];
  }

  /**
   * One read against the server.  At or past the end it returns 0 and leaves
   * the cached size as it was (a 416 reports no size); otherwise it returns
   * the bytes from `offset` up to `offset + size` or the end, whichever comes
   * first, and the cached size is the resource's.
   */
  lemma ReadFromServer(resource: seq<char>, url: seq<char>, path: seq<char>, cached: int, size: nat, offset: nat)
    requires !IsDirPath(path)
    requires cached == -1 || cached == |resource|
    requires 1 <= size && offset + size <= ULongLongModulus
    ensures var o := ReadModel(path, url, cached, size, offset, Server(resource));
            if offset >= |resource| then o == ReadOutcome(0, cached, [])
            else o.result == |o.data| && o.cachedSize == |resource| &&
                 o.data == resource[offset..Min(offset + size, |resource|)]
  {
    if cached != -1 && offset >= cached {
      return;
    }
    var n := Clamp(cached, size, offset);
    assert Server(resource)(url, RangeText(offset, n)) == Respond(resource, RangeText(offset, n));
    if offset >= |resource| {
      RangeTextRoundTrip(offset, n);
      RangeNotSatisfiableSwallowsAll(n, Initial,
        [UnsatisfiableStatusLine, UnsatisfiedRangeLine(|resource|), BlankLine]);
    } else {
      RespondToRead(resource, offset, n);
      PartialReplyCaptured(resource, offset, Min(offset + n, |resource|) - 1, n);
    }
  }

  /** A server that ignores every Range and always sends the whole resource. */
  function IgnoresRanges(resource: seq<char>): Transport
  {
    (url, range) => WholeResource(resource)
  }

  /** A 200 reply fails at its first header line. */
  lemma WholeResourceFails(resource: seq<char>, destlen: nat)
    ensures FetchModel(WholeResource(resource), destlen, Initial) == FetchFailed
  {
    OtherSuccessAborts(200, destlen, Initial, [OkStatusLine, BlankLine, resource]);
  }

  /**
   * A read answered with the whole resource fails with -ENOENT and keeps the
   * cached size: the file system asks for a range and accepts nothing else.
   */
  lemma ReadIgnoredRangeFails(resource: seq<char>, url: seq<char>, path: seq<char>, cached: int, size: nat, offset: nat)
    requires !IsDirPath(path) && (cached == -1 || offset < cached)
    ensures ReadModel(path, url, cached, size, offset, IgnoresRanges(resource)) == ReadOutcome(-ENOENT, cached, [])
  {
    var n := Clamp(cached, size, offset);
    assert IgnoresRanges(resource)(url, RangeText(offset, n)) == WholeResource(resource);
    WholeResourceFails(resource, n);
  }

  /**
   * A read of size 0 at a positive offset asks for the range `offset-(offset-1)`,
   * which names no byte; the server ignores it and sends the whole resource,
   * so the read fails with -ENOENT instead of returning 0.
   */
  lemma ZeroSizeReadFails(resource: seq<char>, url: seq<char>, path: seq<char>, offset: nat)
    requires !IsDirPath(path) && 0 < offset <= ULongLongModulus
    ensures ReadModel(path, url, -1, 0, offset, Server(resource)) == ReadOutcome(-ENOENT, -1, [])
  {
    RangeTextRoundTrip(offset, 0);
    assert RangeLast(offset, 0) == offset - 1;
    assert Server(resource)(url, RangeText(offset, 0)) == WholeResource(resource);
    WholeResourceFails(resource, 0);
  }

  /** A reader that issues reads of the given sizes, each where the previous one ended. */
  datatype Session = Session(offset: nat, cached: int, data: seq<char>)

  function ReadAll(resource: seq<char>, url: seq<char>, path: seq<char>, s: Session, sizes: seq<nat>): Session
    decreases |sizes|
  {
    if sizes == [] then s
    else
      var o := ReadModel(path, url, s.cached, sizes[0], s.offset, Server(resource));
      if o.result < 0 then s
      else ReadAll(resource, url, path, Session(s.offset + o.result, o.cachedSize, s.data + o.data), sizes[1..])
  }

  function Sum(sizes: seq<nat>): nat
  {
    if sizes == [] then 0 else sizes[0] + Sum(sizes[1..])
  }

  /** Where a session stands after one more read of `size` bytes from the server. */
  function Next(resource: seq<char>, s: Session, size: nat): Session
  {
    var m := Min(s.offset + size, |resource|);
    if s.offset >= |resource| then s else Session(m, |resource|, resource[..m])
  }

  /** One read of a session against the server is one step of `Next`. */
  lemma ReadIsNext(resource: seq<char>, url: seq<char>, path: seq<char>, s: Session, size: nat)
    requires !IsDirPath(path)
    requires s.offset <= |resource| && s.data == resource[..s.offset]
    requires s.cached == -1 || s.cached == |resource|
    requires 1 <= size && |resource| + size <= ULongLongModulus
    ensures var o := ReadModel(path, url, s.cached, size, s.offset, Server(resource));
            o.result >= 0 && Session(s.offset + o.result, o.cachedSize, s.data + o.data) == Next(resource, s, size)
  {
    ReadFromServer(resource, url, path, s.cached, size, s.offset);
    if s.offset < |resource| {
      var m := Min(s.offset + size, |resource|);
      assert resource[..s.offset] + resource[s.offset..m] == resource[..m];
    } else {
      assert s.data + [] == s.data;
    }
  }

  /** A reader that resumes where the last read ended advances one step of `Next` per read. */
  lemma ReadAllStep(resource: seq<char>, url: seq<char>, path: seq<char>, s: Session, sizes: seq<nat>)
    requires !IsDirPath(path) && sizes != []
    requires s.offset <= |resource| && s.data == resource[..s.offset]
    requires s.cached == -1 || s.cached == |resource|
    requires 1 <= sizes[0] && |resource| + sizes[0] <= ULongLongModulus
    ensures ReadAll(resource, url, path, s, sizes) == ReadAll(resource, url, path, Next(resource, s, sizes[0]), sizes[1..])
  {
    ReadIsNext(resource, url, path, s, sizes[0]);
  }

  lemma MinAfterMin(a: nat, b: nat, n: nat)
    ensures Min(Min(a, n) + b, n) == Min(a + b, n)
  {
  }

  /** The session a reader reaches against the server, by the step function alone. */
  function Tile(resource: seq<char>, s: Session, sizes: seq<nat>): Session
    decreases |sizes|
  {
    if sizes == [] then s else Tile(resource, Next(resource, s, sizes[0]), sizes[1..])
  }

  /**
   * Reads that follow one another reproduce the resource: the bytes
   * collected are exactly its prefix up to the final offset, which is where
   * the sizes add up to or the end of the resource.
   */
  lemma {:induction false} TileCoversPrefix(resource: seq<char>, s: Session, sizes: seq<nat>)
    requires s.offset <= |resource| && s.data == resource[..s.offset]
    ensures Tile(resource, s, sizes).offset == Min(s.offset + Sum(sizes), |resource|)
    ensures Tile(resource, s, sizes).data == resource[..Tile(resource, s, sizes).offset]
    decreases |sizes|
  {
    if sizes != [] {
      TileCoversPrefix(resource, Next(resource, s, sizes[0]), sizes[1..]);
      MinAfterMin(s.offset + sizes[0], Sum(sizes[1..]), |resource|);
    }
  }

  /** The reads the file system performs against the server follow the step function. */
  lemma {:induction false} ReadAllIsTile(resource: seq<char>, url: seq<char>, path: seq<char>, s: Session,
                                         sizes: seq<nat>)
    requires !IsDirPath(path)
    requires s.offset <= |resource| && s.data == resource[..s.offset]
    requires s.cached == -1 || s.cached == |resource|
    requires forall i :: 0 <= i < |sizes| ==> 1 <= sizes[i] && |resource| + sizes[i] <= ULongLongModulus
    ensures ReadAll(resource, url, path, s, sizes) == Tile(resource, s, sizes)
    decreases |sizes|
  {
    if sizes != [] {
      ReadAllStep(resource, url, path, s, sizes);
      ReadAllIsTile(resource, url, path, Next(resource, s, sizes[0]), sizes[1..]);
    }
  }
}
