/**
 * read_curl_buffer: format the inclusive byte range of the request (the
 * `Range` header of section 14.2 of RFC 9110), hand the URL and the range to
 * the transport, and feed every chunk the transport delivers to the write
 * callback.  The transport (libcurl's perform over the network) is a
 * parameter: a function from URL and range text to the exchange it yields.
 */
module RangeFetch {
  import opened LibcText
  import opened ResponseParser

  /**
   * What the transport delivers: the response code curl_easy_getinfo will
   * report, the chunks in the order the callback sees them, and whether the
   * exchange completes.  `completes == false` stands for curl_easy_init
   * failing or a network or TLS error after the chunks delivered so far.
   */
  datatype Exchange = Exchange(code: Option<int>, chunks: seq<seq<char>>, completes: bool)

  type Transport = (seq<char>, seq<char>) -> Exchange

  /** unsigned long long arithmetic wraps modulo 2^64. */
  const ULongLongModulus: nat := 0x1_0000_0000_0000_0000

  /** The last byte of the range: offset + size - 1 computed in unsigned long long. */
  function RangeLast(offset: nat, size: nat): (last: nat)
    ensures last < ULongLongModulus
    ensures 1 <= offset + size && offset + size <= ULongLongModulus ==> last == offset + size - 1
    ensures offset + size == 0 ==> last == ULongLongModulus - 1
  {
    (offset + size - 1) % ULongLongModulus
  }

  /** sprintf(range, "%llu-%llu", offset, offset + size - 1) */
  function RangeText(offset: nat, size: nat): seq<char>
  {
    Decimal(offset) + "-" + Decimal(RangeLast(offset, size))
  }

  datatype ByteRange = ByteRange(first: nat, last: nat)

  /** How a server reads an int-range "first-last" (section 14.1.1 of RFC 9110). */
  function ParseRangeText(text: seq<char>): (r: Option<ByteRange>)
  {
    var k := LeadingDigits(text);
    if k == 0 || k == |text| || text[k] != '-' then None
    else
      var tail := text[k + 1..];
      var m := LeadingDigits(tail);
      if m == 0 || m != |tail| then None
      else Some(ByteRange(ValueOf(text[..k]), ValueOf(tail)))
  }

  /** The range text names exactly the bytes asked for. */
  lemma RangeTextRoundTrip(offset: nat, size: nat)
    ensures ParseRangeText(RangeText(offset, size)) == Some(ByteRange(offset, RangeLast(offset, size)))
  {
    var a, b := Decimal(offset), Decimal(RangeLast(offset, size));
    var text := RangeText(offset, size);
    assert text == a + ("-" + b);
    LeadingDigitsOfAppend(a, "-" + b);
    assert text[..|a|] == a;
    assert text[|a|] == '-';
    var tail := text[|a| + 1..];
    assert tail == b;
    assert b + [] == b;
    LeadingDigitsOfAppend(b, []);
    DecimalValue(offset);
    DecimalValue(RangeLast(offset, size));
  }

  /** The outcome of one fetch: the final parse state, or failure. */
  datatype FetchResult = Fetched(state: ParseState) | FetchFailed

  /**
   * The fetch succeeds exactly when the callback takes every chunk and the
   * exchange completes.
   */
  function FetchModel(ex: Exchange, destlen: nat, start: ParseState): (f: FetchResult)
    requires |start.captured| <= destlen
    ensures f.Fetched? <==> ex.completes && Run(ex.code, destlen, start, ex.chunks).ok
    ensures f.Fetched? ==> |f.state.captured| <= destlen && start.captured <= f.state.captured
  {
    var r := Run(ex.code, destlen, start, ex.chunks);
    if r.ok && ex.completes then Fetched(r.state) else FetchFailed
  }

  /**
   * read_curl_buffer: -1 on any failure, otherwise the count of body bytes
   * captured.  Nothing at or past the cursor is written, so nothing at or
   * past `destlen` either.
   */
  method ReadCurlBuffer(size: nat, offset: nat, hb: ResponseBuffer, serve: Transport) returns (res: int)
    requires hb.Valid()
    modifies hb, hb.dest
    ensures hb.Valid()
    ensures var f := FetchModel(serve(hb.url, RangeText(offset, size)), hb.destlen, old(hb.State()));
            match f
            case FetchFailed => res == -1
            case Fetched(st) => res == hb.len && hb.State() == st
    ensures forall i :: hb.len <= i < hb.dest.Length ==> hb.dest[i] == old(hb.dest[i])
  {
    var range := RangeText(offset, size);
    var ex := serve(hb.url, range);
    ghost var start := hb.State();
    var i := 0;
    while i < |ex.chunks|
      invariant 0 <= i <= |ex.chunks|
      invariant hb.Valid()
      invariant Run(ex.code, hb.destlen, hb.State(), ex.chunks[i..]) == Run(ex.code, hb.destlen, start, ex.chunks)
      invariant forall j :: hb.len <= j < hb.dest.Length ==> hb.dest[j] == old(hb.dest[j])
    {
      var reply := hb.Feed(ex.code, ex.chunks[i]);
      if reply.Rejected? {
        // The callback returned (size_t)-1: libcurl stops with a write error.
        return -1;
      }
      assert ex.chunks[i..][1..] == ex.chunks[i + 1..];
      i := i + 1;
    }
    if !ex.completes {
      return -1;
    }
    return hb.len;
  }
}
