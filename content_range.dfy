/**
 * The recogniser for the `Content-Range` response header of a 206 reply
 * (section 14.4 of RFC 9110): a field name matched without regard to case,
 * then the text sscanf matches against " bytes %lu-%lu/%lu ".
 */
module RangeHeader {
  import opened LibcText

  /** `bytes first-last/complete`: the span served and the size of the whole resource. */
  datatype ContentRange = ContentRange(first: nat, last: nat, complete: nat)

  const FieldName: seq<char> := "Content-Range:"

  /**
   * sscanf(s, " bytes %lu-%lu/%lu ", ...) == 3.  The leading blank skips any
   * white space, "bytes" is matched exactly, each %lu skips white space of its
   * own, '-' and '/' must follow the digits at once; the trailing blank does
   * not change the count of conversions.
   */
  function ScanByteRange(s: seq<char>): (r: Option<ContentRange>)
  {
    var t := SkipSpace(s);
    if |t| < 5 || t[..5] != "bytes" then None
    else match ScanNat(t[5..])
      case None => None
      case Some(a) =>
        if a.rest == [] || a.rest[0] != '-' then None
        else match ScanNat(a.rest[1..])
          case None => None
          case Some(b) =>
            if b.rest == [] || b.rest[0] != '/' then None
            else match ScanNat(b.rest[1..])
              case None => None
              case Some(c) => Some(ContentRange(a.value, b.value, c.value))
  }

  /** A header line is a usable Content-Range when its first 14 characters name the field. */
  function ParseContentRange(line: seq<char>): (r: Option<ContentRange>)
    ensures r.Some? ==> |line| >= |FieldName| && EqualsIgnoreCase(line[..|FieldName|], FieldName)
    ensures |line| < |FieldName| ==> r.None?
    ensures r.Some? ==> r == ScanByteRange(line[|FieldName|..])
  {
    if |line| < |FieldName| || !EqualsIgnoreCase(line[..|FieldName|], FieldName) then None
    else ScanByteRange(line[|FieldName|..])
  }

  /** The value text a server sends after the field name, ending the line with CRLF. */
  function RangeValueText(cr: ContentRange): seq<char>
  {
    " bytes " + Decimal(cr.first) + "-" + Decimal(cr.last) + "/" + Decimal(cr.complete) + "\r\n"
  }

  /** The header line as servers usually spell it. */
  function ContentRangeLine(cr: ContentRange): seq<char>
  {
    FieldName + RangeValueText(cr)
  }

  /**
   * Whatever the case of the field name, the recogniser reads back the three
   * numbers a server wrote.
   */
  lemma ParseRangeValueText(name: seq<char>, cr: ContentRange)
    requires EqualsIgnoreCase(name, FieldName)
    ensures ParseContentRange(name + RangeValueText(cr)) == Some(cr)
  {
    var v := RangeValueText(cr);
    var line := name + v;
    assert line[..|FieldName|] == name;
    assert line[|FieldName|..] == v;
    ScanRangeValueText(cr);
  }

  lemma ScanRangeValueText(cr: ContentRange)
    ensures ScanByteRange(RangeValueText(cr)) == Some(cr)
  {
    var da, db, dc := Decimal(cr.first), Decimal(cr.last), Decimal(cr.complete);
    var tailB := "/" + dc + "\r\n";
    var tailA := "-" + db + tailB;
    var v := RangeValueText(cr);
    assert v == " " + ("bytes" + (" " + da + tailA));
    SkipSpaceOfAppend(" ", "bytes" + (" " + da + tailA));
    var t := SkipSpace(v);
    assert t[..5] == "bytes";
    assert t[5..] == " " + da + tailA;
    ScanDecimal(" ", cr.first, tailA);
    DropSeparator('-', db, tailB);
    ScanDecimalNoSpace(cr.last, tailB);
    DropSeparator('/', dc, "\r\n");
    ScanDecimalNoSpace(cr.complete, "\r\n");
    ScanByteRangeSteps(v, Scanned(cr.first, tailA), Scanned(cr.last, tailB), Scanned(cr.complete, "\r\n"));
  }

  lemma DropSeparator(c: char, x: seq<char>, y: seq<char>)
    ensures ([c] + x + y)[1..] == x + y
  {
    assert ([c] + x + y)[1..] == [c][1..] + x + y;
  }

  /** The three conversions of ScanByteRange, one after the other. */
  lemma ScanByteRangeSteps(s: seq<char>, a: Scanned, b: Scanned, c: Scanned)
    requires |SkipSpace(s)| >= 5 && SkipSpace(s)[..5] == "bytes"
    requires ScanNat(SkipSpace(s)[5..]) == Some(a) && a.rest != [] && a.rest[0] == '-'
    requires ScanNat(a.rest[1..]) == Some(b) && b.rest != [] && b.rest[0] == '/'
    requires ScanNat(b.rest[1..]) == Some(c)
    ensures ScanByteRange(s) == Some(ContentRange(a.value, b.value, c.value))
  {
  }

  lemma ParseContentRangeLine(cr: ContentRange)
    ensures ParseContentRange(ContentRangeLine(cr)) == Some(cr)
  {
    ParseRangeValueText(FieldName, cr);
  }
}
