/**
  WebQuery: the report URL and the report id read out of it with the
  pattern `rid=(\d+)` (leftmost match, greedy digit run, ASCII digits).
 */
module WebQueries {
  import opened Wrappers

  /** What the constructor raises when given a null URL. */
  datatype ConstructionError = NullQueryUrl

  /** A constructed WebQuery; both fields are final. */
  datatype WebQuery = WebQuery(queryUrl: string, reportId: Option<string>)
  {
    function GetQueryUrl(): string { queryUrl }
    function GetReportId(): Option<string> { reportId }
  }

  /** `\d` of a Java regular expression without UNICODE_CHARACTER_CLASS. */
  predicate IsAsciiDigit(c: char) {
    '0' <= c <= '9'
  }

  /** A match of `rid=\d` starts at index i of the URL. */
  predicate RidAt(url: string, i: nat) {
    i + 5 <= |url| && url[i..i + 4] == "rid=" && IsAsciiDigit(url[i + 4])
  }

  /** The first start index at or after `from` where `rid=` is followed by a digit, as `Matcher.find` scans. */
  function FindRid(url: string, from: nat): (r: Option<nat>)
    requires from <= |url|
    decreases |url| - from
    ensures r.None? ==> forall i :: from <= i < |url| ==> !RidAt(url, i)
    ensures r.Some? ==> from <= r.value && RidAt(url, r.value)
    ensures r.Some? ==> forall i :: from <= i < r.value ==> !RidAt(url, i)
  {
    if from == |url| then None
    else if RidAt(url, from) then Some(from)
    else FindRid(url, from + 1)
  }

  /** The end of the run of digits that starts at `start` (greedy `\d+`). */
  function DigitRunEnd(url: string, start: nat): (end: nat)
    requires start <= |url|
    decreases |url| - start
    ensures start <= end <= |url|
    ensures forall k :: start <= k < end ==> IsAsciiDigit(url[k])
    ensures end == |url| || !IsAsciiDigit(url[end])
  {
    if start == |url| || !IsAsciiDigit(url[start]) then start
    else DigitRunEnd(url, start + 1)
  }

  /**
    extractReportId: group 1 of the first match, or null. A non-null id is a
    non-empty run of digits that follows the leftmost `rid=` having a digit
    after it, and the URL does not continue it with another digit.
   */
  function ExtractReportId(url: string): (id: Option<string>)
    ensures id.None? <==> forall i :: 0 <= i < |url| ==> !RidAt(url, i)
    ensures id.Some? ==> |id.value| > 0 && forall k :: 0 <= k < |id.value| ==> IsAsciiDigit(id.value[k])
    ensures id.Some? ==> exists i: nat ::
      && RidAt(url, i)
      && (forall j :: 0 <= j < i ==> !RidAt(url, j))
      && i + 4 + |id.value| <= |url|
      && url[i..i + 4 + |id.value|] == "rid=" + id.value
      && (i + 4 + |id.value| == |url| || !IsAsciiDigit(url[i + 4 + |id.value|]))
  {
    match FindRid(url, 0)
    case None => None
    case Some(i) =>
      var end := DigitRunEnd(url, i + 4);
      var digits := url[i + 4..end];
      assert url[i..end] == url[i..i + 4] + digits;
      assert forall k :: 0 <= k < |digits| ==> digits[k] == url[i + 4 + k];
      Some(digits)
  }

  /** The constructor: a null URL is rejected, otherwise the URL is stored unchanged beside its report id. */
  function NewWebQuery(queryUrl: Option<string>): (r: Result<WebQuery, ConstructionError>)
    ensures queryUrl.None? <==> r.Failure?
    ensures r.Success? ==> r.value.GetQueryUrl() == queryUrl.value
    ensures r.Success? ==> r.value.GetReportId() == ExtractReportId(queryUrl.value)
  {
    match queryUrl
    case None => Failure(NullQueryUrl)
    case Some(url) => Success(WebQuery(url, ExtractReportId(url)))
  }

  /** A match inside `grid=` counts, and the digit run stops at the first non-digit. */
  lemma GridMatchCounts()
    ensures ExtractReportId("grid=12&rid=5") == Some("12")
  {
    var url := "grid=12&rid=5";
    assert url[1..5] == "rid=";
    assert RidAt(url, 1);
    assert !RidAt(url, 0) by { assert url[0] != 'r'; }
    assert FindRid(url, 0) == Some(1);
    assert DigitRunEnd(url, 5) == 7 by {
      assert IsAsciiDigit(url[5]) && IsAsciiDigit(url[6]) && !IsAsciiDigit(url[7]);
    }
    assert url[5..7] == "12";
  }

  /** An earlier `rid=` without a digit after it is skipped. */
  lemma RidWithoutDigitSkipped()
    ensures ExtractReportId("rid=x&rid=407") == Some("407")
  {
    var url := "rid=x&rid=407";
    assert !RidAt(url, 0) by { assert !IsAsciiDigit(url[4]); }
    forall i | 1 <= i < 6 ensures !RidAt(url, i) {
      assert url[i] != 'r';
    }
    assert url[6..10] == "rid=";
    assert RidAt(url, 6);
    assert FindRid(url, 0) == Some(6) by {
      assert FindRid(url, 0) == FindRid(url, 1) == FindRid(url, 6);
    }
    assert DigitRunEnd(url, 10) == 13;
    assert url[10..13] == "407";
  }

  /** No digit after the only `rid=`: the id is null. */
  lemma NoDigitNoId()
    ensures ExtractReportId("q?rid=") == None
  {
  }
}
