/**
 * `DailyScheduleHelper`: fetches the daily-schedule page for one employee,
 * hands the parsed schedule (or an error text) to a callback, and, when
 * polled, fingerprints the page and posts a notification when the
 * fingerprint differs from the last one it saw.
 *
 * The network is a parameter: `server` maps the `Cookie` header of the
 * request to the response the schedule site gives. A response's body comes
 * with the page the HTML parser builds from it.
 */
module ScheduleHelper {
  import opened Options
  import opened JavaStrings
  import opened Hex
  import opened EmployeeModel
  import opened ScheduleParser

  // ---------------------------------------------------------------------------
  // Requests and responses
  // ---------------------------------------------------------------------------

  /** The cookie that selects whose schedule the site returns. */
  const CookiePrefix := "schedulingEmpID="

  /** The `Cookie` header value sent with every request. */
  function Cookie(employeeId: string): (c: string)
    ensures |c| == |CookiePrefix| + |employeeId|
  {
    CookiePrefix + employeeId
  }

  /** The header names the employee: different employees send different cookies. */
  lemma CookieNamesEmployee(a: string, b: string)
    ensures Cookie(a)[|CookiePrefix|..] == a
    ensures Cookie(a) == Cookie(b) <==> a == b
  {
    assert Cookie(a)[|CookiePrefix|..] == a;
    assert Cookie(b)[|CookiePrefix|..] == b;
  }

  /** A response body: its text and the document parsed from that text. */
  datatype Body = Body(html: string, page: Page)

  /** What a call ends in: a transport failure with the exception's message, or an HTTP response. */
  datatype HttpResult =
    | TransportFailure(message: Option<string>)
    | Response(code: int, body: Option<Body>)

  /** `Response.isSuccessful`: a 2xx status. */
  predicate IsSuccessful(code: int)
  {
    200 <= code < 300
  }

  /** The response is a success with a body, the only case in which the page is read. */
  predicate HasPage(response: HttpResult)
  {
    response.Response? && IsSuccessful(response.code) && response.body.Some?
  }

  // ---------------------------------------------------------------------------
  // fetchSchedule
  // ---------------------------------------------------------------------------

  /**
   * What a fetch delivers: a parsed schedule, an error text, or a failure
   * that escapes the response handler (a page with fewer than two schedule
   * tables), in which case no callback runs.
   */
  datatype FetchOutcome =
    | Loaded(doc: ScheduleDocument)
    | Failed(message: string)
    | Crashed(error: ParseError)

  const ErrorPrefix := "Error: "
  const HttpErrorPrefix := "Error: HTTP "

  /** The outcome of a fetch, as a function of the response. */
  function Fetched(response: HttpResult): FetchOutcome
  {
    match response
    case TransportFailure(message) => Failed(ErrorPrefix + message.GetOr("null"))
    case Response(code, body) =>
      if HasPage(response) then
        match ParseSchedule(body.value.page)
        case Ok(doc) => Loaded(doc)
        case Err(e) => Crashed(e)
      else
        Failed(HttpErrorPrefix + IntToDecimal(code))
  }

  /** A schedule is delivered exactly for a 2xx response with a body whose page has a second schedule table. */
  lemma FetchedLoadedIff(response: HttpResult)
    ensures Fetched(response).Loaded? <==>
              HasPage(response) && |response.body.value.page.scheduleTables| >= 2
    ensures Fetched(response).Crashed? <==>
              HasPage(response) && |response.body.value.page.scheduleTables| < 2
    ensures Fetched(response).Loaded? ==>
              Fetched(response).doc.scheduleDate == ExtractScheduleDate(response.body.value.page.dateHeader)
  {
  }

  /**
   * Every error text starts with "Error: "; for a response that is not a
   * success with a body it names the status code, which reads back from the text.
   */
  lemma {:induction false} FetchedErrorText(response: HttpResult)
    ensures Fetched(response).Failed? <==> !HasPage(response)
    ensures Fetched(response).Failed? ==> ErrorPrefix <= Fetched(response).message
    ensures response.Response? && !HasPage(response) && response.code >= 0 ==>
              var m := Fetched(response).message;
              HttpErrorPrefix <= m
              && (forall k :: |HttpErrorPrefix| <= k < |m| ==> IsDigit(m[k]))
              && DecimalValue(m[|HttpErrorPrefix|..]) == response.code
  {
    if response.Response? && !HasPage(response) && response.code >= 0 {
      var m := Fetched(response).message;
      var digits := NatToDecimal(response.code);
      assert m == HttpErrorPrefix + digits;
      assert m[|HttpErrorPrefix|..] == digits;
      DecimalRoundTrip(response.code);
    }
  }

  /** What the callback received: the method it was called with, and the arguments. */
  datatype Delivery =
    | OnSuccess(scheduleDate: string, mySchedule: Employee, employees: seq<Employee>)
    | OnError(message: string)
    | NoCallback(error: ParseError)

  /** The employee objects a delivery hands over. */
  function Handed(d: Delivery): set<object>
  {
    if d.OnSuccess? then {d.mySchedule} + set k | 0 <= k < |d.employees| :: d.employees[k] else {}
  }

  /** The values a delivery carries. */
  function Delivered(d: Delivery): FetchOutcome
    reads Handed(d)
  {
    match d
    case OnSuccess(date, mine, others) => Loaded(ScheduleDocument(date, mine.Record(), Records(others)))
    case OnError(message) => Failed(message)
    case NoCallback(error) => Crashed(error)
  }

  // ---------------------------------------------------------------------------
  // The fingerprint of a page
  // ---------------------------------------------------------------------------

  /** The text `hashContent` gives for a page: the hex spelling of its digest. */
  function Fingerprint(digestOf: string -> seq<JByte>, content: string): string
  {
    HexEncode(digestOf(content))
  }

  /** Two pages have the same fingerprint exactly when they have the same digest. */
  lemma FingerprintFollowsDigest(digestOf: string -> seq<JByte>, a: string, b: string)
    ensures Fingerprint(digestOf, a) == Fingerprint(digestOf, b) <==> digestOf(a) == digestOf(b)
  {
    if Fingerprint(digestOf, a) == Fingerprint(digestOf, b) {
      HexInjective(digestOf(a), digestOf(b));
    }
  }

  /** The state a poll leaves behind: the stored fingerprint, and whether it notified. */
  datatype Detection = Detection(lastHash: Option<string>, notify: bool)

  /** The response handler of a poll. */
  function Poll(digestOf: string -> seq<JByte>, lastHash: Option<string>, response: HttpResult): Detection
  {
    if HasPage(response) then
      var currentHash := Fingerprint(digestOf, response.body.value.html);
      if lastHash.None? || currentHash != lastHash.value then Detection(Some(currentHash), true)
      else Detection(lastHash, false)
    else
      Detection(lastHash, false)
  }

  /**
   * A poll notifies exactly when it reads a page whose fingerprint is not the
   * stored one; afterwards the stored fingerprint is that page's, and a poll
   * that reads no page changes nothing.
   */
  lemma PollNotifiesIff(digestOf: string -> seq<JByte>, lastHash: Option<string>, response: HttpResult)
    ensures Poll(digestOf, lastHash, response).notify <==>
              HasPage(response) && lastHash != Some(Fingerprint(digestOf, response.body.value.html))
    ensures HasPage(response) ==>
              Poll(digestOf, lastHash, response).lastHash == Some(Fingerprint(digestOf, response.body.value.html))
    ensures !HasPage(response) ==> Poll(digestOf, lastHash, response) == Detection(lastHash, false)
  {
  }

  /** The first page a helper reads always notifies. */
  lemma FirstPollNotifies(digestOf: string -> seq<JByte>, response: HttpResult)
    requires HasPage(response)
    ensures Poll(digestOf, None, response).notify
  {
  }

  /** After one page, the next page notifies exactly when its digest differs. */
  lemma SecondPollNotifiesIff(digestOf: string -> seq<JByte>, lastHash: Option<string>,
                              first: HttpResult, second: HttpResult)
    requires HasPage(first) && HasPage(second)
    ensures Poll(digestOf, Poll(digestOf, lastHash, first).lastHash, second).notify <==>
              digestOf(first.body.value.html) != digestOf(second.body.value.html)
  {
    FingerprintFollowsDigest(digestOf, first.body.value.html, second.body.value.html);
  }

  /** Reading the same response twice notifies at most once: the second poll is quiet and changes nothing. */
  lemma RepeatedPollQuiet(digestOf: string -> seq<JByte>, lastHash: Option<string>, response: HttpResult)
    ensures var after := Poll(digestOf, lastHash, response);
            Poll(digestOf, after.lastHash, response) == Detection(after.lastHash, false)
  {
  }

  // ---------------------------------------------------------------------------
  // The helper object
  // ---------------------------------------------------------------------------

  /** A notification posted to the system: title and text. */
  datatype Notification = Notification(title: string, text: string)

  /** The notification a poll posts. */
  const UpdateNotice := Notification("Schedule Updated", "Your schedule has been updated. Tap to view.")

  class DailyScheduleHelper {
    /** The employee whose schedule is requested. */
    const employeeId: string
    /** The MD5 digest of a page's bytes. */
    const digestOf: string -> seq<JByte>
    /** The fingerprint of the last page a poll read, if any. */
    var lastHash: Option<string>
    /** The notifications posted so far, oldest first. */
    var posted: seq<Notification>

    constructor (employeeId: string, digestOf: string -> seq<JByte>)
      ensures this.employeeId == employeeId && this.digestOf == digestOf
      ensures lastHash == None && posted == []
    {
      this.employeeId := employeeId;
      this.digestOf := digestOf;
      lastHash := None;
      posted := [];
    }

    /**
     * `fetchSchedule`: requests the page with this employee's cookie and
     * delivers the schedule, or the error text, that the response gives.
     */
    method FetchSchedule(server: string -> HttpResult) returns (d: Delivery)
      ensures Delivered(d) == Fetched(server(Cookie(employeeId)))
      ensures d.OnSuccess? ==> fresh(d.mySchedule)
      ensures d.OnSuccess? ==> forall k :: 0 <= k < |d.employees| ==> fresh(d.employees[k])
    {
      var response := server(Cookie(employeeId));
      match response
      case TransportFailure(message) =>
        d := OnError(ErrorPrefix + message.GetOr("null"));
      case Response(code, body) =>
        if IsSuccessful(code) && body.Some? {
          var page := body.value.page;
          var scheduleDate := ExtractScheduleDate(page.dateHeader);
          var mySchedule := new Employee?[1](_ => null);
          if |page.scheduleTables| < 2 {
            d := NoCallback(FewerThanTwoScheduleTables(|page.scheduleTables|));
          } else {
            var employees := ParseEmployees(page.scheduleTables[1], mySchedule);
            d := OnSuccess(scheduleDate, mySchedule[0], employees);
          }
        } else {
          d := OnError(HttpErrorPrefix + IntToDecimal(code));
        }
    }

    /** `hashContent`: the digest of the page, two hex digits per byte. */
    method HashContent(content: string) returns (hash: string)
      ensures hash == Fingerprint(digestOf, content)
    {
      var hashBytes := digestOf(content);
      var builder := "";
      for i := 0 to |hashBytes|
        invariant builder == HexEncode(hashBytes[..i])
      {
        assert hashBytes[..i + 1][..i] == hashBytes[..i];
        builder := builder + HexPair(hashBytes[i]);
      }
      assert hashBytes[..|hashBytes|] == hashBytes;
      hash := builder;
    }

    /**
     * `checkForUpdates`: polls the page; on a page whose fingerprint is new,
     * stores the fingerprint and posts the update notice.
     */
    method CheckForUpdates(server: string -> HttpResult)
      modifies this`lastHash, this`posted
      ensures var p := Poll(digestOf, old(lastHash), server(Cookie(employeeId)));
              lastHash == p.lastHash && posted == old(posted) + (if p.notify then [UpdateNotice] else [])
    {
      var response := server(Cookie(employeeId));
      if response.Response? && IsSuccessful(response.code) && response.body.Some? {
        var currentHash := HashContent(response.body.value.html);
        if lastHash == None || currentHash != lastHash.value {
          lastHash := Some(currentHash);
          posted := posted + [UpdateNotice];
        }
      }
    }
  }
}
