/** The serverless function that turns a trip request into a packing list:
    pre-flight handling, trip-duration arithmetic, mapping of the AI
    gateway's failures to responses, cleaning of the model's text, and the
    conversion of every thrown error into a 500 response. */
module GeneratePackingList {
  import opened Wrappers
  import opened JsText
  import opened IsoDate

  // ---------------------------------------------------------------------
  // Trip duration
  // ---------------------------------------------------------------------

  const MsPerDay: int := 1000 * 60 * 60 * 24

  /** `Math.ceil(a / b)` for a positive divisor: the least integer not below
      the quotient. */
  function CeilDiv(a: int, b: int): (q: int)
    requires b > 0
    ensures (q - 1) * b < a <= q * b
  {
    -((-a) / b)
  }

  /** `Math.ceil((end - start) / MsPerDay) + 1`: the number of calendar days
      the trip touches, counting both ends. */
  function DurationDays(startMs: int, endMs: int): (days: int)
    ensures (days - 2) * MsPerDay < endMs - startMs <= (days - 1) * MsPerDay
  {
    CeilDiv(endMs - startMs, MsPerDay) + 1
  }

  /** Whole days apart: `k` days later gives `k + 1`, the same day 1, the day
      before 0; inverted ranges are not rejected. */
  lemma WholeDaysDuration(startMs: int, k: int)
    ensures DurationDays(startMs, startMs + k * MsPerDay) == k + 1
  {
    assert startMs + k * MsPerDay - startMs == k * MsPerDay;
    assert -(k * MsPerDay) == (-k) * MsPerDay;
  }

  lemma SameDayAndDayBefore(startMs: int)
    ensures DurationDays(startMs, startMs) == 1
    ensures DurationDays(startMs, startMs - MsPerDay) == 0
  {
    WholeDaysDuration(startMs, 0);
    WholeDaysDuration(startMs, -1);
  }

  /** The duration of two date strings; None stands for NaN, which an
      invalid date produces. */
  function TripDays(startDate: string, endDate: string): (days: Option<int>)
    ensures days.Some? <==> ParseIsoDate(startDate).Some? && ParseIsoDate(endDate).Some?
  {
    match (ParseIsoDate(startDate), ParseIsoDate(endDate))
    case (Some(s), Some(e)) => Some(DurationDays(s * MsPerDay, e * MsPerDay))
    case _ => None
  }

  /** Midnights `s` and `e` days after the epoch are `e - s + 1` days
      apart, counting both ends. */
  lemma DayStampsDuration(s: int, e: int)
    ensures DurationDays(s * MsPerDay, e * MsPerDay) == e - s + 1
  {
    var k := e - s;
    assert e * MsPerDay == s * MsPerDay + k * MsPerDay;
    WholeDaysDuration(s * MsPerDay, k);
  }

  /** For valid date strings the duration is the day difference plus one. */
  lemma TripDaysInclusive(startDate: string, endDate: string)
    requires ParseIsoDate(startDate).Some? && ParseIsoDate(endDate).Some?
    ensures TripDays(startDate, endDate)
            == Some(ParseIsoDate(endDate).value - ParseIsoDate(startDate).value + 1)
  {
    DayStampsDuration(ParseIsoDate(startDate).value, ParseIsoDate(endDate).value);
  }

  /** From the first to the third of May 2024 is a three-day trip. */
  lemma ThreeDayTrip()
    ensures TripDays("2024-05-01", "2024-05-03") == Some(3)
  {
    FirstOfMay2024();
    ThirdOfMay2024();
    TripDaysInclusive("2024-05-01", "2024-05-03");
  }

  // ---------------------------------------------------------------------
  // Responses
  // ---------------------------------------------------------------------

  type Headers = seq<(string, string)>

  const CorsHeaders: Headers := [
    ("Access-Control-Allow-Origin", "*"),
    ("Access-Control-Allow-Headers", "authorization, x-client-info, apikey, content-type")]

  const JsonHeaders: Headers := CorsHeaders + [("Content-Type", "application/json")]

  /** A response body: none, the model's parsed document, or `{ error }`. */
  datatype Body<J> = NoBody | Payload(json: J) | ErrorBody(error: string)

  datatype Response<J> = Response(status: int, headers: Headers, body: Body<J>)

  /** The `error` text of the catch-all response. */
  function ThrownMessage(t: Thrown): string {
    MessageOr(t, "An unknown error occurred")
  }

  function ServerError<J>(t: Thrown): Response<J> {
    Response(500, JsonHeaders, ErrorBody(ThrownMessage(t)))
  }

  const NotConfiguredMessage: string := "LOVABLE_API_KEY is not configured"
  // The two long messages are written as two sentences joined, which lets
  // the verifier read their characters.
  const RateLimitMessage: string := "Rate limit exceeded. " + "Please try again in a moment."
  const CreditsMessage: string := "AI credits exhausted. " + "Please add credits to continue."
  const GatewayErrorPrefix: string := "AI gateway error: "

  function GatewayErrorMessage(status: nat): string {
    GatewayErrorPrefix + NatToString(status)
  }

  /** The three upstream failures have different messages: the two named
      ones differ from each other and from every generic one, and the generic
      one carries its status in decimal after the prefix, so the status can be
      read back from it. */
  lemma UpstreamMessagesDistinct(status: nat, other: nat)
    ensures RateLimitMessage != CreditsMessage
    ensures GatewayErrorMessage(status) != RateLimitMessage
    ensures GatewayErrorMessage(status) != CreditsMessage
    ensures GatewayErrorMessage(status)[..|GatewayErrorPrefix|] == GatewayErrorPrefix
    ensures AllDigits(GatewayErrorMessage(status)[|GatewayErrorPrefix|..])
    ensures ParseDecimal(GatewayErrorMessage(status)[|GatewayErrorPrefix|..]) == status
    ensures GatewayErrorMessage(status) == GatewayErrorMessage(other) ==> status == other
  {
    assert |RateLimitMessage| != |CreditsMessage|;
    assert GatewayErrorMessage(status)[0] == 'A' != RateLimitMessage[0];
    assert GatewayErrorMessage(status)[3] == 'g' != CreditsMessage[3];
    var p := |GatewayErrorPrefix|;
    assert NatToString(status) == GatewayErrorMessage(status)[p..];
    ParseNatToString(status);
    if GatewayErrorMessage(status) == GatewayErrorMessage(other) {
      assert NatToString(other) == GatewayErrorMessage(other)[p..];
      NatToStringInjective(status, other);
    }
  }

  // ---------------------------------------------------------------------
  // Cleaning the model's text
  // ---------------------------------------------------------------------

  /** `s.replace(new RegExp(tok + "\n?", "g"), "")` for a literal token:
      every occurrence, scanning left to right, is removed together with one
      line break right after it. */
  function RemoveToken(s: string, tok: string): (r: string)
    requires |tok| > 0
    ensures |r| <= |s|
    decreases |s|
  {
    if s == [] then []
    else if tok <= s then
      var rest := s[|tok|..];
      if rest != [] && rest[0] == '\n' then RemoveToken(rest[1..], tok) else RemoveToken(rest, tok)
    else [s[0]] + RemoveToken(s[1..], tok)
  }

  const JsonFence: string := "```json"
  const Fence: string := "```"

  /** The cleanup of line 103: drop "```json" fences, then "```" fences, each
      with a following line break, then trim. */
  function StripFences(content: string): (r: string)
    ensures Trimmed(r)
  {
    Trim(RemoveToken(RemoveToken(content, JsonFence), Fence))
  }

  predicate NoBacktick(s: string) {
    '`' !in s
  }

  /** A backtick-free stretch passes through the removal untouched. */
  lemma {:induction false} RemoveTokenKeepsPlain(x: string, y: string, tok: string)
    requires |tok| > 0 && tok[0] == '`' && NoBacktick(x)
    ensures RemoveToken(x + y, tok) == x + RemoveToken(y, tok)
    decreases |x|
  {
    if x != [] {
      assert (x + y)[0] == x[0];
      assert !(tok <= x + y);
      assert (x + y)[1..] == x[1..] + y;
      RemoveTokenKeepsPlain(x[1..], y, tok);
    } else {
      assert x + y == y;
    }
  }

  lemma TrimDropsLineBreak(x: string)
    requires Trimmed(x)
    ensures Trim(x + "\n") == x
  {
    if x == [] {
      assert x + "\n" == "\n";
    } else {
      TrimStartKeepsNonWhitespace(x + "\n");
      assert (x + "\n")[..|x|] == x;
      TrimEndKeepsNonWhitespace(x);
    }
  }

  /** A token followed by a line break at the front goes, break and all. */
  lemma RemoveTokenLead(tok: string, y: string)
    requires |tok| > 0
    ensures RemoveToken(tok + "\n" + y, tok) == RemoveToken(y, tok)
  {
    var s := tok + "\n" + y;
    assert tok <= s;
    assert s[|tok|..] == "\n" + y;
    assert s[|tok|..][1..] == y;
  }

  lemma RemoveJsonFenceFromClosing()
    ensures RemoveToken("\n```", JsonFence) == "\n```"
  {
    assert RemoveToken("``", JsonFence) == "``" by {
      assert "``"[1..] == "`";
      assert "`"[1..] == [];
    }
    assert "```"[1..] == "``";
    assert "\n```"[1..] == "```";
  }

  lemma RemoveClosingFence()
    ensures RemoveToken("```", Fence) == []
  {
    assert Fence <= "```";
    assert "```"[3..] == [];
  }

  /** A JSON object wrapped in a "```json" fence comes out bare. */
  lemma StripJsonFence(x: string)
    requires NoBacktick(x) && Trimmed(x)
    ensures StripFences("```json\n" + x + "\n```") == x
  {
    var s := "```json\n" + x + "\n```";
    assert s == JsonFence + "\n" + (x + "\n```");
    RemoveTokenLead(JsonFence, x + "\n```");
    RemoveTokenKeepsPlain(x, "\n```", JsonFence);
    RemoveJsonFenceFromClosing();
    assert RemoveToken(s, JsonFence) == (x + "\n") + "```";
    assert NoBacktick(x + "\n");
    RemoveTokenKeepsPlain(x + "\n", "```", Fence);
    RemoveClosingFence();
    assert (x + "\n") + [] == x + "\n";
    TrimDropsLineBreak(x);
  }

  /** Text with no backticks and no surrounding white space is returned
      unchanged. */
  lemma StripPlain(x: string)
    requires NoBacktick(x) && Trimmed(x)
    ensures StripFences(x) == x
  {
    RemoveTokenKeepsPlain(x, [], JsonFence);
    assert x + [] == x;
    RemoveTokenKeepsPlain(x, [], Fence);
    TrimKeepsTrimmed(x);
  }

  predicate FenceAt(s: string, i: int)
    requires 0 <= i && i + 3 <= |s|
  {
    s[i] == '`' && s[i + 1] == '`' && s[i + 2] == '`'
  }

  /** No three backticks in a row. */
  predicate NoFence(s: string) {
    forall i :: 0 <= i && i + 3 <= |s| ==> !FenceAt(s, i)
  }

  lemma RemoveFenceFirst(t: string)
    requires RemoveToken(t, Fence) != [] && RemoveToken(t, Fence)[0] == '`'
    ensures t != [] && t[0] == '`'
  {
  }

  lemma RemoveFenceFirstTwo(t: string)
    requires |RemoveToken(t, Fence)| >= 2
    requires RemoveToken(t, Fence)[0] == '`' && RemoveToken(t, Fence)[1] == '`'
    ensures |t| >= 2 && t[0] == '`' && t[1] == '`'
  {
    RemoveFenceFirst(t);
    if !(Fence <= t) {
      assert RemoveToken(t, Fence) == [t[0]] + RemoveToken(t[1..], Fence);
      RemoveFenceFirst(t[1..]);
    }
  }

  /** Removing "```" leaves no run of three backticks behind. */
  lemma {:induction false} RemoveFenceLeavesNone(s: string)
    ensures NoFence(RemoveToken(s, Fence))
    decreases |s|
  {
    if s == [] {
    } else if Fence <= s {
      var rest := s[|Fence|..];
      if rest != [] && rest[0] == '\n' {
        RemoveFenceLeavesNone(rest[1..]);
      } else {
        RemoveFenceLeavesNone(rest);
      }
    } else {
      var r := RemoveToken(s[1..], Fence);
      RemoveFenceLeavesNone(s[1..]);
      var out := [s[0]] + r;
      forall i | 0 <= i && i + 3 <= |out| ensures !FenceAt(out, i) {
        if i == 0 && FenceAt(out, 0) {
          RemoveFenceFirstTwo(s[1..]);
          assert false;
        } else if i > 0 {
          assert FenceAt(out, i) == FenceAt(r, i - 1);
        }
      }
    }
  }

  lemma NoFenceInfix(s: string, i: int, j: int)
    requires NoFence(s) && 0 <= i <= j <= |s|
    ensures NoFence(s[i..j])
  {
    var t := s[i..j];
    forall k | 0 <= k && k + 3 <= |t| ensures !FenceAt(t, k) {
      assert FenceAt(t, k) == FenceAt(s, i + k);
    }
  }

  /** The cleaned text never contains a code fence. */
  lemma StripFencesLeavesNoFence(content: string)
    ensures NoFence(StripFences(content))
  {
    var u := RemoveToken(RemoveToken(content, JsonFence), Fence);
    RemoveFenceLeavesNone(RemoveToken(content, JsonFence));
    TrimIsInfix(u);
    var i, j :| 0 <= i <= j <= |u| && Trim(u) == u[i..j]
                && AllWhitespace(u[..i]) && AllWhitespace(u[j..]);
    NoFenceInfix(u, i, j);
  }

  // ---------------------------------------------------------------------
  // The request handler
  // ---------------------------------------------------------------------

  /** The five fields read from the request body. */
  datatype TripBody = TripBody(
    destination: string, startDate: string, endDate: string, ageGroup: string, travelStyle: string)

  /** A request: its method and the outcome of reading its JSON body. */
  datatype Request = Request(verb: string, body: Result<TripBody, Thrown>)

  /** What the gateway call gave: its status and the outcome of reading its
      body. For a status that is not OK that read is `response.text()`; for
      an OK status it is `response.json()` followed by reaching
      `choices[0].message.content`. Either read can throw. */
  datatype GatewayReply = GatewayReply(status: nat, content: Result<string, Thrown>)

  predicate IsOk(status: nat) {
    200 <= status <= 299
  }

  /** The key counts as present when it is set and not empty. */
  predicate KeyConfigured(apiKey: Option<string>) {
    apiKey.Some? && apiKey.value != []
  }

  /** One request. The environment key, the gateway call and `JSON.parse`
      are inputs: `reply` is the gateway's answer or the error its `fetch`
      threw, `parse` the parser's verdict on a text. */
  method HandleRequest<J>(req: Request, apiKey: Option<string>,
                          reply: Result<GatewayReply, Thrown>,
                          parse: string -> Result<J, Thrown>) returns (resp: Response<J>)
    ensures req.verb == "OPTIONS" ==> resp == Response(200, CorsHeaders, NoBody)
    ensures req.verb != "OPTIONS" && req.body.Failure? ==> resp == ServerError(req.body.error)
    ensures req.verb != "OPTIONS" && req.body.Success? && !KeyConfigured(apiKey) ==>
              resp == Response(500, JsonHeaders, ErrorBody(NotConfiguredMessage))
    ensures req.verb != "OPTIONS" && req.body.Success? && KeyConfigured(apiKey) ==>
              match reply
              case Failure(e) => resp == ServerError(e)
              case Success(GatewayReply(status, content)) =>
                if !IsOk(status) then
                  if content.Failure? then resp == ServerError(content.error)
                  else if status == 429 then resp == Response(429, JsonHeaders, ErrorBody(RateLimitMessage))
                  else if status == 402 then resp == Response(402, JsonHeaders, ErrorBody(CreditsMessage))
                  else resp == Response(500, JsonHeaders, ErrorBody(GatewayErrorMessage(status)))
                else
                  match content
                  case Failure(e) => resp == ServerError(e)
                  case Success(text) =>
                    match parse(StripFences(text))
                    case Failure(e) => resp == ServerError(e)
                    case Success(doc) => resp == Response(200, JsonHeaders, Payload(doc))
  {
    if req.verb == "OPTIONS" {
      return Response(200, CorsHeaders, NoBody);
    }
    if req.body.Failure? {
      return ServerError(req.body.error);
    }
    var body := req.body.value;
    if !KeyConfigured(apiKey) {
      return ServerError(JsError(NotConfiguredMessage));
    }
    // The duration only feeds the prompt text, which this model leaves out.
    var days := TripDays(body.startDate, body.endDate);
    if reply.Failure? {
      return ServerError(reply.error);
    }
    var response := reply.value;
    if !IsOk(response.status) {
      // `await response.text()` comes before the status is examined.
      if response.content.Failure? {
        return ServerError(response.content.error);
      }
      if response.status == 429 {
        return Response(429, JsonHeaders, ErrorBody(RateLimitMessage));
      }
      if response.status == 402 {
        return Response(402, JsonHeaders, ErrorBody(CreditsMessage));
      }
      return ServerError(JsError(GatewayErrorMessage(response.status)));
    }
    if response.content.Failure? {
      return ServerError(response.content.error);
    }
    var content := response.content.value;
    content := StripFences(content);
    var result := parse(content);
    if result.Failure? {
      return ServerError(result.error);
    }
    resp := Response(200, JsonHeaders, Payload(result.value));
  }
}
