/** The Response Matcher: `checkStatus`, `checkHeader`, `checkBody` and the
    conjunction that decides one rule's outcome. */
module Matcher {
  import opened Wrappers

  /** What a host answers: the numeric status, the headers and the body
      read to its end. */
  datatype Response = Response(statusCode: int, headers: map<string, string>, body: string)

  /** A rule's `response` section. `code` is the result of `parseInt` on the
      configured code: `None` when the code is absent or does not parse (NaN). */
  datatype Expected = Expected(
    code: Option<int>,
    headers: Option<map<string, string>>,
    body: Option<string>)

  /** The `response` section of a rule that has none. */
  const NoExpectation: Expected := Expected(None, None, None)

  /** `checkStatus` (src/index.js:127-131): the status passes exactly when the
      configured code parses to the same integer. NaN equals nothing, so a
      rule without a code never passes. */
  function CheckStatus(status: int, response: Expected): (ok: bool)
    ensures ok <==> response.code == Some(status)
    ensures response.code.None? ==> !ok
  {
    match response.code
    case Some(code) => code == status
    case None => false
  }

  /** The expected headers, `{}` when absent. */
  function ExpectedHeaders(response: Expected): map<string, string> {
    response.headers.GetOr(map[])
  }

  /** One expected header holds: the response carries the key, spelled
      exactly, with a truthy (non-empty) value identical to the expected one. */
  predicate HeaderHolds(responseHeaders: map<string, string>, headers: map<string, string>, key: string)
    requires key in headers
  {
    key in responseHeaders && responseHeaders[key] != "" && responseHeaders[key] == headers[key]
  }

  /** Every expected header holds. */
  predicate HeadersMatch(responseHeaders: map<string, string>, headers: map<string, string>) {
    forall key :: key in headers ==> HeaderHolds(responseHeaders, headers, key)
  }

  /** `checkHeader` (src/index.js:133-149): walks the expected keys and
      returns false at the first one that does not hold. Which key is visited
      first does not change the answer. */
  method CheckHeader(responseHeaders: map<string, string>, response: Expected) returns (ok: bool)
    ensures ok <==> HeadersMatch(responseHeaders, ExpectedHeaders(response))
  {
    var headers := ExpectedHeaders(response);
    var headerKeys := headers.Keys;
    while headerKeys != {}
      invariant headerKeys <= headers.Keys
      invariant forall key :: key in headers && key !in headerKeys ==> HeaderHolds(responseHeaders, headers, key)
      decreases headerKeys
    {
      var headerKey :| headerKey in headerKeys;
      if headerKey in responseHeaders && responseHeaders[headerKey] != ""
         && responseHeaders[headerKey] == headers[headerKey] {
        headerKeys := headerKeys - {headerKey};
      } else {
        return false;
      }
    }
    return true;
  }

  /** `checkBody` (src/index.js:151-170): the configured pattern, `""` when
      absent, is tested against the whole body. `matches` stands for the test
      of a freshly built global regular expression; being a function, its
      answer depends on the pattern and the body only. */
  function CheckBody(body: string, response: Expected, matches: (string, string) -> bool): (ok: bool)
    ensures response.body.Some? ==> (ok <==> matches(response.body.value, body))
    ensures response.body.None? && (forall b :: matches("", b)) ==> ok
  {
    matches(response.body.GetOr(""), body)
  }

  /** A rule succeeds when status, headers and body all pass (src/index.js:74-78). */
  predicate RuleSucceeds(res: Response, response: Expected, matches: (string, string) -> bool) {
    && CheckStatus(res.statusCode, response)
    && HeadersMatch(res.headers, ExpectedHeaders(response))
    && CheckBody(res.body, response, matches)
  }

  /** The response callback (src/index.js:64-79): runs the three checks on
      the response and resolves with their conjunction. */
  method CheckRule(res: Response, response: Expected, matches: (string, string) -> bool) returns (isTech: bool)
    ensures isTech <==> CheckStatus(res.statusCode, response)
                        && HeadersMatch(res.headers, ExpectedHeaders(response))
                        && CheckBody(res.body, response, matches)
  {
    var statusCheck := CheckStatus(res.statusCode, response);
    var headerCheck := CheckHeader(res.headers, response);
    var bodyCheck := CheckBody(res.body, response, matches);
    if statusCheck && headerCheck && bodyCheck {
      isTech := true;
    } else {
      isTech := false;
    }
  }

  /** With no expected headers the header check passes. */
  lemma NoExpectedHeadersMatch(responseHeaders: map<string, string>, response: Expected)
    requires response.headers.None? || response.headers == Some(map[])
    ensures HeadersMatch(responseHeaders, ExpectedHeaders(response))
  {
  }

  /** An expected header whose value is `""` can never hold, since the
      response value must also be truthy. */
  lemma EmptyExpectedValueNeverMatches(responseHeaders: map<string, string>, headers: map<string, string>, key: string)
    requires key in headers && headers[key] == ""
    ensures !HeadersMatch(responseHeaders, headers)
  {
  }

  /** Headers the signature does not mention are ignored: adding them to the
      response does not change the verdict. */
  lemma ExtraHeadersIgnored(responseHeaders: map<string, string>, extra: map<string, string>, headers: map<string, string>)
    requires extra.Keys !! headers.Keys
    ensures HeadersMatch(responseHeaders + extra, headers) <==> HeadersMatch(responseHeaders, headers)
  {
  }

  /** Keys are compared exactly: an expected `Server` is not satisfied by a
      response header `server`. */
  lemma HeaderKeysAreCaseSensitive()
    ensures !HeadersMatch(map["server" := "nginx"], map["Server" := "nginx"])
  {
    assert "Server" !in map["server" := "nginx"] by {
      assert "Server"[0] != "server"[0];
    }
    assert !HeaderHolds(map["server" := "nginx"], map["Server" := "nginx"], "Server");
  }

  /** A rule whose response section has no code (or one that is not a
      number) never succeeds. */
  lemma RuleWithoutCodeFails(res: Response, response: Expected, matches: (string, string) -> bool)
    requires response.code.None?
    ensures !RuleSucceeds(res, response, matches)
  {
  }

  /** A status different from the one configured fails the rule whatever
      the headers and body. */
  lemma StatusMismatchFails(res: Response, response: Expected, matches: (string, string) -> bool)
    requires response.code.Some? && response.code.value != res.statusCode
    ensures !RuleSucceeds(res, response, matches)
  {
  }

  /** With the empty pattern matching every body, a rule that configures only
      the status code succeeds exactly when the status equals it. */
  lemma StatusOnlyRule(res: Response, code: int, matches: (string, string) -> bool)
    requires forall body :: matches("", body)
    ensures RuleSucceeds(res, Expected(Some(code), None, None), matches) <==> res.statusCode == code
  {
  }
}
