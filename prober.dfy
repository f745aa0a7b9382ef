/** The Rule Prober: the request a rule describes, with its defaults, and
    the probe that identifies one request of one rule of one technology. */
module Prober {
  import opened Wrappers

  /** A rule's `request` section (`verb` is its `method` field); each field
      may be absent. A rule or a `request` section that is missing altogether
      has every field absent. */
  datatype RequestTemplate = RequestTemplate(
    verb: Option<string>,
    endpoint: Option<string>,
    headers: Option<map<string, string>>)

  /** The options handed to the HTTPS client. */
  datatype Request = Request(
    hostname: string,
    path: string,
    verb: string,
    headers: map<string, string>)

  /** One probe: the request sent for rule `rule` of technology `technology`.
      The network is modelled as a function of probes to responses. */
  datatype Probe = Probe(technology: string, rule: string, request: Request)

  const DefaultMethod: string := "GET"
  const DefaultEndpoint: string := "/"

  /** The request options built for `url` from a rule (src/index.js:49-58):
      an absent method becomes GET, an absent endpoint "/", absent headers
      the empty map; a field the rule gives is passed through unchanged. */
  function BuildRequest(url: string, request: RequestTemplate): (options: Request)
    ensures options.hostname == url
    ensures request.verb.Some? ==> options.verb == request.verb.value
    ensures request.verb.None? ==> options.verb == DefaultMethod
    ensures request.endpoint.Some? ==> options.path == request.endpoint.value
    ensures request.endpoint.None? ==> options.path == DefaultEndpoint
    ensures request.headers.Some? ==> options.headers == request.headers.value
    ensures request.headers.None? ==> options.headers == map[]
  {
    Request(
      url,
      request.endpoint.GetOr(DefaultEndpoint),
      request.verb.GetOr(DefaultMethod),
      request.headers.GetOr(map[]))
  }

  /** The fully populated template that describes a request. */
  function Template(options: Request): RequestTemplate {
    RequestTemplate(Some(options.verb), Some(options.path), Some(options.headers))
  }

  /** Defaults are applied once: rebuilding from the populated template of a
      built request gives the same request, and the populated template of a
      built request is the template itself with its defaults filled in. */
  lemma DefaultsAreIdempotent(url: string, request: RequestTemplate)
    ensures BuildRequest(url, Template(BuildRequest(url, request))) == BuildRequest(url, request)
    ensures request.verb.Some? && request.endpoint.Some? && request.headers.Some?
            ==> Template(BuildRequest(url, request)) == request
  {
  }

  /** A rule with no request section probes `GET /` with no headers. */
  lemma EmptyTemplateProbesRoot(url: string)
    ensures BuildRequest(url, RequestTemplate(None, None, None)) == Request(url, "/", "GET", map[])
  {
  }
}
