/** A request: the value that theorems speak of, and the object that the parser
    fills in. */
module HttpRequest {
  import opened Bytes
  import opened HttpHeaders

  datatype HttpMethod = GET | POST | PUT | DELETE | HEAD | OPTIONS | UNKNOWN

  datatype Request = Request(verb: HttpMethod, path: Buffer, version: Buffer, headers: HeaderMap, body: Buffer)

  const EmptyRequest := Request(UNKNOWN, [], [], map[], [])

  function StringToMethod(s: Buffer): HttpMethod {
    if s == "GET" then GET
    else if s == "POST" then POST
    else if s == "PUT" then PUT
    else if s == "DELETE" then DELETE
    else if s == "HEAD" then HEAD
    else if s == "OPTIONS" then OPTIONS
    else UNKNOWN
  }

  /** Without a `Connection` header that says otherwise, HTTP/1.1 keeps the
      connection open. */
  predicate WantsKeepAlive(r: Request) {
    match Lookup(r.headers, "Connection")
    case Some(v) =>
      if Contains(ToLower(v), "close") then false
      else Contains(ToLower(v), "keep-alive") || r.version == "HTTP/1.1"
    case None => r.version == "HTTP/1.1"
  }

  /** Who keeps the connection open: a client whose `Connection` header does not
      mention `close`, in any capitalisation, and that mentions `keep-alive` or
      speaks HTTP/1.1. */
  lemma KeepsAliveExactly(r: Request)
    ensures WantsKeepAlive(r) <==>
            var named := "connection" in r.headers;
            && !(named && Mentions(r.headers["connection"], "close"))
            && ((named && Mentions(r.headers["connection"], "keep-alive")) || r.version == "HTTP/1.1")
  {
    assert ToLower("Connection") == "connection";
    if "connection" in r.headers {
      MentionsLowered(r.headers["connection"], "close");
      MentionsLowered(r.headers["connection"], "keep-alive");
    }
    hide Mentions, Contains, ToLower;
  }

  class HttpRequest {
    var verb: HttpMethod
    var path: Buffer
    var version: Buffer
    const headers: HttpHeaders
    var body: Buffer

    constructor ()
      ensures fresh(headers) && View() == EmptyRequest
    {
      verb, path, version, body := UNKNOWN, [], [], [];
      headers := new HttpHeaders();
    }

    function View(): Request
      reads this, headers
    {
      Request(verb, path, version, headers.m_headers, body)
    }

    method Reset()
      modifies this, headers
      ensures View() == EmptyRequest
    {
      verb, path, version, body := UNKNOWN, [], [], [];
      headers.Clear();
    }
  }
}
