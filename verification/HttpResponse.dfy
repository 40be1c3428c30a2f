/** A response, as a value and as the object that handlers and the encoder
    change. */
module HttpResponse {
  import opened Bytes
  import opened HttpHeaders

  datatype BodyType = CONTENT_LENGTH | CHUNKED

  datatype Response = Response(
    code: nat, message: Buffer, headers: HeaderMap, body: Buffer, bodyType: BodyType, closeAfterSend: bool)

  const DefaultResponse := Response(200, "OK", map[], [], CONTENT_LENGTH, false)

  predicate AsksToClose(headers: HeaderMap) {
    var v := Lookup(headers, "Connection");
    v.Some? && Contains(ToLower(v.value), "close")
  }

  /** The response with the `Connection` header that this connection needs; a
      handler that asked to close is respected. */
  function Finalized(r: Response, clientKeepsAlive: bool): (f: Response)
    ensures f.closeAfterSend <==> AsksToClose(f.headers)
    ensures f.closeAfterSend <==> !clientKeepsAlive || AsksToClose(r.headers)
    ensures f.body == r.body && f.code == r.code && f.message == r.message && f.bodyType == r.bodyType
  {
    var keepAlive := clientKeepsAlive && !AsksToClose(r.headers);
    ConnectionWords();
    r.(headers := Stored(r.headers, "Connection", if keepAlive then "keep-alive" else "close"),
       closeAfterSend := !keepAlive)
  }

  /** A handler asks to close when its `Connection` header mentions `close`, in
      any capitalisation. */
  lemma AsksToCloseExactly(headers: HeaderMap)
    ensures AsksToClose(headers) <==> "connection" in headers && Mentions(headers["connection"], "close")
  {
    assert ToLower("Connection") == "connection";
    if "connection" in headers {
      MentionsLowered(headers["connection"], "close");
    }
  }

  /** Finalizing touches one header: `Connection` says whether the connection
      stays open, and every other header of the handler is as it was. */
  lemma FinalizedHeaders(r: Response, clientKeepsAlive: bool)
    ensures var f := Finalized(r, clientKeepsAlive);
            && Lookup(f.headers, "Connection") == Some(if f.closeAfterSend then "close" else "keep-alive")
            && forall k :: ToLower(k) != "connection" ==> Lookup(f.headers, k) == Lookup(r.headers, k)
  {
    hide AsksToClose;
    assert ToLower("Connection") == "connection";
  }

  lemma ConnectionWords()
    ensures Contains(ToLower("close"), "close")
    ensures !Contains(ToLower("keep-alive"), "close")
  {
    assert ToLower("close") == "close";
    assert OccursAt("close", "close", 0);
    var s := ToLower("keep-alive");
    assert s == "keep-alive";
    forall i | 0 <= i <= |s|
      ensures !OccursAt(s, "close", i)
    {
      if 0 <= i <= 5 {
        assert s[i..i + 5][0] == s[i];
        assert s[i] != 'c';
      }
    }
  }

  class HttpResponse {
    var status_code: nat
    var status_message: Buffer
    const headers: HttpHeaders
    var body: Buffer
    var body_type: BodyType
    var close_after_send: bool

    constructor ()
      ensures fresh(headers) && View() == DefaultResponse
    {
      status_code, status_message, body := 200, "OK", [];
      headers := new HttpHeaders();
      body_type, close_after_send := CONTENT_LENGTH, false;
    }

    /** The object that a handler returned. */
    constructor Of(r: Response)
      ensures fresh(headers) && View() == r
    {
      status_code, status_message, body := r.code, r.message, r.body;
      headers := new HttpHeaders();
      body_type, close_after_send := r.bodyType, r.closeAfterSend;
      new;
      headers.m_headers := r.headers;
    }

    function View(): Response
      reads this, headers
    {
      Response(status_code, status_message, headers.m_headers, body, body_type, close_after_send)
    }

    method SetStatus(code: nat, message: Buffer)
      modifies this
      ensures View() == old(View()).(code := code, message := message)
    {
      status_code, status_message := code, message;
    }

    method SetHeader(key: Buffer, value: Buffer)
      modifies headers
      ensures View() == old(View()).(headers := Stored(old(headers.m_headers), key, value))
    {
      headers.Set(key, value);
    }

    method Html(text: Buffer)
      modifies this, headers
      ensures View() == old(View()).(
                headers := Stored(old(headers.m_headers), "Content-Type", "text/html; charset=utf-8"), body := text)
    {
      SetHeader("Content-Type", "text/html; charset=utf-8");
      body := text;
    }

    method FinalizeForConnection(clientWantsKeepAlive: bool)
      modifies this, headers
      ensures View() == Finalized(old(View()), clientWantsKeepAlive)
    {
      var alreadyClose := false;
      var existing := headers.Get("Connection");
      if existing.Some? {
        alreadyClose := Contains(ToLower(existing.value), "close");
      }
      var keepAlive := clientWantsKeepAlive && !alreadyClose;
      SetHeader("Connection", if keepAlive then "keep-alive" else "close");
      close_after_send := !keepAlive;
    }
  }
}
