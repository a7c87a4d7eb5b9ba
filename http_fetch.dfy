/**
 * `http_fetch`: the request it writes when the connection opens (sections
 * 3.1.1 and 5.4 of RFC 7230), the header fields it copies out of Mongoose's
 * parsed response, and how the final `http_response` is chosen.
 */
module HttpFetch {
  import opened Wrappers
  import opened Mongoose
  import opened HttpResponses

  /** What `%s` prints of a character buffer: everything before the first NUL. */
  function CString(s: string): (r: string)
    ensures |r| <= |s| && r == s[..|r|]
    ensures '\0' !in r
    ensures |r| < |s| ==> s[|r|] == '\0'
  {
    if s == [] || s[0] == '\0' then [] else [s[0]] + CString(s[1..])
  }

  /** What `%.*s` prints: at most `precision` characters, stopping early at a NUL. */
  function PrecisionString(s: string, precision: nat): (r: string)
    ensures |r| <= precision && |r| <= |s| && r == s[..|r|]
    ensures '\0' !in r
    ensures |r| < precision && |r| < |s| ==> s[|r|] == '\0'
  {
    CString(if precision < |s| then s[..precision] else s)
  }

  /**
   * The bytes `mg_printf` writes on `MG_EV_CONNECT`: the GET request line for
   * `uri`, a Host field holding the stated length of `host`, and the empty line.
   */
  function FormatGetRequest(uri: string, host: MgStr): (r: string)
    requires host.len <= IntMax
    ensures |r| == |CString(uri)| + |PrecisionString(host.buf, host.len)| + 25
    ensures r[..4] == "GET " && r[|r| - 4..] == "\r\n\r\n"
  {
    RequestLine(CString(uri)) + "\r\n" + HostField(PrecisionString(host.buf, host.len)) + "\r\n" + "\r\n"
  }

  /** `request-line` of section 3.1.1 of RFC 7230 for a GET of `target`, without its CR LF. */
  function RequestLine(target: string): string {
    "GET " + target + " HTTP/1.1"
  }

  /** The Host field of section 5.4 of RFC 7230, without its CR LF. */
  function HostField(host: string): string {
    "Host: " + host
  }

  /** Splits off the text before the first CR LF; fails when a CR is not followed by LF or none is found. */
  function SplitCrlf(s: string): Option<(string, string)> {
    if |s| < 2 then None
    else if s[0] == '\r' then (if s[1] == '\n' then Some(([], s[2..])) else None)
    else match SplitCrlf(s[1..])
      case None => None
      case Some(p) => Some(([s[0]] + p.0, p.1))
  }

  lemma {:induction false} SplitCrlfOfLine(line: string, rest: string)
    requires '\r' !in line
    ensures SplitCrlf(line + "\r\n" + rest) == Some((line, rest))
  {
    if line != [] {
      assert (line + "\r\n" + rest)[1..] == line[1..] + "\r\n" + rest;
      SplitCrlfOfLine(line[1..], rest);
      assert [line[0]] + line[1..] == line;
    }
  }

  /**
   * A reader of the request `FormatGetRequest` writes: a GET request line, one
   * Host field and the empty line, giving back the target and the host.
   */
  function ParseGetRequest(request: string): Option<(string, string)> {
    match SplitCrlf(request)
    case None => None
    case Some(first) =>
      var line := first.0;
      if |line| < 13 || line[..4] != "GET " || line[|line| - 9..] != " HTTP/1.1" then None
      else match SplitCrlf(first.1)
        case None => None
        case Some(second) =>
          var field := second.0;
          if |field| < 6 || field[..6] != "Host: " || second.1 != "\r\n" then None
          else Some((line[4..|line| - 9], field[6..]))
  }

  lemma NoCrInConcat(a: string, b: string)
    requires '\r' !in a && '\r' !in b
    ensures '\r' !in a + b
  {
    forall i | 0 <= i < |a + b| ensures (a + b)[i] != '\r' {
      if i < |a| { assert (a + b)[i] == a[i]; } else { assert (a + b)[i] == b[i - |a|]; }
    }
  }

  /** The request line and the Host field are each read back from their parts. */
  lemma ParseOfParts(u: string, h: string)
    requires '\r' !in u && '\r' !in h
    ensures ParseGetRequest(RequestLine(u) + "\r\n" + (HostField(h) + "\r\n" + "\r\n")) == Some((u, h))
  {
    var line, field := RequestLine(u), HostField(h);
    NoCrInConcat("GET ", u);
    NoCrInConcat("GET " + u, " HTTP/1.1");
    NoCrInConcat("Host: ", h);
    SplitCrlfOfLine(line, field + "\r\n" + "\r\n");
    SplitCrlfOfLine(field, "\r\n");
    assert line[..4] == "GET " && line[|line| - 9..] == " HTTP/1.1" && line[4..|line| - 9] == u;
    assert field[..6] == "Host: " && field[6..] == h;
  }

  /**
   * The request written on connect is read back as exactly the target `%s`
   * printed and the host `%.*s` printed, provided neither holds a CR.
   */
  lemma FormattedRequestRoundTrip(uri: string, host: MgStr)
    requires host.len <= IntMax
    requires '\r' !in CString(uri) && '\r' !in PrecisionString(host.buf, host.len)
    ensures ParseGetRequest(FormatGetRequest(uri, host)) == Some((CString(uri), PrecisionString(host.buf, host.len)))
  {
    var u, h := CString(uri), PrecisionString(host.buf, host.len);
    assert FormatGetRequest(uri, host) == RequestLine(u) + "\r\n" + (HostField(h) + "\r\n" + "\r\n");
    ParseOfParts(u, h);
  }

  /** Distinct targets or hosts give distinct requests. */
  lemma FormatGetRequestInjective(uri1: string, host1: MgStr, uri2: string, host2: MgStr)
    requires host1.len <= IntMax && host2.len <= IntMax
    requires '\r' !in CString(uri1) && '\r' !in PrecisionString(host1.buf, host1.len)
    requires '\r' !in CString(uri2) && '\r' !in PrecisionString(host2.buf, host2.len)
    requires FormatGetRequest(uri1, host1) == FormatGetRequest(uri2, host2)
    ensures CString(uri1) == CString(uri2)
    ensures PrecisionString(host1.buf, host1.len) == PrecisionString(host2.buf, host2.len)
  {
    FormattedRequestRoundTrip(uri1, host1);
    FormattedRequestRoundTrip(uri2, host2);
  }

  /**
   * The fields the `MG_EV_HTTP_MSG` loop copies: the longest prefix of the
   * parsed array whose names are non-empty, each as a (name, value) pair.
   */
  function NamedPrefix(parsed: seq<MgHttpHeader>): (r: seq<HeaderField>)
    ensures |r| <= |parsed|
    ensures forall i | 0 <= i < |r| :: parsed[i].name != [] && r[i] == (parsed[i].name, parsed[i].value)
    ensures |r| < |parsed| ==> parsed[|r|].name == []
  {
    if parsed == [] || parsed[0].name == [] then []
    else [(parsed[0].name, parsed[0].value)] + NamedPrefix(parsed[1..])
  }

  /** At most `MG_MAX_HTTP_HEADERS` fields are ever copied. */
  lemma NamedPrefixCapped(parsed: HeaderArray)
    ensures |NamedPrefix(parsed)| <= MaxHttpHeaders
  {
  }

  /**
   * What `http_fetch` returns once polling ends: a failure when no connection
   * could be opened or a protocol error was recorded, else the response built.
   */
  function FinishFetch(connectionOpened: bool, protocolError: string, response: HttpResponse): (r: HttpResponse)
    ensures connectionOpened && protocolError == [] ==> r == response
    ensures !connectionOpened || protocolError != [] ==> r == EmptyResponse
  {
    if !connectionOpened then HttpResponse.Failed("mg_http_connect failed")
    else if protocolError != [] then HttpResponse.Failed(protocolError)
    else response
  }

  /** A fetch succeeds exactly when it connected, saw no error, and received a status. */
  lemma FetchResultTruthy(connectionOpened: bool, protocolError: string, response: HttpResponse)
    ensures FinishFetch(connectionOpened, protocolError, response).Truthy()
        <==> connectionOpened && protocolError == [] && response.status.Some?
  {
  }

  /** The `state` record of `http_fetch` and its Mongoose callback. */
  class FetchState {
    /** What `mg_url_uri(request_url)` returns. */
    const urlUri: string
    /** What `mg_url_host(request_url)` returns. */
    const urlHost: MgStr
    var response: HttpResponse
    var done: bool
    var protocolError: string

    constructor (urlUri: string, urlHost: MgStr)
      ensures this.urlUri == urlUri && this.urlHost == urlHost
      ensures response == EmptyResponse && !done && protocolError == []
    {
      this.urlUri := urlUri;
      this.urlHost := urlHost;
      response := EmptyResponse;
      done := false;
      protocolError := [];
    }

    /** `state::callback`. */
    method Callback(c: Connection, ev: MgEvent)
      requires ev.EvConnect? ==> urlHost.len <= IntMax
      modifies this, c
      ensures ev.EvConnect? ==>
        && c.sendBuffer == old(c.sendBuffer) + FormatGetRequest(urlUri, urlHost)
        && c.isClosing == old(c.isClosing)
        && response == old(response) && done == old(done) && protocolError == old(protocolError)
      ensures ev.EvHttpMsg? ==>
        && response.data == ev.httpMessage.body
        && response.status == Some(ev.httpMessage.status)
        && response.headers == old(response.headers) + NamedPrefix(ev.httpMessage.headers)
        && done && c.isClosing && c.sendBuffer == old(c.sendBuffer) && protocolError == old(protocolError)
      ensures ev.EvError? ==>
        && protocolError == CString(ev.errorMessage) && done && c.isClosing
        && c.sendBuffer == old(c.sendBuffer) && response == old(response)
      ensures ev.EvWsMsg? || ev.EvOther? ==> unchanged(this, c)
    {
      match ev
      case EvConnect =>
        c.sendBuffer := c.sendBuffer + FormatGetRequest(urlUri, urlHost);
      case EvHttpMsg(hm) =>
        response := response.(data := hm.body, status := Some(hm.status));
        ghost var before := response.headers;
        ghost var collected := NamedPrefix(hm.headers);
        var i := 0;
        while i < MaxHttpHeaders
          invariant 0 <= i <= |collected|
          invariant response.headers == before + collected[..i]
          invariant response.data == hm.body && response.status == Some(hm.status)
          modifies this`response
        {
          var h := hm.headers[i];
          if h.name == [] {
            break;
          }
          assert i < |collected| && collected[i] == (h.name, h.value);
          assert collected[..i + 1] == collected[..i] + [collected[i]];
          response := response.(headers := response.headers + [(h.name, h.value)]);
          i := i + 1;
        }
        assert i == |collected|;
        assert collected[..i] == collected;
        done := true;
        c.isClosing := true;
      case EvError(message) =>
        protocolError := CString(message);
        done := true;
        c.isClosing := true;
      case _ =>
    }
  }
}
