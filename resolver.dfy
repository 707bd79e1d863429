/**
 * The IP resolver (`getIP`): what it makes of the HTTP exchange with the IP
 * discovery service. The exchange itself (request construction, the IPv4-only
 * transport, sending, reading the body) is an input.
 */
module Resolver {
  import opened Wrappers
  import opened Text

  const StatusOK: int := 200

  /** How the exchange went: no response at all, or a status and a body that could (`Some`) or could not be read. */
  datatype Fetch = RequestFailed | Responded(status: int, body: Option<string>)

  datatype ResolveError = RequestError | UnexpectedStatus(status: int) | ReadError

  /** Go's `(string, error)` pair: on an error the address is "". */
  datatype Resolved = Resolved(ip: string, err: Option<ResolveError>)

  /**
   * `getIP` after the request: any status other than 200 is an error (the body is
   * not read); otherwise the body with surrounding whitespace removed.
   */
  function GetIP(f: Fetch): (r: Resolved)
    ensures r.err.Some? ==> r.ip == ""
    ensures r.err.None? <==> f.Responded? && f.status == StatusOK && f.body.Some?
    ensures f.Responded? && f.status != StatusOK ==> r.err == Some(UnexpectedStatus(f.status))
    ensures Trimmed(r.ip)
  {
    match f
    case RequestFailed => Resolved("", Some(RequestError))
    case Responded(status, body) =>
      if status != StatusOK then Resolved("", Some(UnexpectedStatus(status)))
      else match body
        case None => Resolved("", Some(ReadError))
        case Some(b) => Resolved(TrimSpace(b), None)
  }

  /** A successful result is the body without its surrounding whitespace, and nothing else. */
  lemma GetIPTrimsBody(pre: string, address: string, post: string)
    requires AllSpace(pre) && AllSpace(post) && Trimmed(address)
    ensures GetIP(Responded(StatusOK, Some(pre + address + post))) == Resolved(address, None)
  {
    TrimSpaceOfPadded(pre, address, post);
  }

  /** A successful result is already trimmed: trimming it again changes nothing. */
  lemma GetIPIdempotentTrim(f: Fetch)
    ensures TrimSpace(GetIP(f).ip) == GetIP(f).ip
  {
  }

  /** The body "  203.0.113.7\n" under status 200 gives "203.0.113.7"; status 503 gives an error. */
  lemma GetIPExamples()
    ensures GetIP(Responded(200, Some("  203.0.113.7\n"))) == Resolved("203.0.113.7", None)
    ensures GetIP(Responded(503, Some("203.0.113.7"))) == Resolved("", Some(UnexpectedStatus(503)))
  {
    assert "  203.0.113.7\n" == "  " + "203.0.113.7" + "\n";
    GetIPTrimsBody("  ", "203.0.113.7", "\n");
  }
}
