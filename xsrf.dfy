// Reading an XSRF token (an AuthToken) from the header Angular sends back.
module Xsrf {
  import opened Wrappers
  import opened ByteSlices
  import opened AuthTokens

  /** The cookie Angular reads; it echoes the value in the header "X-" + CookieName. */
  const CookieName: string := "XSRF-TOKEN"
  const WrongLength: string := "X-" + CookieName + " header is an incorrect length"

  /** An `http.Header`: the values stored under each canonical key. Go
      strings are byte strings, so values are bytes. */
  type Header = map<string, seq<Bytes>>

  /** `http.Header` stores "X-XSRF-TOKEN" under its canonical form (letters
      upper case at the start and after '-', lower case elsewhere). */
  const CanonicalHeaderName: string := "X-Xsrf-Token"

  /** `Header.Get` under a canonical key: the first value stored there, or "" when there is none. */
  function Get(h: Header, key: string): (v: Bytes)
    ensures key !in h || |h[key]| == 0 ==> v == []
    ensures key in h && |h[key]| > 0 ==> v == h[key][0]
  {
    if key in h && |h[key]| > 0 then h[key][0] else []
  }

  /** The token and the error FromHeader returns: the zero token and an error
      unless the header value is exactly one token long, else its bytes. */
  function HeaderToken(h: Header): (r: (AuthToken, Outcome))
    ensures r.1.Fail? <==> |Get(h, CanonicalHeaderName)| != AuthTokenLength
    ensures r.1.Fail? ==> r.0 == NilToken && r.1.message == WrongLength
    ensures r.1.Pass? ==> r.0 == Get(h, CanonicalHeaderName)
  {
    var val := Get(h, CanonicalHeaderName);
    if |val| != AuthTokenLength then (NilToken, Fail(WrongLength))
    else (Copied(NilToken, 0, val), Pass)
  }

  /** FromHeader: checks the length of the header value, then copies it into
      the zero-initialised named result. */
  method FromHeader(h: Header) returns (t: AuthToken, err: Outcome)
    ensures (t, err) == HeaderToken(h)
  {
    var val := Get(h, CanonicalHeaderName);
    var buf := new byte[AuthTokenLength](_ => 0);
    assert buf[..] == NilToken;
    if |val| != buf.Length {
      return buf[..], Fail(WrongLength);
    }
    var _ := Copy(buf, 0, val);
    return buf[..], Pass;
  }

  /** The part of `http.Cookie` the model keeps: its name and its value. */
  datatype HttpCookie = HttpCookie(name: string, value: Bytes)

  /** Cookie: the XSRF cookie whose value is the token's text. */
  function Cookie(t: AuthToken): (c: HttpCookie)
    ensures c.name == CookieName && |c.value| == AuthTokenLength
    ensures forall i :: 0 <= i < AuthTokenLength ==> c.value[i] == t[i]
  {
    HttpCookie(CookieName, t)
  }

  /** A header echoing the cookie's value gives back the token, with no error. */
  lemma CookieRoundTrip(t: AuthToken, h: Header)
    requires CanonicalHeaderName in h
    requires |h[CanonicalHeaderName]| > 0 && h[CanonicalHeaderName][0] == Cookie(t).value
    ensures HeaderToken(h) == (t, Pass)
  {
  }

  /** A missing header, or one with no value, reads as "" and is rejected. */
  lemma MissingHeaderRejected(h: Header)
    requires CanonicalHeaderName !in h || h[CanonicalHeaderName] == []
    ensures HeaderToken(h) == (NilToken, Fail(WrongLength))
  {
  }
}
