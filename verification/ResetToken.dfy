/** Password-reset tokens: a JSON payload and its HMAC, both URL-safe base64, joined by a dot. The
    JSON library and the HMAC are parameters. */
module ResetToken {
  import opened Text
  import opened Base64

  datatype Payload = Payload(id: string, ts: int)

  /** `write` and `parse` stand for JSON of a payload; `parse` is None where parsing throws or the
      fields have the wrong types. */
  datatype Crypto = Crypto(write: Payload -> Bytes, parse: Bytes -> Option<Payload>, hmac: string -> Bytes)

  datatype VerifyResult = Accepted(payload: Payload) | Malformed | BadSignature

  function SignToken(c: Crypto, id: string, ts: int): string
  {
    var payloadB64 := Base64url(c.write(Payload(id, ts)));
    payloadB64 + "." + Base64url(c.hmac(payloadB64))
  }

  function VerifyToken(c: Crypto, token: string): VerifyResult
  {
    if token == "" then Malformed
    else
      var parts := Split(token, '.');
      if |parts| != 2 || parts[0] == "" || parts[1] == "" then Malformed
      else match (FromBase64url(parts[0]), FromBase64url(parts[1]))
        case (Some(payload), Some(sig)) =>
          var expected := c.hmac(parts[0]);
          if |sig| != |expected| || sig != expected then BadSignature
          else (match c.parse(payload) case None => Malformed case Some(p) => Accepted(p))
        case _ => Malformed
  }

  lemma TwoParts(a: string, b: string)
    requires '.' !in a && '.' !in b
    ensures Split(a + "." + b, '.') == [a, b]
  {
    SplitAtFirst(a, '.', b);
    SplitAtFirst(b, '.', "");
  }

  lemma EncodedNotEmpty(b: Bytes)
    requires b != []
    ensures Base64url(b) != ""
  {
    UrlRoundTrip(b);
  }

  /** A token verifies to the id and time it was signed for, whenever JSON gives the payload back. */
  lemma VerifySigned(c: Crypto, id: string, ts: int)
    requires c.write(Payload(id, ts)) != [] && c.parse(c.write(Payload(id, ts))) == Some(Payload(id, ts))
    requires forall s :: c.hmac(s) != []
    ensures VerifyToken(c, SignToken(c, id, ts)) == Accepted(Payload(id, ts))
  {
    hide Base64url, FromBase64url;
    var bytes := c.write(Payload(id, ts));
    var p := Base64url(bytes);
    var mac := c.hmac(p);
    UrlRoundTrip(bytes);
    UrlRoundTrip(mac);
    EncodedNotEmpty(bytes);
    EncodedNotEmpty(mac);
    TwoParts(p, Base64url(mac));
  }

  /** A token is accepted exactly when it is two parts around one dot, the second decodes to the HMAC
      of the first as written, and the first decodes to a payload. */
  lemma AcceptedExactly(c: Crypto, token: string, payload: Payload)
    requires forall s :: c.hmac(s) != []
    ensures VerifyToken(c, token) == Accepted(payload) <==>
              exists p, s :: token == p + "." + s && '.' !in p && '.' !in s
                             && FromBase64url(s) == Some(c.hmac(p))
                             && FromBase64url(p).Some? && c.parse(FromBase64url(p).value) == Some(payload)
  {
    hide Base64url;
    if VerifyToken(c, token) == Accepted(payload) {
      var parts := Split(token, '.');
      JoinSplit(token, '.');
      assert parts == [parts[0]] + [parts[1]] && parts[1..] == [parts[1]];
      assert token == parts[0] + "." + parts[1];
    }
    if p, s :| token == p + "." + s && '.' !in p && '.' !in s
               && FromBase64url(s) == Some(c.hmac(p))
               && FromBase64url(p).Some? && c.parse(FromBase64url(p).value) == Some(payload) {
      TwoParts(p, s);
    }
  }
}
