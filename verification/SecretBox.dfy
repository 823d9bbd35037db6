/** Encrypted secrets: "enc:v1:" and the base64 of version, iv, tag and ciphertext. The cipher and
    UTF-8 are parameters. */
module SecretBox {
  import opened Text
  import opened Base64

  const PREFIX := "enc:v1:"

  datatype Sealed = Sealed(tag: Bytes, body: Bytes)

  datatype Cipher = Cipher(
    seal: (Bytes, Bytes, Bytes) -> Sealed,
    unseal: (Bytes, Bytes, Sealed) -> Option<Bytes>,
    utf8: string -> Bytes,
    text: Bytes -> string)

  datatype DecryptError = TooShort | BadVersion | NotAuthentic

  function EncryptSecret(c: Cipher, key: Bytes, iv: Bytes, plain: string): string
  {
    if plain == "" then ""
    else
      var box := c.seal(key, iv, c.utf8(plain));
      PREFIX + Encode([1] + iv + box.tag + box.body)
  }

  function DecryptSecret(c: Cipher, key: Bytes, value: string): Result<string, DecryptError>
  {
    if value == "" || !(PREFIX <= value) then Ok(value)
    else
      var payload := Decode(value[|PREFIX|..]);
      if |payload| < 1 + 12 + 16 then Err(TooShort)
      else if payload[0] != 1 then Err(BadVersion)
      else
        match c.unseal(key, payload[1..13], Sealed(payload[13..29], payload[29..]))
        case None => Err(NotAuthentic)
        case Some(b) => Ok(c.text(b))
  }

  /** Decryption undoes encryption for every text, the empty one included, given a cipher that opens
      what it sealed: the version byte, iv, tag and ciphertext are cut at the offsets they were put. */
  lemma DecryptEncrypt(c: Cipher, key: Bytes, iv: Bytes, plain: string)
    requires |iv| == 12
    requires forall k, n, p :: |c.seal(k, n, p).tag| == 16 && c.unseal(k, n, c.seal(k, n, p)) == Some(p)
    requires c.text(c.utf8(plain)) == plain
    ensures DecryptSecret(c, key, EncryptSecret(c, key, iv, plain)) == Ok(plain)
  {
    hide Encode, Decode;
    if plain != "" {
      var box := c.seal(key, iv, c.utf8(plain));
      assert |box.tag| == 16;
      var payload: Bytes := [1] + iv + box.tag + box.body;
      var value := PREFIX + Encode(payload);
      assert value[|PREFIX|..] == Encode(payload);
      DecodeEncode(payload);
      assert payload[1..13] == iv && payload[13..29] == box.tag && payload[29..] == box.body;
    }
  }

  /** The stored bytes are version 1, this iv and this box, and the cipher opens them to `p`. */
  ghost predicate Opens(c: Cipher, key: Bytes, stored: Bytes, iv: Bytes, box: Sealed, p: Bytes)
  {
    && stored == [1] + iv + box.tag + box.body && |iv| == 12 && |box.tag| == 16
    && c.unseal(key, iv, box) == Some(p)
  }

  /** A value decrypts to a text exactly when it is unprefixed old data equal to that text, or the
      cipher authenticates the iv, tag and ciphertext it stores and they open to that text. */
  lemma DecryptOpensExactly(c: Cipher, key: Bytes, value: string, plain: string)
    ensures DecryptSecret(c, key, value) == Ok(plain) <==>
              if PREFIX <= value
              then exists iv: Bytes, box: Sealed, p: Bytes ::
                     Opens(c, key, Decode(value[|PREFIX|..]), iv, box, p) && plain == c.text(p)
              else plain == value
  {
    hide Decode;
    if PREFIX <= value {
      var payload := Decode(value[|PREFIX|..]);
      if DecryptSecret(c, key, value) == Ok(plain) {
        var iv, box := payload[1..13], Sealed(payload[13..29], payload[29..]);
        assert payload == [1] + iv + box.tag + box.body;
        assert Opens(c, key, payload, iv, box, c.unseal(key, iv, box).value);
      }
      if iv: Bytes, box: Sealed, p: Bytes :| Opens(c, key, payload, iv, box, p) && plain == c.text(p) {
        assert payload[1..13] == iv && payload[13..29] == box.tag && payload[29..] == box.body;
      }
    }
  }
}
