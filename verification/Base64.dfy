/** Base64 and its URL-safe, unpadded form (sections 4 and 5 of RFC 4648), written the way the code
    does: the standard encoding first, then character replacement and padding removal. */
module Base64 {
  import opened Text

  newtype byte = x: int | 0 <= x < 256
  newtype six = x: int | 0 <= x < 64

  type Bytes = seq<byte>

  // Three bytes are four sextets: the sextets of consecutive bytes, and the bytes of consecutive sextets.
  function S0(b0: byte): six { (b0 / 4) as six }
  function S1(b0: byte, b1: byte): six { (b0 % 4) as six * 16 + (b1 / 16) as six }
  function S2(b1: byte, b2: byte): six { (b1 % 16) as six * 4 + (b2 / 64) as six }
  function S3(b2: byte): six { (b2 % 64) as six }

  function B0(x0: six, x1: six): byte { x0 as byte * 4 + (x1 / 16) as byte }
  function B1(x1: six, x2: six): byte { (x1 % 16) as byte * 16 + (x2 / 4) as byte }
  function B2(x2: six, x3: six): byte { (x2 % 4) as byte * 64 + x3 as byte }

  lemma BytesOfSextets(b0: byte, b1: byte, b2: byte)
    ensures B0(S0(b0), S1(b0, b1)) == b0 && B1(S1(b0, b1), S2(b1, b2)) == b1 && B2(S2(b1, b2), S3(b2)) == b2
  {
    var n0, n1, n2 := b0 as int, b1 as int, b2 as int;
    assert n0 == n0 / 4 * 4 + n0 % 4 && n1 == n1 / 16 * 16 + n1 % 16 && n2 == n2 / 64 * 64 + n2 % 64;
  }

  lemma SextetsOfBytes(x0: six, x1: six, x2: six, x3: six)
    ensures S0(B0(x0, x1)) == x0 && S1(B0(x0, x1), B1(x1, x2)) == x1
            && S2(B1(x1, x2), B2(x2, x3)) == x2 && S3(B2(x2, x3)) == x3
  {}

  function Sextets(b: Bytes): seq<six>
  {
    if |b| == 0 then []
    else if |b| == 1 then [S0(b[0]), S1(b[0], 0)]
    else if |b| == 2 then [S0(b[0]), S1(b[0], b[1]), S2(b[1], 0)]
    else [S0(b[0]), S1(b[0], b[1]), S2(b[1], b[2]), S3(b[2])] + Sextets(b[3..])
  }

  /** The bytes of a sextet sequence; bits that do not fill a byte are dropped. */
  function Unpack(x: seq<six>): Bytes
  {
    if |x| < 2 then []
    else if |x| == 2 then [B0(x[0], x[1])]
    else if |x| == 3 then [B0(x[0], x[1]), B1(x[1], x[2])]
    else [B0(x[0], x[1]), B1(x[1], x[2]), B2(x[2], x[3])] + Unpack(x[4..])
  }

  lemma {:induction false} UnpackSextets(b: Bytes)
    ensures Unpack(Sextets(b)) == b
    ensures b != [] ==> Sextets(b) != []
    decreases |b|
  {
    hide S0, S1, S2, S3, B0, B1, B2;
    if |b| == 1 {
      BytesOfSextets(b[0], 0, 0);
    } else if |b| == 2 {
      BytesOfSextets(b[0], b[1], 0);
    } else if |b| >= 3 {
      BytesOfSextets(b[0], b[1], b[2]);
      UnpackSextets(b[3..]);
      var x := Sextets(b);
      assert x[4..] == Sextets(b[3..]);
      assert b == [b[0], b[1], b[2]] + b[3..];
    }
  }

  /** One sextet more for every three bytes begun. */
  lemma {:induction false} SextetsLength(b: Bytes)
    ensures |Sextets(b)| == |b| + (|b| + 2) / 3
    decreases |b|
  {
    hide S0, S1, S2, S3;
    if |b| >= 3 {
      SextetsLength(b[3..]);
    }
  }

  lemma GroupsBegun(q: nat, r: nat)
    requires r < 3
    ensures (3 * q + r + 2) / 3 == if r == 0 then q else q + 1
  {}

  lemma LeftOfFour(q: nat, k: nat)
    requires k < 4
    ensures (4 * q + k) % 4 == k
  {}

  lemma NeverOneLeft(n: nat)
    ensures (n + (n + 2) / 3) % 4 != 1
  {
    var q, r := n / 3, n % 3;
    GroupsBegun(q, r);
    LeftOfFour(q, if r == 0 then 0 else r + 1);
  }

  /** A last group of one sextet never arises. */
  lemma SextetsLeft(b: Bytes)
    ensures |Sextets(b)| % 4 != 1 && (Sextets(b) == [] <==> b == [])
  {
    hide Sextets;
    SextetsLength(b);
    NeverOneLeft(|b|);
  }

  /** No bits are left over: the last sextet of an incomplete group carries nothing below its bytes. */
  predicate Canonical(x: seq<six>)
  {
    if |x| == 0 then true
    else if |x| == 1 then false
    else if |x| == 2 then x[1] % 16 == 0
    else if |x| == 3 then x[2] % 4 == 0
    else Canonical(x[4..])
  }

  lemma FirstGroup(x: seq<six>)
    requires |x| >= 4
    ensures Sextets(Unpack(x)) == [x[0], x[1], x[2], x[3]] + Sextets(Unpack(x[4..]))
  {
    hide S0, S1, S2, S3, B0, B1, B2;
    SextetsOfBytes(x[0], x[1], x[2], x[3]);
    var rest := Unpack(x[4..]);
    var b := [B0(x[0], x[1]), B1(x[1], x[2]), B2(x[2], x[3])] + rest;
    assert Unpack(x) == b && b[3..] == rest;
  }

  lemma LastGroup(x0: six, x1: six, x2: six)
    ensures S0(B0(x0, x1)) == x0 && (S1(B0(x0, x1), 0) == x1 <==> x1 % 16 == 0)
    ensures S1(B0(x0, x1), B1(x1, x2)) == x1 && (S2(B1(x1, x2), 0) == x2 <==> x2 % 4 == 0)
  {
    SextetsOfBytes(x0, x1, x2, 0);
  }

  /** Packing undoes unpacking exactly on the canonical sextet sequences. */
  lemma {:induction false} SextetsUnpack(x: seq<six>)
    ensures Sextets(Unpack(x)) == x <==> Canonical(x)
    decreases |x|
  {
    hide S0, S1, S2, S3, B0, B1, B2;
    if |x| == 2 {
      LastGroup(x[0], x[1], 0);
    } else if |x| == 3 {
      LastGroup(x[0], x[1], x[2]);
    } else if |x| >= 4 {
      SextetsUnpack(x[4..]);
      FirstGroup(x);
      var head := [x[0], x[1], x[2], x[3]];
      assert x == head + x[4..];
      assert (head + Sextets(Unpack(x[4..])))[4..] == Sextets(Unpack(x[4..]));
    }
  }

  // Characters ---------------------------------------------------------------------------------------

  function Char(v: six): (c: char)
  {
    if v < 26 then ('A' as int + v as int) as char
    else if v < 52 then ('a' as int + v as int - 26) as char
    else if v < 62 then ('0' as int + v as int - 52) as char
    else if v == 62 then '+' else '/'
  }

  predicate IsStandard(c: char) { 'A' <= c <= 'Z' || 'a' <= c <= 'z' || '0' <= c <= '9' || c == '+' || c == '/' }

  predicate IsUrl(c: char) { 'A' <= c <= 'Z' || 'a' <= c <= 'z' || '0' <= c <= '9' || c == '-' || c == '_' }

  function ValueOf(c: char): (v: six)
    requires IsStandard(c)
  {
    if 'A' <= c <= 'Z' then (c as int - 'A' as int) as six
    else if 'a' <= c <= 'z' then (c as int - 'a' as int + 26) as six
    else if '0' <= c <= '9' then (c as int - '0' as int + 52) as six
    else if c == '+' then 62 else 63
  }

  lemma CharRoundTrip(v: six, c: char)
    ensures IsStandard(Char(v)) && ValueOf(Char(v)) == v
    ensures IsStandard(c) ==> Char(ValueOf(c)) == c
  {}

  function Chars(x: seq<six>): (s: string)
    ensures |s| == |x| && forall i :: 0 <= i < |s| ==> s[i] == Char(x[i])
  {
    seq(|x|, i requires 0 <= i < |x| => Char(x[i]))
  }

  predicate AllStandard(s: string) { forall i :: 0 <= i < |s| ==> IsStandard(s[i]) }

  function Values(s: string): (x: seq<six>)
    requires AllStandard(s)
    ensures |x| == |s| && forall i :: 0 <= i < |s| ==> x[i] == ValueOf(s[i])
  {
    seq(|s|, i requires 0 <= i < |s| => ValueOf(s[i]))
  }

  lemma CharsRoundTrip(x: seq<six>)
    ensures AllStandard(Chars(x)) && Values(Chars(x)) == x
  {
    forall i | 0 <= i < |x|
      ensures IsStandard(Chars(x)[i]) && ValueOf(Chars(x)[i]) == x[i]
    {
      CharRoundTrip(x[i], 'A');
    }
  }

  lemma ValuesRoundTrip(s: string)
    requires AllStandard(s)
    ensures Chars(Values(s)) == s
  {
    forall i | 0 <= i < |s|
      ensures Chars(Values(s))[i] == s[i]
    {
      CharRoundTrip(0, s[i]);
    }
  }

  // Standard base64 ------------------------------------------------------------------------------------

  function Padding(n: nat): string { if n % 3 == 1 then "==" else if n % 3 == 2 then "=" else "" }

  /** `buf.toString("base64")`. */
  function Encode(b: Bytes): string { Chars(Sextets(b)) + Padding(|b|) }

  /** Sextets carry the bits of their bytes in order, the characters run through the alphabet in order,
      and padding fills the last group of four. */
  lemma EncodingOrder(b0: byte, b1: byte, b2: byte, v: six, b: Bytes)
    ensures ((S0(b0) as int * 64 + S1(b0, b1) as int) * 64 + S2(b1, b2) as int) * 64 + S3(b2) as int
            == (b0 as int * 256 + b1 as int) * 256 + b2 as int
    ensures Char(0) == 'A' && Char(26) == 'a' && Char(52) == '0' && Char(62) == '+' && Char(63) == '/'
    ensures v != 25 && v != 51 && v < 61 ==> Char(v + 1) as int == Char(v) as int + 1
    ensures |Encode(b)| == (|b| + 2) / 3 * 4
  {
    SextetsLength(b);
    hide S0, S1, S2, S3, Char, Sextets;
    BitsInOrder(b0, b1, b2);
    CharsInOrder(v);
    PaddedLength(|b|);
  }

  lemma BitsInOrder(b0: byte, b1: byte, b2: byte)
    ensures ((S0(b0) as int * 64 + S1(b0, b1) as int) * 64 + S2(b1, b2) as int) * 64 + S3(b2) as int
            == (b0 as int * 256 + b1 as int) * 256 + b2 as int
  {
    var n0, n1, n2 := b0 as int, b1 as int, b2 as int;
    assert n0 == n0 / 4 * 4 + n0 % 4 && n1 == n1 / 16 * 16 + n1 % 16 && n2 == n2 / 64 * 64 + n2 % 64;
  }

  lemma CharsInOrder(v: six)
    ensures Char(0) == 'A' && Char(26) == 'a' && Char(52) == '0' && Char(62) == '+' && Char(63) == '/'
    ensures v != 25 && v != 51 && v < 61 ==> Char(v + 1) as int == Char(v) as int + 1
  {}

  lemma PaddedLength(n: nat)
    ensures n + (n + 2) / 3 + |Padding(n)| == (n + 2) / 3 * 4
  {
    var q, r := n / 3, n % 3;
    assert n == 3 * q + r;
    GroupsBegun(q, r);
  }

  /** The alphabet characters of a text; everything else, padding included, is skipped. */
  function Significant(s: string): (r: string)
    ensures AllStandard(r)
  {
    if s == "" then "" else if IsStandard(s[0]) then [s[0]] + Significant(s[1..]) else Significant(s[1..])
  }

  /** `Buffer.from(s, "base64")`. */
  function Decode(s: string): Bytes { Unpack(Values(Significant(s))) }

  lemma {:induction false} SignificantPadded(s: string, pad: string)
    requires AllStandard(s) && forall i :: 0 <= i < |pad| ==> pad[i] == '='
    ensures Significant(s + pad) == s
    decreases |s| + |pad|
  {
    if s != "" {
      SignificantPadded(s[1..], pad);
      assert (s + pad)[1..] == s[1..] + pad;
    } else if pad != "" {
      SignificantPadded(s, pad[1..]);
      assert s + pad == pad && s + pad[1..] == pad[1..];
    } else {
      assert s + pad == "";
    }
  }

  /** Decoding undoes encoding for every byte string. */
  lemma DecodeEncode(b: Bytes)
    ensures Decode(Encode(b)) == b
  {
    CharsRoundTrip(Sextets(b));
    SignificantPadded(Chars(Sextets(b)), Padding(|b|));
    UnpackSextets(b);
  }

  // The URL-safe form ------------------------------------------------------------------------------------

  function Replace(s: string, a: char, b: char): (r: string)
    ensures |r| == |s| && forall i :: 0 <= i < |s| ==> r[i] == if s[i] == a then b else s[i]
  {
    seq(|s|, i requires 0 <= i < |s| => if s[i] == a then b else s[i])
  }

  /** `replace(/=+$/, "")`. */
  function StripPadding(s: string): string
  {
    if s != "" && s[|s| - 1] == '=' then StripPadding(s[..|s| - 1]) else s
  }

  function Base64url(b: Bytes): string
  {
    StripPadding(Replace(Replace(Encode(b), '+', '-'), '/', '_'))
  }

  predicate AllUrl(s: string) { forall i :: 0 <= i < |s| ==> IsUrl(s[i]) }

  function Restored(s: string): string { Replace(Replace(s, '-', '+'), '_', '/') }

  /** The strict decoder: None where the code throws. */
  function FromBase64url(s: string): Option<Bytes>
  {
    if s == "" || !AllUrl(s) then None
    else
      var m := |s| % 4;
      var padded := s + (if m == 2 then "==" else if m == 3 then "=" else if m == 0 then "" else "===");
      if m == 1 then None else Some(Decode(Restored(padded)))
  }

  lemma {:induction false} StripsAll(s: string, pad: string)
    requires forall i :: 0 <= i < |pad| ==> pad[i] == '='
    requires s == "" || s[|s| - 1] != '='
    ensures StripPadding(s + pad) == s
    decreases |pad|
  {
    if pad != "" {
      StripsAll(s, pad[..|pad| - 1]);
      assert (s + pad)[..|s + pad| - 1] == s + pad[..|pad| - 1];
    } else {
      assert s + pad == s;
    }
  }

  function UrlChars(x: seq<six>): string { Replace(Replace(Chars(x), '+', '-'), '/', '_') }

  lemma UrlCharsMeaning(x: seq<six>)
    ensures AllUrl(UrlChars(x)) && Restored(UrlChars(x)) == Chars(x) && |UrlChars(x)| == |x|
  {
    CharsRoundTrip(x);
  }

  /** The encoder's text: the URL characters of the sextets, nothing else. */
  lemma Base64urlIsUrlChars(b: Bytes)
    ensures Base64url(b) == UrlChars(Sextets(b))
  {
    var core, pad := Chars(Sextets(b)), Padding(|b|);
    UrlCharsMeaning(Sextets(b));
    var url := UrlChars(Sextets(b));
    assert Replace(Replace(core + pad, '+', '-'), '/', '_') == url + pad;
    assert url != "" ==> IsUrl(url[|url| - 1]);
    StripsAll(url, pad);
  }

  lemma DecodeUrl(s: string, pad: string)
    requires AllUrl(s) && forall i :: 0 <= i < |pad| ==> pad[i] == '='
    ensures AllStandard(Restored(s)) && Decode(Restored(s + pad)) == Unpack(Values(Restored(s)))
  {
    assert Restored(s + pad) == Restored(s) + pad;
    SignificantPadded(Restored(s), pad);
  }

  /** The decoder accepts exactly the non-empty texts over the alphabet whose length is not 1 mod 4. */
  lemma DecoderAccepts(s: string)
    ensures FromBase64url(s).Some? <==> s != "" && AllUrl(s) && |s| % 4 != 1
  {}

  /** `fromBase64url` undoes `base64url` for every non-empty byte string, and rejects the encoding of
      the empty one; the encoder's output never contains a dot. */
  lemma UrlRoundTrip(b: Bytes)
    ensures FromBase64url(Base64url(b)) == if b == [] then None else Some(b)
    ensures '.' !in Base64url(b)
  {
    hide Sextets, Unpack;
    var x := Sextets(b);
    Base64urlIsUrlChars(b);
    UrlCharsMeaning(x);
    UnpackSextets(b);
    SextetsLeft(b);
    CharsRoundTrip(x);
    var s := UrlChars(x);
    forall i | 0 <= i < |s|
      ensures s[i] != '.'
    {
      assert IsUrl(s[i]);
    }
    if b != [] {
      var m := |s| % 4;
      DecodeUrl(s, if m == 2 then "==" else if m == 3 then "=" else "");
    } else {
      assert x == [] && s == "";
    }
  }

  /** The other direction: re-encoding an accepted text gives it back exactly when it is canonical,
      that is, when its last character carries no surplus bits. */
  lemma UrlCanonical(s: string)
    requires FromBase64url(s).Some?
    ensures AllStandard(Restored(s))
    ensures Base64url(FromBase64url(s).value) == s <==> Canonical(Values(Restored(s)))
  {
    var m := |s| % 4;
    DecodeUrl(s, if m == 2 then "==" else if m == 3 then "=" else "");
    var x := Values(Restored(s));
    var b := Unpack(x);
    Base64urlIsUrlChars(b);
    SextetsUnpack(x);
    ValuesRoundTrip(Restored(s));
    assert UrlChars(x) == s;
    if UrlChars(Sextets(b)) == s {
      UrlCharsMeaning(Sextets(b));
      CharsRoundTrip(Sextets(b));
      CharsRoundTrip(x);
    }
  }
}
