/** The percent-encoding of sas_token.c and the signature field of a SAS token. */
module SasToken {
  import opened Octets
  import opened Options
  import Fips180
  import Hmac
  import Base64

  const PERCENT: byte := 37   // '%'

  /** Characters that are copied as they are. */
  predicate Plain(c: byte) {
    97 <= c <= 122 || 65 <= c <= 90 || 48 <= c <= 57
  }

  /** The string "0123456789abcdef". */
  function Hex(v: byte): byte
    requires v < 16
  {
    if v < 10 then v + 48 else v + 87
  }

  /** The value of a hexadecimal digit of either case; RFC 3986, section 2.1. */
  function HexValue(c: byte): Option<byte> {
    if 48 <= c <= 57 then Some(c - 48)
    else if 97 <= c <= 102 then Some(c - 87)
    else if 65 <= c <= 70 then Some(c - 55)
    else None
  }

  function High(c: byte): (v: byte) ensures v < 16 {
    c >> 4
  }

  function Low(c: byte): (v: byte) ensures v < 16 {
    c & 15
  }

  function Join(high: byte, low: byte): byte {
    (high << 4) | low
  }

  function EncodeChar(c: byte): seq<byte> {
    if Plain(c) then [c] else [PERCENT, Hex(High(c)), Hex(Low(c))]
  }

  /** What `url_encode` writes for the characters `s`. */
  function UrlEncode(s: seq<byte>): seq<byte> {
    if s == [] then [] else UrlEncode(s[..|s| - 1]) + EncodeChar(s[|s| - 1])
  }

  /** RFC 3986, section 2.1: percent-decoding; every other character stands for itself. */
  function PercentDecode(s: seq<byte>): Option<seq<byte>> {
    if s == [] then Some([])
    else if s[0] != PERCENT then
      match PercentDecode(s[1..])
      case None => None
      case Some(rest) => Some([s[0]] + rest)
    else if |s| < 3 then None
    else
      match (HexValue(s[1]), HexValue(s[2]), PercentDecode(s[3..]))
      case (Some(high), Some(low), Some(rest)) => Some([Join(high, low)] + rest)
      case _ => None
  }

  lemma HexInverse(v: byte)
    requires v < 16
    ensures HexValue(Hex(v)) == Some(v)
  {
  }

  lemma NibblesJoin(c: byte)
    ensures Join(High(c), Low(c)) == c
  {
  }

  lemma DecodeOneChar(c: byte, t: seq<byte>)
    ensures PercentDecode(EncodeChar(c) + t) ==
      match PercentDecode(t) case None => None case Some(r) => Some([c] + r)
  {
    hide Hex, HexValue, High, Low, Join;
    var s := EncodeChar(c) + t;
    if Plain(c) {
      assert s[1..] == t;
    } else {
      HexInverse(High(c));
      HexInverse(Low(c));
      NibblesJoin(c);
      assert s[3..] == t;
    }
  }

  lemma {:induction false} DecodeBefore(s: seq<byte>, t: seq<byte>)
    requires PercentDecode(t).Some?
    ensures PercentDecode(UrlEncode(s) + t) == Some(s + PercentDecode(t).value)
  {
    hide EncodeChar, PercentDecode;
    if s == [] {
      assert UrlEncode(s) + t == t && s + PercentDecode(t).value == PercentDecode(t).value;
    } else {
      var front, c := s[..|s| - 1], s[|s| - 1];
      DecodeOneChar(c, t);
      DecodeBefore(front, EncodeChar(c) + t);
      assert UrlEncode(front) + (EncodeChar(c) + t) == UrlEncode(s) + t;
      assert front + ([c] + PercentDecode(t).value) == s + PercentDecode(t).value;
    }
  }

  /** `url_encode` loses nothing. */
  lemma UrlRoundTrip(s: seq<byte>)
    ensures PercentDecode(UrlEncode(s)) == Some(s)
  {
    hide UrlEncode;
    assert PercentDecode([]) == Some([]);
    DecodeBefore(s, []);
    assert UrlEncode(s) + [] == UrlEncode(s) && s + [] == s;
  }

  /** 'A' to 'Z', 'a' to 'z', '0' to '9'. */
  predicate Alphanumeric(c: byte) {
    65 <= c <= 90 || 97 <= c <= 122 || 48 <= c <= 57
  }

  /** `d` is the digit '0' to '9' or 'a' to 'f' of value `v`. */
  predicate IsDigit(d: byte, v: byte) {
    (48 <= d <= 57 && v == d - 48) || (97 <= d <= 102 && v == d - 97 + 10)
  }

  /** A character that is no letter or digit goes out as '%' and its two hexadecimal digits,
      in lower case; every other one as it is. */
  lemma EncodedAs(c: byte)
    ensures if Alphanumeric(c) then UrlEncode([c]) == [c]
      else
        var e := UrlEncode([c]);
        |e| == 3 && e[0] == 37 && IsDigit(e[1], c / 16) && IsDigit(e[2], c % 16)
  {
    Nibbles(c);
    HexDigit(High(c));
    HexDigit(Low(c));
    hide High, Low, Hex, IsDigit;
    assert [c][..0] == [] && UrlEncode([]) == [];
    assert UrlEncode([c]) == EncodeChar(c);
  }

  lemma Nibbles(c: byte)
    ensures High(c) == c / 16 && Low(c) == c % 16
  {
  }

  lemma HexDigit(v: byte)
    requires v < 16
    ensures IsDigit(Hex(v), v)
  {
  }

  lemma DigitIsAlphanumeric(d: byte, v: byte)
    requires IsDigit(d, v)
    ensures Alphanumeric(d)
  {
  }

  /** The encoding of a string is that of its characters, one by one. */
  lemma {:induction false} UrlEncodeConcat(s: seq<byte>, t: seq<byte>)
    ensures UrlEncode(s + t) == UrlEncode(s) + UrlEncode(t)
  {
    hide EncodeChar;
    if t == [] {
      assert s + t == s && UrlEncode(s) + [] == UrlEncode(s);
    } else {
      var front, c := t[..|t| - 1], t[|t| - 1];
      assert (s + t)[..|s + t| - 1] == s + front;
      UrlEncodeConcat(s, front);
      assert UrlEncode(s) + (UrlEncode(front) + EncodeChar(c)) == UrlEncode(s) + UrlEncode(front) + EncodeChar(c);
    }
  }

  /** So nothing but letters, digits and '%' is left in an encoding, and a string of letters and
      digits is its own. */
  lemma {:induction false} UrlAlphabet(s: seq<byte>)
    ensures forall c :: c in UrlEncode(s) ==> c == 37 || Alphanumeric(c)
    ensures (forall k :: 0 <= k < |s| ==> Alphanumeric(s[k])) ==> UrlEncode(s) == s
  {
    hide Alphanumeric;
    if s != [] {
      var front, c := s[..|s| - 1], s[|s| - 1];
      assert s == front + [c];
      UrlAlphabet(front);
      UrlAlphabetOne(c);
      hide UrlEncode;
      UrlEncodeConcat(front, [c]);
    }
  }

  lemma UrlAlphabetOne(c: byte)
    ensures forall d :: d in UrlEncode([c]) ==> d == 37 || Alphanumeric(d)
    ensures Alphanumeric(c) ==> UrlEncode([c]) == [c]
  {
    hide UrlEncode, Alphanumeric, IsDigit;
    EncodedAs(c);
    if !Alphanumeric(c) {
      DigitIsAlphanumeric(UrlEncode([c])[1], c / 16);
      DigitIsAlphanumeric(UrlEncode([c])[2], c % 16);
    }
  }

  /** The characters before the terminating null. */
  function Text(msg: seq<byte>): seq<byte> {
    if msg == [] || msg[0] == 0 then [] else [msg[0]] + Text(msg[1..])
  }

  lemma {:induction false} TextFacts(msg: seq<byte>)
    requires 0 in msg
    ensures |Text(msg)| < |msg| && msg[|Text(msg)|] == 0 && Text(msg) == msg[..|Text(msg)|]
    ensures forall i :: 0 <= i < |Text(msg)| ==> msg[i] != 0
  {
    if msg[0] != 0 {
      TextFacts(msg[1..]);
      assert forall i :: 1 <= i < |Text(msg)| ==> msg[i] == msg[1..][i - 1];
    }
  }

  lemma {:induction false} EncodedLength(s: seq<byte>)
    ensures |s| <= |UrlEncode(s)| <= 3 * |s|
  {
    if s != [] {
      EncodedLength(s[..|s| - 1]);
    }
  }

  lemma {:induction false} UrlEncodePrefix(s: seq<byte>, n: nat)
    requires n <= |s|
    ensures |UrlEncode(s[..n])| <= |UrlEncode(s)|
  {
    if n < |s| {
      UrlEncodePrefix(s[..|s| - 1], n);
      assert s[..|s| - 1][..n] == s[..n];
    } else {
      assert s[..n] == s;
    }
  }

  /** Writes one character, encoded if need be. */
  method PutChar(dest: array<byte>, o: nat, c: byte) returns (end: nat)
    requires o + |EncodeChar(c)| <= dest.Length
    modifies dest
    ensures end == o + |EncodeChar(c)| && dest[..end] == old(dest[..o]) + EncodeChar(c)
  {
    hide Hex, High, Low;
    end := o;
    if Plain(c) {
      dest[end] := c;
      end := end + 1;
    } else {
      dest[end] := PERCENT;
      dest[end + 1] := Hex(High(c));
      dest[end + 2] := Hex(Low(c));
      end := end + 3;
    }
  }

  /** `url_encode` on a null-terminated string; returns the length written. */
  method UrlEncodeTo(dest: array<byte>, msg: seq<byte>) returns (length: nat)
    requires 0 in msg && |UrlEncode(Text(msg))| < dest.Length
    modifies dest
    ensures length == |UrlEncode(Text(msg))|
    ensures dest[..length] == UrlEncode(Text(msg)) && dest[length] == 0
  {
    hide EncodeChar, Text;
    ghost var text := Text(msg);
    TextFacts(msg);
    var m, o := 0, 0;
    while msg[m] != 0
      invariant 0 <= m <= |text| && o == |UrlEncode(text[..m])| <= |UrlEncode(text)|
      invariant dest[..o] == UrlEncode(text[..m])
      decreases |text| - m
    {
      UrlEncodePrefix(text, m + 1);
      assert text[..m + 1][..m] == text[..m];
      o := PutChar(dest, o, msg[m]);
      m := m + 1;
    }
    assert text[..m] == text;
    dest[o] := 0;
    length := o;
  }

  lemma {:induction false} TextOf(s: seq<byte>, t: seq<byte>)
    requires 0 !in s
    ensures Text(s + [0] + t) == s
  {
    if s != [] {
      assert (s + [0] + t)[1..] == s[1..] + [0] + t;
      TextOf(s[1..], t);
    }
  }

  /** The size of the key buffer. */
  const KEY_BINARY_SIZE: nat := 96

  /** The signature field for the key bytes `k`. */
  function SigField(k: seq<byte>, stringToSign: seq<byte>): seq<byte> {
    UrlEncode(Base64.Encode(Hmac.Mac(k, stringToSign)))
  }

  /** The 32-byte hash, base64-encoded into a 45-byte buffer and percent-encoded. */
  method EncodeHash(hash: seq<byte>, output: array<byte>) returns (length: nat)
    requires |hash| == 32 && 132 < output.Length
    modifies output
    ensures length < output.Length && output[..length] == UrlEncode(Base64.Encode(hash))
  {
    hide Base64.Encode;
    ghost var e := Base64.Encode(hash);
    Base64.WrittenIsEncode(hash);
    Base64.NoNulls(hash);
    EncodedLength(e);
    var encodedHash := new byte[45](_ => 0);
    var end := Base64.EncodeTo(hash, encodedHash);
    assert encodedHash[..] == e + [0] + [];
    TextOf(e, []);
    length := UrlEncodeTo(output, encodedHash[..]);
  }

  /** The key bytes for a key string: the decoding, less one byte for every trailing '='. */
  function Decoded(key: seq<byte>): seq<byte>
    requires Base64.TrailingPads(key) <= |Base64.DecodeRaw(key)|
  {
    Base64.DecodeRaw(key)[..|Base64.DecodeRaw(key)| - Base64.TrailingPads(key)]
  }

  /** The key of an encoding is what was encoded. */
  lemma DecodedEncoding(k: seq<byte>)
    requires k != []
    ensures var key := Base64.Encode(k);
      Base64.TrailingPads(key) < |key| && Base64.TrailingPads(key) <= |Base64.DecodeRaw(key)| && Decoded(key) == k
  {
    hide Base64.Encode, Base64.DecodeRaw, Base64.TrailingPads;
    Base64.RoundTrip(k);
    Base64.LengthRoundTrip(k);
    Base64.RawLength(Base64.Encode(k));
  }

  lemma KeyLength(key: seq<byte>)
    requires |Base64.DecodeRaw(key)| < KEY_BINARY_SIZE && Base64.TrailingPads(key) <= |Base64.DecodeRaw(key)|
    ensures |key| < Base64.SIZE
    ensures Base64.Minus(Base64.SixEighths(|key|), Base64.TrailingPads(key)) == |Decoded(key)|
  {
    hide Base64.DecodeRaw, Base64.TrailingPads;
    Base64.RawLength(key);
  }

  /** The signature part of `create_sas_token`: the key is base64-decoded into a
      96-byte buffer, the string to sign is authenticated with it, and the result is
      base64- and percent-encoded.  The decoded key and its null must fit the buffer, and the
      key must not be padding alone, nor have more of it than it has bytes. */
  method Sign(key: seq<byte>, stringToSign: seq<byte>, output: array<byte>) returns (length: nat)
    requires |Base64.DecodeRaw(key)| < KEY_BINARY_SIZE && 132 < output.Length
    requires Base64.TrailingPads(key) < |key| && Base64.TrailingPads(key) <= |Base64.DecodeRaw(key)|
    modifies output
    ensures length < output.Length && output[..length] == SigField(Decoded(key), stringToSign)
  {
    hide Base64.Encode, Base64.DecodeRaw, Hmac.Mac, Base64.TrailingPads, Base64.Minus, Base64.SixEighths, SigField;
    KeyLength(key);
    assert key[..0 + |key|] == key;
    var keyBinary := new byte[KEY_BINARY_SIZE](_ => 0);
    var size := Base64.DecodeTo(key, keyBinary);
    var keyBinarySize := Base64.DecodeLength(key, 0, |key|);
    assert keyBinary[..keyBinarySize] == keyBinary[..size - 1][..keyBinarySize];
    var hash := new byte[32](_ => 0);
    Hmac.Compute(hash, stringToSign, keyBinary[..keyBinarySize]);
    length := EncodeHash(hash[..], output);
    SigFieldIs(Decoded(key), stringToSign);
  }

  lemma SigFieldIs(k: seq<byte>, stringToSign: seq<byte>)
    ensures SigField(k, stringToSign) == UrlEncode(Base64.Encode(Hmac.Mac(k, stringToSign)))
  {
  }

  lemma MacLength(k: seq<byte>, text: seq<byte>)
    ensures |Hmac.Mac(k, text)| == 32
  {
    Fips180.DigestLength(Hmac.XorEach(Hmac.BlockKey(k), Hmac.O_PAD)
      + Fips180.Digest(Hmac.XorEach(Hmac.BlockKey(k), Hmac.I_PAD) + text));
  }

  /** A verifier that percent-decodes the signature field gets the encoding of RFC 4648 of the
      MAC of the string to sign, and base64-decoding that gives exactly the MAC. */
  lemma SignatureRoundTrip(k: seq<byte>, stringToSign: seq<byte>)
    ensures PercentDecode(SigField(k, stringToSign)) == Some(Base64.Encode(Hmac.Mac(k, stringToSign)))
    ensures
      var s := PercentDecode(SigField(k, stringToSign)).value;
      && |s| == 44 && Base64.TrailingPads(s) == 1
      && |Base64.DecodeRaw(s)| >= 32
      && Base64.DecodeRaw(s)[..32] == Hmac.Mac(k, stringToSign)
  {
    hide Base64.Encode, Base64.DecodeRaw, Hmac.Mac, Base64.TrailingPads, UrlEncode, PercentDecode;
    var mac := Hmac.Mac(k, stringToSign);
    MacLength(k, stringToSign);
    UrlRoundTrip(Base64.Encode(mac));
    Base64.RoundTrip(mac);
    Base64.LengthRoundTrip(mac);
    Base64.WrittenIsEncode(mac);
  }
}
