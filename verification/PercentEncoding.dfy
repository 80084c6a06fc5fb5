/** Percent-encoding of private values, in both letter cases, and the variant that writes
    spaces as plus signs. */
module PercentEncoding {
  import opened Wrappers
  import opened Sequences

  /** Letters, digits and `-_.~`: the unreserved characters of section 2.3 of RFC 3986. */
  predicate IsUnreserved(b: byte) {
    48 <= b <= 57 || 65 <= b <= 90 || 97 <= b <= 122 || b == 45 || b == 46 || b == 95 || b == 126
  }

  function HexDigit(n: nat, uppercase: bool): char
    requires n < 16
  {
    if n < 10 then '0' + n as char else (if uppercase then 'A' else 'a') + (n - 10) as char
  }

  function HexValue(c: char): Option<nat> {
    if '0' <= c <= '9' then Some((c - '0') as nat)
    else if 'A' <= c <= 'F' then Some((c - 'A') as nat + 10)
    else if 'a' <= c <= 'f' then Some((c - 'a') as nat + 10)
    else None
  }

  function EncodeByte(b: byte, uppercase: bool): string {
    if IsUnreserved(b) then [b as char]
    else ['%', HexDigit(b / 16, uppercase), HexDigit(b % 16, uppercase)]
  }

  function Encode(bytes: seq<byte>, uppercase: bool): string {
    if bytes == [] then "" else EncodeByte(bytes[0], uppercase) + Encode(bytes[1..], uppercase)
  }

  /** Section 2.1 of RFC 3986; under form decoding, a plus sign is a space. */
  function Decode(text: string, form: bool): Option<seq<byte>>
    decreases |text|
  {
    if text == "" then Some([])
    else if text[0] == '%' then
      if |text| < 3 || HexValue(text[1]).None? || HexValue(text[2]).None? then None
      else WithByte(HexValue(text[1]).value * 16 + HexValue(text[2]).value, Decode(text[3..], form))
    else if text[0] == '+' && form then WithByte(32, Decode(text[1..], form))
    else if text[0] < '\U{80}' then WithByte(text[0] as int, Decode(text[1..], form))
    else None
  }

  function WithByte(b: int, rest: Option<seq<byte>>): Option<seq<byte>> {
    if rest.None? || !(0 <= b < 256) then None else Some([b] + rest.value)
  }

  /** Replaces every `%20`, from the left, by a plus sign. */
  function SpacesAsPlus(text: string): string
    decreases |text|
  {
    if text == "" then ""
    else if |text| >= 3 && text[0] == '%' && text[1] == '2' && text[2] == '0' then "+" + SpacesAsPlus(text[3..])
    else [text[0]] + SpacesAsPlus(text[1..])
  }

  lemma DigitsReadBack(b: byte, uppercase: bool)
    ensures HexValue(HexDigit(b / 16, uppercase)) == Some(b / 16) && HexValue(HexDigit(b % 16, uppercase)) == Some(b % 16)
  {
  }

  lemma ByteReadsBack(b: byte, uppercase: bool, rest: string, form: bool)
    ensures Decode(EncodeByte(b, uppercase) + rest, form) == WithByte(b, Decode(rest, form))
  {
    var text := EncodeByte(b, uppercase) + rest;
    DigitsReadBack(b, uppercase);
    if IsUnreserved(b) {
      assert text[1..] == rest;
    } else {
      assert text[3..] == rest;
      assert b / 16 * 16 + b % 16 == b;
    }
  }

  /** Encoding in either letter case decodes back to the original bytes, under both
      decodings: a plus sign is itself escaped. */
  lemma {:induction false} EncodingReadsBack(bytes: seq<byte>, uppercase: bool, form: bool)
    ensures Decode(Encode(bytes, uppercase), form) == Some(bytes)
  {
    if bytes != [] {
      ByteReadsBack(bytes[0], uppercase, Encode(bytes[1..], uppercase), form);
      EncodingReadsBack(bytes[1..], uppercase, form);
      assert [bytes[0]] + bytes[1..] == bytes;
    }
  }

  /** Digits of the asked letter case. */
  predicate IsHex(c: char, uppercase: bool) {
    '0' <= c <= '9' || (if uppercase then 'A' <= c <= 'F' else 'a' <= c <= 'f')
  }

  predicate StandsForItself(c: char) {
    '0' <= c <= '9' || 'A' <= c <= 'Z' || 'a' <= c <= 'z' || c == '-' || c == '.' || c == '_' || c == '~'
  }

  /** `text` writes `bytes` with letters, digits and `-._~` as themselves, and with an escape
      for everything else. */
  predicate Writes(text: string, bytes: seq<byte>, uppercase: bool)
    decreases |text|
  {
    if text == "" then bytes == []
    else if text[0] == '%' then
      && |text| >= 3 && IsHex(text[1], uppercase) && IsHex(text[2], uppercase)
      && bytes != [] && bytes[0] == HexValue(text[1]).value * 16 + HexValue(text[2]).value
      && !StandsForItself(bytes[0] as char) && Writes(text[3..], bytes[1..], uppercase)
    else StandsForItself(text[0]) && bytes != [] && bytes[0] == text[0] as int && Writes(text[1..], bytes[1..], uppercase)
  }

  lemma ByteIsWritten(b: byte, uppercase: bool, text: string)
    requires text != ""
    ensures EncodeByte(b, uppercase) <= text <==>
              if text[0] == '%' then
                && |text| >= 3 && IsHex(text[1], uppercase) && IsHex(text[2], uppercase)
                && b == HexValue(text[1]).value * 16 + HexValue(text[2]).value && !StandsForItself(b as char)
              else StandsForItself(text[0]) && b == text[0] as int
  {
    DigitsReadBack(b, uppercase);
    assert b == b / 16 * 16 + b % 16;
  }

  /** Encoding is the one way to write the bytes so. */
  lemma {:induction false} EncodingIsCanonical(text: string, bytes: seq<byte>, uppercase: bool)
    ensures Encode(bytes, uppercase) == text <==> Writes(text, bytes, uppercase)
    decreases |text|
  {
    if text != "" && bytes != [] {
      var first := EncodeByte(bytes[0], uppercase);
      ByteIsWritten(bytes[0], uppercase, text);
      if first <= text {
        EncodingIsCanonical(text[|first|..], bytes[1..], uppercase);
        assert text == first + text[|first|..];
      }
    }
  }

  /** The form variant, byte by byte. */
  function FormEncode(bytes: seq<byte>, uppercase: bool): string {
    if bytes == [] then ""
    else (if bytes[0] == 32 then "+" else EncodeByte(bytes[0], uppercase)) + FormEncode(bytes[1..], uppercase)
  }

  lemma SkipOne(c: char, rest: string)
    requires c != '%'
    ensures SpacesAsPlus([c] + rest) == [c] + SpacesAsPlus(rest)
  {
    assert ([c] + rest)[1..] == rest;
  }

  lemma SkipEscape(high: char, low: char, rest: string)
    requires high != '%' && low != '%' && !(high == '2' && low == '0')
    ensures SpacesAsPlus(['%', high, low] + rest) == ['%', high, low] + SpacesAsPlus(rest)
  {
    var text := ['%', high, low] + rest;
    assert text[1..] == [high] + ([low] + rest);
    SkipOne(high, [low] + rest);
    SkipOne(low, rest);
  }

  lemma ReplaceInByte(b: byte, uppercase: bool, rest: string)
    ensures SpacesAsPlus(EncodeByte(b, uppercase) + rest)
         == (if b == 32 then "+" else EncodeByte(b, uppercase)) + SpacesAsPlus(rest)
  {
    if b == 32 {
      assert (EncodeByte(b, uppercase) + rest)[3..] == rest;
    } else if IsUnreserved(b) {
      SkipOne(b as char, rest);
    } else {
      DigitsReadBack(b, uppercase);
      SkipEscape(HexDigit(b / 16, uppercase), HexDigit(b % 16, uppercase), rest);
    }
  }

  /** Replacing in the finished text is encoding spaces as plus signs from the start: a
      percent sign begins only real escapes, so no match straddles two of them. */
  lemma {:induction false} ReplacingIsFormEncoding(bytes: seq<byte>, uppercase: bool)
    ensures SpacesAsPlus(Encode(bytes, uppercase)) == FormEncode(bytes, uppercase)
  {
    if bytes != [] {
      ReplaceInByte(bytes[0], uppercase, Encode(bytes[1..], uppercase));
      ReplacingIsFormEncoding(bytes[1..], uppercase);
    }
  }

  lemma {:induction false} FormEncodingReadsBack(bytes: seq<byte>, uppercase: bool)
    ensures Decode(FormEncode(bytes, uppercase), true) == Some(bytes)
  {
    if bytes != [] {
      var rest := FormEncode(bytes[1..], uppercase);
      FormEncodingReadsBack(bytes[1..], uppercase);
      assert [bytes[0]] + bytes[1..] == bytes;
      if bytes[0] == 32 {
        assert ("+" + rest)[1..] == rest;
      } else {
        ByteReadsBack(bytes[0], uppercase, rest, true);
      }
    }
  }

  /** The variant with plus signs decodes back under form decoding. */
  lemma PlusVariantReadsBack(bytes: seq<byte>, uppercase: bool)
    ensures Decode(SpacesAsPlus(Encode(bytes, uppercase)), true) == Some(bytes)
  {
    ReplacingIsFormEncoding(bytes, uppercase);
    FormEncodingReadsBack(bytes, uppercase);
  }
}
