/** Natural numbers in decimal, and the text splitting that readers of header fields share. */
module Texts {
  import opened Wrappers

  predicate IsDigit(c: char) {
    '0' <= c <= '9'
  }

  function DigitOf(n: nat): char
    requires n < 10
  {
    '0' + n as char
  }

  function ValueOf(c: char): nat
    requires IsDigit(c)
  {
    (c - '0') as nat
  }

  /** `n` in decimal, without leading zeros. */
  function Decimal(n: nat): (text: string)
    ensures text != "" && forall i | 0 <= i < |text| :: IsDigit(text[i])
  {
    if n < 10 then [DigitOf(n)] else Decimal(n / 10) + [DigitOf(n % 10)]
  }

  predicate AllDigits(text: string) {
    text != "" && forall i | 0 <= i < |text| :: IsDigit(text[i])
  }

  function DecimalValue(text: string): nat
    requires forall i | 0 <= i < |text| :: IsDigit(text[i])
  {
    if text == "" then 0 else 10 * DecimalValue(text[..|text| - 1]) + ValueOf(text[|text| - 1])
  }

  lemma {:induction false} DecimalReadsBack(n: nat)
    ensures AllDigits(Decimal(n)) && DecimalValue(Decimal(n)) == n
  {
    if n < 10 {
      assert DecimalValue("") == 0;
      assert Decimal(n)[..0] == "";
    } else {
      DecimalReadsBack(n / 10);
      assert Decimal(n)[..|Decimal(n)| - 1] == Decimal(n / 10);
    }
  }

  /** The position of the first `c` in `text`, or its length. */
  function IndexOf(text: string, c: char): (i: nat)
    ensures i <= |text|
    ensures i < |text| ==> text[i] == c
  {
    if text == "" || text[0] == c then 0 else 1 + IndexOf(text[1..], c)
  }

  lemma {:induction false} IndexAfter(name: string, c: char, rest: string)
    requires c !in name
    ensures IndexOf(name + [c] + rest, c) == |name|
  {
    if name != "" {
      assert (name + [c] + rest)[1..] == name[1..] + [c] + rest;
      IndexAfter(name[1..], c, rest);
    }
  }

  lemma {:induction false} NoIndex(text: string, c: char)
    requires c !in text
    ensures IndexOf(text, c) == |text|
  {
    if text != "" {
      NoIndex(text[1..], c);
    }
  }

  lemma {:induction false} IndexIsFirst(text: string, c: char)
    ensures c !in text[..IndexOf(text, c)]
  {
    if text != "" && text[0] != c {
      IndexIsFirst(text[1..], c);
      assert text[..IndexOf(text, c)] == [text[0]] + text[1..][..IndexOf(text[1..], c)];
    }
  }

  function Lower(c: char): char {
    if 'A' <= c <= 'Z' then c + ('a' - 'A') else c
  }

  /** The text on either side of the first `mark`. */
  function SplitOnce(text: string, mark: char): (parts: Option<(string, string)>)
    ensures parts.None? <==> mark !in text
    ensures parts.Some? ==> text == parts.value.0 + [mark] + parts.value.1 && mark !in parts.value.0
  {
    if text == "" then None
    else if text[0] == mark then Some(("", text[1..]))
    else match SplitOnce(text[1..], mark)
      case None => None
      case Some((left, right)) => Some(([text[0]] + left, right))
  }

  lemma {:induction false} SplitOnceInvertsJoin(left: string, mark: char, right: string)
    requires mark !in left
    ensures SplitOnce(left + [mark] + right, mark) == Some((left, right))
  {
    var text := left + [mark] + right;
    if left == "" {
      assert text[1..] == right;
    } else {
      assert text[1..] == left[1..] + [mark] + right;
      SplitOnceInvertsJoin(left[1..], mark, right);
      assert [left[0]] + left[1..] == left;
    }
  }

  predicate IsBlank(c: char) {
    c == ' ' || c == '\t'
  }

  function TrimStart(text: string): string {
    if text != "" && IsBlank(text[0]) then TrimStart(text[1..]) else text
  }

  function TrimEnd(text: string): string {
    if text != "" && IsBlank(text[|text| - 1]) then TrimEnd(text[..|text| - 1]) else text
  }

  function Trim(text: string): string {
    TrimEnd(TrimStart(text))
  }

  lemma TrimmedAlready(text: string)
    requires text != "" && !IsBlank(text[0]) && !IsBlank(text[|text| - 1])
    ensures Trim(text) == text
  {
  }

  const MAX_U64 := 0xFFFF_FFFF_FFFF_FFFF

  /** Reads an unsigned 64-bit number, with an optional plus sign. */
  function ParseU64(text: string): Option<nat> {
    var digits := if text != "" && text[0] == '+' then text[1..] else text;
    if AllDigits(digits) && DecimalValue(digits) <= MAX_U64 then Some(DecimalValue(digits)) else None
  }
}
