/** lib/utils.ts: the ticket-code generator and the price parser. The random
    source (`Math.random`) is a sequence of draws in [0, 1) given by the caller. */
module Utils {
  import opened Text

  /** The characters a ticket code is drawn from. */
  const Alphabet: string := "ABCDEFGHIJKLMNOPQRSTUVWXYZ0123456789"

  /** The length `generateTicketCode` uses when called without one. */
  const DefaultCodeLength: int := 16

  predicate IsCodeChar(c: char)
  {
    'A' <= c <= 'Z' || IsDigit(c)
  }

  /** A string every character of which could have been generated. */
  predicate IsCodeString(s: string)
  {
    forall i :: 0 <= i < |s| ==> IsCodeChar(s[i])
  }

  /** A value `Math.random()` can return. */
  predicate IsDraw(r: real)
  {
    0.0 <= r < 1.0
  }

  /** `Math.floor(r * chars.length)`: the alphabet position a draw selects. */
  function CharIndex(r: real): (k: nat)
    requires IsDraw(r)
    ensures k < |Alphabet|
  {
    assert 0.0 <= r * 36.0 < 36.0;
    (r * 36.0).Floor
  }

  /** Position `k` of the alphabet: a letter below 26, a digit from 26 on. */
  function AlphabetChar(k: nat): (c: char)
    requires k < 36
  {
    if k < 26 then ('A' as int + k) as char else ('0' as int + k - 26) as char
  }

  /** Position `k` of the alphabet literal is AlphabetChar(k). */
  lemma AlphabetPositions()
    ensures |Alphabet| == 36
    ensures forall k :: 0 <= k < 36 ==> Alphabet[k] == AlphabetChar(k)
  {
    assert Alphabet == seq(36, k requires 0 <= k < 36 => AlphabetChar(k));
  }

  /** The alphabet holds exactly the 26 upper-case ASCII letters and the ten
      digits. */
  lemma AlphabetIsCodeChars()
    ensures forall k :: 0 <= k < |Alphabet| ==> IsCodeChar(Alphabet[k])
    ensures forall c :: IsCodeChar(c) ==> c in Alphabet
  {
    AlphabetPositions();
    forall c | IsCodeChar(c) ensures c in Alphabet {
      if 'A' <= c <= 'Z' {
        assert Alphabet[c as int - 'A' as int] == c;
      } else {
        assert Alphabet[26 + (c as int - '0' as int)] == c;
      }
    }
  }

  /** `generateTicketCode(length)`: one alphabet character per draw, `length`
      of them, and the empty string when `length` is not positive. */
  method GenerateTicketCode(length: int, draws: seq<real>) returns (code: string)
    requires |draws| >= length
    requires forall i :: 0 <= i < |draws| ==> IsDraw(draws[i])
    ensures |code| == if length <= 0 then 0 else length
    ensures forall i :: 0 <= i < |code| ==> code[i] == Alphabet[CharIndex(draws[i])]
    ensures IsCodeString(code)
  {
    AlphabetPositions();
    code := "";
    var i := 0;
    while i < length
      invariant 0 <= i && (length <= 0 ==> i == 0) && (length > 0 ==> i <= length)
      invariant |code| == i
      invariant forall k :: 0 <= k < i ==> code[k] == Alphabet[CharIndex(draws[k])]
      invariant IsCodeString(code)
    {
      var c := Alphabet[CharIndex(draws[i])];
      code := code + [c];
      i := i + 1;
    }
  }

  /** Index of the first digit at or after `i`, or `|s|` when there is none. */
  function FirstDigitFrom(s: string, i: nat): (k: nat)
    requires i <= |s|
    ensures i <= k <= |s|
    ensures forall m :: i <= m < k ==> !IsDigit(s[m])
    ensures k < |s| ==> IsDigit(s[k])
    decreases |s| - i
  {
    if i == |s| || IsDigit(s[i]) then i else FirstDigitFrom(s, i + 1)
  }

  /** End of the maximal run of digits that starts at `i`. */
  function DigitRunEnd(s: string, i: nat): (j: nat)
    requires i <= |s|
    ensures i <= j <= |s|
    ensures forall m :: i <= m < j ==> IsDigit(s[m])
    ensures j < |s| ==> !IsDigit(s[j])
    decreases |s| - i
  {
    if i == |s| || !IsDigit(s[i]) then i else DigitRunEnd(s, i + 1)
  }

  predicate HasDigit(s: string)
  {
    exists k :: 0 <= k < |s| && IsDigit(s[k])
  }

  /** `parsePriceToNumber(price)`: the value of the first maximal run of
      decimal digits in `price` (`/(\d+)/` then `parseInt`), or 0 when the
      string has no digit. */
  function ParsePriceToNumber(price: string): (n: nat)
    ensures !HasDigit(price) ==> n == 0
  {
    var i := FirstDigitFrom(price, 0);
    var j := DigitRunEnd(price, i);
    DecimalValue(price[i..j])
  }

  /** The parser reads exactly the first digit run: whatever comes before it
      holds no digit, and whatever follows it (a unit, a decimal point and
      cents, further numbers) is ignored. */
  lemma ParsePriceReadsFirstRun(pre: string, digits: string, tail: string)
    requires !HasDigit(pre)
    requires digits != [] && AllDigits(digits)
    requires tail == [] || !IsDigit(tail[0])
    ensures ParsePriceToNumber(pre + digits + tail) == DecimalValue(digits)
  {
    var s := pre + digits + tail;
    assert forall k :: 0 <= k < |pre| ==> s[k] == pre[k];
    assert s[|pre|] == digits[0];
    var i := FirstDigitFrom(s, 0);
    assert i == |pre|;
    assert forall k :: 0 <= k < |digits| ==> s[|pre| + k] == digits[k];
    assert |pre| + |digits| < |s| ==> s[|pre| + |digits|] == tail[0];
    var j := DigitRunEnd(s, i);
    assert j == |pre| + |digits|;
    assert s[i..j] == digits;
  }

  /** Rendering a non-negative amount as "<n> LEI" and parsing it back gives
      the amount. */
  lemma ParsePriceOfLei(n: nat)
    ensures ParsePriceToNumber(NatToDecimal(n) + " LEI") == n
  {
    assert NatToDecimal(n) + " LEI" == [] + NatToDecimal(n) + " LEI";
    ParsePriceReadsFirstRun([], NatToDecimal(n), " LEI");
  }

  /** "150 LEI" is 150. */
  lemma ParsePrice150(price: string)
    requires price == "150 LEI"
    ensures ParsePriceToNumber(price) == 150
  {
    var digits := "150";
    assert digits[..2] == "15" && "15"[..1] == "1";
    assert DecimalValue(digits) == 150;
    assert price == [] + digits + " LEI";
    ParsePriceReadsFirstRun([], digits, " LEI");
  }

  /** "12.50" is 12: the cents are ignored. */
  lemma ParsePrice1250(price: string)
    requires price == "12.50"
    ensures ParsePriceToNumber(price) == 12
  {
    var digits := "12";
    assert digits[..1] == "1";
    assert DecimalValue(digits) == 12;
    assert price == [] + digits + ".50";
    ParsePriceReadsFirstRun([], digits, ".50");
  }

  /** "GRATUIT" has no digit and is 0. */
  lemma ParsePriceGratuit(price: string)
    requires price == "GRATUIT"
    ensures ParsePriceToNumber(price) == 0
  {
    assert forall k :: 0 <= k < |price| ==> !IsDigit(price[k]);
  }
}
