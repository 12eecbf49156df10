/**
 * The page number a user types while the bot waits for one: the text must be
 * all digits, and the number it spells must lie between 1 and the page count
 * recorded when the removal was requested.
 */
module PageInput {

  /** The scratch-data key under which the page count is recorded. */
  const PageCountKey: string := "page_count"

  predicate IsDigit(c: char)
  {
    '0' <= c <= '9'
  }

  /** `str.isdigit` on ASCII text: non-empty and nothing but digits. */
  predicate IsDigitString(s: string)
  {
    |s| > 0 && forall i :: 0 <= i < |s| ==> IsDigit(s[i])
  }

  /** The number a digit string spells, as `int(s)` reads it (leading zeros allowed). */
  function DigitsValue(s: string): nat
    requires forall i :: 0 <= i < |s| ==> IsDigit(s[i])
  {
    if s == [] then 0
    else
      assert IsDigit(s[|s| - 1]);
      10 * DigitsValue(s[..|s| - 1]) + (s[|s| - 1] as int - '0' as int)
  }

  /** The decimal text of `n`, as `str(n)` writes it. */
  function Digits(n: nat): (s: string)
    ensures IsDigitString(s)
    ensures |s| > 1 ==> s[0] != '0'
  {
    if n < 10 then ['0' + n as char]
    else Digits(n / 10) + ['0' + (n % 10) as char]
  }

  /** Reading back what `Digits` writes gives the number again. */
  lemma {:induction false} DigitsRoundTrip(n: nat)
    ensures DigitsValue(Digits(n)) == n
  {
    var s := Digits(n);
    if n >= 10 {
      assert s[..|s| - 1] == Digits(n / 10);
      DigitsRoundTrip(n / 10);
    }
  }

  /** The page count recorded in the scratch data, 0 when none was recorded. */
  function RecordedPageCount(tempData: map<string, int>): int
  {
    if PageCountKey in tempData then tempData[PageCountKey] else 0
  }

  /** The outcome of checking typed text against a page count. */
  datatype PageCheck = NotANumber | OutOfRange | Page(number: nat)

  /** The check applied to typed text: first that it is a number, then that it is a page. */
  function CheckPageNumber(text: string, pageCount: int): (r: PageCheck)
    ensures r == NotANumber <==> !IsDigitString(text)
    ensures r.Page? <==> IsDigitString(text) && 1 <= DigitsValue(text) <= pageCount
    ensures r.Page? ==> 1 <= r.number <= pageCount
    ensures r.Page? ==> r.number == DigitsValue(text)
  {
    if !IsDigitString(text) then NotANumber
    else
      var n := DigitsValue(text);
      if n < 1 || n > pageCount then OutOfRange else Page(n)
  }

  /** Every page of the document is accepted when the user types its number. */
  lemma AcceptsEveryPage(n: nat, pageCount: int)
    requires 1 <= n <= pageCount
    ensures CheckPageNumber(Digits(n), pageCount) == Page(n)
  {
    DigitsRoundTrip(n);
  }

  /** Without a recorded page count every typed number is refused. */
  lemma MissingCountRefusesAll(text: string, tempData: map<string, int>)
    requires PageCountKey !in tempData
    ensures !CheckPageNumber(text, RecordedPageCount(tempData)).Page?
  {
  }
}
