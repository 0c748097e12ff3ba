/**
 * Roman numerals over the five digits I, V, X, L and C: the classifier
 * (isRomanNumber), the right-to-left converter (romanToArabic) and the
 * greedy formatter (arabicToRoman) of main.go.
 */
module Numerals {

  predicate IsRomanDigit(c: char) {
    c == 'I' || c == 'V' || c == 'X' || c == 'L' || c == 'C'
  }

  /** A token is Roman when every character is a Roman digit; the empty token is Roman. */
  predicate IsRoman(s: string) {
    forall i :: 0 <= i < |s| ==> IsRomanDigit(s[i])
  }

  /**
   * The digit map of romanToArabic. A character outside the map looks up the
   * map's zero value, 0.
   */
  function DigitValue(c: char): (v: nat)
    ensures v > 0 <==> IsRomanDigit(c)
    ensures v <= 100
  {
    match c
    case 'I' => 1
    case 'V' => 5
    case 'X' => 10
    case 'L' => 50
    case 'C' => 100
    case _ => 0
  }

  /**
   * The total that the right-to-left scan has accumulated once it has read
   * all of s: a digit is subtracted when the digit to its right is strictly
   * larger, and added otherwise (the last digit is always added).
   */
  function RomanValue(s: string): (n: int)
    ensures -100 * |s| <= n <= 100 * |s|
  {
    if s == [] then 0
    else
      var rest := RomanValue(s[1..]);
      if |s| > 1 && DigitValue(s[0]) < DigitValue(s[1]) then rest - DigitValue(s[0])
      else rest + DigitValue(s[0])
  }

  /** isRomanNumber: a character loop that returns false at the first non-Roman character. */
  method IsRomanNumber(operand: string) returns (b: bool)
    ensures b <==> IsRoman(operand)
    ensures b ==> forall i :: 0 <= i < |operand| ==> DigitValue(operand[i]) > 0
  {
    for i := 0 to |operand|
      invariant IsRoman(operand[..i])
    {
      if !IsRomanDigit(operand[i]) {
        return false;
      }
    }
    assert operand[..|operand|] == operand;
    return true;
  }

  /**
   * romanToArabic: scans from the last index down to 0, keeping the running
   * total and the value of the digit just read. Its error result is always
   * nil, which `failed` records.
   */
  method RomanToArabic(roman: string) returns (result: int, failed: bool)
    ensures !failed
    ensures result == RomanValue(roman)
    ensures |roman| == 1 ==> result == DigitValue(roman[0])
    ensures IsRoman(roman) && roman != [] ==> result >= 1
  {
    result := 0;
    var prevValue := 0;
    var i := |roman| - 1;
    while i >= 0
      invariant -1 <= i < |roman|
      invariant result == RomanValue(roman[i + 1..])
      invariant prevValue == if i + 1 < |roman| then DigitValue(roman[i + 1]) else 0
    {
      var value := DigitValue(roman[i]);
      assert roman[i..][1..] == roman[i + 1..];
      if value < prevValue {
        result := result - value;
      } else {
        result := result + value;
      }
      prevValue := value;
      i := i - 1;
    }
    assert roman[0..] == roman;
    failed := false;
    if IsRoman(roman) && roman != [] {
      PositiveValue(roman);
    }
  }

  /**
   * The least value a Roman string starting with digit c can have: one more
   * than the sum of all digit values below c's.
   */
  function Floor(c: char): int {
    match c
    case 'I' => 1
    case 'V' => 2
    case 'X' => 7
    case 'L' => 17
    case 'C' => 67
    case _ => 0
  }

  /**
   * Every non-empty Roman string converts to a positive number: a digit is
   * only subtracted in front of a larger one, and each digit value exceeds
   * the sum of all smaller digit values.
   */
  lemma {:induction false} PositiveValue(s: string)
    requires IsRoman(s) && s != []
    ensures RomanValue(s) >= Floor(s[0]) >= 1
  {
    if |s| > 1 {
      assert IsRoman(s[1..]) by {
        forall i | 0 <= i < |s| - 1 ensures IsRomanDigit(s[1..][i]) {
          assert s[1..][i] == s[i + 1];
        }
      }
      PositiveValue(s[1..]);
      assert IsRomanDigit(s[0]) && IsRomanDigit(s[1]);
    } else {
      assert IsRomanDigit(s[0]);
    }
  }

  /**
   * Concatenation adds values when the seam is not subtractive: the last
   * digit of a is at least the first digit of b.
   */
  lemma {:induction false} ValueOfConcat(a: string, b: string)
    requires a == [] || b == [] || DigitValue(a[|a| - 1]) >= DigitValue(b[0])
    ensures RomanValue(a + b) == RomanValue(a) + RomanValue(b)
  {
    if a == [] {
      assert a + b == b;
    } else if b == [] {
      assert a + b == a;
    } else {
      assert (a + b)[1..] == a[1..] + b;
      if |a| > 1 {
        ValueOfConcat(a[1..], b);
      }
    }
  }

  /** One row of the value table of arabicToRoman. */
  datatype Entry = Entry(value: int, symbol: string)

  /**
   * What the greedy formatter needs of a row: the symbol is a Roman string
   * worth the row's value, its first digit is worth at most that value and
   * its last digit at least that value.
   */
  predicate GoodEntry(e: Entry) {
    && e.value >= 1
    && e.symbol != []
    && IsRoman(e.symbol)
    && RomanValue(e.symbol) == e.value
    && DigitValue(e.symbol[0]) <= e.value <= DigitValue(e.symbol[|e.symbol| - 1])
  }

  type TableEntry = e: Entry | GoodEntry(e) witness Entry(1, "I")

  /** The value table of arabicToRoman, in the descending order its keys are sorted into. */
  const Table: seq<TableEntry> := [
    Entry(100, "C"), Entry(90, "XC"), Entry(50, "L"), Entry(40, "XL"),
    Entry(10, "X"), Entry(9, "IX"), Entry(5, "V"), Entry(4, "IV"), Entry(1, "I")
  ]

  lemma TableShape()
    ensures |Table| == 9 && Table[|Table| - 1].value == 1
    ensures forall k :: 0 < k < |Table| ==> Table[k].value < Table[k - 1].value
  {
  }

  /**
   * The greedy formatter from table row k on, with n still to be written:
   * take row k while n is at least its value, then move to row k + 1.
   */
  function Greedy(n: int, k: nat): (r: string)
    requires k <= |Table|
    ensures IsRoman(r)
    ensures n <= 0 ==> r == []
    decreases |Table| - k, n
  {
    if k == |Table| then []
    else if n >= Table[k].value then
      var rest := Greedy(n - Table[k].value, k);
      assert forall i :: 0 <= i < |Table[k].symbol + rest| ==>
        (Table[k].symbol + rest)[i] == if i < |Table[k].symbol| then Table[k].symbol[i] else rest[i - |Table[k].symbol|];
      Table[k].symbol + rest
    else Greedy(n, k + 1)
  }

  /** The Roman numeral arabicToRoman writes for n. */
  function ToRoman(n: int): string {
    Greedy(n, 0)
  }

  /**
   * The greedy output from row k on is worth exactly n, and its first digit
   * is worth at most row k's value (so it may follow row k's symbol without
   * being subtracted).
   */
  lemma {:induction false} GreedyValue(n: int, k: nat)
    requires 0 <= n && k <= |Table|
    requires k < |Table| || n == 0
    ensures RomanValue(Greedy(n, k)) == n
    ensures Greedy(n, k) != [] ==> k < |Table| && DigitValue(Greedy(n, k)[0]) <= Table[k].value
    decreases |Table| - k, n
  {
    if k == |Table| {
    } else if n >= Table[k].value {
      var e := Table[k];
      assert GoodEntry(e);
      var rest := Greedy(n - e.value, k);
      assert Greedy(n, k) == e.symbol + rest;
      GreedyValue(n - e.value, k);
      ValueOfConcat(e.symbol, rest);
      assert (e.symbol + rest)[0] == e.symbol[0];
    } else {
      TableShape();
      assert Greedy(n, k) == Greedy(n, k + 1);
      assert k + 1 < |Table| ==> Table[k + 1].value < Table[k].value;
      GreedyValue(n, k + 1);
    }
  }

  /** Formatting then converting back gives n, for every n >= 0. */
  lemma RoundTrip(n: int)
    requires 0 <= n
    ensures RomanValue(ToRoman(n)) == n
  {
    GreedyValue(n, 0);
  }

  /** The subtractive pairs come out of the greedy table. */
  lemma KnownNumerals()
    ensures ToRoman(4) == "IV" && ToRoman(9) == "IX" && ToRoman(40) == "XL"
    ensures ToRoman(90) == "XC" && ToRoman(100) == "C" && ToRoman(0) == ""
  {
  }

  /** Numerals of a few small values. */
  lemma SmallNumerals()
    ensures ToRoman(2) == "II" && ToRoman(3) == "III" && ToRoman(5) == "V" && ToRoman(10) == "X"
  {
    assert Greedy(0, 0) == [] && Greedy(0, 4) == [] && Greedy(0, 6) == [] && Greedy(0, 8) == [];
    assert Greedy(3, 8) == "III";
    assert Greedy(3, 0) == Greedy(3, 8);
    assert Greedy(2, 0) == Greedy(2, 8);
  }

  /**
   * arabicToRoman: walks the table in descending order and, for each row,
   * appends the row's symbol while what is left is at least the row's value.
   */
  method ArabicToRoman(arabic: int) returns (s: string)
    ensures s == ToRoman(arabic)
    ensures IsRoman(s)
    ensures arabic <= 0 ==> s == []
    ensures arabic >= 0 ==> RomanValue(s) == arabic
  {
    var result := "";
    var remaining := arabic;
    for k := 0 to |Table|
      invariant result + Greedy(remaining, k) == ToRoman(arabic)
    {
      var entry := Table[k];
      while remaining >= entry.value
        invariant result + Greedy(remaining, k) == ToRoman(arabic)
        decreases remaining
      {
        result := result + entry.symbol;
        remaining := remaining - entry.value;
      }
    }
    s := result;
    if arabic >= 0 {
      RoundTrip(arabic);
    }
  }
}
