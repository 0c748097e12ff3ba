# Roman and Arabic calculator: a Dafny model

This project models the calculator in `main.go`. The calculator reads lines of the form
`operand operator operand`. The operands are Arabic numbers from 1 to 10 or Roman
numerals worth 1 to 10, and both must use the same system. The operator is one of
`+ - * /`. It prints the result in the operands' numeral system.

The model has three modules:

- `Numerals` (`numerals.dfy`) covers the Roman digit alphabet I, V, X, L, C and three
  Go routines:
  - `isRomanNumber` is a character loop that returns at the first non-Roman character.
    Its model is the method `IsRomanNumber`.
  - `romanToArabic` is a loop from right to left. Its model is `RomanToArabic`.
  - `arabicToRoman` greedily consumes the value table 100, 90, 50, 40, 10, 9, 5, 4, 1.
    Its model is `ArabicToRoman`.

  Each method is proved against a specification function:
  - `IsRoman` specifies the classifier.
  - `RomanValue` specifies the conversion. A digit is subtracted exactly when the digit
    to its right is strictly larger; otherwise it is added.
  - `Greedy` and `ToRoman` specify the formatter.

  The lemmas prove the round trip `RomanValue(ToRoman(n)) == n` for every `n >= 0`.
  They also prove that every non-empty Roman string has a value of at least 1.
- `GoStrings` (`gostrings.dfy`) stands in for the two library calls the loop uses:
  - `Split` stands for `strings.Split(line, " ")`. It is proved to be the inverse of
    joining with single spaces.
  - `Atoi` stands for `strconv.Atoi` as a decimal parser: an optional sign, then one or
    more digits, and nothing else. It is proved to read back what the decimal rendering
    `Itoa` writes.
- `Calculator` (`calculator.dfy`) holds `IsValidOperator`, `ParseOperand` and
  `Evaluate`. `Evaluate` is the body of the read loop as a pure function from one input
  line to its `Outcome`. The `Outcome` is one of these:
  - a fatal error (a `panic` site), with an `ErrorKind` and the text the message is
    formatted with;
  - the recoverable "invalid operand" error, after which the loop continues;
  - an Arabic result;
  - a Roman result.

`Evaluate` runs its checks in the same order as the code:
1. the line must split into three parts;
2. the two operands must not mix numeral systems;
3. the operator must be valid;
4. the first operand is parsed, then the second;
5. the result is computed;
6. a negative Roman difference is fatal;
7. any other Roman result outside [1, 100] is fatal;
8. the result is formatted.

Some behaviour follows the code even where a prose reading of the calculator suggests
otherwise:
- The empty token is Roman, because the classifier's loop simply never runs. A line
  such as `5 + ` (with a trailing space) is therefore rejected for mixing numeral
  systems, and a lone empty Roman operand is rejected as out of range.
- `romanToArabic` never returns zero or a negative number for a non-empty Roman string.
  Each digit value exceeds the sum of all the smaller digit values, so the right-to-left
  rule always leaves a positive total (`PositiveValue`). The lower bound of the operand
  check therefore only rejects the empty token (`RomanOperandRejected`).
- Non-canonical numerals such as `IIII` or `VX` are accepted as operands whenever they
  are worth 1 to 10.
- A Roman difference of 0 passes the negative-result check (`result < 0`). It is then
  rejected by the range check, whose detail is the empty numeral.

## Model

| member | source | states |
|---|---|---|
| `Numerals.DigitValue` | main.go:117 | A character has a non-zero value exactly when it is one of I, V, X, L, C; no value exceeds 100 |
| `Numerals.RomanValue` | main.go:118-128 | The right-to-left total of s lies within 100 per character of zero |
| `Numerals.IsRomanNumber` | main.go:107-114 | Returns true exactly when every character is one of I, V, X, L, C (so true for the empty string, false once any other character appears) |
| `Numerals.RomanToArabic` | main.go:116-130 | Never reports an error; the result is the right-to-left total `RomanValue`; a single digit yields its own value; a non-empty Roman string yields at least 1 |
| `Numerals.PositiveValue` | main.go:118-128 | Every non-empty Roman string has a value of at least 1, and more when it starts with a larger digit, so the converter never produces 0 or a negative number |
| `Numerals.ValueOfConcat` | main.go:118-128 | The value of a + b is the sum of the values when the last digit of a is not smaller than the first digit of b |
| `Numerals.TableShape` | main.go:133-143 | The value table has nine rows sorted in strictly descending order, ending with 1 |
| `Numerals.Greedy` | main.go:145-150 | The greedy output uses only Roman digits and is empty when nothing positive remains |
| `Numerals.GreedyValue` | main.go:145-150 | The greedy output from row k on is worth exactly what remained, and its first digit is worth at most row k's value |
| `Numerals.RoundTrip` | main.go:116-152 | Converting the formatted numeral of any n >= 0 back gives n |
| `Numerals.KnownNumerals` | main.go:133-150 | 4, 9, 40, 90 and 100 format as IV, IX, XL, XC and C, and 0 formats as the empty string |
| `Numerals.ArabicToRoman` | main.go:132-152 | The nested loop writes `ToRoman(arabic)`: only Roman digits, empty for arabic <= 0, and worth arabic for arabic >= 0 |
| `GoStrings.Split` | main.go:30 | Splitting on " " gives at least one part, and no part contains a space |
| `GoStrings.JoinSplit` | main.go:30 | Joining the parts with single spaces gives the line back; there is one more part than there are spaces |
| `GoStrings.SplitJoin` | main.go:30 | Space-free parts joined with single spaces split back into the same parts |
| `GoStrings.Atoi` | main.go:96 | A token is accepted exactly when it is an optional '+' or '-' followed by one or more decimal digits and nothing else; the value is the digits' decimal value, negated after a leading '-' |
| `GoStrings.AtoiItoa` | main.go:96 | Atoi reads back the decimal rendering of every integer |
| `Calculator.IsValidOperator` | main.go:154-157 | True exactly for "+", "-", "*" and "/" |
| `Calculator.ParseOperand` | main.go:84-105 | Every parsed value lies in [1, 10]. A Roman token gives its converted value. A non-Roman token that Atoi reads as a value in [1, 10] (such as "+5" or "05") gives that value. The recoverable error happens exactly for a non-Roman token that Atoi rejects. Every other rejection is the fatal out-of-range error naming the operand |
| `Calculator.RomanOperandRejected` | main.go:85-93 | A Roman token is rejected exactly when it is empty or worth more than 10 |
| `Calculator.ParseRomanOperand` | main.go:85-93 | The numeral of every n in [1, 10] parses as n |
| `Calculator.ParseArabicOperand` | main.go:96-104 | The decimal rendering of every n in [1, 10] is not Roman and parses as n |
| `Calculator.Quotient` | main.go:70 | For non-negative a and positive b, the truncating quotient q satisfies q*b <= a < q*b + b |
| `Calculator.Apply` | main.go:58-71 | "+", "-" and "*" give the sum, difference and product; "/" truncates, so for a >= 0 and b > 0 the result q satisfies q*b <= a < q*b + b; any other operator leaves the result at 0 |
| `Calculator.ApplyRange` | main.go:58-71 | With both operands in [1, 10], every result lies in [-9, 100], and only subtraction can be negative; division never divides by zero |
| `Calculator.Evaluate` | main.go:30-80 | A line without exactly three parts is fatal first, then mixed numeral systems, then a bad operator. A Roman result is a Roman string worth 1 to 100 from two Roman operands. An Arabic result lies in [-9, 100] and comes from two non-Roman operands. Any result means the line has three parts and both operands parsed. A recoverable error names an operand that is neither Roman nor an integer |
| `Calculator.EvaluateResult` | main.go:58-80 | Once both operands parse, the outcome is fixed. For Arabic operands it is the unchecked result. For Roman operands a negative result is fatal, zero is fatal as out of range with an empty detail, and a positive result is its numeral, which converts back to the result |
| `Calculator.FirstOperandFirst` | main.go:46-56 | When the first operand fails to parse, its failure is the outcome, whatever the second operand is |
| `Calculator.SecondOperandSecond` | main.go:46-56 | When the first operand parses and the second does not, the second operand's failure is the outcome |
| `Calculator.SplitThree` | main.go:30-36 | Three space-free tokens joined by single spaces split back into operand, operator and operand |
| `Calculator.RomanLine` | main.go:30-80 | For x, y in [1, 10] and a valid operator, the line of their numerals evaluates to the numeral of the result. A negative result is fatal, and so is zero |
| `Calculator.ArabicLine` | main.go:30-80 | For x, y in [1, 10] and a valid operator, the line of their decimal renderings evaluates to the Arabic result |
| `Calculator.SumScenario` | main.go:58-61 | "III + II" evaluates to V |
| `Calculator.QuotientScenario` | main.go:69-70 | "X / II" evaluates to V, by integer division |
| `Calculator.NegativeScenario` | main.go:62-66 | "II - III" is the fatal negative-result error |
| `Calculator.ZeroScenario` | main.go:73-76 | "V - V" passes the negative check and is the fatal out-of-range error with an empty detail |
| `Calculator.MixedScenario` | main.go:38-40 | "5 + V" is the fatal mixed-numeral error |
| `Calculator.OperandRangeScenario` | main.go:101-103 | "11 + 2" is the fatal out-of-range error naming "11" |
| `Calculator.OperatorScenario` | main.go:42-44 | "3 % 2" is the fatal invalid-operator error |
| `Calculator.ArabicScenario` | main.go:78-79 | "3 - 7" gives the Arabic result -4 with no range check |
| `Calculator.RecoverableScenario` | main.go:96-99 | "a + 2" is the recoverable invalid-operand error for "a" |
| `Calculator.FormatScenario` | main.go:30-34 | "1 +  2" (two spaces) splits into four parts, which is fatal |

## Left out

- The read loop, the prompts and all printing (main.go:20-28, 48, 54, 77, 79) are left
  out. One iteration is the function `Evaluate`, and the printed value is its outcome.
- Process termination by `panic` and the text of the messages (main.go:12-18) are left
  out. A panic becomes a `Fatal` outcome that carries the message kind and the text
  the message is formatted with.
- `strconv.Atoi` overflow is not modelled. `Atoi` accepts any number of digits; the Go
  function rejects values outside 64 bits. Such tokens are fatal as out of range in the
  model, but recoverable in the code.
- Go map iteration with `sort.Sort(sort.Reverse(...))` (main.go:139-143) is not
  modelled. It becomes the constant descending `Table`, and `TableShape` states its
  order.
- The `strings.Builder` in `arabicToRoman` is modelled as a string that grows by
  concatenation.
- Byte and rune indexing are not distinguished. `romanToArabic` indexes bytes and
  `isRomanNumber` ranges over runes; the model reads both as sequences of characters.
  The results still agree on any text. Every byte of a non-ASCII character looks up 0,
  as the character does in the model, and a run of zeros leaves the total and the
  previous value as a single zero would.
- The error branch of `parseOperand` after `romanToArabic` (main.go:87-89) is not
  modelled. It cannot be taken, because `RomanToArabic` proves that it never fails.
- Go's 64-bit `int` wrap-around is not modelled. The model uses unbounded integers;
  results are at most 100 in magnitude, so no arithmetic in the loop can wrap.
