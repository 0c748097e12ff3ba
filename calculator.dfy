/**
 * One iteration of the calculator loop of main.go, taken out of the loop as a
 * function from the input line to its outcome: the operator check
 * (isValidOperator), the operand parser (parseOperand) and the sequence of
 * checks, the arithmetic and the result formatting of the loop body.
 */
module Calculator {
  import opened Numerals
  import opened GoStrings

  /** The error messages of main.go, one kind per message. */
  datatype ErrorKind =
    | InvalidOperationFormat
    | MixOfRomanAndArabicNumerals
    | RomanNegativeResult
    | OperandOutOfRange
    | InvalidOperator

  /**
   * Fatal failures are the panics, with the text the message is formatted
   * with (empty for messages without a placeholder); a recoverable failure is
   * the "invalid operand" error after which the loop continues.
   */
  datatype Failure = Fatal(kind: ErrorKind, detail: string) | Recoverable(operand: string)

  datatype Operand = Parsed(value: int) | Rejected(failure: Failure)

  datatype Outcome = Failed(failure: Failure) | Arabic(value: int) | Roman(numeral: string)

  /** isValidOperator: a lookup in the map of the four operators. */
  function IsValidOperator(operator: string): (b: bool)
    ensures b <==> operator == "+" || operator == "-" || operator == "*" || operator == "/"
  {
    var validOperators := map["+" := true, "-" := true, "*" := true, "/" := true];
    operator in validOperators && validOperators[operator]
  }

  /**
   * parseOperand: a Roman token is converted and must lie in [1, 10]; any
   * other token goes through Atoi, whose failure is recoverable, and must lie
   * in [1, 10] too. Out-of-range operands are fatal.
   */
  function ParseOperand(operand: string): (r: Operand)
    ensures r.Parsed? ==> 1 <= r.value <= 10
    ensures r.Parsed? && IsRoman(operand) ==> r.value == RomanValue(operand)
    ensures r.Parsed? && !IsRoman(operand) ==> Atoi(operand) == Some(r.value)
    ensures r == Rejected(Recoverable(operand)) <==> !IsRoman(operand) && Atoi(operand).None?
    ensures r.Rejected? ==> r.failure == Recoverable(operand) || r.failure == Fatal(OperandOutOfRange, operand)
    ensures !IsRoman(operand) && Atoi(operand).Some? && 1 <= Atoi(operand).value <= 10 ==>
      r == Parsed(Atoi(operand).value)
  {
    if IsRoman(operand) then
      var num := RomanValue(operand);
      if num < 1 || num > 10 then Rejected(Fatal(OperandOutOfRange, operand))
      else Parsed(num)
    else
      match Atoi(operand)
      case None => Rejected(Recoverable(operand))
      case Some(num) =>
        if num < 1 || num > 10 then Rejected(Fatal(OperandOutOfRange, operand))
        else Parsed(num)
  }

  /** Go's integer division, which truncates toward zero. */
  function Quotient(a: int, b: int): (q: int)
    requires b != 0
    ensures a >= 0 && b > 0 ==> q * b <= a < q * b + b
  {
    var magnitude := (if a < 0 then -a else a) / (if b < 0 then -b else b);
    if (a < 0) == (b < 0) then magnitude else -magnitude
  }

  /** The switch on the operator; an operator outside it leaves the result at 0. */
  function Apply(operator: string, a: int, b: int): (r: int)
    requires b != 0
    ensures operator == "+" ==> r == a + b
    ensures operator == "-" ==> r == a - b
    ensures operator == "*" ==> r == a * b
    ensures operator == "/" && a >= 0 && b > 0 ==> r * b <= a < r * b + b
    ensures !IsValidOperator(operator) ==> r == 0
  {
    match operator
    case "+" => a + b
    case "-" => a - b
    case "*" => a * b
    case "/" => Quotient(a, b)
    case _ => 0
  }

  /** Every operator applied to two operands in [1, 10] stays within [-9, 100]. */
  lemma ApplyRange(operator: string, a: int, b: int)
    requires 1 <= a <= 10 && 1 <= b <= 10
    ensures -9 <= Apply(operator, a, b) <= 100
    ensures Apply(operator, a, b) < 0 ==> operator == "-"
  {
  }

  /**
   * The body of the loop for one input line. The checks run in the order
   * the main loop of main.go runs them: the three-part format, then mixed numeral systems, then the
   * operator, then the two operands; only then is the result computed and
   * checked.
   */
  function Evaluate(line: string): (o: Outcome)
    ensures |Split(line)| != 3 ==> o == Failed(Fatal(InvalidOperationFormat, ""))
    ensures |Split(line)| == 3 && IsRoman(Split(line)[0]) != IsRoman(Split(line)[2]) ==>
      o == Failed(Fatal(MixOfRomanAndArabicNumerals, ""))
    ensures |Split(line)| == 3 && IsRoman(Split(line)[0]) == IsRoman(Split(line)[2]) && !IsValidOperator(Split(line)[1]) ==>
      o == Failed(Fatal(InvalidOperator, ""))
    ensures o.Roman? ==> IsRoman(o.numeral) && 1 <= RomanValue(o.numeral) <= 100
    ensures o.Roman? ==> |Split(line)| == 3 && IsRoman(Split(line)[0]) && IsRoman(Split(line)[2])
    ensures o.Arabic? ==> -9 <= o.value <= 100
    ensures o.Arabic? || o.Roman? ==>
      |Split(line)| == 3 && ParseOperand(Split(line)[0]).Parsed? && ParseOperand(Split(line)[2]).Parsed?
    ensures o.Arabic? ==> |Split(line)| == 3 && !IsRoman(Split(line)[0]) && !IsRoman(Split(line)[2])
    ensures o.Failed? && o.failure.Recoverable? ==>
      |Split(line)| == 3 && (o.failure.operand == Split(line)[0] || o.failure.operand == Split(line)[2]) &&
      Atoi(o.failure.operand).None? && !IsRoman(o.failure.operand)
  {
    var parts := Split(line);
    if |parts| != 3 then Failed(Fatal(InvalidOperationFormat, ""))
    else
      var operand1, operator, operand2 := parts[0], parts[1], parts[2];
      if (IsRoman(operand1) && !IsRoman(operand2)) || (!IsRoman(operand1) && IsRoman(operand2)) then
        Failed(Fatal(MixOfRomanAndArabicNumerals, ""))
      else if !IsValidOperator(operator) then Failed(Fatal(InvalidOperator, ""))
      else
        match ParseOperand(operand1)
        case Rejected(f) => Failed(f)
        case Parsed(a) =>
          match ParseOperand(operand2)
          case Rejected(f) => Failed(f)
          case Parsed(b) =>
            var result := Apply(operator, a, b);
            ApplyRange(operator, a, b);
            if operator == "-" && IsRoman(operand1) && result < 0 then
              Failed(Fatal(RomanNegativeResult, ""))
            else if IsRoman(operand1) then
              if result < 1 || result > 100 then Failed(Fatal(OperandOutOfRange, ToRoman(result)))
              else
                RoundTrip(result);
                Roman(ToRoman(result))
            else Arabic(result)
  }

  /**
   * A line that passes the format, numeral-system and operator checks and
   * whose operands both parse has the outcome the result calls for: for Roman
   * operands a negative difference is fatal, any other result outside
   * [1, 100] (0 included) is fatal with the result's numeral as detail, and
   * the rest is written as a numeral; for Arabic operands the result is
   * returned unchecked.
   */
  lemma EvaluateResult(line: string, a: int, b: int)
    requires |Split(line)| == 3
    requires IsRoman(Split(line)[0]) == IsRoman(Split(line)[2])
    requires IsValidOperator(Split(line)[1])
    requires ParseOperand(Split(line)[0]) == Parsed(a) && ParseOperand(Split(line)[2]) == Parsed(b)
    ensures var result, roman := Apply(Split(line)[1], a, b), IsRoman(Split(line)[0]);
      && (!roman ==> Evaluate(line) == Arabic(result))
      && (roman && result < 0 ==> Evaluate(line) == Failed(Fatal(RomanNegativeResult, "")))
      && (roman && result == 0 ==> Evaluate(line) == Failed(Fatal(OperandOutOfRange, "")))
      && (roman && result > 0 ==> Evaluate(line) == Roman(ToRoman(result)) && RomanValue(Evaluate(line).numeral) == result)
  {
    ApplyRange(Split(line)[1], a, b);
    var result := Apply(Split(line)[1], a, b);
    if IsRoman(Split(line)[0]) && result > 0 {
      RoundTrip(result);
    }
  }

  /** The first operand is parsed before the second, so its failure is the one reported. */
  lemma FirstOperandFirst(line: string)
    requires |Split(line)| == 3
    requires IsRoman(Split(line)[0]) == IsRoman(Split(line)[2])
    requires IsValidOperator(Split(line)[1])
    requires ParseOperand(Split(line)[0]).Rejected?
    ensures Evaluate(line) == Failed(ParseOperand(Split(line)[0]).failure)
  {
  }

  /** The second operand is parsed only after the first succeeds, and its failure is then the outcome. */
  lemma SecondOperandSecond(line: string, a: int)
    requires |Split(line)| == 3
    requires IsRoman(Split(line)[0]) == IsRoman(Split(line)[2])
    requires IsValidOperator(Split(line)[1])
    requires ParseOperand(Split(line)[0]) == Parsed(a) && ParseOperand(Split(line)[2]).Rejected?
    ensures Evaluate(line) == Failed(ParseOperand(Split(line)[2]).failure)
  {
  }

  /** The Roman numeral of every n in [1, 10] is read back as the operand n. */
  lemma ParseRomanOperand(n: int)
    requires 1 <= n <= 10
    ensures IsRoman(ToRoman(n)) && ParseOperand(ToRoman(n)) == Parsed(n)
  {
    RoundTrip(n);
  }

  /** The decimal rendering of every n in [1, 10] is read back as the operand n. */
  lemma ParseArabicOperand(n: int)
    requires 1 <= n <= 10
    ensures !IsRoman(Itoa(n)) && ParseOperand(Itoa(n)) == Parsed(n)
  {
    AtoiItoa(n);
    assert !IsRomanDigit(Itoa(n)[0]);
  }

  /**
   * The only Roman token that the lower bound of parseOperand rejects is the
   * empty one: every other Roman token is worth at least 1.
   */
  lemma RomanOperandRejected(operand: string)
    requires IsRoman(operand)
    ensures ParseOperand(operand).Rejected? <==> operand == [] || RomanValue(operand) > 10
  {
    if operand != [] {
      PositiveValue(operand);
    }
  }

  lemma NoSpaceInRoman(s: string)
    requires IsRoman(s)
    ensures ' ' !in s
  {
  }

  lemma NoSpaceInDigits(n: int)
    ensures ' ' !in Itoa(n) && Itoa(n) != []
  {
  }

  /** A line made of three space-free tokens joined by single spaces splits back into them. */
  lemma SplitThree(x: string, operator: string, y: string)
    requires ' ' !in x && ' ' !in operator && ' ' !in y
    ensures Split(x + " " + operator + " " + y) == [x, operator, y]
  {
    var parts := [x, operator, y];
    assert parts[1..] == [operator, y] && parts[1..][1..] == [y];
    assert Join(parts[1..]) == operator + " " + y;
    assert Join(parts) == x + " " + operator + " " + y;
    SplitJoin(parts);
  }

  /**
   * Any two numbers in [1, 10] written as Roman numerals with a valid
   * operator between them evaluate to the Roman numeral of the arithmetic
   * result, or to the error the result calls for.
   */
  lemma RomanLine(x: int, operator: string, y: int)
    requires 1 <= x <= 10 && 1 <= y <= 10
    requires IsValidOperator(operator)
    ensures var result := Apply(operator, x, y);
      Evaluate(ToRoman(x) + " " + operator + " " + ToRoman(y)) ==
        if result < 0 then Failed(Fatal(RomanNegativeResult, ""))
        else if result == 0 then Failed(Fatal(OperandOutOfRange, ""))
        else Roman(ToRoman(result))
  {
    var line := ToRoman(x) + " " + operator + " " + ToRoman(y);
    NoSpaceInRoman(ToRoman(x));
    NoSpaceInRoman(ToRoman(y));
    SplitThree(ToRoman(x), operator, ToRoman(y));
    ParseRomanOperand(x);
    ParseRomanOperand(y);
    EvaluateResult(line, x, y);
  }

  /**
   * Any two numbers in [1, 10] written in decimal with a valid operator
   * between them evaluate to the arithmetic result.
   */
  lemma ArabicLine(x: int, operator: string, y: int)
    requires 1 <= x <= 10 && 1 <= y <= 10
    requires IsValidOperator(operator)
    ensures Evaluate(Itoa(x) + " " + operator + " " + Itoa(y)) == Arabic(Apply(operator, x, y))
  {
    var line := Itoa(x) + " " + operator + " " + Itoa(y);
    NoSpaceInDigits(x);
    NoSpaceInDigits(y);
    SplitThree(Itoa(x), operator, Itoa(y));
    ParseArabicOperand(x);
    ParseArabicOperand(y);
    EvaluateResult(line, x, y);
  }

  /** Worked line: a sum of numerals. */
  lemma SumScenario()
    ensures Evaluate("III + II") == Roman("V")
  {
    SmallNumerals();
    assert "III + II" == ToRoman(3) + " " + "+" + " " + ToRoman(2);
    RomanLine(3, "+", 2);
  }

  /** Worked line: a quotient of numerals, by integer division. */
  lemma QuotientScenario()
    ensures Evaluate("X / II") == Roman("V")
  {
    SmallNumerals();
    assert "X / II" == ToRoman(10) + " " + "/" + " " + ToRoman(2);
    assert Apply("/", 10, 2) == 5;
    RomanLine(10, "/", 2);
  }

  /** Worked line: a negative difference of numerals is fatal. */
  lemma NegativeScenario()
    ensures Evaluate("II - III") == Failed(Fatal(RomanNegativeResult, ""))
  {
    SmallNumerals();
    assert "II - III" == ToRoman(2) + " " + "-" + " " + ToRoman(3);
    assert Apply("-", 2, 3) == -1;
    RomanLine(2, "-", 3);
  }

  /** Worked line: a zero difference of numerals passes the negative check and fails the range check. */
  lemma ZeroScenario()
    ensures Evaluate("V - V") == Failed(Fatal(OperandOutOfRange, ""))
  {
    SmallNumerals();
    assert "V - V" == ToRoman(5) + " " + "-" + " " + ToRoman(5);
    assert Apply("-", 5, 5) == 0;
    RomanLine(5, "-", 5);
  }

  lemma NotRoman(s: string)
    requires s != [] && !IsRomanDigit(s[0])
    ensures !IsRoman(s)
  {
  }

  /** Worked line: a decimal and a numeral operand are fatal. */
  lemma MixedScenario()
    ensures Evaluate("5 + V") == Failed(Fatal(MixOfRomanAndArabicNumerals, ""))
  {
    SplitThree("5", "+", "V");
    NotRoman("5");
  }

  /** Worked line: a decimal operand above 10 is fatal, with the operand as detail. */
  lemma OperandRangeScenario()
    ensures Evaluate("11 + 2") == Failed(Fatal(OperandOutOfRange, "11"))
  {
    assert "11 + 2" == "11" + " " + "+" + " " + "2";
    SplitThree("11", "+", "2");
    NotRoman("11");
    NotRoman("2");
    assert "11"[..1] == "1";
    assert DigitsValue("11") == 11;
    assert Atoi("11") == Some(11);
    assert ParseOperand("11") == Rejected(Fatal(OperandOutOfRange, "11"));
  }

  /** Worked line: an operator outside the four is fatal. */
  lemma OperatorScenario()
    ensures Evaluate("3 % 2") == Failed(Fatal(InvalidOperator, ""))
  {
    assert "3 % 2" == "3" + " " + "%" + " " + "2";
    SplitThree("3", "%", "2");
    NotRoman("3");
    NotRoman("2");
  }

  /** Worked line: a decimal difference may be negative. */
  lemma ArabicScenario()
    ensures Evaluate("3 - 7") == Arabic(-4)
  {
    assert "3 - 7" == "3" + " " + "-" + " " + "7";
    assert Itoa(3) == "3" && Itoa(7) == "7";
    assert Apply("-", 3, 7) == -4;
    ArabicLine(3, "-", 7);
  }

  /** Worked line: a token that is neither a numeral nor a number is the recoverable error. */
  lemma RecoverableScenario()
    ensures Evaluate("a + 2") == Failed(Recoverable("a"))
  {
    assert "a + 2" == "a" + " " + "+" + " " + "2";
    SplitThree("a", "+", "2");
    NotRoman("a");
    NotRoman("2");
    assert !IsDigit("a"[0]);
  }

  /** Worked line: two spaces in a row make four parts, which is fatal. */
  lemma FormatScenario()
    ensures Evaluate("1 +  2") == Failed(Fatal(InvalidOperationFormat, ""))
  {
  }
}
