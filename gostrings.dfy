/**
 * The two library calls the calculator depends on: strings.Split with a
 * single-space separator and strconv.Atoi, the latter as a plain decimal
 * parser (optional sign, then one or more digits) without overflow. Atoi
 * reads back what Itoa, the decimal rendering of an int, writes.
 */
module GoStrings {

  datatype Option<T> = None | Some(value: T)

  /**
   * strings.Split(s, " "): the pieces between consecutive spaces, so one
   * more piece than there are spaces; the empty string gives one empty piece.
   */
  function Split(s: string): (parts: seq<string>)
    ensures |parts| >= 1
    ensures forall i :: 0 <= i < |parts| ==> ' ' !in parts[i]
  {
    if s == [] then [[]]
    else
      var rest := Split(s[1..]);
      if s[0] == ' ' then [[]] + rest
      else [[s[0]] + rest[0]] + rest[1..]
  }

  /** The pieces put back together with a single space between neighbours. */
  function Join(parts: seq<string>): string
    requires |parts| >= 1
  {
    if |parts| == 1 then parts[0] else parts[0] + " " + Join(parts[1..])
  }

  function CountSpaces(s: string): nat {
    if s == [] then 0 else (if s[0] == ' ' then 1 else 0) + CountSpaces(s[1..])
  }

  /** Splitting loses nothing, and yields one piece per space plus one. */
  lemma {:induction false} JoinSplit(s: string)
    ensures Join(Split(s)) == s
    ensures |Split(s)| == CountSpaces(s) + 1
  {
    if s != [] {
      JoinSplit(s[1..]);
      var rest := Split(s[1..]);
      if s[0] == ' ' {
        assert ([[]] + rest)[1..] == rest;
      } else {
        assert ([[s[0]] + rest[0]] + rest[1..])[1..] == rest[1..];
        if |rest| > 1 {
          assert rest == [rest[0]] + rest[1..];
        }
      }
    }
  }

  /** Splitting a piece with no space in it followed by a space and t. */
  lemma {:induction false} SplitAfterPiece(p: string, t: string)
    requires ' ' !in p
    ensures Split(p + " " + t) == [p] + Split(t)
  {
    if p == [] {
      assert p + " " + t == " " + t;
      assert (" " + t)[1..] == t;
    } else {
      assert (p + " " + t)[1..] == p[1..] + " " + t;
      SplitAfterPiece(p[1..], t);
      assert [p[0]] + p[1..] == p;
    }
  }

  /** A piece with no space in it splits into itself. */
  lemma {:induction false} SplitPiece(p: string)
    requires ' ' !in p
    ensures Split(p) == [p]
  {
    if p != [] {
      SplitPiece(p[1..]);
      assert [p[0]] + p[1..] == p;
    }
  }

  /** Joining space-free pieces and splitting again gives the pieces back. */
  lemma {:induction false} SplitJoin(parts: seq<string>)
    requires |parts| >= 1
    requires forall i :: 0 <= i < |parts| ==> ' ' !in parts[i]
    ensures Split(Join(parts)) == parts
  {
    if |parts| == 1 {
      SplitPiece(parts[0]);
    } else {
      SplitJoin(parts[1..]);
      SplitAfterPiece(parts[0], Join(parts[1..]));
      assert [parts[0]] + parts[1..] == parts;
    }
  }

  predicate IsDigit(c: char) {
    '0' <= c <= '9'
  }

  predicate AllDigits(s: string) {
    forall i :: 0 <= i < |s| ==> IsDigit(s[i])
  }

  /** The number a string of decimal digits denotes, most significant digit first. */
  function DigitsValue(d: string): nat
    requires AllDigits(d)
  {
    if d == [] then 0
    else 10 * DigitsValue(d[..|d| - 1]) + (d[|d| - 1] as int - '0' as int)
  }

  /**
   * strconv.Atoi without its overflow check: an optional '+' or '-'
   * followed by at least one decimal digit, and nothing else.
   */
  function Atoi(s: string): (r: Option<int>)
    ensures r.Some? <==> s != [] && (AllDigits(s) || ((s[0] == '+' || s[0] == '-') && |s| > 1 && AllDigits(s[1..])))
    ensures r.Some? && AllDigits(s) ==> r.value == DigitsValue(s)
    ensures r.Some? && s[0] == '+' && AllDigits(s[1..]) ==> r.value == DigitsValue(s[1..])
    ensures r.Some? && s[0] == '-' && AllDigits(s[1..]) ==> r.value == -(DigitsValue(s[1..]) as int)
  {
    if s != [] && (s[0] == '+' || s[0] == '-') then
      var body := s[1..];
      if body != [] && AllDigits(body) then
        var magnitude: int := DigitsValue(body);
        Some(if s[0] == '-' then -magnitude else magnitude)
      else None
    else if s != [] && AllDigits(s) then Some(DigitsValue(s))
    else None
  }

  function DigitChar(d: nat): char
    requires d < 10
  {
    ('0' as int + d) as char
  }

  /** The decimal digits of n, most significant first, without leading zeros. */
  function NatDigits(n: nat): (r: string)
    ensures r != [] && AllDigits(r)
    ensures |r| > 1 ==> r[0] != '0'
  {
    if n < 10 then [DigitChar(n)]
    else
      var prefix := NatDigits(n / 10);
      assert forall i :: 0 <= i < |prefix| + 1 ==> (prefix + [DigitChar(n % 10)])[i] == if i < |prefix| then prefix[i] else DigitChar(n % 10);
      prefix + [DigitChar(n % 10)]
  }

  /** The decimal rendering of n, with a leading '-' when n is negative. */
  function Itoa(n: int): string {
    if n < 0 then "-" + NatDigits(-n) else NatDigits(n)
  }

  lemma {:induction false} DigitsOfNat(n: nat)
    ensures DigitsValue(NatDigits(n)) == n
  {
    if n >= 10 {
      DigitsOfNat(n / 10);
      var d := NatDigits(n);
      assert d[..|d| - 1] == NatDigits(n / 10);
    }
  }

  /** Atoi reads back what Itoa writes. */
  lemma AtoiItoa(n: int)
    ensures Atoi(Itoa(n)) == Some(n)
  {
    if n < 0 {
      var digits := NatDigits(-n);
      DigitsOfNat(-n);
      assert Itoa(n) == "-" + digits;
      assert Itoa(n)[0] == '-' && Itoa(n)[1..] == digits;
    } else {
      DigitsOfNat(n);
      assert Itoa(n) == NatDigits(n) && !(Itoa(n)[0] == '+' || Itoa(n)[0] == '-') by {
        assert IsDigit(NatDigits(n)[0]);
      }
    }
  }
}
