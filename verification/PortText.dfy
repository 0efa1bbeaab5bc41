/**
 The textual form of port ranges: what the admission webhook accepts and what
 the agent reads out of it.
 */
module PortText {
  import opened Strings
  import opened Uint16

  predicate IsDigit(c: char) { '0' <= c <= '9' }

  /** The regular expression \d{1,5}. */
  predicate IsNumber(s: string) {
    1 <= |s| <= 5 && forall i :: 0 <= i < |s| ==> IsDigit(s[i])
  }

  function Decimal(s: string): nat
    requires forall i :: 0 <= i < |s| ==> IsDigit(s[i])
  {
    if s == "" then 0
    else
      assert IsDigit(s[|s| - 1]);
      10 * Decimal(s[..|s| - 1]) + (s[|s| - 1] as int - '0' as int)
  }

  /** strconv.ParseUint(s, 10, 16) with its error dropped: out of range reads as 65535. */
  function ParseUint16(s: string): uint16
    requires IsNumber(s)
  {
    if Decimal(s) > 0xffff then 0xffff else Decimal(s)
  }

  /** The regular expression \d{1,5}-\d{1,5}. */
  predicate IsRange(s: string) {
    var ends := Split(s, '-');
    |ends| == 2 && IsNumber(ends[0]) && IsNumber(ends[1])
  }

  datatype Interval = Interval(begin: uint16, end: uint16)

  function UnmarshalPortRange(s: string): Result<Interval> {
    if s == "" then Ok(Interval(0, 0))
    else if IsNumber(s) then Ok(Interval(ParseUint16(s), ParseUint16(s)))
    else if IsRange(s) then
      var begin, end := ParseUint16(Split(s, '-')[0]), ParseUint16(Split(s, '-')[1]);
      if begin > end then Err("portrange begin must <= end") else Ok(Interval(begin, end))
    else Err("couldn't unmarshal portrange")
  }

  /** securityPolicyValidator.validatePortRange; true is a nil error. */
  predicate ValidatePortRange(s: string)
    decreases |s|, 1
  {
    if s == "" then true
    else if IsNumber(s) then Decimal(s) <= 0xffff
    else if IsRange(s) then
      var begin, end := Decimal(Split(s, '-')[0]), Decimal(Split(s, '-')[1]);
      begin <= 0xffff && end <= 0xffff && begin <= end
    else if forall i :: 0 <= i < |Split(s, ',')| ==> IsNumber(Split(s, ',')[i]) || IsRange(Split(s, ',')[i]) then
      (forall i :: 0 <= i < |Split(s, ',')| ==> ValidatePortRange(Split(s, ',')[i]))
    else false
  }

  /** The ASCII digits. */
  predicate IsNumeral(c: char) { 48 <= c as int <= 57 }

  function DigitValue(c: char): nat
    requires IsNumeral(c)
  {
    c as int - 48
  }

  function Numeral(d: nat): (c: char)
    requires d < 10
    ensures IsNumeral(c) && DigitValue(c) == d
  {
    (48 + d) as char
  }

  predicate AllNumerals(s: string) { forall i :: 0 <= i < |s| ==> IsNumeral(s[i]) }

  function Pow10(n: nat): nat { if n == 0 then 1 else 10 * Pow10(n - 1) }

  /** One to five decimal digits, leading zeros allowed. */
  predicate ShortNumber(s: string) { 1 <= |s| <= 5 && AllNumerals(s) }

  /** The number on the page: each digit times the power of ten of its place. */
  function PlaceValue(s: string): nat
    requires AllNumerals(s)
  {
    if s == "" then 0 else DigitValue(s[0]) * Pow10(|s| - 1) + PlaceValue(s[1..])
  }

  lemma NumberIffShort(s: string)
    ensures IsNumber(s) <==> ShortNumber(s)
  {
  }

  lemma {:induction false} PlaceValueStep(s: string, c: char)
    requires AllNumerals(s) && IsNumeral(c)
    ensures PlaceValue(s + [c]) == 10 * PlaceValue(s) + DigitValue(c)
  {
    if s == "" {
      assert s + [c] == [c] && [c][1..] == "";
    } else {
      PlaceValueStep(s[1..], c);
      assert (s + [c])[1..] == s[1..] + [c];
      TenTimes(DigitValue(s[0]), Pow10(|s| - 1));
    }
  }

  lemma TenTimes(d: nat, p: nat)
    ensures d * (10 * p) == 10 * (d * p)
  {
  }

  /** Reading digit by digit gives the number on the page. */
  lemma {:induction false} DecimalIsPlaceValue(s: string)
    requires forall i :: 0 <= i < |s| ==> IsDigit(s[i])
    ensures AllNumerals(s) && Decimal(s) == PlaceValue(s)
  {
    if s != "" {
      var front, last := s[..|s| - 1], s[|s| - 1];
      DecimalIsPlaceValue(front);
      assert IsDigit(last) && s == front + [last];
      PlaceValueStep(front, last);
    }
  }

  /** The decimal form of a number, most significant digit first. */
  function Digits(n: nat): (s: string)
    ensures s != "" && AllNumerals(s)
  {
    if n < 10 then [Numeral(n)] else Digits(n / 10) + [Numeral(n % 10)]
  }

  lemma {:induction false} PlaceValueOfDigits(n: nat)
    ensures PlaceValue(Digits(n)) == n
  {
    if n < 10 {
      assert [Numeral(n)][1..] == "";
    } else {
      PlaceValueOfDigits(n / 10);
      PlaceValueStep(Digits(n / 10), Numeral(n % 10));
    }
  }

  lemma {:induction false} DigitsFit(n: nat, k: nat)
    requires k > 0 && n < Pow10(k)
    ensures |Digits(n)| <= k
  {
    if n >= 10 {
      assert k > 1;
      DigitsFit(n / 10, k - 1);
    }
  }

  /** strconv.ParseUint with its error dropped. */
  function Saturated(n: nat): uint16 { if n > 65535 then 65535 else n }

  /** What a piece of text is read as: nothing is port 0, otherwise one number or two with a dash between. */
  ghost predicate Reads(s: string, begin: uint16, end: uint16) {
    || (s == "" && begin == end == 0)
    || (ShortNumber(s) && begin == end == Saturated(PlaceValue(s)))
    || exists x, y :: Ends(s, x, y) && begin == Saturated(PlaceValue(x)) <= Saturated(PlaceValue(y)) == end
  }

  predicate Ends(s: string, x: string, y: string) { s == x + "-" + y && ShortNumber(x) && ShortNumber(y) }

  lemma RangeEnds(s: string, x: string, y: string)
    ensures IsRange(s) && Split(s, '-') == [x, y] <==> Ends(s, x, y)
  {
    if Ends(s, x, y) {
      SplitPair(x, y, '-');
      assert "-" == ['-'];
      NumberIffShort(x);
      NumberIffShort(y);
    }
    if IsRange(s) && Split(s, '-') == [x, y] {
      JoinSplit(s, '-');
      assert [x, y][1..] == [y];
      NumberIffShort(x);
      NumberIffShort(y);
    }
  }

  lemma NumberHasNoEnds(s: string)
    requires IsNumber(s)
    ensures forall x, y :: !Ends(s, x, y)
  {
    forall x, y
      ensures !Ends(s, x, y)
    {
      assert s == x + "-" + y ==> |x| < |s| && s[|x|] == '-';
    }
  }

  lemma ParsedIs(s: string)
    requires IsNumber(s)
    ensures ShortNumber(s) && ParseUint16(s) == Saturated(PlaceValue(s))
  {
    NumberIffShort(s);
    DecimalIsPlaceValue(s);
  }

  /** UnmarshalPortRange reads exactly that, and everything else is an error. */
  lemma UnmarshalReads(s: string, begin: uint16, end: uint16)
    ensures UnmarshalPortRange(s) == Ok(Interval(begin, end)) <==> Reads(s, begin, end)
  {
    NumberIffShort(s);
    if IsNumber(s) {
      ParsedIs(s);
      NumberHasNoEnds(s);
    } else if IsRange(s) {
      var x, y := Split(s, '-')[0], Split(s, '-')[1];
      RangeEnds(s, x, y);
      ParsedIs(x);
      ParsedIs(y);
      forall x', y' | Ends(s, x', y')
        ensures x' == x && y' == y
      {
        RangeEnds(s, x', y');
      }
    } else if s != "" {
      forall x, y
        ensures !Ends(s, x, y)
      {
        RangeEnds(s, x, y);
      }
    }
  }

  /** Round trips: a printed port, and two of them with a dash between, are read as what was printed. */
  lemma PrintedPortReads(a: uint16, b: uint16)
    requires a <= b
    ensures UnmarshalPortRange(Digits(a)) == Ok(Interval(a, a))
    ensures UnmarshalPortRange(Digits(a) + "-" + Digits(b)) == Ok(Interval(a, b))
  {
    assert Pow10(1) == 10 && Pow10(2) == 100 && Pow10(3) == 1000 && Pow10(4) == 10000 && Pow10(5) == 100000;
    DigitsFit(a, 5);
    DigitsFit(b, 5);
    PlaceValueOfDigits(a);
    PlaceValueOfDigits(b);
    UnmarshalReads(Digits(a), a, a);
    assert Ends(Digits(a) + "-" + Digits(b), Digits(a), Digits(b));
    UnmarshalReads(Digits(a) + "-" + Digits(b), a, b);
  }

  /** What a written piece means: the decimal numbers on the page, whatever their size. */
  ghost predicate Denotes(piece: string, begin: nat, end: nat) {
    || (ShortNumber(piece) && begin == end == PlaceValue(piece))
    || exists x, y :: Ends(piece, x, y) && begin == PlaceValue(x) && end == PlaceValue(y)
  }

  /** The agent reads the piece as it is written, without saturating. */
  ghost predicate ReadsAsWritten(piece: string) {
    match UnmarshalPortRange(piece)
    case Ok(interval) => Denotes(piece, interval.begin, interval.end)
    case Err(_) => false
  }

  lemma NoComma(s: string)
    requires IsNumber(s) || IsRange(s)
    ensures Split(s, ',') == [s]
  {
    if !IsNumber(s) {
      JoinSplit(s, '-');
      var ends := Split(s, '-');
      assert ends[1..] == [ends[1]];
      assert s == ends[0] + "-" + ends[1];
    }
  }

  lemma PieceAdmitted(piece: string)
    requires IsNumber(piece) || IsRange(piece)
    ensures ValidatePortRange(piece) <==> ReadsAsWritten(piece)
  {
    NumberIffShort(piece);
    if IsNumber(piece) {
      ParsedIs(piece);
      DecimalIsPlaceValue(piece);
      NumberHasNoEnds(piece);
    } else {
      var x, y := Split(piece, '-')[0], Split(piece, '-')[1];
      RangeEnds(piece, x, y);
      DecimalIsPlaceValue(x);
      DecimalIsPlaceValue(y);
      forall x', y' | Ends(piece, x', y')
        ensures x' == x && y' == y
      {
        RangeEnds(piece, x', y');
      }
    }
  }

  ghost predicate AllAsWritten(pieces: seq<string>) { forall i :: 0 <= i < |pieces| ==> ReadsAsWritten(pieces[i]) }

  lemma ListAdmitted(s: string)
    requires s != "" && !IsNumber(s) && !IsRange(s)
    ensures ValidatePortRange(s) <==> AllAsWritten(Split(s, ','))
  {
    var pieces := Split(s, ',');
    if i :| 0 <= i < |pieces| && !(IsNumber(pieces[i]) || IsRange(pieces[i])) {
      assert !ReadsAsWritten(pieces[i]);
    } else {
      forall i | 0 <= i < |pieces|
        ensures ValidatePortRange(pieces[i]) <==> ReadsAsWritten(pieces[i])
      {
        PieceAdmitted(pieces[i]);
      }
    }
  }

  /**
   The webhook admits exactly the texts that the agent will read faithfully:
   an accepted text never fails to compile and never saturates, and a refused
   one would.
   */
  lemma AdmittedIffFaithful(s: string)
    ensures ValidatePortRange(s)
       <==> s == "" || forall piece :: piece in Split(s, ',') ==> ReadsAsWritten(piece)
  {
    if IsNumber(s) || IsRange(s) {
      NoComma(s);
      PieceAdmitted(s);
      assert s in Split(s, ',');
    } else if s != "" {
      ListAdmitted(s);
    }
  }
}
