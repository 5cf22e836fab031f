/** Card-input utilities: the card-number formatter
    (`formatCardNumber`) and the brand classifier (`detectCardType`).
    Strings are sequences of characters; JavaScript's `\D` class (no `u`
    flag) is exactly "not one of '0'..'9'". */
module CardUtils {
  import opened Remote
  import opened Arithmetic
  import opened Sequences

  /** The three answers of `detectCardType`. */
  datatype CardType = Visa | Mastercard | Unknown

  /** At most this many digits survive formatting. */
  const MaxDigits: nat := 16
  /** Digits per space-separated group. */
  const GroupSize: nat := 4

  predicate IsDigit(c: char)
  {
    '0' <= c <= '9'
  }

  predicate AllDigits(s: string)
  {
    forall i :: 0 <= i < |s| ==> IsDigit(s[i])
  }

  /** How many characters of `s` are digits. */
  function CountDigits(s: string): (n: nat)
    ensures n <= |s|
  {
    if |s| == 0 then 0 else (if IsDigit(s[0]) then 1 else 0) + CountDigits(s[1..])
  }

  /** `value.replace(/\D/g, '')`: every digit of `s` and nothing else, in
      order; a string of digits only is returned unchanged. */
  function Digits(s: string): (d: string)
    ensures AllDigits(d)
    ensures IsSubsequence(d, s)
    ensures |d| == CountDigits(s)
    ensures AllDigits(s) ==> d == s
  {
    if |s| == 0 then ""
    else
      var rest := Digits(s[1..]);
      if IsDigit(s[0]) then
        assert ([s[0]] + rest)[1..] == rest;
        [s[0]] + rest
      else
        assert |rest| > 0 ==> rest[0] != s[0];
        rest
  }

  /** JavaScript's `s.slice(lo, hi)` for 0 <= lo <= hi: indices are clamped
      to the length instead of failing. */
  function Slice(s: string, lo: nat, hi: nat): string
    requires lo <= hi
  {
    s[Min(lo, |s|)..Min(hi, |s|)]
  }

  /** The `parts` array built by `formatCardNumber` from the digit string. */
  function Parts(d: string): seq<string>
  {
    (if |d| > 0 then [Slice(d, 0, 4)] else [])
    + (if |d| > 4 then [Slice(d, 4, 8)] else [])
    + (if |d| > 8 then [Slice(d, 8, 12)] else [])
    + (if |d| > 12 then [Slice(d, 12, 16)] else [])
  }

  /** `parts.join(sep)`. */
  function Join(parts: seq<string>, sep: string): string
  {
    if |parts| == 0 then ""
    else if |parts| == 1 then parts[0]
    else parts[0] + sep + Join(parts[1..], sep)
  }

  /** The first sixteen digits (all of them when there are fewer). */
  function Take16(d: string): (t: string)
    ensures |t| == Min(MaxDigits, |d|)
  {
    d[..Min(MaxDigits, |d|)]
  }

  /** Reference layout, independent of the source's unrolled `if` chain:
      blocks of four characters separated by one space, the last block
      holding the remaining one to four characters. */
  function Grouped(d: string): string
    decreases |d|
  {
    if |d| <= GroupSize then d
    else d[..GroupSize] + " " + Grouped(d[GroupSize..])
  }

  /** The character layout of a formatted number of `n` digits: its length
      is `n` plus one space per full group that is followed by another. */
  function FormattedLength(n: nat): nat
  {
    if n == 0 then 0 else n + (n - 1) / 4
  }

  /** `formatCardNumber(value)`: keep the digits, drop all beyond the
      sixteenth, and group them 4-4-4-4 with single spaces. Position `i` of
      the result holds a space exactly when `i % 5 == 4`; every other
      position holds digit number `i - i / 5` of the input, so digits keep
      their order, groups are four digits except possibly the last, and no
      space is leading, trailing or doubled. */
  function FormatCardNumber(value: string): (r: string)
    ensures |r| == FormattedLength(Min(MaxDigits, |Digits(value)|))
    ensures |r| <= 19
    ensures forall i :: 0 <= i < |r| ==>
              (r[i] == ' ' <==> i % 5 == 4)
    ensures forall i :: 0 <= i < |r| && i % 5 != 4 ==>
              i - i / 5 < |Digits(value)| && r[i] == Digits(value)[i - i / 5]
    ensures |r| > 0 ==> r[0] != ' ' && r[|r| - 1] != ' '
    ensures forall i :: 0 <= i < |r| ==> IsDigit(r[i]) || r[i] == ' '
    ensures Digits(r) == Take16(Digits(value))
    ensures Digits(value) == "" <==> r == ""
  {
    var d := Digits(value);
    FormatIsGrouped(d);
    GroupedLayout(Take16(d));
    DigitsOfGrouped(Take16(d));
    LastPositionNotSpace(Min(MaxDigits, |d|));
    Join(Parts(d), " ")
  }

  /** The source's `if` chain with `join(' ')` lays out exactly the first
      sixteen digits in the reference grouping. */
  lemma FormatIsGrouped(d: string)
    ensures Join(Parts(d), " ") == Grouped(Take16(d))
  {
    var n := |d|;
    var t := Take16(d);
    if n == 0 {
    } else if n <= 4 {
      assert Min(4, n) == n;
      assert Slice(d, 0, 4) == d;
      assert Parts(d) == [d];
    } else if n <= 8 {
      assert Min(4, n) == 4 && Min(8, n) == n;
      assert Slice(d, 0, 4) == d[..4] && Slice(d, 4, 8) == d[4..];
      assert Parts(d) == [d[..4], d[4..]];
      assert Grouped(t[4..]) == d[4..];
    } else if n <= 12 {
      assert Min(4, n) == 4 && Min(8, n) == 8 && Min(12, n) == n;
      assert Slice(d, 0, 4) == d[..4] && Slice(d, 4, 8) == d[4..8];
      assert Slice(d, 8, 12) == d[8..];
      assert Parts(d) == [d[..4], d[4..8], d[8..]];
      assert Grouped(t[8..]) == d[8..];
      assert Grouped(t[4..]) == d[4..8] + " " + d[8..] by {
        assert t[4..][..4] == d[4..8];
        assert t[4..][4..] == t[8..];
      }
      JoinCons(d[..4], [d[4..8], d[8..]], " ");
      JoinCons(d[4..8], [d[8..]], " ");
    } else {
      var m := Min(16, n);
      assert Min(4, n) == 4 && Min(8, n) == 8 && Min(12, n) == 12 && m == |t|;
      assert Slice(d, 0, 4) == d[..4] && Slice(d, 4, 8) == d[4..8];
      assert Slice(d, 8, 12) == d[8..12] && Slice(d, 12, 16) == d[12..m];
      assert Parts(d) == [d[..4], d[4..8], d[8..12], d[12..m]];
      assert Grouped(t[12..]) == d[12..m];
      assert Grouped(t[8..]) == d[8..12] + " " + d[12..m] by {
        assert t[8..][..4] == d[8..12];
        assert t[8..][4..] == t[12..];
      }
      assert Grouped(t[4..]) == d[4..8] + " " + (d[8..12] + " " + d[12..m]) by {
        assert t[4..][..4] == d[4..8];
        assert t[4..][4..] == t[8..];
      }
      JoinCons(d[..4], [d[4..8], d[8..12], d[12..m]], " ");
      JoinCons(d[4..8], [d[8..12], d[12..m]], " ");
      JoinCons(d[8..12], [d[12..m]], " ");
    }
  }

  lemma JoinCons(x: string, rest: seq<string>, sep: string)
    requires |rest| > 0
    ensures Join([x] + rest, sep) == x + sep + Join(rest, sep)
  {
    assert ([x] + rest)[1..] == rest;
  }

  /** Position-by-position description of the reference grouping. */
  lemma {:induction false} GroupedLayout(d: string)
    ensures |Grouped(d)| == FormattedLength(|d|)
    ensures forall i :: 0 <= i < |Grouped(d)| ==>
              (i % 5 == 4 ==> Grouped(d)[i] == ' ')
    ensures forall i :: 0 <= i < |Grouped(d)| && i % 5 != 4 ==>
              i - i / 5 < |d| && Grouped(d)[i] == d[i - i / 5]
    decreases |d|
  {
    if |d| > GroupSize {
      var rest := d[GroupSize..];
      GroupedLayout(rest);
      var g := Grouped(d);
      assert g == d[..4] + " " + Grouped(rest);
      forall i | 5 <= i < |g|
        ensures i % 5 == 4 ==> g[i] == ' '
        ensures i % 5 != 4 ==> i - i / 5 < |d| && g[i] == d[i - i / 5]
      {
        var j := i - 5;
        assert g[i] == Grouped(rest)[j];
        assert j % 5 == i % 5 && j / 5 == i / 5 - 1;
      }
    }
  }

  /** Removing the separators from the reference grouping of a digit string
      gives the digit string back. */
  lemma {:induction false} DigitsOfGrouped(d: string)
    requires AllDigits(d)
    ensures Digits(Grouped(d)) == d
    decreases |d|
  {
    if |d| > GroupSize {
      var rest := d[GroupSize..];
      DigitsOfGrouped(rest);
      var g := Grouped(rest);
      assert Grouped(d) == d[..4] + (" " + g);
      DigitsConcat(d[..4], " " + g);
      DigitsConcat(" ", g);
      assert Digits(" ") == "";
      assert AllDigits(d[..4]);
      assert Digits(Grouped(d)) == d[..4] + rest;
      assert d[..4] + rest == d;
    }
  }

  lemma {:induction false} DigitsConcat(a: string, b: string)
    ensures Digits(a + b) == Digits(a) + Digits(b)
    decreases |a|
  {
    if |a| > 0 {
      DigitsConcat(a[1..], b);
      assert (a + b)[0] == a[0];
      assert (a + b)[1..] == a[1..] + b;
    } else {
      assert a + b == b;
    }
  }

  /** The last position of a formatted number is never a separator. */
  lemma LastPositionNotSpace(n: int)
    ensures n > 0 ==> (FormattedLength(n) - 1) % 5 != 4
  {
    if n > 0 {
      var q := (n - 1) / 4;
      assert FormattedLength(n) - 1 == 5 * q + (n - 1) % 4;
    }
  }

  /** Formatting an already formatted number changes nothing. */
  lemma FormatIdempotent(value: string)
    ensures FormatCardNumber(FormatCardNumber(value)) == FormatCardNumber(value)
  {
    var t := Take16(Digits(value));
    var f := FormatCardNumber(value);
    assert Digits(f) == t;
    assert Take16(t) == t;
    FormatIsGrouped(Digits(value));
    FormatIsGrouped(Digits(f));
  }

  /** Digits beyond the sixteenth never reach the output: appending anything
      to a value that already holds sixteen digits does not change its
      formatting. */
  lemma FormatDropsExtraDigits(value: string, extra: string)
    requires |Digits(value)| >= MaxDigits
    ensures FormatCardNumber(value + extra) == FormatCardNumber(value)
  {
    var d := Digits(value);
    DigitsConcat(value, extra);
    assert Take16(d + Digits(extra)) == Take16(d);
    FormatIsGrouped(d);
    FormatIsGrouped(Digits(value + extra));
  }

  /** The numeric value of a digit string, most significant digit first. */
  function Value(s: string): nat
    requires AllDigits(s)
  {
    if |s| == 0 then 0
    else 10 * Value(s[..|s| - 1]) + (s[|s| - 1] as int - '0' as int)
  }

  /** `parseInt` of a string of digits: `NaN` (here `None`) when empty. */
  function ParseInt(s: string): Option<nat>
    requires AllDigits(s)
  {
    if |s| == 0 then None else Some(Value(s))
  }

  /** A comparison chain `lo <= x && x <= hi`, false for `NaN`. */
  predicate InRange(x: Option<nat>, lo: nat, hi: nat)
  {
    x.Some? && lo <= x.value <= hi
  }

  /** The decision of `detectCardType` on the digit string `d`. */
  function Classify(d: string): CardType
    requires AllDigits(d)
  {
    if |d| > 0 && d[0] == '4' then Visa
    else if InRange(ParseInt(Slice(d, 0, 2)), 51, 55)
         || InRange(ParseInt(Slice(d, 0, 4)), 2221, 2720) then Mastercard
    else Unknown
  }

  /** `detectCardType(cardNumber)`: Visa exactly when the first digit is 4;
      otherwise Mastercard exactly when the first two digits are 51 to 55 or
      the first four digits are 2221 to 2720 (a shorter digit string cannot
      reach either range); otherwise Unknown. */
  function DetectCardType(cardNumber: string): (r: CardType)
    ensures var d := Digits(cardNumber);
            r == Visa <==> |d| > 0 && d[0] == '4'
    ensures var d := Digits(cardNumber);
            r == Mastercard <==>
              && |d| >= 2 && d[0] != '4'
              && ((d[0] == '5' && '1' <= d[1] <= '5')
                  || (|d| >= 4 && 2221 <= Value(d[..4]) <= 2720))
    ensures Digits(cardNumber) == "" ==> r == Unknown
  {
    var d := Digits(cardNumber);
    MastercardPrefixes(d);
    Classify(d)
  }

  /** A digit string of fewer than `k` digits has a value below 10^k. */
  lemma {:induction false} ValueBound(s: string)
    requires AllDigits(s)
    ensures |s| <= 1 ==> Value(s) <= 9
    ensures |s| <= 2 ==> Value(s) <= 99
    ensures |s| <= 3 ==> Value(s) <= 999
    decreases |s|
  {
    if |s| > 0 {
      ValueBound(s[..|s| - 1]);
    }
  }

  /** The two ranges of the Mastercard test, read digit by digit. */
  lemma MastercardPrefixes(d: string)
    requires AllDigits(d)
    ensures InRange(ParseInt(Slice(d, 0, 2)), 51, 55) <==>
              |d| >= 2 && d[0] == '5' && '1' <= d[1] <= '5'
    ensures InRange(ParseInt(Slice(d, 0, 4)), 2221, 2720) <==>
              |d| >= 4 && 2221 <= Value(d[..4]) <= 2720
  {
    var two := Slice(d, 0, 2);
    var four := Slice(d, 0, 4);
    ValueBound(two);
    ValueBound(four);
    if |d| >= 2 {
      assert two == d[..2];
      assert two[..1] == [d[0]];
      assert Value(two) == 10 * (d[0] as int - '0' as int) + (d[1] as int - '0' as int);
    }
  }

  /** `detectCardType` reads only the first four digits, and formatting
      keeps those, so the brand of a formatted number is the brand of the
      raw input. */
  lemma DetectIgnoresFormatting(value: string)
    ensures DetectCardType(FormatCardNumber(value)) == DetectCardType(value)
  {
    var d := Digits(value);
    var t := Digits(FormatCardNumber(value));
    assert t == Take16(d);
    assert Slice(t, 0, 2) == Slice(d, 0, 2);
    assert Slice(t, 0, 4) == Slice(d, 0, 4);
  }

  /* Sample numbers. Each sample lemma receives its number as a parameter
     pinned by `requires`, so the verifier unfolds the literal only where the
     proof asks for it and the lemma stays within the resource limit. */

  /** A Visa number. */
  lemma SampleVisa(m: string)
    requires m == "4111111111111111"
    ensures DetectCardType(m) == Visa
  {
    assert AllDigits(m);
  }

  /** A Mastercard number in the 51-55 range. */
  lemma SampleMastercard(m: string)
    requires m == "5500000000000004"
    ensures DetectCardType(m) == Mastercard
  {
    assert Digits(m) == m by {
      assert AllDigits(m);
    }
    ClassifyFiftyFive(m);
  }

  lemma ClassifyFiftyFive(m: string)
    requires AllDigits(m) && |m| >= 2 && m[0] == '5' && m[1] == '5'
    ensures Classify(m) == Mastercard
  {
    assert Slice(m, 0, 2) == "55";
    assert Value("55") == 55 by {
      assert "55"[..1] == "5";
    }
  }

  /** A number of neither brand. */
  lemma SampleUnknown(m: string)
    requires m == "1234567890123456"
    ensures DetectCardType(m) == Unknown
  {
    assert Digits(m) == m by {
      assert AllDigits(m);
    }
    ClassifyOneTwoThreeFour(m);
  }

  lemma ClassifyOneTwoThreeFour(m: string)
    requires AllDigits(m) && |m| >= 4 && m[..4] == "1234"
    ensures Classify(m) == Unknown
  {
    assert m[0] == '1';
    assert Slice(m, 0, 2) == "12";
    assert Slice(m, 0, 4) == "1234";
    assert Value("12") == 12 by {
      assert "12"[..1] == "1";
    }
    assert Value("1234") == 1234 by {
      assert "1234"[..3] == "123";
      assert "123"[..2] == "12";
      assert "12"[..1] == "1";
    }
  }

  /** A formatted number in the 2221-2720 range. */
  lemma SampleMastercardSecondRange(m: string)
    requires m == "2221 0000"
    ensures DetectCardType(m) == Mastercard
  {
    DigitsOfSpacedSample(m);
    ClassifyTwoTwoTwoOne(Digits(m));
  }

  lemma DigitsOfSpacedSample(m: string)
    requires m == "2221 0000"
    ensures Digits(m) == "22210000"
  {
    var a, b := m[..4], m[4..];
    assert a == "2221" && b == " 0000";
    assert m == a + b;
    DigitsConcat(a, b);
    assert AllDigits(a);
    var rest := b[1..];
    assert rest == "0000" && AllDigits(rest);
    assert Digits(b) == Digits(rest);
  }

  lemma ClassifyTwoTwoTwoOne(d: string)
    requires AllDigits(d) && |d| >= 4 && d[..4] == "2221"
    ensures Classify(d) == Mastercard
  {
    assert Slice(d, 0, 4) == "2221";
    assert Value("2221") == 2221 by {
      assert "2221"[..3] == "222";
      assert "222"[..2] == "22";
      assert "22"[..1] == "2";
    }
  }
}
