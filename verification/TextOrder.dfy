/** The order that `std::string::operator<` and SQLite's BINARY collation put on text, and decimal
    numerals under that order. */
module TextOrder {

  /** True iff `a` comes strictly before `b`: at the first difference, or as a proper prefix. */
  predicate Less(a: string, b: string) {
    if b == "" then false
    else if a == "" then true
    else a[0] < b[0] || (a[0] == b[0] && Less(a[1..], b[1..]))
  }

  lemma {:induction false} LessIrreflexive(a: string)
    ensures !Less(a, a)
  {
    if a != "" {
      LessIrreflexive(a[1..]);
    }
  }

  lemma {:induction false} LessAsymmetric(a: string, b: string)
    requires Less(a, b)
    ensures !Less(b, a)
  {
    if a != "" && a[0] == b[0] {
      LessAsymmetric(a[1..], b[1..]);
    }
  }

  lemma {:induction false} LessTransitive(a: string, b: string, c: string)
    requires Less(a, b) && Less(b, c)
    ensures Less(a, c)
  {
    if a != "" && a[0] == b[0] == c[0] {
      LessTransitive(a[1..], b[1..], c[1..]);
    }
  }

  lemma {:induction false} LessTotal(a: string, b: string)
    ensures Less(a, b) || a == b || Less(b, a)
  {
    if a != "" && b != "" && a[0] == b[0] {
      LessTotal(a[1..], b[1..]);
      assert a == [a[0]] + a[1..] && b == [b[0]] + b[1..];
    }
  }

  /** Texts made of equally long heads are ordered by the heads first, then by the tails. */
  lemma {:induction false} LessOfConcat(a: string, b: string, a': string, b': string)
    requires |a| == |a'|
    ensures Less(a + b, a' + b') <==> Less(a, a') || (a == a' && Less(b, b'))
  {
    if a == "" {
      assert a + b == b && a' + b' == b';
    } else {
      LessOfConcat(a[1..], b, a'[1..], b');
      assert (a + b)[1..] == a[1..] + b && (a' + b')[1..] == a'[1..] + b';
      assert a == [a[0]] + a[1..] && a' == [a'[0]] + a'[1..];
    }
  }

  function Digit(d: nat): (c: char)
    requires d < 10
  {
    '0' + d as char
  }

  /** The decimal numeral of `n`, without padding. */
  function Decimal(n: nat): (s: string)
    ensures s != "" && forall c | c in s :: '0' <= c <= '9'
  {
    if n < 10 then [Digit(n)] else Decimal(n / 10) + [Digit(n % 10)]
  }

  function TwoDigits(n: nat): (s: string)
    requires n < 100
    ensures |s| == 2 && forall c | c in s :: '0' <= c <= '9'
  {
    [Digit(n / 10), Digit(n % 10)]
  }

  /** Numerals of equal length are ordered like their numbers. */
  lemma {:induction false} DecimalOrder(m: nat, n: nat)
    requires |Decimal(m)| == |Decimal(n)|
    ensures Less(Decimal(m), Decimal(n)) <==> m < n
    ensures Decimal(m) == Decimal(n) <==> m == n
  {
    if m < 10 {
      assert n < 10;
      assert Less(Decimal(m)[1..], Decimal(n)[1..]) == false;
    } else {
      var hm, hn := Decimal(m / 10), Decimal(n / 10);
      var dm, dn := [Digit(m % 10)], [Digit(n % 10)];
      DecimalOrder(m / 10, n / 10);
      LessOfConcat(hm, dm, hn, dn);
      assert Less(dm, dn) <==> m % 10 < n % 10;
      assert Decimal(m) == Decimal(n) ==>
               Decimal(m)[..|hm|] == Decimal(n)[..|hn|] && Decimal(m)[|hm|] == Decimal(n)[|hn|];
    }
  }

  lemma TwoDigitsOrder(m: nat, n: nat)
    requires m < 100 && n < 100
    ensures Less(TwoDigits(m), TwoDigits(n)) <==> m < n
    ensures TwoDigits(m) == TwoDigits(n) <==> m == n
  {
    LessOfConcat([Digit(m / 10)], [Digit(m % 10)], [Digit(n / 10)], [Digit(n % 10)]);
    assert TwoDigits(m) == [Digit(m / 10)] + [Digit(m % 10)];
    assert TwoDigits(n) == [Digit(n / 10)] + [Digit(n % 10)];
    assert TwoDigits(m) == TwoDigits(n) ==> TwoDigits(m)[0] == TwoDigits(n)[0] && TwoDigits(m)[1] == TwoDigits(n)[1];
  }

  /** Numerals get longer by one digit at each power of ten. */
  lemma DecimalLength(n: nat)
    ensures |Decimal(n)| == if n < 10 then 1 else |Decimal(n / 10)| + 1
  {
  }

  /** Exactly the years 1000 to 9999 have four-digit numerals. */
  lemma FourDigitYears(y: nat)
    ensures |Decimal(y)| == 4 <==> 1000 <= y <= 9999
  {
    var c := y / 10;
    var x := c / 10;
    var m := x / 10;
    DecimalLength(y);
    DecimalLength(c);
    DecimalLength(x);
    DecimalLength(m);
  }
}
