/** Outcomes of the lookups and parsers the services call. */
module Outcomes {
  datatype Option<+T> = None | Some(value: T)
}

/** Decimal numerals and the two string helpers (`strconv`, `strings.Split`) the services rely on. */
module Decimal {
  import opened Outcomes

  const INT64_MAX := 0x7FFF_FFFF_FFFF_FFFF

  predicate IsDigit(c: char) {
    '0' <= c <= '9'
  }

  predicate AllDigits(s: string) {
    forall i | 0 <= i < |s| :: IsDigit(s[i])
  }

  /** The numeral `strconv.Itoa` prints for a non-negative number. */
  function Digits(n: nat): (s: string)
    ensures |s| > 0 && AllDigits(s)
    ensures n < 10 ==> |s| == 1
    ensures 10 <= n < 100 ==> |s| == 2
  {
    if n < 10 then ['0' + n as char] else Digits(n / 10) + ['0' + (n % 10) as char]
  }

  function Value(s: string): nat
    requires AllDigits(s)
  {
    if s == [] then 0 else 10 * Value(s[..|s| - 1]) + (s[|s| - 1] - '0') as int
  }

  lemma {:induction false} ValueOfDigits(n: nat)
    ensures Value(Digits(n)) == n
  {
    var s := Digits(n);
    if n >= 10 {
      ValueOfDigits(n / 10);
      assert s[..|s| - 1] == Digits(n / 10);
    } else {
      assert s[..|s| - 1] == [];
    }
  }

  /** `strconv.Atoi` on a 64-bit platform: an optional sign, then digits, within range. */
  function Atoi(s: string): Option<int> {
    var negative := s != [] && s[0] == '-';
    var body := if s != [] && (s[0] == '-' || s[0] == '+') then s[1..] else s;
    if body == [] || !AllDigits(body) then None
    else
      var magnitude: int := Value(body);
      if negative then (if magnitude <= INT64_MAX + 1 then Some(-magnitude) else None)
      else if magnitude <= INT64_MAX then Some(magnitude) else None
  }

  lemma {:induction false} AtoiOfDigits(n: nat)
    requires n <= INT64_MAX
    ensures Atoi(Digits(n)) == Some(n)
  {
    ValueOfDigits(n);
    assert IsDigit(Digits(n)[0]);
  }

  // What `Atoi` reads, said in terms of what is printed.

  function Zeros(n: nat): (s: string)
    ensures |s| == n && AllDigits(s)
  {
    if n == 0 then "" else "0" + Zeros(n - 1)
  }

  function Abs(v: int): nat {
    if v < 0 then -v else v
  }

  /** `s` is the numeral of `v`, with any leading zeros, and with a sign unless `v` may do without one. */
  ghost predicate Spells(s: string, v: int) {
    exists sign: string, zeros: nat :: SpelledAs(s, v, sign, zeros)
  }

  ghost predicate SpelledAs(s: string, v: int, sign: string, zeros: nat) {
    && s == sign + Zeros(zeros) + Digits(Abs(v))
    && (if v < 0 then sign == "-" else sign == "" || sign == "+" || (v == 0 && sign == "-"))
  }

  lemma {:induction false} ZerosDoNotCount(zeros: nat, s: string)
    requires AllDigits(s)
    ensures AllDigits(Zeros(zeros) + s) && Value(Zeros(zeros) + s) == Value(s)
  {
    if s == [] {
      assert Zeros(zeros) + s == Zeros(zeros);
      if zeros > 0 {
        ZerosDoNotCount(zeros - 1, []);
        ZerosAtTheEnd(zeros - 1);
        assert Zeros(zeros - 1) + [] == Zeros(zeros - 1);
        assert Zeros(zeros)[..zeros - 1] == Zeros(zeros - 1);
      }
    } else {
      var n := |s| - 1;
      ZerosDoNotCount(zeros, s[..n]);
      assert (Zeros(zeros) + s)[..zeros + n] == Zeros(zeros) + s[..n];
    }
  }

  lemma {:induction false} ZerosAtTheEnd(n: nat)
    ensures Zeros(n + 1) == Zeros(n) + "0"
  {
    if n > 0 {
      ZerosAtTheEnd(n - 1);
    }
  }

  lemma {:induction false} OneMoreDigit(zeros: nat, front: nat, d: char)
    requires IsDigit(d)
    ensures var n := 10 * front + (d - '0') as int;
            Zeros(zeros) + Digits(front) + [d] ==
            Zeros(if front == 0 then zeros + 1 else zeros) + Digits(n)
  {
    ZerosAtTheEnd(zeros);
  }

  lemma {:induction false} PaddedNumeral(s: string) returns (zeros: nat)
    requires s != [] && AllDigits(s)
    ensures s == Zeros(zeros) + Digits(Value(s))
  {
    hide Digits, Zeros;
    var n := |s| - 1;
    zeros := 0;
    assert IsDigit(s[n]) && s == s[..n] + [s[n]];
    if n == 0 {
      OneDigit(s);
    } else {
      zeros := PaddedNumeral(s[..n]);
      OneMoreDigit(zeros, Value(s[..n]), s[n]);
      if Value(s[..n]) == 0 {
        zeros := zeros + 1;
      }
    }
  }

  lemma {:induction false} OneDigit(s: string)
    requires |s| == 1 && IsDigit(s[0])
    ensures s == Zeros(0) + Digits(Value(s)) && Value(s) == (s[0] - '0') as int
  {
    assert s[..0] == [] && Value([]) == 0;
  }

  /** What `Atoi` makes of a sign and a string of digits. */
  lemma {:induction false} AtoiOfSigned(sign: string, body: string)
    requires (sign == "" || sign == "+" || sign == "-") && body != [] && AllDigits(body)
    ensures var v := if sign == "-" then 0 - Value(body) else Value(body) + 0;
            Atoi(sign + body) == if -INT64_MAX - 1 <= v <= INT64_MAX then Some(v) else None
  {
    hide Value;
    assert IsDigit(body[0]);
    if sign == "" {
      assert sign + body == body;
    } else {
      assert (sign + body)[1..] == body;
    }
  }

  lemma {:induction false} SignAndDigits(s: string) returns (sign: string, body: string)
    requires Atoi(s).Some?
    ensures s == sign + body && (sign == "" || sign == "+" || sign == "-") && body != [] && AllDigits(body)
  {
    hide Value;
    sign, body := "", s;
    if s[0] == '-' || s[0] == '+' {
      sign, body := s[..1], s[1..];
    }
  }

  /** Exactly the numerals of the numbers of 64 bits are read, each as its number. */
  lemma {:induction false} AtoiIff(s: string, v: int)
    ensures Atoi(s) == Some(v) <==> Spells(s, v) && -INT64_MAX - 1 <= v <= INT64_MAX
  {
    hide Atoi, AllDigits, Digits, Value, Zeros;
    if Spells(s, v) {
      var sign: string, zeros: nat :| SpelledAs(s, v, sign, zeros);
      AtoiOfSpelled(s, v, sign, zeros);
    }
    if Atoi(s) == Some(v) {
      var sign, body := SignAndDigits(s);
      AtoiOfSigned(sign, body);
      var zeros := PaddedNumeral(body);
      assert sign + body == sign + Zeros(zeros) + Digits(Value(body));
      assert SpelledAs(s, v, sign, zeros);
    }
  }

  lemma {:induction false} AtoiOfSpelled(s: string, v: int, sign: string, zeros: nat)
    requires SpelledAs(s, v, sign, zeros)
    ensures Atoi(s) == if -INT64_MAX - 1 <= v <= INT64_MAX then Some(v) else None
  {
    hide Atoi, AllDigits, Digits, Value, Zeros;
    var body := Zeros(zeros) + Digits(Abs(v));
    assert s == sign + body;
    ZerosDoNotCount(zeros, Digits(Abs(v)));
    ValueOfDigits(Abs(v));
    AtoiOfSigned(sign, body);
  }

  /** `strings.Split` on a one-character separator: always at least one field. */
  function Split(s: string, sep: char): (fields: seq<string>)
    ensures |fields| > 0
    ensures forall f | f in fields :: sep !in f
  {
    if s == [] then [[]]
    else
      var rest := Split(s[1..], sep);
      if s[0] == sep then [[]] + rest else [[s[0]] + rest[0]] + rest[1..]
  }

  /** The inverse rendering, `strings.Join`. */
  function Join(fields: seq<string>, sep: char): string {
    if fields == [] then []
    else if |fields| == 1 then fields[0]
    else fields[0] + [sep] + Join(fields[1..], sep)
  }

  lemma {:induction false} SplitPrefix(field: string, rest: string, sep: char)
    requires sep !in field
    ensures Split(field, sep) == [field]
    ensures Split(field + [sep] + rest, sep) == [field] + Split(rest, sep)
  {
    if field == [] {
      assert [] + [sep] + rest == [sep] + rest;
      assert ([sep] + rest)[1..] == rest;
    } else {
      SplitPrefix(field[1..], rest, sep);
      var s := field + [sep] + rest;
      assert s[1..] == field[1..] + [sep] + rest;
      assert [field[0]] + field[1..] == field;
    }
  }

  lemma {:induction false} SplitOfJoin(fields: seq<string>, sep: char)
    requires fields != []
    requires forall f | f in fields :: sep !in f
    ensures Split(Join(fields, sep), sep) == fields
  {
    SplitPrefix(fields[0], Join(fields[1..], sep), sep);
    if |fields| > 1 {
      SplitOfJoin(fields[1..], sep);
      assert [fields[0]] + fields[1..] == fields;
    } else {
      assert fields == [fields[0]];
    }
  }

  lemma {:induction false} JoinOfSplit(s: string, sep: char)
    ensures Join(Split(s, sep), sep) == s
  {
    if s != [] {
      JoinOfSplit(s[1..], sep);
      var rest := Split(s[1..], sep);
      assert s == [s[0]] + s[1..];
      if s[0] == sep {
        assert ([[]] + rest)[1..] == rest;
      } else {
        assert ([[s[0]] + rest[0]] + rest[1..])[1..] == rest[1..];
      }
    }
  }
}

/** The order of strings, byte by byte. */
module TextOrdering {
  import opened Decimal

  predicate TextLess(a: string, b: string) {
    b != [] && (a == [] || a[0] < b[0] || (a[0] == b[0] && TextLess(a[1..], b[1..])))
  }

  lemma {:induction false} TextOrder(a: string, b: string, c: string)
    ensures !(TextLess(a, b) && TextLess(b, a))
    ensures TextLess(a, b) || TextLess(b, a) || a == b
    ensures TextLess(a, b) && TextLess(b, c) ==> TextLess(a, c)
  {
    if a != [] && b != [] && a[0] == b[0] {
      TextOrder(a[1..], b[1..], if c == [] then [] else c[1..]);
      assert a[1..] == b[1..] ==> a == b;
    }
  }

  /** The two agree before `k`, and there `a` ends or has the smaller character. */
  ghost predicate DiffersAt(a: string, b: string, k: nat) {
    k <= |a| && k < |b| && a[..k] == b[..k] && (k == |a| || a[k] < b[k])
  }

  lemma {:induction false} DiffersFurtherOn(c: char, a: string, b: string, k: nat)
    ensures DiffersAt([c] + a, [c] + b, k + 1) <==> DiffersAt(a, b, k)
    ensures !DiffersAt([c] + a, [c] + b, 0)
  {
    var ca, cb := [c] + a, [c] + b;
    if k <= |a| && k < |b| {
      assert ca[..k + 1] == [c] + a[..k] && cb[..k + 1] == [c] + b[..k];
      assert ca[..k + 1][1..] == a[..k] && cb[..k + 1][1..] == b[..k];
    }
  }

  lemma {:induction false} SameFront(a: string, b: string, k: nat)
    requires DiffersAt(a, b, k)
    ensures k > 0 ==> a != [] && a[0] == b[0]
  {
    if k > 0 {
      assert a[0] == a[..k][0] && b[0] == b[..k][0];
    }
  }

  /** The first place where the two differ decides; a proper prefix comes first. */
  lemma {:induction false} FirstDifferenceDecides(a: string, b: string)
    ensures TextLess(a, b) <==> exists k: nat :: DiffersAt(a, b, k)
  {
    if a == [] || b == [] || a[0] != b[0] {
      assert a[..0] == b[..0];
      if TextLess(a, b) {
        assert DiffersAt(a, b, 0);
      }
      forall k: nat | DiffersAt(a, b, k) ensures k > 0 ==> a != [] && a[0] == b[0] {
        SameFront(a, b, k);
      }
    } else {
      FirstDifferenceDecides(a[1..], b[1..]);
      assert a == [a[0]] + a[1..] && b == [a[0]] + b[1..];
      forall k: nat ensures DiffersAt(a, b, k + 1) <==> DiffersAt(a[1..], b[1..], k) {
        DiffersFurtherOn(a[0], a[1..], b[1..], k);
      }
      DiffersFurtherOn(a[0], a[1..], b[1..], 0);
      if k: nat :| DiffersAt(a[1..], b[1..], k) {
        assert DiffersAt(a, b, k + 1);
      }
      if k: nat :| DiffersAt(a, b, k) {
        assert DiffersAt(a[1..], b[1..], k - 1);
      }
    }
  }

  lemma {:induction false} PartByPart(a: string, b: string, x: string, y: string)
    requires |a| == |b|
    ensures TextLess(a + x, b + y) <==> TextLess(a, b) || (a == b && TextLess(x, y))
  {
    if a == [] {
      assert a + x == x && b + y == y;
    } else {
      assert (a + x)[1..] == a[1..] + x && (b + y)[1..] == b[1..] + y;
      PartByPart(a[1..], b[1..], x, y);
      assert a == [a[0]] + a[1..] && b == [b[0]] + b[1..];
    }
  }

  /** Numerals of the same width are ordered like their numbers. */
  lemma {:induction false} SameWidthOrder(a: string, b: string)
    requires |a| == |b| && AllDigits(a) && AllDigits(b)
    ensures TextLess(a, b) <==> Value(a) < Value(b)
    ensures a == b <==> Value(a) == Value(b)
  {
    if a != [] {
      var n := |a| - 1;
      SameWidthOrder(a[..n], b[..n]);
      PartByPart(a[..n], b[..n], [a[n]], [b[n]]);
      assert a == a[..n] + [a[n]] && b == b[..n] + [b[n]];
      assert IsDigit(a[n]) && IsDigit(b[n]);
    }
  }
}
