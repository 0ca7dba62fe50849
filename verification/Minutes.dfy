/** Minutes of the day as the seat crawler reads and prints them. */
module Minutes {
  import opened Outcomes
  import opened Decimal

  const DAY := 24 * 60

  /** `%02d` */
  function Pad2(n: nat): string {
    if n < 10 then "0" + Digits(n) else Digits(n)
  }

  function FormatMinute(minute: nat): string {
    Pad2(minute / 60) + ":" + Pad2(minute % 60)
  }

  /** `time.Parse("15:04", s)`: an hour of one or two digits below 24, a colon, exactly two minute digits below 60. */
  function ParseClock(s: string): Option<int> {
    var width := if |s| > 1 && IsDigit(s[1]) then 2 else 1;
    if |s| != width + 3 || !AllDigits(s[..width]) || s[width] != ':' || !AllDigits(s[width + 1..]) then None
    else
      var hour, minute := Value(s[..width]), Value(s[width + 1..]);
      if hour < 24 && minute < 60 then Some(hour * 60 + minute) else None
  }

  /** A plain number is taken as a minute of the day, 1440 included; anything else must be a clock time. */
  function ParseMinute(s: string): Option<int> {
    match Atoi(s)
    case Some(minute) => if 0 <= minute <= DAY then Some(minute) else None
    case None => ParseClock(s)
  }

  lemma {:induction false} ParseMinuteInRange(s: string)
    ensures ParseMinute(s).Some? ==> 0 <= ParseMinute(s).value <= DAY
  {
  }

  lemma {:induction false} Pad2Value(n: nat)
    requires n < 100
    ensures |Pad2(n)| == 2 && AllDigits(Pad2(n)) && Value(Pad2(n)) == n
  {
    ValueOfDigits(n);
    if n < 10 {
      var s := "0" + Digits(n);
      assert s[..1] == "0" && s[..1][..0] == [];
      assert Digits(n)[..0] == [];
      assert Value("0") == 0;
    }
  }

  /** Printing and parsing agree on every minute of the day except the closing one, which prints as 24:00. */
  lemma {:induction false} ParseOfFormat(minute: nat)
    requires minute <= DAY
    ensures ParseMinute(FormatMinute(minute)) == if minute < DAY then Some(minute) else None
  {
    var hours, rest := Pad2(minute / 60), Pad2(minute % 60);
    var s := FormatMinute(minute);
    Pad2Value(minute / 60);
    Pad2Value(minute % 60);
    assert s[..2] == hours && s[2] == ':' && s[3..] == rest;
    assert IsDigit(s[0]) && s[1] == hours[1];
    assert !IsDigit(s[2]);
  }

  lemma {:induction false} FormatInjective(a: nat, b: nat)
    requires a <= DAY && b <= DAY && FormatMinute(a) == FormatMinute(b)
    ensures a == b
  {
    ParseOfFormat(a);
    ParseOfFormat(b);
  }

  /** A clock time of the day, with or without a leading zero of the hour. */
  ghost predicate ClockText(s: string, minute: int) {
    && 0 <= minute < DAY
    && (s == Pad2(minute / 60) + ":" + Pad2(minute % 60) || s == Digits(minute / 60) + ":" + Pad2(minute % 60))
  }

  lemma {:induction false} ClockOfText(s: string, minute: int)
    requires ClockText(s, minute)
    ensures Atoi(s).None? && ParseClock(s) == Some(minute)
  {
    hide Digits, Value, Pad2;
    Pad2Value(minute / 60);
    Pad2Value(minute % 60);
    ValueOfDigits(minute / 60);
    var rest := Pad2(minute % 60);
    var hour := if s == Pad2(minute / 60) + ":" + rest then Pad2(minute / 60) else Digits(minute / 60);
    assert s == hour + ":" + rest && 1 <= |hour| <= 2 && |rest| == 2;
    assert s[..|hour|] == hour && s[|hour|] == ':' && s[|hour| + 1..] == rest;
    assert IsDigit(s[0]) && !IsDigit(s[|hour|]);
    assert |hour| == 2 ==> s[1] == hour[1];
  }

  lemma {:induction false} SameTwoDigits(a: string, b: string)
    requires |a| == |b| == 2 && AllDigits(a) && AllDigits(b) && Value(a) == Value(b)
    ensures a == b
  {
    assert a[..1] == [a[0]] && b[..1] == [b[0]] && a[..1][..0] == [] && b[..1][..0] == [];
    assert IsDigit(a[0]) && IsDigit(a[1]) && IsDigit(b[0]) && IsDigit(b[1]);
    assert Value(a[..1]) == (a[0] - '0') as int && Value(b[..1]) == (b[0] - '0') as int;
  }

  lemma {:induction false} TwoDigits(s: string)
    requires |s| == 2 && AllDigits(s)
    ensures Value(s) < 100 && s == Pad2(Value(s))
  {
    assert s[..1] == [s[0]] && s[..1][..0] == [];
    assert IsDigit(s[0]) && IsDigit(s[1]);
    assert Value(s[..1]) == (s[0] - '0') as int;
    var n := Value(s);
    assert n == 10 * (s[0] - '0') as int + (s[1] - '0') as int;
    Pad2Value(n);
    SameTwoDigits(s, Pad2(n));
  }

  lemma {:induction false} TextOfClock(s: string)
    requires ParseClock(s).Some?
    ensures ClockText(s, ParseClock(s).value)
  {
    hide Digits, Value, Pad2;
    var width := if |s| > 1 && IsDigit(s[1]) then 2 else 1;
    var hour, rest := s[..width], s[width + 1..];
    assert s == hour + ":" + rest;
    TwoDigits(rest);
    if width == 2 {
      TwoDigits(hour);
    } else {
      assert IsDigit(hour[0]);
      OneDigit(hour);
    }
  }

  /** Read as a minute of the day are exactly the numerals from 0 to 1440 and the clock times. */
  lemma {:induction false} ParseMinuteIff(s: string, minute: int)
    ensures ParseMinute(s) == Some(minute) <==> (Spells(s, minute) && 0 <= minute <= DAY) || ClockText(s, minute)
  {
    AtoiIff(s, minute);
    if ClockText(s, minute) {
      ClockOfText(s, minute);
    }
    if ParseMinute(s) == Some(minute) && Atoi(s).None? {
      TextOfClock(s);
    }
  }
}
