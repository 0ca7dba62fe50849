/**
 The weeks a class is taught, as text, as a list and as a bit mask. Two crawlers read the same text in different ways;
 the mask they store, and the list read back from a mask, must not depend on which of them ran.
 */
module WeekMasks {
  import opened Outcomes
  import opened Decimal

  // ----- Masks ------------------------------------------------------------------------------------------------------

  function Place(k: int): bv6
    requires 0 <= k < 64
  {
    k as bv6
  }

  /** `1 << (w - 1)` on 64 bits; a shift by 64 or more leaves nothing. */
  function Bit(w: int): bv64
    requires w >= 1
  {
    if w <= 64 then 1 << Place(w - 1) else 0
  }

  function Or(a: bv64, b: bv64): bv64 {
    a | b
  }

  predicate BitAt(mask: bv64, i: bv6) {
    (mask >> i) & 1 != 0
  }

  predicate Has(mask: bv64, w: int)
    requires 1 <= w <= 64
  {
    BitAt(mask, Place(w - 1))
  }

  ghost predicate AllWeeks(ws: seq<int>) {
    forall i | 0 <= i < |ws| :: ws[i] >= 1
  }

  function Mask(ws: seq<int>): bv64
    requires AllWeeks(ws)
  {
    if ws == [] then 0 else Or(Mask(ws[..|ws| - 1]), Bit(ws[|ws| - 1]))
  }

  lemma {:induction false} OrAt(a: bv64, b: bv64, i: bv6)
    ensures BitAt(Or(a, b), i) <==> BitAt(a, i) || BitAt(b, i)
  {
    assert ((a | b) >> i) & 1 != 0 <==> (a >> i) & 1 != 0 || (b >> i) & 1 != 0;
  }

  lemma {:induction false} OneAt(i: bv6, j: bv6)
    ensures BitAt(1 << i, j) <==> i == j
  {
  }

  lemma {:induction false} NothingAt(i: bv6)
    ensures !BitAt(0, i)
  {
  }

  lemma {:induction false} PlaceIsExact(k: int)
    requires 0 <= k < 64
    ensures Place(k) as int == k
  {
  }

  lemma {:induction false} BitHas(v: int, w: int)
    requires v >= 1 && 1 <= w <= 64
    ensures Has(Bit(v), w) <==> v == w
  {
    hide Place, BitAt;
    if v <= 64 {
      OneAt(Place(v - 1), Place(w - 1));
      PlaceIsExact(v - 1);
      PlaceIsExact(w - 1);
    } else {
      NothingAt(Place(w - 1));
    }
  }

  /** Bit w - 1 is set exactly for the listed weeks. */
  lemma {:induction false} MaskHas(ws: seq<int>, w: int)
    requires AllWeeks(ws) && 1 <= w <= 64
    ensures Has(Mask(ws), w) <==> w in ws
  {
    hide Place, Bit, BitAt, Or;
    if ws == [] {
      NothingAt(Place(w - 1));
    } else {
      var n := |ws| - 1;
      MaskHas(ws[..n], w);
      OrAt(Mask(ws[..n]), Bit(ws[n]), Place(w - 1));
      BitHas(ws[n], w);
      assert ws == ws[..n] + [ws[n]];
    }
  }

  lemma {:induction false} OrIsAssociative(a: bv64, b: bv64, c: bv64)
    ensures Or(Or(a, b), c) == Or(a, Or(b, c))
  {
  }

  lemma {:induction false} OrIsUnion(a: bv64, b: bv64)
    ensures Or(a, b) == Or(b, a) && Or(a, a) == a && Or(a, 0) == a
  {
  }

  lemma {:induction false} Absorbs(ws: seq<int>, w: int)
    requires AllWeeks(ws) && w in ws
    ensures Or(Mask(ws), Bit(w)) == Mask(ws)
  {
    hide Bit, Or;
    var n := |ws| - 1;
    var front, last := Mask(ws[..n]), Bit(ws[n]);
    OrIsAssociative(front, last, Bit(w));
    OrIsUnion(last, Bit(w));
    if w != ws[n] {
      assert w in ws[..n];
      Absorbs(ws[..n], w);
      OrIsAssociative(front, Bit(w), last);
    }
  }

  lemma {:induction false} AbsorbsAll(ws: seq<int>, vs: seq<int>)
    requires AllWeeks(ws) && AllWeeks(vs) && forall v | v in vs :: v in ws
    ensures Or(Mask(ws), Mask(vs)) == Mask(ws)
  {
    hide Bit, Or;
    if vs == [] {
      OrIsUnion(Mask(ws), 0);
    } else {
      var n := |vs| - 1;
      AbsorbsAll(ws, vs[..n]);
      Absorbs(ws, vs[n]);
      OrIsAssociative(Mask(ws), Mask(vs[..n]), Bit(vs[n]));
    }
  }

  /** A mask depends only on which weeks are listed, not on their order or repetition. */
  lemma {:induction false} SameWeeksSameMask(ws: seq<int>, vs: seq<int>)
    requires AllWeeks(ws) && AllWeeks(vs) && forall w :: w in ws <==> w in vs
    ensures Mask(ws) == Mask(vs)
  {
    hide Or, Mask;
    AbsorbsAll(ws, vs);
    AbsorbsAll(vs, ws);
    OrIsUnion(Mask(ws), Mask(vs));
  }

  // ----- Lists of weeks ---------------------------------------------------------------------------------------------

  /** first, first + 1, ..., last */
  function Range(first: int, last: int): (ws: seq<int>)
    ensures |ws| == if first <= last then last - first + 1 else 0
    ensures forall i | 0 <= i < |ws| :: ws[i] == first + i
    decreases last - first
  {
    if first > last then [] else Range(first, last - 1) + [last]
  }

  ghost predicate Ascending(ws: seq<int>) {
    forall i, j | 0 <= i < j < |ws| :: ws[i] <= ws[j]
  }

  ghost predicate StrictlyAscending(ws: seq<int>) {
    forall i, j | 0 <= i < j < |ws| :: ws[i] < ws[j]
  }

  function Insert(w: int, ws: seq<int>): (r: seq<int>)
    ensures multiset(r) == multiset(ws) + multiset{w}
  {
    var n := |ws|;
    if n > 0 && w < ws[n - 1] then
      assert ws == ws[..n - 1] + [ws[n - 1]];
      Insert(w, ws[..n - 1]) + [ws[n - 1]]
    else ws + [w]
  }

  /** `sort.Ints` */
  function Sorted(ws: seq<int>): (r: seq<int>)
    ensures multiset(r) == multiset(ws)
  {
    if ws == [] then []
    else
      assert ws == ws[..|ws| - 1] + [ws[|ws| - 1]];
      Insert(ws[|ws| - 1], Sorted(ws[..|ws| - 1]))
  }

  lemma {:induction false} InsertKeepsOrder(w: int, ws: seq<int>)
    requires Ascending(ws)
    ensures Ascending(Insert(w, ws))
    ensures forall x | x in Insert(w, ws) :: x == w || x in ws
  {
    var n := |ws|;
    if n > 0 && w < ws[n - 1] {
      InsertKeepsOrder(w, ws[..n - 1]);
      var front := Insert(w, ws[..n - 1]);
      forall k | 0 <= k < |front| ensures front[k] <= ws[n - 1] {
        assert front[k] in front;
      }
    }
  }

  lemma {:induction false} SortedIsAscending(ws: seq<int>)
    ensures Ascending(Sorted(ws))
  {
    if ws != [] {
      SortedIsAscending(ws[..|ws| - 1]);
      InsertKeepsOrder(ws[|ws| - 1], Sorted(ws[..|ws| - 1]));
    }
  }

  /** Drops every element that equals its predecessor. */
  function Deduped(ws: seq<int>): (r: seq<int>)
    ensures |r| <= |ws|
  {
    var n := |ws| - 1;
    if ws == [] then []
    else if n == 0 || ws[n] != ws[n - 1] then Deduped(ws[..n]) + [ws[n]]
    else Deduped(ws[..n])
  }

  lemma {:induction false} DedupedKeepsElements(ws: seq<int>, w: int)
    ensures w in Deduped(ws) <==> w in ws
  {
    if ws != [] {
      var n := |ws| - 1;
      DedupedKeepsElements(ws[..n], w);
      assert ws == ws[..n] + [ws[n]];
      assert n > 0 ==> ws[..n][n - 1] == ws[n - 1];
    }
  }

  lemma {:induction false} DedupedAscends(ws: seq<int>)
    requires Ascending(ws)
    ensures StrictlyAscending(Deduped(ws))
  {
    if ws != [] {
      var n := |ws| - 1;
      DedupedAscends(ws[..n]);
      if n > 0 && ws[n] != ws[n - 1] {
        var front := Deduped(ws[..n]);
        forall k | 0 <= k < |front| ensures front[k] < ws[n] {
          assert front[k] in front;
          DedupedKeepsElements(ws[..n], front[k]);
          var i :| 0 <= i < n && ws[..n][i] == front[k];
          assert ws[i] <= ws[n - 1] < ws[n];
        }
      }
    }
  }

  /**
   The in-place pass writes into the very array whose elements it compares. It still sees the original predecessor of
   every element: the first `n` cells end up as the de-duplicated original contents, sorted or not.
   */
  method DedupInPlace(weeks: array<int>) returns (n: nat)
    modifies weeks
    ensures n <= weeks.Length && weeks[..n] == Deduped(old(weeks[..]))
  {
    n := 0;
    for i := 0 to weeks.Length
      invariant n <= i && weeks[..n] == Deduped(old(weeks[..])[..i])
      invariant forall k | 0 <= k < weeks.Length && i - 1 <= k :: weeks[k] == old(weeks[k])
    {
      ghost var seen := old(weeks[..])[..i + 1];
      assert seen[..i] == old(weeks[..])[..i];
      if i == 0 || weeks[i] != weeks[i - 1] {
        weeks[n] := weeks[i];
        n := n + 1;
      }
    }
    assert old(weeks[..])[..weeks.Length] == old(weeks[..]);
  }

  // ----- The newer crawler ------------------------------------------------------------------------------------------

  /** One comma-separated part: a positive week, or two numbers around one hyphen. */
  function PartWeeks(part: string): (r: Option<seq<int>>)
    ensures r.Some? ==> r.value != [] && AllWeeks(r.value)
  {
    if '-' in part then
      var r := Split(part, '-');
      if |r| != 2 then None
      else
        match (Atoi(r[0]), Atoi(r[1]))
        case (Some(start), Some(end)) => if start <= 0 || end < start then None else Some(Range(start, end))
        case _ => None
    else
      match Atoi(part)
      case Some(w) => if w <= 0 then None else Some([w])
      case None => None
  }

  function PartsWeeks(parts: seq<string>): (r: Option<seq<int>>)
    ensures r.Some? ==> AllWeeks(r.value) && (parts != [] ==> r.value != [])
  {
    if parts == [] then Some([])
    else
      match (PartsWeeks(parts[..|parts| - 1]), PartWeeks(parts[|parts| - 1]))
      case (Some(front), Some(last)) => Some(front + last)
      case _ => None
  }

  lemma {:induction false} OneBadPart(parts: seq<string>, i: nat)
    requires i < |parts| && PartWeeks(parts[i]).None?
    ensures PartsWeeks(parts).None?
  {
    hide PartWeeks;
    var n := |parts| - 1;
    if i < n {
      OneBadPart(parts[..n], i);
    }
  }

  /** The list of the newer crawler: sorted, without repetition, exactly the weeks that the text names. */
  method ReadWeeks(text: string) returns (r: Option<seq<int>>)
    ensures r.Some? <==> PartsWeeks(Split(text, ',')).Some?
    ensures r.Some? ==>
              && r.value != [] && AllWeeks(r.value) && StrictlyAscending(r.value)
              && forall w :: w in r.value <==> w in PartsWeeks(Split(text, ',')).value
  {
    hide PartWeeks, StrictlyAscending, Ascending;
    var parts := Split(text, ',');
    var weeks: seq<int> := [];
    for i := 0 to |parts|
      invariant PartsWeeks(parts[..i]) == Some(weeks)
    {
      var found := PartWeeks(parts[i]);
      if found.None? {
        OneBadPart(parts, i);
        return None;
      }
      assert parts[..i + 1][..i] == parts[..i];
      weeks := weeks + found.value;
    }
    assert parts[..|parts|] == parts;
    var sorted := Sorted(weeks);
    var cells := new int[|sorted|](i requires 0 <= i < |sorted| => sorted[i]);
    assert cells[..] == sorted;
    var n := DedupInPlace(cells);
    r := Some(cells[..n]);
    ListIsExact(weeks);
  }

  lemma {:induction false} ListIsExact(weeks: seq<int>)
    requires AllWeeks(weeks) && weeks != []
    ensures Deduped(Sorted(weeks)) != [] && AllWeeks(Deduped(Sorted(weeks))) &&
            StrictlyAscending(Deduped(Sorted(weeks)))
    ensures forall w :: w in Deduped(Sorted(weeks)) <==> w in weeks
  {
    hide Sorted, Deduped;
    var sorted := Sorted(weeks);
    SortedIsAscending(weeks);
    DedupedAscends(sorted);
    forall w ensures w in Deduped(sorted) <==> w in weeks {
      DedupedKeepsElements(sorted, w);
      assert w in sorted <==> w in multiset(sorted);
      assert w in weeks <==> w in multiset(weeks);
    }
    var list := Deduped(sorted);
    assert weeks[0] in list;
    forall i | 0 <= i < |list| ensures list[i] >= 1 {
      assert list[i] in list;
    }
  }

  method MaskOf(weeks: seq<int>) returns (mask: bv64)
    requires AllWeeks(weeks)
    ensures mask == Mask(weeks)
  {
    mask := 0;
    for i := 0 to |weeks|
      invariant mask == Mask(weeks[..i])
    {
      assert weeks[..i + 1][..i] == weeks[..i];
      mask := Or(mask, Bit(weeks[i]));
    }
    assert weeks[..|weeks|] == weeks;
  }

  // ----- The older crawler ------------------------------------------------------------------------------------------

  /** The length of the digits that `s` begins with. */
  function Run(s: string): (n: nat)
    ensures n <= |s| && AllDigits(s[..n]) && (n < |s| ==> !IsDigit(s[n]))
  {
    if s == [] || !IsDigit(s[0]) then 0 else 1 + Run(s[1..])
  }

  /** `strconv.Atoi` on digits with its error ignored: too large a number gives the largest. */
  function Saturated(s: string): int
    requires AllDigits(s)
  {
    if Value(s) <= INT64_MAX then Value(s) else INT64_MAX
  }

  /** Every number in a text, whatever stands between them. */
  function Numbers(s: string): (nums: seq<int>)
    ensures forall i | 0 <= i < |nums| :: nums[i] >= 0
  {
    if s == [] then []
    else if Run(s) == 0 then Numbers(s[1..])
    else [Saturated(s[..Run(s)])] + Numbers(s[Run(s)..])
  }

  /** The weeks a section sets bits for; a shift by -1, for week 0, panics. */
  function SectionWeeks(nums: seq<int>): (r: Option<seq<int>>)
    requires forall i | 0 <= i < |nums| :: nums[i] >= 0
    ensures r.Some? ==> AllWeeks(r.value)
  {
    if |nums| == 1 then (if nums[0] == 0 then None else Some([nums[0]]))
    else if |nums| == 2 && nums[0] <= nums[1] then (if nums[0] == 0 then None else Some(Range(nums[0], nums[1])))
    else Some([])
  }

  function SectionsWeeks(sections: seq<string>): (r: Option<seq<int>>)
    ensures r.Some? ==> AllWeeks(r.value)
  {
    if sections == [] then Some([])
    else
      match (SectionsWeeks(sections[..|sections| - 1]), SectionWeeks(Numbers(sections[|sections| - 1])))
      case (Some(front), Some(last)) => Some(front + last)
      case _ => None
  }

  lemma {:induction false} OnePanic(sections: seq<string>, i: nat)
    requires i < |sections| && SectionWeeks(Numbers(sections[i])).None?
    ensures SectionsWeeks(sections).None?
  {
    hide SectionWeeks, Numbers;
    var n := |sections| - 1;
    if i < n {
      OnePanic(sections[..n], i);
    }
  }

  lemma {:induction false} MaskGrows(ws: seq<int>, w: int)
    requires AllWeeks(ws) && w >= 1
    ensures Mask(ws + [w]) == Or(Mask(ws), Bit(w))
  {
    assert (ws + [w])[..|ws|] == ws;
  }

  method ParseNumbers(s: string) returns (numbers: seq<int>)
    ensures numbers == Numbers(s)
  {
    hide AllDigits, Saturated;
    numbers := [];
    var rest := s;
    while rest != []
      invariant numbers + Numbers(rest) == Numbers(s)
      decreases |rest|
    {
      var n := Run(rest);
      if n == 0 {
        rest := rest[1..];
      } else {
        ghost var later := Numbers(rest[n..]);
        assert numbers + ([Saturated(rest[..n])] + later) == (numbers + [Saturated(rest[..n])]) + later;
        numbers := numbers + [Saturated(rest[..n])];
        rest := rest[n..];
      }
    }
  }

  /** Sets the bits of one section. */
  method OrSection(weeks: bv64, nums: seq<int>, ghost listed: seq<int>) returns (r: Option<bv64>)
    requires AllWeeks(listed) && weeks == Mask(listed)
    requires forall i | 0 <= i < |nums| :: nums[i] >= 0
    ensures r.Some? <==> SectionWeeks(nums).Some?
    ensures r.Some? ==> r.value == Mask(listed + SectionWeeks(nums).value)
  {
    hide Mask, Bit, Or;
    assert listed + [] == listed;
    var mask := weeks;
    if |nums| == 1 {
      if nums[0] == 0 {
        return None;
      }
      MaskGrows(listed, nums[0]);
      mask := Or(mask, Bit(nums[0]));
    }
    if |nums| == 2 && nums[0] <= nums[1] {
      if nums[0] == 0 {
        return None;
      }
      for j := nums[0] to nums[1] + 1
        invariant mask == Mask(listed + Range(nums[0], j - 1))
      {
        MaskGrows(listed + Range(nums[0], j - 1), j);
        assert listed + Range(nums[0], j) == listed + Range(nums[0], j - 1) + [j];
        mask := Or(mask, Bit(j));
      }
    }
    r := Some(mask);
  }

  /** None stands for the panic of a negative shift. */
  method ParseMask(text: string) returns (r: Option<bv64>)
    ensures r.Some? <==> SectionsWeeks(Split(text, ',')).Some?
    ensures r.Some? ==> r.value == Mask(SectionsWeeks(Split(text, ',')).value)
  {
    hide Mask, Bit, Or, Numbers, SectionWeeks;
    var sections := Split(text, ',');
    var weeks: bv64 := 0;
    ghost var listed: seq<int> := [];
    assert Mask([]) == 0 by { EmptyMask(); }
    for i := 0 to |sections|
      invariant SectionsWeeks(sections[..i]) == Some(listed) && AllWeeks(listed) && weeks == Mask(listed)
    {
      var nums := ParseNumbers(sections[i]);
      assert sections[..i + 1][..i] == sections[..i];
      var next := OrSection(weeks, nums, listed);
      if next.None? {
        OnePanic(sections, i);
        return None;
      }
      weeks := next.value;
      listed := listed + SectionWeeks(nums).value;
    }
    assert sections[..|sections|] == sections;
    r := Some(weeks);
  }

  lemma {:induction false} EmptyMask()
    ensures Mask([]) == 0
  {
  }

  // ----- Both read the same weeks -----------------------------------------------------------------------------------

  lemma {:induction false} RunUpTo(s: string, c: char, rest: string)
    requires !IsDigit(c)
    ensures Run(s + [c] + rest) == Run(s)
  {
    if s != [] {
      RunUpTo(s[1..], c, rest);
      assert (s + [c] + rest)[1..] == s[1..] + [c] + rest;
    } else {
      assert s + [c] + rest == [c] + rest;
    }
  }

  lemma {:induction false} RunOfDigits(s: string)
    requires AllDigits(s)
    ensures Run(s) == |s|
  {
    if s != [] {
      RunOfDigits(s[1..]);
    }
  }

  lemma {:induction false} NumbersAround(s: string, c: char, rest: string)
    requires !IsDigit(c)
    ensures Numbers(s + [c] + rest) == Numbers(s) + Numbers(rest)
    decreases |s|
  {
    hide AllDigits, Saturated, Run, IsDigit;
    var all := s + [c] + rest;
    RunUpTo(s, c, rest);
    if s == [] {
      assert all == [c] + rest && all[1..] == rest;
    } else {
      var n := if Run(s) == 0 then 1 else Run(s);
      NumbersAround(s[n..], c, rest);
      assert all[n..] == s[n..] + [c] + rest && all[..n] == s[..n];
      assert Numbers(all[n..]) == Numbers(s[n..]) + Numbers(rest);
    }
  }

  lemma {:induction false} DigitsAreOneNumber(s: string)
    requires s != [] && AllDigits(s)
    ensures Numbers(s) == [Saturated(s)]
  {
    RunOfDigits(s);
    assert s[..|s|] == s && s[|s|..] == [];
  }

  /** A number is read as it is written, and as the largest one if it has no room in 64 bits. */
  lemma {:induction false} OneNumber(n: nat, zeros: nat)
    ensures Numbers(Zeros(zeros) + Digits(n)) == [if n <= INT64_MAX then n else INT64_MAX]
  {
    hide Numbers, Value, Zeros, Digits;
    ZerosDoNotCount(zeros, Digits(n));
    ValueOfDigits(n);
    DigitsAreOneNumber(Zeros(zeros) + Digits(n));
  }

  lemma {:induction false} NumberOfAtoi(s: string)
    requires Atoi(s).Some? && Atoi(s).value > 0
    ensures Numbers(s) == [Atoi(s).value]
  {
    hide Value;
    if s[0] == '+' {
      DigitsAreOneNumber(s[1..]);
      assert !IsDigit(s[0]);
    } else {
      DigitsAreOneNumber(s);
    }
  }

  /** A part that the newer crawler accepts names the same weeks to the older one. */
  lemma {:induction false} SamePart(part: string)
    requires PartWeeks(part).Some?
    ensures SectionWeeks(Numbers(part)) == PartWeeks(part)
  {
    if '-' in part {
      var r := Split(part, '-');
      NumberOfAtoi(r[0]);
      NumberOfAtoi(r[1]);
      JoinOfSplit(part, '-');
      assert part == r[0] + ['-'] + r[1];
      NumbersAround(r[0], '-', r[1]);
    } else {
      NumberOfAtoi(part);
    }
  }

  lemma {:induction false} SameParts(parts: seq<string>)
    requires PartsWeeks(parts).Some?
    ensures SectionsWeeks(parts) == PartsWeeks(parts)
  {
    hide PartWeeks, SectionWeeks, Numbers;
    if parts != [] {
      SameParts(parts[..|parts| - 1]);
      SamePart(parts[|parts| - 1]);
    }
  }

  /** Every text that the newer crawler accepts gives both crawlers the same mask, with exactly the listed weeks set. */
  lemma {:induction false} CrawlersAgree(text: string, list: seq<int>)
    requires PartsWeeks(Split(text, ',')).Some? && AllWeeks(list)
    requires forall w :: w in list <==> w in PartsWeeks(Split(text, ',')).value
    ensures SectionsWeeks(Split(text, ',')).Some? && Mask(SectionsWeeks(Split(text, ',')).value) == Mask(list)
    ensures forall w | 1 <= w <= 64 :: Has(Mask(list), w) <==> w in list
  {
    hide PartsWeeks, SectionsWeeks, Mask, Has, Place;
    SameParts(Split(text, ','));
    SameWeeksSameMask(list, PartsWeeks(Split(text, ',')).value);
    forall w | 1 <= w <= 64 ensures Has(Mask(list), w) <==> w in list {
      MaskHas(list, w);
    }
  }

  // ----- Which texts are accepted -----------------------------------------------------------------------------------

  datatype Part = Week(week: nat) | Span(first: nat, last: nat) {
    predicate Proper() {
      if Week? then 1 <= week <= INT64_MAX else 1 <= first <= last <= INT64_MAX
    }

    function Text(): string {
      if Week? then Digits(week) else Digits(first) + "-" + Digits(last)
    }

    function Weeks(): seq<int> {
      if Week? then [week] else Range(first, last)
    }
  }

  function Texts(parts: seq<Part>): seq<string> {
    if parts == [] then [] else Texts(parts[..|parts| - 1]) + [parts[|parts| - 1].Text()]
  }

  function Listed(parts: seq<Part>): seq<int> {
    if parts == [] then [] else Listed(parts[..|parts| - 1]) + parts[|parts| - 1].Weeks()
  }

  lemma {:induction false} DigitsHold(n: nat, c: char)
    requires !IsDigit(c)
    ensures c !in Digits(n)
  {
    hide Digits;
    assert forall i | 0 <= i < |Digits(n)| :: IsDigit(Digits(n)[i]);
  }

  lemma {:induction false} SpanIsAccepted(p: Part)
    requires p.Proper() && p.Span?
    ensures PartWeeks(p.Text()) == Some(p.Weeks()) && ',' !in p.Text()
  {
    hide Digits, IsDigit, Atoi;
    var a, b := Digits(p.first), Digits(p.last);
    AtoiOfDigits(p.first);
    AtoiOfDigits(p.last);
    assert !IsDigit('-') && !IsDigit(',') by { Punctuation(); }
    DigitsHold(p.first, '-');
    DigitsHold(p.last, '-');
    DigitsHold(p.first, ',');
    DigitsHold(p.last, ',');
    SplitPrefix(a, b, '-');
    SplitPrefix(b, [], '-');
    assert p.Text() == a + ['-'] + b;
    assert Split(p.Text(), '-') == [a, b];
    assert p.Text()[|a|] == '-';
  }

  lemma {:induction false} Punctuation()
    ensures !IsDigit('-') && !IsDigit(',')
  {
  }

  lemma {:induction false} PartIsAccepted(p: Part)
    requires p.Proper()
    ensures PartWeeks(p.Text()) == Some(p.Weeks()) && ',' !in p.Text()
  {
    if p.Week? {
      hide Digits, Atoi;
      AtoiOfDigits(p.week);
      DigitsHold(p.week, '-');
      DigitsHold(p.week, ',');
    } else {
      SpanIsAccepted(p);
    }
  }

  lemma {:induction false} PartsAreAccepted(parts: seq<Part>)
    requires forall p | p in parts :: p.Proper()
    ensures PartsWeeks(Texts(parts)) == Some(Listed(parts))
    ensures |Texts(parts)| == |parts| && forall t | t in Texts(parts) :: ',' !in t
  {
    hide PartWeeks;
    if parts != [] {
      var n := |parts| - 1;
      PartsAreAccepted(parts[..n]);
      assert parts[n] in parts;
      PartIsAccepted(parts[n]);
      assert Texts(parts)[..n] == Texts(parts[..n]);
    }
  }

  /** Every list of weeks and ranges, written the usual way, is accepted with exactly its weeks. */
  lemma {:induction false} WrittenListsAreAccepted(parts: seq<Part>)
    requires parts != [] && forall p | p in parts :: p.Proper()
    ensures PartsWeeks(Split(Join(Texts(parts), ','), ',')) == Some(Listed(parts))
  {
    hide PartsWeeks;
    PartsAreAccepted(parts);
    SplitOfJoin(Texts(parts), ',');
  }

  // ----- Reading a mask back ----------------------------------------------------------------------------------------

  /** The sign bit of the 64-bit integer that holds the mask. */
  predicate Negative(weeks: bv64) {
    BitAt(weeks, 63)
  }

  /** The signed test `1 << (i - 1) <= weeks` for a positive `weeks`: the shift is negative at 64 and zero after it. */
  predicate GoesOn(weeks: bv64, i: int)
    requires i >= 1
  {
    i == 64 || Bit(i) <= weeks
  }

  lemma {:induction false} NothingFromHere(weeks: bv64, i: bv6, j: bv6)
    requires weeks < 1 << i && i <= j
    ensures !BitAt(weeks, j)
  {
  }

  lemma {:induction false} TopBit(weeks: bv64)
    requires !BitAt(weeks, 63)
    ensures BitAt(weeks, 62) <==> 1 << 62 <= weeks
  {
  }

  lemma {:induction false} ShiftIsMonotone(i: bv6)
    requires i <= 62
    ensures (1 as bv64) << i <= 1 << 62
  {
  }

  lemma {:induction false} PlaceIsMonotone(i: int, j: int)
    requires 0 <= i <= j < 64
    ensures Place(i) <= Place(j)
  {
    hide Place;
    PlaceIsExact(i);
    PlaceIsExact(j);
    CompareAsNumbers(Place(i), Place(j));
  }

  lemma {:induction false} CompareAsNumbers(i: bv6, j: bv6)
    ensures i <= j <==> i as int <= j as int
  {
  }

  /** For a positive mask the loop never ends exactly when week 63 is set. */
  lemma {:induction false} EndlessExactlyAtWeek63(weeks: bv64)
    requires weeks != 0 && !Negative(weeks)
    ensures (forall i | i >= 1 :: GoesOn(weeks, i)) <==> Has(weeks, 63)
  {
    hide Place, BitAt, Bit;
    LastPlaces();
    TopBit(weeks);
    if Has(weeks, 63) {
      forall i | i >= 1 ensures GoesOn(weeks, i) {
        if i <= 63 {
          BitIsShift(i);
          PlaceIsMonotone(i - 1, 62);
          ShiftIsMonotone(Place(i - 1));
        } else if i > 64 {
          assert Bit(i) == 0 by { BitIsShift(i); }
        }
      }
    } else {
      BitIsShift(63);
      assert !GoesOn(weeks, 63);
    }
  }

  lemma {:induction false} LastPlaces()
    ensures Place(62) == 62
  {
  }

  lemma {:induction false} BitIsShift(i: int)
    requires i >= 1
    ensures Bit(i) == if i <= 64 then 1 << Place(i - 1) else 0
  {
    hide Place;
  }

  /** In order and without repetition, the weeks whose bits are set. */
  ghost predicate ListsExactly(list: seq<int>, weeks: bv64) {
    StrictlyAscending(list) && forall w :: w in list <==> 1 <= w <= 64 && Has(weeks, w)
  }

  /** The list of a mask without week 63. */
  method WeeksOf(weeks: bv64) returns (list: seq<int>)
    requires weeks != 0 && !Negative(weeks) ==> !Has(weeks, 63)
    ensures Negative(weeks) ==> list == []
    ensures !Negative(weeks) ==> ListsExactly(list, weeks)
  {
    hide Place, BitAt, Bit, GoesOn;
    list := [];
    if weeks == 0 || Negative(weeks) {
      ZeroHasNone();
      return;
    }
    var i := 1;
    while GoesOn(weeks, i)
      invariant 1 <= i <= 63
      invariant StrictlyAscending(list) && forall k | 0 <= k < |list| :: list[k] < i
      invariant forall w :: w in list <==> 1 <= w < i && Has(weeks, w)
      decreases 63 - i
    {
      StopsAt63(weeks, i);
      if Has(weeks, i) {
        list := list + [i];
      }
      i := i + 1;
    }
    NoLaterWeeks(weeks, i);
  }

  lemma {:induction false} ZeroHasNone()
    ensures forall w | 1 <= w <= 64 :: !Has(0, w)
  {
    hide Place, BitAt;
    forall w | 1 <= w <= 64 ensures !Has(0, w) {
      NothingAt(Place(w - 1));
    }
  }

  lemma {:induction false} StopsAt63(weeks: bv64, i: int)
    requires !Negative(weeks) && !Has(weeks, 63) && 1 <= i <= 63 && GoesOn(weeks, i)
    ensures i < 63
  {
    hide Place, BitAt, Bit;
    LastPlaces();
    TopBit(weeks);
    BitIsShift(63);
  }

  lemma {:induction false} NoLaterWeeks(weeks: bv64, i: int)
    requires 1 <= i <= 63 && !GoesOn(weeks, i)
    ensures forall w | i <= w <= 64 :: !Has(weeks, w)
  {
    hide Place, BitAt, Bit;
    BitIsShift(i);
    forall w | i <= w <= 64 ensures !Has(weeks, w) {
      PlaceIsMonotone(i - 1, w - 1);
      NothingFromHere(weeks, Place(i - 1), Place(w - 1));
    }
  }

  lemma {:induction false} NotEmptyEither(a: seq<int>, b: seq<int>)
    requires a != [] && forall w :: w in a ==> w in b
    ensures b != []
  {
    var w := a[0];
    assert w in b;
  }

  lemma {:induction false} SameAscending(a: seq<int>, b: seq<int>)
    requires StrictlyAscending(a) && StrictlyAscending(b) && forall w :: w in a <==> w in b
    ensures a == b
  {
    if a != [] {
      NotEmptyEither(a, b);
      var m, n := |a| - 1, |b| - 1;
      assert a[m] in b && b[n] in a;
      assert a[m] == b[n];
      forall w ensures w in a[..m] <==> w in b[..n] {
        assert w in a <==> w in a[..m] || w == a[m];
        assert w in b <==> w in b[..n] || w == b[n];
      }
      SameAscending(a[..m], b[..n]);
    } else if b != [] {
      NotEmptyEither(b, a);
    }
  }

  /** A mask made from an ascending list of weeks up to 62 is read back, and as that very list. */
  lemma {:induction false} MaskReadsBack(weeks: seq<int>, list: seq<int>)
    requires AllWeeks(weeks) && StrictlyAscending(weeks) && forall w | w in weeks :: w <= 62
    ensures !Negative(Mask(weeks)) && !Has(Mask(weeks), 63)
    ensures ListsExactly(list, Mask(weeks)) <==> list == weeks
  {
    hide Mask, Has, Negative;
    UsualMask(weeks);
    forall w ensures w in weeks <==> 1 <= w <= 64 && Has(Mask(weeks), w) {
      if w in weeks {
        var i :| 0 <= i < |weeks| && weeks[i] == w;
      }
      if 1 <= w <= 64 {
        MaskHas(weeks, w);
      }
    }
    if ListsExactly(list, Mask(weeks)) {
      SameAscending(list, weeks);
    }
  }

  lemma {:induction false} UsualMask(weeks: seq<int>)
    requires AllWeeks(weeks) && forall w | w in weeks :: w <= 62
    ensures !Negative(Mask(weeks)) && !Has(Mask(weeks), 63)
  {
    hide BitAt, Mask;
    MaskHas(weeks, 63);
    MaskHas(weeks, 64);
    assert Place(63) == 63;
  }
}
