/** Reading a plan back from a client: validation, ordering, and the round trip with the planner's printed plans. */
module SmartSeatSegments {
  import opened Outcomes
  import opened Minutes
  import P = SmartSeatPlanner

  /** One segment of a request or of a printed plan, with times as text. */
  datatype TextSegment = TextSegment(seatID: string, seatLabel: string, seatName: string, roomID: string,
      start: string, end: string)
  datatype Segment = Segment(roomID: string, seatID: string, seatLabel: string, start: int, end: int)

  function ParseSegment(item: Option<TextSegment>): Option<Segment> {
    if item.None? || item.value.seatID == "" then None
    else
      var t := item.value;
      match (ParseMinute(t.start), ParseMinute(t.end))
      case (Some(start), Some(end)) =>
        if end <= start then None else Some(Segment(t.roomID, t.seatID, t.seatLabel, start, end))
      case _ => None
  }

  function ParseAll(items: seq<Option<TextSegment>>): (r: Option<seq<Segment>>)
    ensures r.Some? <==> forall i | 0 <= i < |items| :: ParseSegment(items[i]).Some?
    ensures r.Some? ==>
              |r.value| == |items| && forall i | 0 <= i < |items| :: r.value[i] == ParseSegment(items[i]).value
  {
    if items == [] then Some([])
    else
      match (ParseSegment(items[0]), ParseAll(items[1..]))
      case (Some(first), Some(rest)) => Some([first] + rest)
      case _ => None
  }

  predicate Contiguous(s: seq<Segment>) {
    forall i | 1 <= i < |s| :: s[i].start == s[i - 1].end
  }

  /** Stable insertion by start minute. */
  function Insert(x: Segment, s: seq<Segment>): (r: seq<Segment>)
    ensures multiset(r) == multiset(s) + multiset{x}
    ensures |r| == |s| + 1
  {
    var n := |s|;
    if n > 0 && x.start < s[n - 1].start then
      assert s == s[..n - 1] + [s[n - 1]];
      Insert(x, s[..n - 1]) + [s[n - 1]]
    else s + [x]
  }

  function SortByStart(s: seq<Segment>): (r: seq<Segment>)
    ensures multiset(r) == multiset(s) && |r| == |s|
  {
    if s == [] then []
    else
      assert s == s[..|s| - 1] + [s[|s| - 1]];
      Insert(s[|s| - 1], SortByStart(s[..|s| - 1]))
  }

  /** The segments a request is accepted with, or nothing. */
  function Normalized(items: seq<Option<TextSegment>>): Option<seq<Segment>> {
    match ParseAll(items)
    case None => None
    case Some(parsed) =>
      var sorted := SortByStart(parsed);
      if items == [] || !Contiguous(sorted) || |sorted| > P.MAX_SEGMENTS then None else Some(sorted)
  }

  method Normalize(items: seq<Option<TextSegment>>) returns (r: Option<seq<Segment>>)
    ensures r == Normalized(items)
  {
    hide ParseSegment;
    if items == [] {
      return None;
    }
    var result: seq<Segment> := [];
    for i := 0 to |items|
      invariant |result| == i
      invariant forall j | 0 <= j < i :: ParseSegment(items[j]) == Some(result[j])
    {
      var segment := ParseSegment(items[i]);
      if segment.None? {
        return None;
      }
      result := result + [segment.value];
    }
    assert result == ParseAll(items).value;
    result := SortByStart(result);
    for i := 1 to |result|
      invariant forall j | 1 <= j < i :: result[j].start == result[j - 1].end
    {
      if result[i].start != result[i - 1].end {
        return None;
      }
    }
    if |result| > P.MAX_SEGMENTS {
      return None;
    }
    r := Some(result);
  }

  // ----- What acceptance means --------------------------------------------------------------------------------------

  /** A chain as the booking expects it: one to twelve segments on named seats, in order, without gap or overlap. */
  ghost predicate IsChain(s: seq<Segment>) {
    && 1 <= |s| <= P.MAX_SEGMENTS
    && (forall i | 0 <= i < |s| :: s[i].seatID != "" && 0 <= s[i].start < s[i].end <= DAY)
    && Contiguous(s)
  }

  lemma {:induction false} ChainIsIncreasing(s: seq<Segment>, i: nat, j: nat)
    requires Contiguous(s) && forall k | 0 <= k < |s| :: s[k].start < s[k].end
    requires i < j < |s|
    ensures s[i].end <= s[j].start
  {
    if i + 1 < j {
      ChainIsIncreasing(s, i, j - 1);
    }
  }

  /** Whatever is accepted is such a chain, and a reordering of exactly the parsed input. */
  lemma {:induction false} AcceptedIsChain(items: seq<Option<TextSegment>>)
    requires Normalized(items).Some?
    ensures IsChain(Normalized(items).value)
    ensures ParseAll(items).Some? && multiset(Normalized(items).value) == multiset(ParseAll(items).value)
    ensures forall i, j | 0 <= i < j < |Normalized(items).value| ::
              Normalized(items).value[i].end <= Normalized(items).value[j].start
  {
    var parsed, s := ParseAll(items).value, Normalized(items).value;
    forall i | 0 <= i < |s| ensures s[i].seatID != "" && 0 <= s[i].start < s[i].end <= DAY {
      assert s[i] in multiset(parsed);
      var k :| 0 <= k < |parsed| && parsed[k] == s[i];
      ParseMinuteInRange(items[k].value.start);
      ParseMinuteInRange(items[k].value.end);
    }
    forall i, j | 0 <= i < j < |s| ensures s[i].end <= s[j].start {
      ChainIsIncreasing(s, i, j);
    }
  }

  ghost predicate SortedByStart(s: seq<Segment>) {
    forall i, j | 0 <= i < j < |s| :: s[i].start <= s[j].start
  }

  lemma {:induction false} InsertSorts(x: Segment, s: seq<Segment>)
    requires SortedByStart(s)
    ensures SortedByStart(Insert(x, s))
    ensures forall y | y in Insert(x, s) :: y == x || y in s
  {
    var n := |s|;
    if n > 0 && x.start < s[n - 1].start {
      InsertSorts(x, s[..n - 1]);
      forall y | y in Insert(x, s[..n - 1]) ensures y.start <= s[n - 1].start {
        if y != x {
          var k :| 0 <= k < n - 1 && s[..n - 1][k] == y;
        }
      }
    }
  }

  lemma {:induction false} SortSorts(s: seq<Segment>)
    ensures SortedByStart(SortByStart(s))
  {
    if s != [] {
      SortSorts(s[..|s| - 1]);
      InsertSorts(s[|s| - 1], SortByStart(s[..|s| - 1]));
    }
  }

  ghost predicate StrictlyByStart(s: seq<Segment>) {
    forall i, j | 0 <= i < j < |s| :: s[i].start < s[j].start
  }

  lemma {:induction false} LastAgrees(a: seq<Segment>, b: seq<Segment>)
    requires a != [] && b != [] && multiset(a) == multiset(b) && SortedByStart(a) && StrictlyByStart(b)
    ensures a[|a| - 1] == b[|b| - 1]
  {
    assert a[|a| - 1] in multiset(b) && b[|b| - 1] in multiset(a);
    var i :| 0 <= i < |b| && b[i] == a[|a| - 1];
    var j :| 0 <= j < |a| && a[j] == b[|b| - 1];
  }

  lemma {:induction false} FrontStaysSorted(a: seq<Segment>)
    requires a != []
    ensures SortedByStart(a) ==> SortedByStart(a[..|a| - 1])
    ensures StrictlyByStart(a) ==> StrictlyByStart(a[..|a| - 1])
    ensures multiset(a[..|a| - 1]) == multiset(a) - multiset{a[|a| - 1]}
    ensures a == a[..|a| - 1] + [a[|a| - 1]]
  {
    assert a == a[..|a| - 1] + [a[|a| - 1]];
  }

  lemma {:induction false} SortedIsUnique(a: seq<Segment>, b: seq<Segment>)
    requires |a| == |b| && multiset(a) == multiset(b) && SortedByStart(a) && StrictlyByStart(b)
    ensures a == b
  {
    hide SortedByStart, StrictlyByStart;
    if a != [] {
      LastAgrees(a, b);
      FrontStaysSorted(a);
      FrontStaysSorted(b);
      SortedIsUnique(a[..|a| - 1], b[..|b| - 1]);
    }
  }

  /**
   A request is accepted exactly when its segments all parse and some ordering of them is a chain, in that ordering.
   */
  lemma {:induction false} AcceptedIffSomeOrderingIsChain(items: seq<Option<TextSegment>>, chain: seq<Segment>)
    ensures Normalized(items) == Some(chain) <==>
              ParseAll(items).Some? && multiset(chain) == multiset(ParseAll(items).value) && IsChain(chain)
  {
    if Normalized(items) == Some(chain) {
      AcceptedIsChain(items);
    }
    if ParseAll(items).Some? && multiset(chain) == multiset(ParseAll(items).value) && IsChain(chain) {
      var parsed := ParseAll(items).value;
      assert |multiset(chain)| == |chain| && |multiset(parsed)| == |parsed|;
      forall i, j | 0 <= i < j < |chain| ensures chain[i].start < chain[j].start {
        ChainIsIncreasing(chain, i, j);
      }
      SortSorts(parsed);
      SortedIsUnique(SortByStart(parsed), chain);
    }
  }

  // ----- Round trip with the planner --------------------------------------------------------------------------------

  function PrintedPick(p: P.Pick): TextSegment
    requires 0 <= p.start && 0 <= p.end
  {
    TextSegment(p.seatID, p.seatLabel, p.seatName, p.roomID, FormatMinute(p.start), FormatMinute(p.end))
  }

  function Printed(picks: P.Chain): seq<Option<TextSegment>>
    requires forall p | p in picks :: 0 <= p.start && 0 <= p.end
  {
    if picks == [] then [] else [Some(PrintedPick(picks[0]))] + Printed(picks[1..])
  }

  function AsSegment(p: P.Pick): Segment {
    Segment(p.roomID, p.seatID, p.seatLabel, p.start, p.end)
  }

  function AsSegments(picks: P.Chain): (r: seq<Segment>)
    ensures |r| == |picks| && forall i | 0 <= i < |picks| :: r[i] == AsSegment(picks[i])
  {
    if picks == [] then [] else [AsSegment(picks[0])] + AsSegments(picks[1..])
  }

  lemma {:induction false} PicksStayInWindow(ts: seq<P.Timeline>, start: int, end: int, picks: P.Chain, k: nat)
    requires P.Relay(ts, None, start, end, picks) && k < |picks|
    ensures start <= picks[k].start < picks[k].end <= end
    ensures k < |picks| - 1 ==> picks[k].end < end
  {
    P.ChainedShape(ts, None, start, picks);
    var i := 0;
    while i < k
      invariant 0 <= i <= k && start <= picks[i].start
    {
      i := i + 1;
    }
    var j := |picks| - 1;
    while j > k
      invariant k <= j < |picks| && picks[j].end <= end && (j < |picks| - 1 ==> picks[j].end < end)
    {
      j := j - 1;
    }
  }

  lemma {:induction false} RelayInWindow(ts: seq<P.Timeline>, start: int, end: int, picks: P.Chain)
    requires P.Relay(ts, None, start, end, picks)
    requires forall t | t in ts :: t.seatID != ""
    ensures forall k | 0 <= k < |picks| :: start <= picks[k].start < picks[k].end <= end && picks[k].seatID != ""
    ensures forall k | 0 <= k < |picks| - 1 :: picks[k].end == picks[k + 1].start && picks[k].end < end
    ensures picks != [] && picks[|picks| - 1].end == end
  {
    P.ChainedShape(ts, None, start, picks);
    forall k | 0 <= k < |picks|
      ensures start <= picks[k].start < picks[k].end <= end && (k < |picks| - 1 ==> picks[k].end < end) &&
              picks[k].seatID != ""
    {
      PicksStayInWindow(ts, start, end, picks, k);
      var t :| t in ts && P.FitsIn(t, picks[k]);
    }
  }

  lemma {:induction false} PickReadsBack(p: P.Pick)
    requires 0 <= p.start < p.end <= DAY && p.seatID != ""
    ensures ParseSegment(Some(PrintedPick(p))) == if p.end < DAY then Some(AsSegment(p)) else None
  {
    ParseOfFormat(p.start);
    ParseOfFormat(p.end);
  }

  /**
   Every relay of the planner, printed and sent back, is accepted with the same seats and minutes in the same order,
   exactly when it ends before minute 1440: "24:00" is printed but never accepted.
   */
  lemma {:induction false} RoundTrip(ts: seq<P.Timeline>, start: int, end: int, picks: P.Chain)
    requires 0 <= start && end <= DAY
    requires P.Relay(ts, None, start, end, picks) && |picks| <= P.MAX_SEGMENTS
    requires forall t | t in ts :: t.seatID != ""
    ensures forall p | p in picks :: 0 <= p.start && 0 <= p.end
    ensures Normalized(Printed(picks)) == if end < DAY then Some(AsSegments(picks)) else None
  {
    RelayInWindow(ts, start, end, picks);
    PicksReadBack(picks);
    if end < DAY {
      ReadsBack(picks);
    }
  }

  lemma {:induction false} ReadsBack(picks: P.Chain)
    requires 1 <= |picks| <= P.MAX_SEGMENTS
    requires forall k | 0 <= k < |picks| :: 0 <= picks[k].start < picks[k].end < DAY && picks[k].seatID != ""
    requires forall k | 0 <= k < |picks| - 1 :: picks[k].end == picks[k + 1].start
    requires ParseAll(Printed(picks)) == Some(AsSegments(picks))
    ensures Normalized(Printed(picks)) == Some(AsSegments(picks))
  {
    var chain := AsSegments(picks);
    assert IsChain(chain) by {
      forall i | 1 <= i < |chain| ensures chain[i].start == chain[i - 1].end {
        assert picks[i - 1].end == picks[i].start;
      }
    }
    AcceptedIffSomeOrderingIsChain(Printed(picks), chain);
  }

  lemma {:induction false} PicksReadBack(picks: P.Chain)
    requires forall k | 0 <= k < |picks| :: 0 <= picks[k].start < picks[k].end <= DAY && picks[k].seatID != ""
    ensures |Printed(picks)| == |picks|
    ensures ParseAll(Printed(picks)) ==
            if forall k | 0 <= k < |picks| :: picks[k].end < DAY then Some(AsSegments(picks)) else None
  {
    hide ParseSegment, PrintedPick, AsSegment;
    if picks != [] {
      PickReadsBack(picks[0]);
      PicksReadBack(picks[1..]);
      assert Printed(picks)[1..] == Printed(picks[1..]);
      forall k | 0 <= k < |picks| && picks[k].end >= DAY ensures k == 0 || picks[1..][k - 1].end >= DAY {}
      forall k | 0 <= k < |picks[1..]| ensures picks[1..][k] == picks[k + 1] {}
    }
  }
}
