/** Assembling, deduplicating and ranking the at most three plans the smart-seat service answers with. */
module SmartSeatPlans {
  import opened Outcomes
  import opened Decimal
  import opened TextOrdering
  import opened SmartSeatPlanner

  const MAX_PLANS := 3
  const TARGET_SLICE := 30
  const MAX_SLICES := 8

  /** A seat offered for the whole window, with its timeline when that lookup succeeded. */
  datatype Candidate = Candidate(seat: Timeline, known: bool)

  predicate FreeThroughout(c: Candidate, start: int, end: int) {
    c.known && exists iv | iv in c.seat.intervals :: iv.start <= start && end <= iv.end
  }

  function WholeWindow(c: Candidate, start: int, end: int): (chain: Chain)
    ensures |chain| == 1
  {
    [Pick(c.seat.roomID, c.seat.seatID, c.seat.seatLabel, c.seat.seatName, start, end)]
  }

  /** How many sub-windows of about half an hour the window is cut into before seats are combined. */
  function SliceCount(duration: nat): nat {
    var n := duration / TARGET_SLICE + if duration % TARGET_SLICE != 0 then 1 else 0;
    if n > MAX_SLICES then MAX_SLICES else n
  }

  /** There is something to combine exactly in windows of more than half an hour. */
  lemma {:induction false} SeveralSlices(duration: nat)
    ensures SliceCount(duration) >= 2 <==> duration > TARGET_SLICE
  {
  }

  /** A seat is free throughout exactly when it is a relay by itself. */
  lemma {:induction false} FreeIffRelay(c: Candidate, start: int, end: int)
    requires start < end
    ensures FreeThroughout(c, start, end) <==>
              c.known && Relay([c.seat], None, start, end, WholeWindow(c, start, end))
  {
    var chain := WholeWindow(c, start, end);
    assert chain[..0] == [] && c.seat in [c.seat];
    assert Chained([c.seat], None, start, chain[..0]);
  }

  method SingleSeatPlans(candidates: seq<Candidate>, start: int, end: int) returns (chains: seq<Chain>)
    ensures |chains| <= MAX_PLANS
    ensures forall c | c in chains ::
              exists k | k in candidates :: FreeThroughout(k, start, end) && c == WholeWindow(k, start, end)
    ensures |chains| < MAX_PLANS ==>
              forall k | k in candidates && FreeThroughout(k, start, end) :: WholeWindow(k, start, end) in chains
  {
    chains := [];
    var i := 0;
    while i < |candidates| && |chains| < MAX_PLANS
      invariant 0 <= i <= |candidates| && |chains| <= MAX_PLANS
      invariant forall c | c in chains ::
                  exists k | k in candidates :: FreeThroughout(k, start, end) && c == WholeWindow(k, start, end)
      invariant forall k | k in candidates[..i] && FreeThroughout(k, start, end) :: WholeWindow(k, start, end) in chains
    {
      assert candidates[..i + 1] == candidates[..i] + [candidates[i]];
      if FreeThroughout(candidates[i], start, end) {
        chains := chains + [WholeWindow(candidates[i], start, end)];
      }
      i := i + 1;
    }
    assert i == |candidates| ==> candidates[..i] == candidates;
  }

  method Dedupe(chains: seq<Chain>) returns (result: seq<Chain>)
    ensures DistinctKeys(result)
    ensures forall c | c in result :: c in chains && c != []
    ensures forall c | c in chains && c != [] :: ChainKey(c) in KeySet(result)
  {
    result := [];
    var seen: set<Key> := {};
    for i := 0 to |chains|
      invariant DistinctKeys(result) && seen == KeySet(result)
      invariant forall c | c in result :: c in chains && c != []
      invariant forall c | c in chains[..i] && c != [] :: ChainKey(c) in seen
    {
      var c := chains[i];
      assert chains[..i + 1] == chains[..i] + [c];
      if c != [] && ChainKey(c) !in seen {
        AppendKey(result, c);
        result, seen := result + [c], seen + {ChainKey(c)};
      }
    }
    assert chains[..|chains|] == chains;
  }

  lemma {:induction false} AppendKey(chains: seq<Chain>, c: Chain)
    requires DistinctKeys(chains) && ChainKey(c) !in KeySet(chains)
    ensures DistinctKeys(chains + [c]) && KeySet(chains + [c]) == KeySet(chains) + {ChainKey(c)}
  {
    forall i | 0 <= i < |chains| ensures ChainKey(chains[i]) != ChainKey(c) {
      assert chains[i] in chains;
    }
    forall k ensures k in KeySet(chains + [c]) <==> k in KeySet(chains) + {ChainKey(c)} {
      assert (chains + [c])[|chains|] == c;
    }
  }

  // ----- Ranking ----------------------------------------------------------------------------------------------------

  function IntText(n: int): string {
    if n < 0 then "-" + Digits(-n) else Digits(n)
  }

  function KeyText(c: Chain): string {
    if c == [] then "" else PartText(c[0]) + KeyText(c[1..])
  }

  function PartText(p: Pick): string {
    p.roomID + "|" + p.seatID + "|" + IntText(p.start) + "|" + IntText(p.end) + ";"
  }

  // The printed key says as much as the seats and times it is made of, unless an identifier contains a separator.

  predicate Plain(s: string) {
    '|' !in s && ';' !in s
  }

  lemma {:induction false} FieldEnds(a: string, b: string, x: string, y: string, sep: char)
    requires sep !in a && sep !in b && a + [sep] + x == b + [sep] + y
    ensures a == b && x == y
  {
    SplitPrefix(a, x, sep);
    SplitPrefix(b, y, sep);
    assert Split(a + [sep] + x, sep)[0] == a && Split(b + [sep] + y, sep)[0] == b;
    assert x == (a + [sep] + x)[|a| + 1..] && y == (b + [sep] + y)[|a| + 1..];
  }

  lemma {:induction false} IntTextIsPlain(n: int)
    ensures Plain(IntText(n))
  {
    var s := Digits(if n < 0 then -n else n);
    forall i | 0 <= i < |s| ensures s[i] != '|' && s[i] != ';' {
      assert IsDigit(s[i]);
    }
  }

  lemma {:induction false} IntTextInjective(m: int, n: int)
    requires IntText(m) == IntText(n)
    ensures m == n
  {
    var s, t := Digits(if m < 0 then -m else m), Digits(if n < 0 then -n else n);
    ValueOfDigits(if m < 0 then -m else m);
    ValueOfDigits(if n < 0 then -n else n);
    assert IsDigit(s[0]) && IsDigit(t[0]);
    if m < 0 && n < 0 {
      assert s == IntText(m)[1..] && t == IntText(n)[1..];
    }
  }

  lemma {:induction false} KeyTextInjective(c: Chain, d: Chain)
    requires forall i | 0 <= i < |c| :: Plain(c[i].roomID) && Plain(c[i].seatID)
    requires forall i | 0 <= i < |d| :: Plain(d[i].roomID) && Plain(d[i].seatID)
    ensures KeyText(c) == KeyText(d) <==> ChainKey(c) == ChainKey(d)
  {
    hide PartText;
    if ChainKey(c) == ChainKey(d) {
      SameKeySameText(c, d);
    }
    PartsAreNotEmpty(c, d);
    if KeyText(c) == KeyText(d) && c != [] {
      assert KeyText(c) == PartText(c[0]) + KeyText(c[1..]) && KeyText(d) == PartText(d[0]) + KeyText(d[1..]);
      SamePart(c[0], d[0], KeyText(c[1..]), KeyText(d[1..]));
      KeyTextInjective(c[1..], d[1..]);
      SameKeyTogether(c, d);
    }
  }

  lemma {:induction false} SamePart(p: Pick, q: Pick, x: string, y: string)
    requires Plain(p.roomID) && Plain(p.seatID) && Plain(q.roomID) && Plain(q.seatID)
    requires PartText(p) + x == PartText(q) + y
    ensures p.roomID == q.roomID && p.seatID == q.seatID && p.start == q.start && p.end == q.end && x == y
  {
    hide IntText;
    IntTextIsPlain(p.start);
    IntTextIsPlain(p.end);
    IntTextIsPlain(q.start);
    IntTextIsPlain(q.end);
    var p3, q3 := IntText(p.end) + ";" + x, IntText(q.end) + ";" + y;
    var p2, q2 := IntText(p.start) + "|" + p3, IntText(q.start) + "|" + q3;
    var p1, q1 := p.seatID + "|" + p2, q.seatID + "|" + q2;
    assert PartText(p) + x == p.roomID + "|" + p1 && PartText(q) + y == q.roomID + "|" + q1;
    FieldEnds(p.roomID, q.roomID, p1, q1, '|');
    FieldEnds(p.seatID, q.seatID, p2, q2, '|');
    FieldEnds(IntText(p.start), IntText(q.start), p3, q3, '|');
    FieldEnds(IntText(p.end), IntText(q.end), x, y, ';');
    IntTextInjective(p.start, q.start);
    IntTextInjective(p.end, q.end);
  }

  lemma {:induction false} PartsAreNotEmpty(c: Chain, d: Chain)
    ensures KeyText(c) == "" <==> c == []
    ensures KeyText(d) == "" <==> d == []
  {
    hide IntText;
  }

  lemma {:induction false} SameKeySameText(c: Chain, d: Chain)
    requires ChainKey(c) == ChainKey(d)
    ensures KeyText(c) == KeyText(d)
  {
    hide IntText;
    if c != [] {
      assert ChainKey(c)[0] == ChainKey(d)[0];
      forall i | 0 <= i < |c| - 1 ensures ChainKey(c[1..])[i] == ChainKey(d[1..])[i] {
        assert ChainKey(c)[i + 1] == ChainKey(d)[i + 1];
      }
      SameKeySameText(c[1..], d[1..]);
    }
  }

  lemma {:induction false} SameKeyTogether(c: Chain, d: Chain)
    requires c != [] && d != [] && ChainKey(c[1..]) == ChainKey(d[1..])
    requires c[0].roomID == d[0].roomID && c[0].seatID == d[0].seatID
    requires c[0].start == d[0].start && c[0].end == d[0].end
    ensures ChainKey(c) == ChainKey(d)
  {
    forall i | 0 < i < |c| ensures ChainKey(c)[i] == ChainKey(d)[i] {
      assert ChainKey(c[1..])[i - 1] == ChainKey(d[1..])[i - 1];
    }
  }

  function RoomRank(c: Chain, rooms: map<string, int>): int {
    if c == [] then 0 else if c[0].roomID in rooms then rooms[c[0].roomID] else |rooms|
  }

  predicate RanksBefore(a: Chain, b: Chain, rooms: map<string, int>) {
    if |a| != |b| then |a| < |b|
    else if RoomRank(a, rooms) != RoomRank(b, rooms) then RoomRank(a, rooms) < RoomRank(b, rooms)
    else TextLess(KeyText(a), KeyText(b))
  }

  lemma {:induction false} RankingIsWeakOrder(a: Chain, b: Chain, c: Chain, rooms: map<string, int>)
    ensures !RanksBefore(b, a, rooms) && !RanksBefore(c, b, rooms) ==> !RanksBefore(c, a, rooms)
    ensures RanksBefore(a, b, rooms) ==> !RanksBefore(b, a, rooms)
  {
    TextOrder(KeyText(a), KeyText(b), KeyText(c));
    TextOrder(KeyText(b), KeyText(c), KeyText(a));
    TextOrder(KeyText(c), KeyText(a), KeyText(b));
  }

  ghost predicate Ranked(chains: seq<Chain>, rooms: map<string, int>) {
    forall i, j | 0 <= i < j < |chains| :: !RanksBefore(chains[j], chains[i], rooms)
  }

  /** Every room with its position in the list, the last one if it is repeated. */
  ghost predicate IsIndex(rooms: map<string, int>, roomIDs: seq<string>) {
    && (forall room | room in rooms :: 0 <= rooms[room] < |roomIDs| && roomIDs[rooms[room]] == room)
    && (forall k | 0 <= k < |roomIDs| :: roomIDs[k] in rooms && k <= rooms[roomIDs[k]])
  }

  method RoomIndex(roomIDs: seq<string>) returns (rooms: map<string, int>)
    ensures IsIndex(rooms, roomIDs)
  {
    rooms := map[];
    for i := 0 to |roomIDs|
      invariant IsIndex(rooms, roomIDs[..i])
    {
      rooms := rooms[roomIDs[i] := i];
    }
    assert roomIDs[..|roomIDs|] == roomIDs;
  }

  lemma {:induction false} IndexSize(rooms: map<string, int>, roomIDs: seq<string>)
    requires IsIndex(rooms, roomIDs)
    requires forall i, j | 0 <= i < j < |roomIDs| :: roomIDs[i] != roomIDs[j]
    ensures |rooms| == |roomIDs|
  {
    if roomIDs == [] {
      assert rooms.Keys == {};
      assert |rooms| == |rooms.Keys|;
    } else {
      var n := |roomIDs| - 1;
      var front := rooms - {roomIDs[n]};
      assert rooms.Keys == front.Keys + {roomIDs[n]};
      assert |rooms| == |rooms.Keys| && |front| == |front.Keys|;
      IndexSize(front, roomIDs[..n]);
    }
  }

  /**
   Among plans of one length: those that begin in a listed room come first, in the order of the list, and within one
   room the keys ascend.
   */
  ghost predicate InRoomOrder(chains: seq<Chain>, roomIDs: seq<string>) {
    forall i, j | 0 <= i < j < |chains| && |chains[i]| == |chains[j]| && chains[i] != [] ::
      && (forall q | 0 <= q < |roomIDs| && chains[j][0].roomID == roomIDs[q] ::
            exists p | 0 <= p <= q :: chains[i][0].roomID == roomIDs[p])
      && (chains[i][0].roomID == chains[j][0].roomID ==> !TextLess(KeyText(chains[j]), KeyText(chains[i])))
  }

  lemma {:induction false} RankedByRoom(chains: seq<Chain>, rooms: map<string, int>, roomIDs: seq<string>)
    requires Ranked(chains, rooms) && IsIndex(rooms, roomIDs)
    requires forall i, j | 0 <= i < j < |roomIDs| :: roomIDs[i] != roomIDs[j]
    ensures InRoomOrder(chains, roomIDs)
  {
    hide KeyText, TextLess;
    IndexSize(rooms, roomIDs);
    forall i, j, q | 0 <= i < j < |chains| && |chains[i]| == |chains[j]| && chains[i] != [] &&
        0 <= q < |roomIDs| && chains[j][0].roomID == roomIDs[q]
      ensures exists p | 0 <= p <= q :: chains[i][0].roomID == roomIDs[p]
    {
      assert !RanksBefore(chains[j], chains[i], rooms);
      assert rooms[roomIDs[q]] == q;
      assert roomIDs[RoomRank(chains[i], rooms)] == chains[i][0].roomID;
    }
  }

  /** Stable insertion, as the library sorts short lists. */
  function Insert(c: Chain, sorted: seq<Chain>, rooms: map<string, int>): (r: seq<Chain>)
    ensures multiset(r) == multiset(sorted) + multiset{c}
  {
    var n := |sorted|;
    if n > 0 && RanksBefore(c, sorted[n - 1], rooms) then
      assert sorted == sorted[..n - 1] + [sorted[n - 1]];
      Insert(c, sorted[..n - 1], rooms) + [sorted[n - 1]]
    else sorted + [c]
  }

  lemma {:induction false} InsertKeepsRanked(c: Chain, sorted: seq<Chain>, rooms: map<string, int>)
    requires Ranked(sorted, rooms)
    ensures Ranked(Insert(c, sorted, rooms), rooms)
    ensures forall x | x in Insert(c, sorted, rooms) :: x == c || x in sorted
  {
    hide RanksBefore;
    var n := |sorted|;
    if n > 0 && RanksBefore(c, sorted[n - 1], rooms) {
      var front, last := sorted[..n - 1], sorted[n - 1];
      InsertKeepsRanked(c, front, rooms);
      forall x | x in Insert(c, front, rooms) ensures !RanksBefore(last, x, rooms) {
        if x == c {
          RankingIsWeakOrder(c, last, c, rooms);
        } else {
          var k :| 0 <= k < n - 1 && front[k] == x;
        }
      }
    } else {
      forall i | 0 <= i < n ensures !RanksBefore(c, sorted[i], rooms) {
        if i < n - 1 {
          RankingIsWeakOrder(sorted[i], sorted[n - 1], c, rooms);
        }
      }
    }
  }

  method SortChains(chains: seq<Chain>, rooms: map<string, int>) returns (sorted: seq<Chain>)
    ensures multiset(sorted) == multiset(chains) && Ranked(sorted, rooms)
  {
    sorted := [];
    for i := 0 to |chains|
      invariant multiset(sorted) == multiset(chains[..i]) && Ranked(sorted, rooms)
    {
      assert chains[..i + 1] == chains[..i] + [chains[i]];
      InsertKeepsRanked(chains[i], sorted, rooms);
      sorted := Insert(chains[i], sorted, rooms);
    }
    assert chains[..|chains|] == chains;
  }

  lemma {:induction false} OnceAmongDistinct(a: seq<Chain>, k: nat)
    requires DistinctKeys(a) && k < |a|
    ensures multiset(a)[a[k]] == 1
  {
    assert a == a[..k] + [a[k]] + a[k + 1..];
    assert a[k] !in a[..k] && a[k] !in a[k + 1..];
  }

  lemma {:induction false} TwiceWhenRepeated(b: seq<Chain>, i: nat, j: nat)
    requires i < j < |b| && b[i] == b[j]
    ensures multiset(b)[b[i]] >= 2
  {
    assert b == b[..i] + [b[i]] + b[i + 1..j] + [b[j]] + b[j + 1..];
  }

  lemma {:induction false} DistinctUnderReordering(a: seq<Chain>, b: seq<Chain>)
    requires DistinctKeys(a) && multiset(a) == multiset(b)
    ensures DistinctKeys(b)
  {
    forall i, j | 0 <= i < j < |b| ensures ChainKey(b[i]) != ChainKey(b[j]) {
      assert b[i] in multiset(a) && b[j] in multiset(a);
      var k :| 0 <= k < |a| && a[k] == b[i];
      OnceAmongDistinct(a, k);
      if b[i] == b[j] {
        TwiceWhenRepeated(b, i, j);
        assert false;
      }
    }
  }

  // ----- Plans ------------------------------------------------------------------------------------------------------

  function SeatsOf(candidates: seq<Candidate>): seq<Timeline> {
    seq(|candidates|, i requires 0 <= i < |candidates| => candidates[i].seat)
  }

  /**
   At most three different plans, ranked. One whole-window seat is enough for a one-seat plan to come first; otherwise
   the first plan is a shortest relay over the combined seats, and there is no plan exactly when there is no such
   relay.
   */
  method BuildPlans(candidates: seq<Candidate>, ts: seq<Timeline>, roomIDs: seq<string>, start: int,
      end: int) returns (plans: seq<Chain>, ghost rooms: map<string, int>)
    requires start < end
    ensures |plans| <= 3 && DistinctKeys(plans) && Ranked(plans, rooms)
    ensures forall i, j | 0 <= i < j < |plans| :: |plans[i]| <= |plans[j]|
    ensures IsIndex(rooms, roomIDs)
    ensures (forall i, j | 0 <= i < j < |roomIDs| :: roomIDs[i] != roomIDs[j]) ==> InRoomOrder(plans, roomIDs)
    ensures forall p | p in plans :: Relay(SeatsOf(candidates) + ts, None, start, end, p) && |p| <= 12
    ensures (exists c | c in candidates :: FreeThroughout(c, start, end)) ==> plans != [] && |plans[0]| == 1
    ensures (forall c | c in candidates :: !FreeThroughout(c, start, end)) && end - start > TARGET_SLICE ==>
              (plans != [] <==> Feasible(ts, None, start, end)) &&
              (plans != [] ==> Shortest(ts, None, start, end, |plans[0]|))
    ensures (forall c | c in candidates :: !FreeThroughout(c, start, end)) && end - start <= TARGET_SLICE ==>
              plans == []
  {
    hide Relay, Feasible, Shortest, Ranked, DistinctKeys, FreeThroughout, InRoomOrder, IsIndex;
    var index := RoomIndex(roomIDs);
    rooms := index;
    plans := AssemblePlans(candidates, ts, index, start, end);
    if forall i, j | 0 <= i < j < |roomIDs| :: roomIDs[i] != roomIDs[j] {
      RankedByRoom(plans, rooms, roomIDs);
    }
  }

  /** The plans, given the rank of each room. */
  method AssemblePlans(candidates: seq<Candidate>, ts: seq<Timeline>, rooms: map<string, int>, start: int,
      end: int) returns (plans: seq<Chain>)
    requires start < end
    ensures |plans| <= 3 && DistinctKeys(plans) && Ranked(plans, rooms)
    ensures forall i, j | 0 <= i < j < |plans| :: |plans[i]| <= |plans[j]|
    ensures forall p | p in plans :: Relay(SeatsOf(candidates) + ts, None, start, end, p) && |p| <= 12
    ensures (exists c | c in candidates :: FreeThroughout(c, start, end)) ==> plans != [] && |plans[0]| == 1
    ensures (forall c | c in candidates :: !FreeThroughout(c, start, end)) && end - start > TARGET_SLICE ==>
              (plans != [] <==> Feasible(ts, None, start, end)) &&
              (plans != [] ==> Shortest(ts, None, start, end, |plans[0]|))
    ensures (forall c | c in candidates :: !FreeThroughout(c, start, end)) && end - start <= TARGET_SLICE ==>
              plans == []
  {
    hide Relay, Feasible, Shortest, VariantList, Ranked, DistinctKeys, FreeThroughout, WholeWindow, SliceCount;
    var chains := SingleSeatPlans(candidates, start, end);
    ghost var single := chains;
    var composed: seq<Chain> := [];
    var combine := |chains| < MAX_PLANS && SliceCount(end - start) >= 2;
    SeveralSlices(end - start);
    if combine {
      composed := BuildChains(ts, start, end);
      chains := chains + composed;
    }
    AllAreRelays(candidates, ts, start, end, single, composed);
    plans := RankPlans(chains, rooms);
    RankedByCount(plans, rooms);
    if c :| c in candidates && FreeThroughout(c, start, end) {
      assert single[0] in chains;
    } else {
      NoSeatFreeThroughout(candidates, start, end, single);
      assert chains == composed;
      if plans != [] {
        FirstIsShortest(ts, start, end, composed, plans);
      }
    }
  }

  lemma {:induction false} NoSeatFreeThroughout(candidates: seq<Candidate>, start: int, end: int, single: seq<Chain>)
    requires forall c | c in single ::
               exists k | k in candidates :: FreeThroughout(k, start, end) && c == WholeWindow(k, start, end)
    ensures single == [] || exists k | k in candidates :: FreeThroughout(k, start, end)
  {
    if single != [] {
      assert single[0] in single;
    }
  }

  lemma {:induction false} FirstIsShortest(ts: seq<Timeline>, start: int, end: int, composed: seq<Chain>,
      plans: seq<Chain>)
    requires VariantList(ts, start, end, composed) && plans != [] && plans[0] in composed
    requires forall c | c in composed && c != [] :: |plans[0]| <= |c|
    ensures Shortest(ts, None, start, end, |plans[0]|)
  {
    assert composed[0] in composed;
  }

  lemma {:induction false} RankedByCount(plans: seq<Chain>, rooms: map<string, int>)
    requires Ranked(plans, rooms)
    ensures forall i, j | 0 <= i < j < |plans| :: |plans[i]| <= |plans[j]|
  {
  }

  /** Drop repeated keys, rank what is left and keep the front of it. */
  method RankPlans(chains: seq<Chain>, rooms: map<string, int>) returns (plans: seq<Chain>)
    ensures |plans| <= 3 && DistinctKeys(plans) && Ranked(plans, rooms)
    ensures forall p | p in plans :: p in chains && p != []
    ensures forall c | c in chains && c != [] :: plans != [] && |plans[0]| <= |c|
    ensures |plans| < MAX_PLANS ==> forall c | c in chains && c != [] :: ChainKey(c) in KeySet(plans)
  {
    var unique := Dedupe(chains);
    var sorted := SortChains(unique, rooms);
    DistinctUnderReordering(unique, sorted);
    forall c ensures c in sorted <==> c in unique {
      assert c in multiset(sorted) <==> c in multiset(unique);
    }
    plans := if |sorted| > MAX_PLANS then sorted[..MAX_PLANS] else sorted;
    forall c | c in chains && c != [] ensures plans != [] && |plans[0]| <= |c| {
      FrontIsSmallest(chains, unique, sorted, rooms, c);
    }
  }

  lemma {:induction false} AllAreRelays(candidates: seq<Candidate>, ts: seq<Timeline>, start: int, end: int,
      single: seq<Chain>, composed: seq<Chain>)
    requires start < end
    requires forall c | c in single ::
               exists k | k in candidates :: FreeThroughout(k, start, end) && c == WholeWindow(k, start, end)
    requires VariantList(ts, start, end, composed)
    ensures forall c | c in single + composed ::
              c != [] && Relay(SeatsOf(candidates) + ts, None, start, end, c) && |c| <= MAX_SEGMENTS
  {
    var all := SeatsOf(candidates) + ts;
    forall c | c in single ensures c != [] && Relay(all, None, start, end, c) && |c| <= MAX_SEGMENTS {
      var k :| k in candidates && FreeThroughout(k, start, end) && c == WholeWindow(k, start, end);
      var i :| 0 <= i < |candidates| && candidates[i] == k;
      assert all[i] == k.seat && k.seat in all && FitsIn(k.seat, c[0]) && c[..0] == [];
      assert Chained(all, None, start, c[..0]);
      assert Chained(all, None, start, c);
    }
    forall c | c in composed ensures c != [] && Relay(all, None, start, end, c) {
      ChainedIn(ts, all, None, start, c);
    }
  }

  lemma {:induction false} FrontIsSmallest(chains: seq<Chain>, unique: seq<Chain>, sorted: seq<Chain>,
      rooms: map<string, int>, c: Chain)
    requires Ranked(sorted, rooms) && c in chains && c != []
    requires forall k | k in chains && k != [] :: ChainKey(k) in KeySet(unique)
    requires forall k :: k in sorted <==> k in unique
    ensures sorted != [] && |sorted[0]| <= |c|
  {
    var k :| k in unique && ChainKey(k) == ChainKey(c);
    assert |k| == |c|;
    var i :| 0 <= i < |sorted| && sorted[i] == k;
  }
}
