/**
 The relay planner of the smart-seat service: cover a window of minutes with as few seats as possible.

 `Relay` is the reference notion, written without reference to any algorithm: a gap-free chain of picks, each
 inside one free interval of its seat. The greedy method is proved to find a shortest relay, or to fail exactly
 when every relay needs more than twelve picks.
 */
module SmartSeatPlanner {
  import opened Outcomes

  const MAX_VARIANTS := 6
  const MAX_SEGMENTS := 12

  datatype Interval = Interval(start: int, end: int)
  datatype Timeline = Timeline(roomID: string, seatID: string, seatLabel: string, seatName: string,
      intervals: seq<Interval>)
  datatype Pick = Pick(roomID: string, seatID: string, seatLabel: string, seatName: string, start: int, end: int)

  type Chain = seq<Pick>

  predicate Covers(iv: Interval, minute: int) {
    iv.start <= minute < iv.end
  }

  predicate FitsIn(t: Timeline, p: Pick) {
    && p.roomID == t.roomID && p.seatID == t.seatID && p.seatLabel == t.seatLabel && p.seatName == t.seatName
    && p.start < p.end
    && exists iv | iv in t.intervals :: iv.start <= p.start && p.end <= iv.end
  }

  function Reached(start: int, ps: Chain): int {
    if ps == [] then start else ps[|ps| - 1].end
  }

  /**
   Picks that follow on from each other without a gap, each in one free interval, the first one on `first` if given.
   */
  ghost predicate Chained(ts: seq<Timeline>, first: Option<Timeline>, start: int, ps: Chain) {
    ps == [] ||
    (var n := |ps| - 1;
     && Chained(ts, first, start, ps[..n])
     && ps[n].start == Reached(start, ps[..n])
     && (exists t | t in ts :: FitsIn(t, ps[n]))
     && (n == 0 && first.Some? ==> FitsIn(first.value, ps[0])))
  }

  ghost predicate Relay(ts: seq<Timeline>, first: Option<Timeline>, start: int, end: int, ps: Chain) {
    ps != [] && Chained(ts, first, start, ps) && Reached(start, ps) == end
  }

  ghost predicate Shortest(ts: seq<Timeline>, first: Option<Timeline>, start: int, end: int, n: nat) {
    forall qs: Chain | Relay(ts, first, start, end, qs) :: n <= |qs|
  }

  ghost predicate Feasible(ts: seq<Timeline>, first: Option<Timeline>, start: int, end: int) {
    exists qs: Chain :: Relay(ts, first, start, end, qs) && |qs| <= MAX_SEGMENTS
  }

  /** `Chained` read from the front. */
  lemma {:induction false} ChainedShape(ts: seq<Timeline>, first: Option<Timeline>, start: int, ps: Chain)
    requires Chained(ts, first, start, ps) && ps != []
    ensures ps[0].start == start && (first.Some? ==> FitsIn(first.value, ps[0]))
    ensures forall k | 0 <= k < |ps| :: ps[k].start < ps[k].end && exists t | t in ts :: FitsIn(t, ps[k])
    ensures forall k | 1 <= k < |ps| :: ps[k].start == ps[k - 1].end
  {
    var n := |ps| - 1;
    if n > 0 {
      ChainedShape(ts, first, start, ps[..n]);
      forall k | 0 <= k < n ensures ps[k] == ps[..n][k] {}
      assert ps[n].start == ps[n - 1].end;
    }
  }

  lemma {:induction false} ChainedIn(ts: seq<Timeline>, us: seq<Timeline>, first: Option<Timeline>, start: int,
      ps: Chain)
    requires Chained(ts, first, start, ps)
    requires forall t | t in ts :: t in us
    ensures Chained(us, first, start, ps) && Chained(us, None, start, ps)
  {
    if ps != [] {
      ChainedIn(ts, us, first, start, ps[..|ps| - 1]);
    }
  }

  /** No chain of at most n picks gets past `limit`: what "greedy stays ahead" means. */
  ghost predicate Bounded(ts: seq<Timeline>, first: Option<Timeline>, start: int, n: nat, limit: int) {
    forall qs: Chain | Chained(ts, first, start, qs) && |qs| <= n :: Reached(start, qs) <= limit
  }

  lemma {:induction false} OneMorePick(ts: seq<Timeline>, first: Option<Timeline>, start: int, n: nat, limit: int,
      further: int)
    requires Bounded(ts, first, start, n, limit) && limit <= further
    requires forall t, iv | t in ts && iv in t.intervals && Covers(iv, limit) &&
             (n == 0 && first.Some? ==> t == first.value) :: iv.end <= further
    requires n == 0 && first.Some? ==> first.value in ts
    ensures Bounded(ts, first, start, n + 1, further)
  {
    forall qs: Chain | Chained(ts, first, start, qs) && |qs| <= n + 1 ensures Reached(start, qs) <= further {
      if |qs| == n + 1 {
        var before, p := qs[..n], qs[n];
        assert p.start == Reached(start, before) <= limit;
        var t :| t in ts && FitsIn(t, p) && (n == 0 && first.Some? ==> t == first.value);
        var iv :| iv in t.intervals && iv.start <= p.start && p.end <= iv.end;
        assert Covers(iv, limit) || iv.end <= limit;
      }
    }
  }

  lemma {:induction false} Stuck(ts: seq<Timeline>, first: Option<Timeline>, start: int, n: nat, limit: int, m: nat)
    requires Bounded(ts, first, start, n, limit) && (first.Some? ==> n > 0)
    requires forall t, iv | t in ts && iv in t.intervals :: !Covers(iv, limit)
    ensures Bounded(ts, first, start, n + m, limit)
  {
    if m > 0 {
      Stuck(ts, first, start, n, limit, m - 1);
      OneMorePick(ts, first, start, n + m - 1, limit, limit);
    }
  }

  method BestInterval(item: Timeline, current: int) returns (best: Interval, found: bool)
    ensures found <==> exists iv | iv in item.intervals :: Covers(iv, current)
    ensures found ==> best in item.intervals && Covers(best, current)
    ensures found ==> forall iv | iv in item.intervals && Covers(iv, current) :: iv.end <= best.end
  {
    best, found := Interval(0, 0), false;
    for j := 0 to |item.intervals|
      invariant found <==> exists iv | iv in item.intervals[..j] :: Covers(iv, current)
      invariant found ==> best in item.intervals[..j] && Covers(best, current)
      invariant found ==> forall iv | iv in item.intervals[..j] && Covers(iv, current) :: iv.end <= best.end
    {
      var iv := item.intervals[j];
      assert item.intervals[..j + 1] == item.intervals[..j] + [iv];
      if Covers(iv, current) && (!found || iv.end > best.end) {
        best, found := iv, true;
      }
    }
    assert item.intervals[..|item.intervals|] == item.intervals;
  }

  method BestOfAll(ts: seq<Timeline>, current: int) returns (best: Timeline, bestIv: Interval, found: bool)
    ensures found <==> exists t, iv | t in ts && iv in t.intervals :: Covers(iv, current)
    ensures found ==> best in ts && bestIv in best.intervals && Covers(bestIv, current)
    ensures found ==> forall t, iv | t in ts && iv in t.intervals && Covers(iv, current) :: iv.end <= bestIv.end
  {
    best, bestIv, found := Timeline("", "", "", "", []), Interval(0, 0), false;
    for i := 0 to |ts|
      invariant found <==> exists t, iv | t in ts[..i] && iv in t.intervals :: Covers(iv, current)
      invariant found ==> best in ts[..i] && bestIv in best.intervals && Covers(bestIv, current)
      invariant found ==>
                  forall t, iv | t in ts[..i] && iv in t.intervals && Covers(iv, current) :: iv.end <= bestIv.end
    {
      assert ts[..i + 1] == ts[..i] + [ts[i]];
      var iv, here := BestInterval(ts[i], current);
      if here && (!found || iv.end > bestIv.end) {
        best, bestIv, found := ts[i], iv, true;
      }
    }
    assert ts[..|ts|] == ts;
  }

  function PickFrom(item: Timeline, iv: Interval, current: int, end: int): Pick {
    Pick(item.roomID, item.seatID, item.seatLabel, item.seatName, current, if iv.end < end then iv.end else end)
  }

  /** What the greedy loop keeps: its own picks form a chain, and no chain of as many picks gets further. */
  ghost predicate Ahead(ts: seq<Timeline>, first: Option<Timeline>, start: int, end: int, picks: Chain, current: int) {
    && Chained(ts, first, start, picks)
    && Reached(start, picks) == (if current < end then current else end)
    && Bounded(ts, first, start, |picks|, current)
    && (picks == [] ==> first.None? && current == start)
    && (forall qs: Chain | Chained(ts, first, start, qs) && |qs| < |picks| :: Reached(start, qs) < end)
  }

  lemma {:induction false} OneMoreAhead(ts: seq<Timeline>, first: Option<Timeline>, start: int, end: int, picks: Chain,
      current: int, best: Timeline, iv: Interval)
    requires Ahead(ts, first, start, end, picks, current) && current < end
    requires best in ts && iv in best.intervals && Covers(iv, current)
    requires forall t, i | t in ts && i in t.intervals && Covers(i, current) :: i.end <= iv.end
    ensures Ahead(ts, first, start, end, picks + [PickFrom(best, iv, current, end)], iv.end)
  {
    var p := PickFrom(best, iv, current, end);
    assert FitsIn(best, p);
    assert (picks + [p])[..|picks|] == picks;
    OneMorePick(ts, first, start, |picks|, current, iv.end);
  }

  lemma {:induction false} FirstAhead(ts: seq<Timeline>, first: Timeline, start: int, end: int, iv: Interval)
    requires first in ts && start < end && iv in first.intervals && Covers(iv, start)
    requires forall i | i in first.intervals && Covers(i, start) :: i.end <= iv.end
    ensures Ahead(ts, Some(first), start, end, [PickFrom(first, iv, start, end)], iv.end)
  {
    var p := PickFrom(first, iv, start, end);
    assert FitsIn(first, p);
    assert [p][..0] == [];
    assert Bounded(ts, Some(first), start, 0, start);
    OneMorePick(ts, Some(first), start, 0, start, iv.end);
  }

  lemma {:induction false} AheadIsShortest(ts: seq<Timeline>, first: Option<Timeline>, start: int, end: int,
      picks: Chain, current: int)
    requires Ahead(ts, first, start, end, picks, current) && start < end <= current && |picks| <= MAX_SEGMENTS
    ensures Relay(ts, first, start, end, picks) && Shortest(ts, first, start, end, |picks|) &&
            Feasible(ts, first, start, end)
  {
    assert Relay(ts, first, start, end, picks);
  }

  lemma {:induction false} AheadIsStuck(ts: seq<Timeline>, first: Option<Timeline>, start: int, end: int, picks: Chain,
      current: int)
    requires Ahead(ts, first, start, end, picks, current) && current < end
    requires |picks| >= MAX_SEGMENTS || forall t, iv | t in ts && iv in t.intervals :: !Covers(iv, current)
    ensures !Feasible(ts, first, start, end)
  {
    forall qs: Chain | Relay(ts, first, start, end, qs) ensures |qs| > MAX_SEGMENTS {
      if |picks| < MAX_SEGMENTS {
        if picks == [] {
          assert Bounded(ts, first, start, 0, current);
        }
        Stuck(ts, first, start, |picks|, current, |qs|);
      }
    }
  }

  /** Always extend with the free interval that reaches furthest, the first one taken from `first` when it is given. */
  method GreedyChain(ts: seq<Timeline>, start: int, end: int, first: Option<Timeline>) returns (picks: Chain, ok: bool)
    requires start < end
    requires first.Some? ==> first.value in ts
    ensures ok ==>
              Relay(ts, first, start, end, picks) && |picks| <= MAX_SEGMENTS && Shortest(ts, first, start, end, |picks|)
    ensures ok <==> Feasible(ts, first, start, end)
    ensures !ok ==> picks == []
  {
    picks, ok := [], false;
    var current := start;
    if first.Some? {
      var iv, found := BestInterval(first.value, current);
      if !found {
        FirstPickNeeded(ts, first, start, end);
        return;
      }
      FirstAhead(ts, first.value, start, end, iv);
      picks := [PickFrom(first.value, iv, current, end)];
      current := iv.end;
    }
    while current < end
      invariant Ahead(ts, first, start, end, picks, current) && |picks| <= MAX_SEGMENTS
      decreases end - current
    {
      if |picks| >= MAX_SEGMENTS {
        AheadIsStuck(ts, first, start, end, picks, current);
        return [], false;
      }
      var best, bestIv, found := BestOfAll(ts, current);
      if !found {
        AheadIsStuck(ts, first, start, end, picks, current);
        return [], false;
      }
      OneMoreAhead(ts, first, start, end, picks, current, best, bestIv);
      picks := picks + [PickFrom(best, bestIv, current, end)];
      current := bestIv.end;
    }
    AheadIsShortest(ts, first, start, end, picks, current);
    ok := true;
  }

  lemma {:induction false} FirstPickNeeded(ts: seq<Timeline>, first: Option<Timeline>, start: int, end: int)
    requires start < end && first.Some?
    requires forall iv | iv in first.value.intervals :: !Covers(iv, start)
    ensures !Feasible(ts, first, start, end)
  {
    forall qs: Chain ensures !Relay(ts, first, start, end, qs) {
      if Relay(ts, first, start, end, qs) {
        ChainedShape(ts, first, start, qs);
      }
    }
  }

  /** The number of picks does not depend on the order in which the timelines arrived. */
  lemma {:induction false} OrderIrrelevant(ts: seq<Timeline>, us: seq<Timeline>, first: Option<Timeline>, start: int,
      end: int, ps: Chain, qs: Chain)
    requires multiset(ts) == multiset(us)
    requires Relay(ts, first, start, end, ps) && Shortest(ts, first, start, end, |ps|)
    requires Relay(us, first, start, end, qs) && Shortest(us, first, start, end, |qs|)
    ensures |ps| == |qs|
  {
    forall t ensures t in ts <==> t in us {
      assert t in ts <==> t in multiset(ts);
      assert t in us <==> t in multiset(us);
    }
    ChainedIn(ts, us, first, start, ps);
    ChainedIn(us, ts, first, start, qs);
    assert Relay(us, first, start, end, ps);
    assert Relay(ts, first, start, end, qs);
  }

  // ----- Variants ---------------------------------------------------------------------------------------------------

  type Key = seq<(string, string, int, int)>

  function ChainKey(c: Chain): (key: Key)
    ensures |key| == |c|
  {
    seq(|c|, i requires 0 <= i < |c| => (c[i].roomID, c[i].seatID, c[i].start, c[i].end))
  }

  function KeySet(chains: seq<Chain>): set<Key> {
    set c | c in chains :: ChainKey(c)
  }

  ghost predicate DistinctKeys(chains: seq<Chain>) {
    forall i, j | 0 <= i < j < |chains| :: ChainKey(chains[i]) != ChainKey(chains[j])
  }

  predicate SameSeat(t: Timeline, c: Chain) {
    c != [] && c[0].roomID == t.roomID && c[0].seatID == t.seatID
  }

  /** Some chain in the list starts on t's seat and is as short as any relay that starts there. */
  ghost predicate Represented(ts: seq<Timeline>, t: Timeline, start: int, end: int, chains: seq<Chain>) {
    exists c | c in chains :: SameSeat(t, c) && Shortest(ts, Some(t), start, end, |c|)
  }

  /** Every one of these seats that can begin a relay of at most twelve picks has a shortest one in the list. */
  ghost predicate SeatsRepresented(ts: seq<Timeline>, seats: seq<Timeline>, start: int, end: int, chains: seq<Chain>) {
    forall t | t in seats :: Feasible(ts, Some(t), start, end) ==> Represented(ts, t, start, end, chains)
  }

  ghost predicate ShortestFromSomeSeat(ts: seq<Timeline>, start: int, end: int, c: Chain) {
    exists t | t in ts :: SameSeat(t, c) && Shortest(ts, Some(t), start, end, |c|)
  }

  /**
   What every list under construction satisfies: different relays of at most twelve picks, a shortest one in front.
   */
  ghost predicate VariantList(ts: seq<Timeline>, start: int, end: int, chains: seq<Chain>) {
    && DistinctKeys(chains)
    && (forall c | c in chains :: Relay(ts, None, start, end, c) && |c| <= MAX_SEGMENTS)
    && (chains != [] ==> Shortest(ts, None, start, end, |chains[0]|))
    && (forall k | 1 <= k < |chains| :: ShortestFromSomeSeat(ts, start, end, chains[k]))
  }

  /** The overall greedy chain, then one variant per seat that is free at the start, up to six different chains. */
  method BuildChains(ts: seq<Timeline>, start: int, end: int) returns (chains: seq<Chain>)
    requires start < end
    ensures |chains| <= MAX_VARIANTS && VariantList(ts, start, end, chains)
    ensures chains != [] <==> Feasible(ts, None, start, end)
    ensures |chains| < MAX_VARIANTS ==> SeatsRepresented(ts, ts, start, end, chains)
  {
    var chain, ok := GreedyChain(ts, start, end, None);
    var seen: set<Key>;
    chains, seen := StartList(ts, start, end, chain, ok);
    var i := 0;
    while i < |ts| && |chains| < MAX_VARIANTS
      invariant 0 <= i <= |ts| && |chains| <= MAX_VARIANTS
      invariant VariantList(ts, start, end, chains) && seen == KeySet(chains)
      invariant chains != [] <==> ok
      invariant SeatsRepresented(ts, ts[..i], start, end, chains)
    {
      assert ts[..i + 1] == ts[..i] + [ts[i]];
      chains, seen := TrySeat(ts, ts[..i], ts[i], start, end, chains, seen);
      i := i + 1;
    }
    assert i == |ts| ==> ts[..i] == ts;
  }

  method StartList(ghost ts: seq<Timeline>, ghost start: int, ghost end: int, chain: Chain,
      ok: bool) returns (chains: seq<Chain>, seen: set<Key>)
    requires ok ==>
               Relay(ts, None, start, end, chain) && |chain| <= MAX_SEGMENTS && Shortest(ts, None, start, end, |chain|)
    ensures chains == if ok then [chain] else []
    ensures VariantList(ts, start, end, chains) && seen == KeySet(chains)
  {
    chains, seen := [], {};
    if ok {
      chains, seen := [chain], {ChainKey(chain)};
      assert KeySet(chains) == {ChainKey(chain)};
    }
  }

  /**
   Append the variant that starts on this seat, unless there is none or a chain with the same key is already listed.
   */
  method TrySeat(ts: seq<Timeline>, ghost seats: seq<Timeline>, item: Timeline, start: int, end: int,
      chains: seq<Chain>, seen: set<Key>)
    returns (added: seq<Chain>, nowSeen: set<Key>)
    requires start < end && item in ts
    requires VariantList(ts, start, end, chains) && seen == KeySet(chains)
    requires chains == [] ==> !Feasible(ts, None, start, end)
    requires SeatsRepresented(ts, seats, start, end, chains)
    ensures chains <= added && |added| <= |chains| + 1 && (added == [] <==> chains == [])
    ensures VariantList(ts, start, end, added) && nowSeen == KeySet(added)
    ensures SeatsRepresented(ts, seats + [item], start, end, added)
  {
    added, nowSeen := chains, seen;
    var _, covered := BestInterval(item, start);
    if !covered {
      FirstPickNeeded(ts, Some(item), start, end);
      return;
    }
    var variant, found := GreedyChain(ts, start, end, Some(item));
    if found {
      AsPlainRelay(ts, item, start, end, variant);
      if ChainKey(variant) !in seen {
        added, nowSeen := chains + [variant], seen + {ChainKey(variant)};
        KeepsVariantList(ts, item, start, end, chains, variant);
      }
      VariantRepresents(ts, seats, item, start, end, chains, added, variant);
    }
  }

  lemma {:induction false} AsPlainRelay(ts: seq<Timeline>, item: Timeline, start: int, end: int, chain: Chain)
    requires Relay(ts, Some(item), start, end, chain)
    ensures Relay(ts, None, start, end, chain) && SameSeat(item, chain)
    ensures |chain| <= MAX_SEGMENTS ==> Feasible(ts, None, start, end)
  {
    ChainedIn(ts, ts, Some(item), start, chain);
    ChainedShape(ts, Some(item), start, chain);
  }

  lemma {:induction false} VariantRepresents(ts: seq<Timeline>, seats: seq<Timeline>, item: Timeline, start: int,
      end: int, chains: seq<Chain>, added: seq<Chain>, chain: Chain)
    requires SeatsRepresented(ts, seats, start, end, chains) && chains <= added
    requires SameSeat(item, chain) && Shortest(ts, Some(item), start, end, |chain|)
    requires ChainKey(chain) in KeySet(added)
    ensures SeatsRepresented(ts, seats + [item], start, end, added)
  {
    var c :| c in added && ChainKey(c) == ChainKey(chain);
    assert ChainKey(c)[0] == ChainKey(chain)[0];
    assert SameSeat(item, c) && |c| == |chain|;
    assert Represented(ts, item, start, end, added);
    forall t | t in seats && Feasible(ts, Some(t), start, end) ensures Represented(ts, t, start, end, added) {
      var d :| d in chains && SameSeat(t, d) && Shortest(ts, Some(t), start, end, |d|);
      assert d in added;
    }
  }

  lemma {:induction false} KeepsVariantList(ts: seq<Timeline>, item: Timeline, start: int, end: int,
      chains: seq<Chain>, chain: Chain)
    requires item in ts && VariantList(ts, start, end, chains) && ChainKey(chain) !in KeySet(chains) && chains != []
    requires Relay(ts, None, start, end, chain) && |chain| <= MAX_SEGMENTS
    requires SameSeat(item, chain) && Shortest(ts, Some(item), start, end, |chain|)
    ensures VariantList(ts, start, end, chains + [chain]) && chain in chains + [chain]
    ensures KeySet(chains + [chain]) == KeySet(chains) + {ChainKey(chain)}
  {
    hide Relay, Shortest;
    var added := chains + [chain];
    forall i, j | 0 <= i < j < |added| ensures ChainKey(added[i]) != ChainKey(added[j]) {
      assert chains[i] in chains;
      if j < |chains| {
        assert ChainKey(chains[i]) != ChainKey(chains[j]);
      }
    }
    forall k | 1 <= k < |added| ensures ShortestFromSomeSeat(ts, start, end, added[k]) {
      if k < |chains| {
        assert ShortestFromSomeSeat(ts, start, end, chains[k]);
      }
    }
    assert added[|chains|] == chain;
  }
}
