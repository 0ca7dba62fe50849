/** The per-operator request limit in front of team invitations: fixed windows of one minute, in a bounded map. */
module InvitationLimiter {
  const CAPACITY := 10000
  /** One minute in nanoseconds. */
  const MINUTE := 60_000_000_000

  datatype Window = Window(started: int, count: int)
  type Windows = map<string, Window>

  function Purged(windows: Windows, now: int): Windows {
    map key | key in windows && now < windows[key].started + MINUTE :: windows[key]
  }

  /** The operator's window at `now`, still empty when there is none. */
  function Current(windows: Windows, operator: string, now: int): Window {
    if operator in windows && now < windows[operator].started + MINUTE then windows[operator] else Window(now, 0)
  }

  predicate Allows(windows: Windows, operator: string, now: int, limit: int) {
    && (operator in Purged(windows, now) || |Purged(windows, now)| < CAPACITY)
    && Current(windows, operator, now).count < limit
  }

  function After(windows: Windows, operator: string, now: int, limit: int): Windows {
    if Allows(windows, operator, now, limit) then
      var w := Current(windows, operator, now);
      Purged(windows, now)[operator := w.(count := w.count + 1)]
    else Purged(windows, now)
  }

  class Limiter {
    var windows: Windows

    constructor ()
      ensures windows == map[]
    {
      windows := map[];
    }

    method Allow(operator: string, now: int, limit: int) returns (ok: bool)
      modifies this
      ensures ok == Allows(old(windows), operator, now, limit)
      ensures windows == After(old(windows), operator, now, limit)
    {
      var keys := windows.Keys;
      while keys != {}
        invariant keys <= windows.Keys <= old(windows).Keys
        invariant forall key | key in windows :: windows[key] == old(windows)[key]
        invariant forall key | key in old(windows) && key !in keys ::
                    key in windows <==> now < old(windows)[key].started + MINUTE
        decreases |keys|
      {
        var key :| key in keys;
        keys := keys - {key};
        if now >= windows[key].started + MINUTE {
          windows := windows - {key};
        }
      }
      assert windows == Purged(old(windows), now);
      var window: Window;
      if operator in windows {
        window := windows[operator];
      } else {
        if |windows| >= CAPACITY {
          return false;
        }
        window := Window(now, 0);
      }
      if window.count >= limit {
        return false;
      }
      windows := windows[operator := window.(count := window.count + 1)];
      ok := true;
    }
  }

  // ----- Runs of the limiter ----------------------------------------------------------------------------------------

  datatype Call = Call(operator: string, now: nat)

  function Run(calls: seq<Call>, limit: int): Windows {
    if calls == [] then map[]
    else After(Run(calls[..|calls| - 1], limit), calls[|calls| - 1].operator, calls[|calls| - 1].now, limit)
  }

  /** Whether the last call is a granted one of the operator. */
  predicate GrantsLast(calls: seq<Call>, operator: string, limit: int)
    requires calls != []
  {
    var n := |calls| - 1;
    calls[n].operator == operator && Allows(Run(calls[..n], limit), operator, calls[n].now, limit)
  }

  /** How many calls of the operator are granted at t or later, but before t + width. */
  function GrantsIn(calls: seq<Call>, operator: string, limit: int, t: int, width: int): nat {
    if calls == [] then 0
    else
      var n := |calls| - 1;
      GrantsIn(calls[..n], operator, limit, t, width)
      + if GrantsLast(calls, operator, limit) && t <= calls[n].now < t + width then 1 else 0
  }

  /** The operator's latest window, whether or not the map still holds it. */
  function Latest(calls: seq<Call>, operator: string, limit: int): Window {
    if calls == [] then Window(-MINUTE, 0)
    else
      var n := |calls| - 1;
      var before := Latest(calls[..n], operator, limit);
      if !GrantsLast(calls, operator, limit) then before
      else if calls[n].now < before.started + MINUTE then before.(count := before.count + 1)
      else Window(calls[n].now, 1)
  }

  ghost predicate Clockwise(calls: seq<Call>) {
    |calls| >= 2 ==> Clockwise(calls[..|calls| - 1]) && calls[|calls| - 2].now <= calls[|calls| - 1].now
  }

  /** The map holds the latest window of each operator, or that window is over. */
  lemma {:induction false} MapHoldsLatest(calls: seq<Call>, operator: string, limit: int)
    requires Clockwise(calls) && limit >= 1
    ensures var w := Latest(calls, operator, limit);
            var m := Run(calls, limit);
            && 0 <= w.count <= limit && w.started <= (if calls == [] then -MINUTE else calls[|calls| - 1].now)
            && if operator in m then m[operator] == w
               else calls == [] || w.started + MINUTE <= calls[|calls| - 1].now || w == Window(-MINUTE, 0)
  {
    if calls != [] {
      MapHoldsLatest(calls[..|calls| - 1], operator, limit);
    }
  }

  /** How the grants in a span are bounded by the position of the latest window. */
  ghost predicate SpanBound(calls: seq<Call>, operator: string, limit: int, t: int, width: int) {
    var w, g := Latest(calls, operator, limit), GrantsIn(calls, operator, limit, t, width);
    if w.started + MINUTE <= t then g == 0
    else if w.started <= t then g <= w.count
    else if w.started < t + width then g <= limit + w.count
    else g <= 2 * limit
  }

  lemma {:induction false} SpanBoundHolds(calls: seq<Call>, operator: string, limit: int, t: int, width: int)
    requires Clockwise(calls) && limit >= 1 && width <= MINUTE + 1
    ensures SpanBound(calls, operator, limit, t, width)
  {
    hide Allows, Run;
    if calls != [] {
      var n := |calls| - 1;
      SpanBoundHolds(calls[..n], operator, limit, t, width);
      MapHoldsLatest(calls[..n], operator, limit);
      MapHoldsLatest(calls, operator, limit);
    }
  }

  /** Whether the last call is granted and opens a new window. */
  predicate Opens(calls: seq<Call>, operator: string, limit: int)
    requires calls != []
  {
    var n := |calls| - 1;
    GrantsLast(calls, operator, limit) && Latest(calls[..n], operator, limit).started + MINUTE <= calls[n].now
  }

  /** Every window, open or long over, has granted at most the limit. */
  lemma {:induction false} WindowIsLimited(calls: seq<Call>, operator: string, limit: int, k: nat)
    requires Clockwise(calls) && limit >= 1 && k < |calls| && Opens(calls[..k + 1], operator, limit)
    ensures var t, w := calls[k].now, Latest(calls, operator, limit);
            var g := GrantsIn(calls, operator, limit, t, MINUTE);
            g <= limit && if w.started == t then g <= w.count else w.started >= t + MINUTE
  {
    hide Allows, Run;
    var n := |calls| - 1;
    MapHoldsLatest(calls, operator, limit);
    if k == n {
      assert calls[..k + 1] == calls;
      SpanBoundHolds(calls[..n], operator, limit, calls[k].now, MINUTE);
    } else {
      assert calls[..n][..k + 1] == calls[..k + 1];
      WindowIsLimited(calls[..n], operator, limit, k);
    }
  }

  lemma {:induction false} CapacityStep(windows: Windows, operator: string, now: int, limit: int)
    requires |windows| <= CAPACITY
    ensures |After(windows, operator, now, limit)| <= CAPACITY
  {
    var purged := Purged(windows, now);
    PurgedIsSmaller(windows, now);
    var next := After(windows, operator, now, limit);
    assert next.Keys == purged.Keys || next.Keys == purged.Keys + {operator};
    assert |next| == |next.Keys| && |purged| == |purged.Keys|;
  }

  lemma {:induction false} SubsetIsSmaller(a: set<string>, b: set<string>)
    requires a <= b
    ensures |a| <= |b|
  {
    assert b == a + (b - a);
    assert |b| == |a| + |b - a|;
  }

  lemma {:induction false} MapIsBounded(calls: seq<Call>, limit: int)
    ensures |Run(calls, limit)| <= CAPACITY
  {
    hide After;
    if calls != [] {
      var n := |calls| - 1;
      MapIsBounded(calls[..n], limit);
      CapacityStep(Run(calls[..n], limit), calls[n].operator, calls[n].now, limit);
    }
  }

  /**
   In every run with a clock that does not go back: any 60 seconds, both ends included, grant an operator at most twice
   the limit, and the map never holds more than its capacity and counts exactly the grants of each open window.
   */
  lemma {:induction false} RequestsAreLimited(calls: seq<Call>, operator: string, limit: int, t: int)
    requires Clockwise(calls) && limit >= 1
    ensures GrantsIn(calls, operator, limit, t, MINUTE + 1) <= 2 * limit
    ensures operator in Run(calls, limit) ==>
              GrantsIn(calls, operator, limit, Run(calls, limit)[operator].started, MINUTE) ==
                  Run(calls, limit)[operator].count <= limit
    ensures |Run(calls, limit)| <= CAPACITY
  {
    hide Run, GrantsIn, Latest;
    SpanBoundHolds(calls, operator, limit, t, MINUTE + 1);
    MapHoldsLatest(calls, operator, limit);
    SpanBoundHolds(calls, operator, limit, Latest(calls, operator, limit).started, MINUTE);
    MapIsBounded(calls, limit);
    if operator in Run(calls, limit) {
      StillOpen(calls, operator, limit);
      LatestIsCounted(calls, operator, limit, Latest(calls, operator, limit).started, MINUTE);
    }
  }

  /** Every call purges what is over, so a window in the map is still open. */
  lemma {:induction false} StillOpen(calls: seq<Call>, operator: string, limit: int)
    requires limit >= 1 && operator in Run(calls, limit)
    ensures calls != [] && calls[|calls| - 1].now < Run(calls, limit)[operator].started + MINUTE
  {
  }

  lemma {:induction false} LatestIsCounted(calls: seq<Call>, operator: string, limit: int, t: int, width: int)
    requires Clockwise(calls) && limit >= 1 && calls != []
    requires t <= Latest(calls, operator, limit).started && calls[|calls| - 1].now < t + width
    ensures GrantsIn(calls, operator, limit, t, width) >= Latest(calls, operator, limit).count
  {
    hide Allows, Run;
    var n := |calls| - 1;
    if n > 0 && t <= Latest(calls[..n], operator, limit).started {
      LatestIsCounted(calls[..n], operator, limit, t, width);
    }
    MapHoldsLatest(calls, operator, limit);
  }

  /**
   An operator is refused only when the map is full or its own granted requests of the last minute reach the limit.
   */
  lemma {:induction false} RefusedForAReason(calls: seq<Call>, operator: string, limit: int)
    requires Clockwise(calls) && limit >= 1 && calls != [] && calls[|calls| - 1].operator == operator
    requires !GrantsLast(calls, operator, limit)
    ensures var n := |calls| - 1;
            || |Purged(Run(calls[..n], limit), calls[n].now)| == CAPACITY
            || GrantsIn(calls[..n], operator, limit, calls[n].now - MINUTE + 1, MINUTE) >= limit
  {
    var n := |calls| - 1;
    var m, now := Run(calls[..n], limit), calls[n].now;
    if operator in Purged(m, now) {
      MapHoldsLatest(calls[..n], operator, limit);
      LatestIsCounted(calls[..n], operator, limit, now - MINUTE + 1, MINUTE);
    } else {
      MapIsBounded(calls[..n], limit);
      PurgedIsSmaller(m, now);
    }
  }

  lemma {:induction false} PurgedIsSmaller(windows: Windows, now: int)
    ensures |Purged(windows, now)| <= |windows|
  {
    var purged := Purged(windows, now);
    SubsetIsSmaller(purged.Keys, windows.Keys);
    assert |windows| == |windows.Keys| && |purged| == |purged.Keys|;
  }
}
