/**
 The gate that lets one background task of a kind run per student, with a minimum interval between runs. A changed
 preference version lets a new run through at once; finish callbacks of runs it replaced must not disturb it.

 Times count from the zero time of the program, so an absent entry allows a run at any moment.
 */
module TaskGate {
  import opened Outcomes

  datatype Key = Key(studentID: string, taskType: string)
  datatype Entry = Entry(version: int, generation: nat, running: bool, nextAllowed: int)

  /** What a finish callback remembers of the run it belongs to. */
  datatype Ticket = Ticket(key: Key, version: int, generation: nat, interval: int)

  type States = map<Key, Entry>

  function Get(states: States, key: Key): Entry {
    if key in states then states[key] else Entry(0, 0, false, 0)
  }

  predicate Grants(states: States, key: Key, version: int, now: nat) {
    var e := Get(states, key);
    !(e.version == version && (e.running || now < e.nextAllowed))
  }

  function Started(states: States, key: Key, version: int, now: nat, interval: int): States {
    states[key := Entry(version, Get(states, key).generation + 1, true, now + interval)]
  }

  function Finished(states: States, t: Ticket, success: bool, at: nat): States {
    if t.key !in states || states[t.key].generation != t.generation || states[t.key].version != t.version then states
    else if t.interval <= 0 then states - {t.key}
    else
      var e := states[t.key];
      states[t.key := e.(running := false, nextAllowed := if success then e.nextAllowed else at + t.interval)]
  }

  class Gate {
    var states: States

    constructor ()
      ensures states == map[]
    {
      states := map[];
    }

    /** A run is granted together with its finish callback, or refused without any effect. */
    method Start(key: Key, version: int, now: nat, interval: int) returns (ticket: Option<Ticket>)
      modifies this
      ensures ticket.Some? <==> Grants(old(states), key, version, now)
      ensures states == if ticket.Some? then Started(old(states), key, version, now, interval) else old(states)
      ensures ticket.Some? ==> ticket.value == Ticket(key, version, Get(states, key).generation, interval)
    {
      var state := Get(states, key);
      if state.version == version && (state.running || now < state.nextAllowed) {
        return None;
      }
      state := state.(version := version, generation := state.generation + 1, running := true,
          nextAllowed := now + interval);
      states := states[key := state];
      ticket := Some(Ticket(key, version, state.generation, interval));
    }

    method Finish(t: Ticket, success: bool, finishedAt: nat)
      modifies this
      ensures states == Finished(old(states), t, success, finishedAt)
    {
      if t.key !in states || states[t.key].generation != t.generation || states[t.key].version != t.version {
        return;
      }
      if t.interval <= 0 {
        states := states - {t.key};
        return;
      }
      var current := states[t.key].(running := false);
      if !success {
        current := current.(nextAllowed := finishedAt + t.interval);
      }
      states := states[t.key := current];
    }
  }

  // ----- Runs of the gate -------------------------------------------------------------------------------------------

  /** Calls of the gate, in the order in which they take its lock. */
  datatype Event =
    | Start(key: Key, version: int, now: nat, interval: int)
    | Finish(ticket: Ticket, success: bool, at: nat)
  {
    function Time(): nat {
      if Start? then now else at
    }
  }

  function Apply(states: States, e: Event): States {
    match e
    case Start(key, version, now, interval) =>
      if Grants(states, key, version, now) then Started(states, key, version, now, interval) else states
    case Finish(ticket, success, at) => Finished(states, ticket, success, at)
  }

  function Run(es: seq<Event>): States {
    if es == [] then map[] else Apply(Run(es[..|es| - 1]), es[|es| - 1])
  }

  ghost predicate GrantAt(es: seq<Event>, key: Key, i: int) {
    0 <= i < |es| && es[i].Start? && es[i].key == key && Grants(Run(es[..i]), key, es[i].version, es[i].now)
  }

  ghost function Generation(es: seq<Event>, key: Key, n: nat): nat
    requires n <= |es|
  {
    Get(Run(es[..n]), key).generation
  }

  ghost function TicketOf(es: seq<Event>, key: Key, i: nat): Ticket
    requires GrantAt(es, key, i)
  {
    Ticket(key, es[i].version, Generation(es, key, i + 1), es[i].interval)
  }

  ghost predicate Clockwise(es: seq<Event>) {
    forall i, j | 0 <= i < j < |es| :: es[i].Time() <= es[j].Time()
  }

  /** Every finish callback of the key belongs to an earlier grant, and its interval is positive. */
  ghost predicate Proper(es: seq<Event>, key: Key) {
    && (forall i | GrantAt(es, key, i) :: es[i].interval > 0)
    && (forall m | 0 <= m < |es| && es[m].Finish? && es[m].ticket.key == key ::
          exists i: nat :: i < m && GrantAt(es, key, i) && es[m].ticket == TicketOf(es, key, i))
  }

  lemma {:induction false} RunStep(es: seq<Event>, n: nat)
    requires n < |es|
    ensures Run(es[..n + 1]) == Apply(Run(es[..n]), es[n])
  {
    assert es[..n + 1][..n] == es[..n];
  }

  /** Generations of a key only grow, and they grow exactly at its grants. */
  lemma {:induction false} GenerationStep(es: seq<Event>, key: Key, n: nat)
    requires Proper(es, key) && n < |es|
    ensures Generation(es, key, n + 1) == Generation(es, key, n) + if GrantAt(es, key, n) then 1 else 0
    ensures !GrantAt(es, key, n) && key in Run(es[..n]) ==> key in Run(es[..n + 1])
  {
    RunStep(es, n);
  }

  lemma {:induction false} GenerationsGrow(es: seq<Event>, key: Key, i: nat, n: nat)
    requires Proper(es, key) && i <= n <= |es|
    ensures Generation(es, key, i) <= Generation(es, key, n)
    ensures Generation(es, key, i) == Generation(es, key, n) <==> forall k | i <= k < n :: !GrantAt(es, key, k)
  {
    if i < n {
      GenerationsGrow(es, key, i, n - 1);
      GenerationStep(es, key, n - 1);
    }
  }

  /** The finish callback of an older generation changes nothing. */
  lemma {:induction false} StaleFinish(es: seq<Event>, key: Key, i: nat, k: nat, m: nat)
    requires Proper(es, key) && i < k < m < |es|
    requires GrantAt(es, key, i) && GrantAt(es, key, k)
    requires es[m].Finish? && es[m].ticket == TicketOf(es, key, i)
    ensures Run(es[..m + 1]) == Run(es[..m])
  {
    hide Run, GrantAt, Proper;
    RunStep(es, m);
    GenerationsGrow(es, key, i + 1, m);
    assert Generation(es, key, i + 1) != Generation(es, key, m);
  }

  ghost predicate FinishOf(es: seq<Event>, key: Key, i: nat, m: int)
    requires GrantAt(es, key, i)
  {
    i < m < |es| && es[m].Finish? && es[m].ticket == TicketOf(es, key, i)
  }

  /** The entry from grant `i` up to, but not including, the next grant of its key. */
  ghost predicate SinceGrant(es: seq<Event>, key: Key, i: nat, n: nat)
    requires GrantAt(es, key, i) && i < n <= |es|
  {
    var s := Run(es[..n]);
    && key in s && s[key].version == es[i].version && s[key].generation == Generation(es, key, i + 1)
    && s[key].nextAllowed >= es[i].now + es[i].interval
    && (!s[key].running ==> exists m :: m < n && FinishOf(es, key, i, m))
    && (forall m | m < n && FinishOf(es, key, i, m) && !es[m].success ::
        s[key].nextAllowed >= es[m].at + es[i].interval)
  }

  lemma {:induction false} GrantStarts(es: seq<Event>, key: Key, i: nat)
    requires GrantAt(es, key, i)
    ensures SinceGrant(es, key, i, i + 1)
  {
    RunStep(es, i);
  }

  lemma {:induction false} SinceGrantKept(es: seq<Event>, key: Key, i: nat, n: nat)
    requires Proper(es, key) && Clockwise(es) && GrantAt(es, key, i) && i < n < |es|
    requires forall k | i < k <= n :: !GrantAt(es, key, k)
    requires SinceGrant(es, key, i, n)
    ensures SinceGrant(es, key, i, n + 1)
  {
    hide Run, Proper, Generation;
    RunStep(es, n);
    assert es[i].Time() <= es[n].Time();
    var s := Run(es[..n]);
    if FinishOf(es, key, i, n) {
      assert es[i].interval > 0 by { PositiveIntervals(es, key, i); }
      FinishMoves(es, key, i, n);
    } else {
      EntryStays(es, key, i, n);
    }
  }

  lemma {:induction false} PositiveIntervals(es: seq<Event>, key: Key, i: nat)
    requires Proper(es, key) && GrantAt(es, key, i)
    ensures es[i].interval > 0
  {
  }

  lemma {:induction false} FinishMoves(es: seq<Event>, key: Key, i: nat, n: nat)
    requires Clockwise(es) && GrantAt(es, key, i) && i < n < |es| && es[i].interval > 0
    requires SinceGrant(es, key, i, n) && FinishOf(es, key, i, n)
    requires Run(es[..n + 1]) == Apply(Run(es[..n]), es[n])
    ensures SinceGrant(es, key, i, n + 1)
  {
    hide Run, Generation;
    assert es[i].Time() <= es[n].Time();
    var before, after := Run(es[..n])[key], Run(es[..n + 1])[key];
    assert after ==
        before.(running := false,
                nextAllowed := if es[n].success then before.nextAllowed else es[n].at + es[i].interval);
    forall m | m < n + 1 && FinishOf(es, key, i, m) && !es[m].success
      ensures after.nextAllowed >= es[m].at + es[i].interval
    {
      assert m < n ==> es[m].Time() <= es[n].Time();
    }
  }

  lemma {:induction false} EntryStays(es: seq<Event>, key: Key, i: nat, n: nat)
    requires Proper(es, key) && GrantAt(es, key, i) && i < n < |es|
    requires forall k | i < k <= n :: !GrantAt(es, key, k)
    requires SinceGrant(es, key, i, n) && !FinishOf(es, key, i, n)
    requires Run(es[..n + 1]) == Apply(Run(es[..n]), es[n])
    ensures SinceGrant(es, key, i, n + 1)
  {
    hide Run, Proper, Generation;
    var s := Run(es[..n]);
    if es[n].Finish? && es[n].ticket.key == key && es[n].ticket.generation == s[key].generation {
      MatchesOnlyIts(es, key, i, n);
    }
    assert !GrantAt(es, key, n);
    assert Run(es[..n + 1])[key] == s[key];
  }

  lemma {:induction false} MatchesOnlyIts(es: seq<Event>, key: Key, i: nat, n: nat)
    requires Proper(es, key) && GrantAt(es, key, i) && i < n < |es|
    requires forall k | i < k <= n :: !GrantAt(es, key, k)
    requires es[n].Finish? && es[n].ticket.key == key && es[n].ticket.generation == Generation(es, key, i + 1)
    ensures es[n].ticket == TicketOf(es, key, i)
  {
    var k: nat :| k < n && GrantAt(es, key, k) && es[n].ticket == TicketOf(es, key, k);
    if k < i {
      GenerationsGrow(es, key, k + 1, i + 1);
    }
  }

  lemma {:induction false} SinceGrantHolds(es: seq<Event>, key: Key, i: nat, n: nat)
    requires Proper(es, key) && Clockwise(es) && GrantAt(es, key, i) && i < n <= |es|
    requires forall k | i < k < n :: !GrantAt(es, key, k)
    ensures SinceGrant(es, key, i, n)
    decreases n
  {
    hide SinceGrant;
    if n == i + 1 {
      GrantStarts(es, key, i);
    } else {
      SinceGrantHolds(es, key, i, n - 1);
      SinceGrantKept(es, key, i, n - 1);
    }
  }

  /**
   In every run with a clock that does not go back: while the version stays the same, the next run of a task begins
   only after the previous one has finished, at least one interval after it began, and at least one interval after any
   failure it reported.
   */
  lemma {:induction false} NextGrant(es: seq<Event>, key: Key, i: nat, j: nat)
    requires Proper(es, key) && Clockwise(es)
    requires i < j && GrantAt(es, key, i) && GrantAt(es, key, j) && es[j].version == es[i].version
    requires forall k | i < k < j :: !GrantAt(es, key, k)
    ensures exists m :: m < j && FinishOf(es, key, i, m)
    ensures es[j].now >= es[i].now + es[i].interval
    ensures forall m | m < j && FinishOf(es, key, i, m) && !es[m].success :: es[j].now >= es[m].at + es[i].interval
  {
    SinceGrantHolds(es, key, i, j);
  }

  // ----- When a run must be granted ---------------------------------------------------------------------------------

  /** A run counts as running until a finish callback, and its delay is one that its start or a failure asked for. */
  ghost predicate NoMoreThanAsked(es: seq<Event>, key: Key, i: nat, n: nat)
    requires GrantAt(es, key, i) && i < n <= |es|
  {
    var s := Run(es[..n]);
    && key in s
    && (s[key].running ==> forall m | m < n :: !FinishOf(es, key, i, m))
    && (s[key].nextAllowed == es[i].now + es[i].interval ||
        exists m :: m < n && FinishOf(es, key, i, m) && !es[m].success &&
                    s[key].nextAllowed == es[m].at + es[i].interval)
  }

  lemma {:induction false} GrantAsks(es: seq<Event>, key: Key, i: nat)
    requires GrantAt(es, key, i)
    ensures NoMoreThanAsked(es, key, i, i + 1)
  {
    RunStep(es, i);
  }

  lemma {:induction false} NoMoreThanAskedKept(es: seq<Event>, key: Key, i: nat, n: nat)
    requires Proper(es, key) && GrantAt(es, key, i) && i < n < |es|
    requires forall k | i < k <= n :: !GrantAt(es, key, k)
    requires SinceGrant(es, key, i, n) && NoMoreThanAsked(es, key, i, n)
    ensures NoMoreThanAsked(es, key, i, n + 1)
  {
    hide Run, Proper, Generation;
    RunStep(es, n);
    var before, after := Run(es[..n])[key], Run(es[..n + 1]);
    if FinishOf(es, key, i, n) {
      assert es[i].interval > 0 by { PositiveIntervals(es, key, i); }
      assert after[key] ==
          before.(running := false,
                  nextAllowed := if es[n].success then before.nextAllowed else es[n].at + es[i].interval);
      AskedStill(es, key, i, n);
    } else {
      assert key in after && after[key] == before by { EntrySame(es, key, i, n); }
      AskedStill(es, key, i, n);
    }
  }

  lemma {:induction false} AskedStill(es: seq<Event>, key: Key, i: nat, n: nat)
    requires GrantAt(es, key, i) && i < n < |es| && NoMoreThanAsked(es, key, i, n)
    ensures Run(es[..n])[key].nextAllowed == es[i].now + es[i].interval ||
            exists m :: m < n + 1 && FinishOf(es, key, i, m) && !es[m].success &&
                        Run(es[..n])[key].nextAllowed == es[m].at + es[i].interval
  {
    hide Run;
  }

  lemma {:induction false} EntrySame(es: seq<Event>, key: Key, i: nat, n: nat)
    requires Proper(es, key) && GrantAt(es, key, i) && i < n < |es|
    requires forall k | i < k <= n :: !GrantAt(es, key, k)
    requires SinceGrant(es, key, i, n) && !FinishOf(es, key, i, n)
    requires Run(es[..n + 1]) == Apply(Run(es[..n]), es[n])
    ensures key in Run(es[..n + 1]) && Run(es[..n + 1])[key] == Run(es[..n])[key]
  {
    hide Run, Proper, Generation;
    if es[n].Finish? && es[n].ticket.key == key && es[n].ticket.generation == Run(es[..n])[key].generation {
      MatchesOnlyIts(es, key, i, n);
    }
    assert !GrantAt(es, key, n);
  }

  lemma {:induction false} NoMoreThanAskedHolds(es: seq<Event>, key: Key, i: nat, n: nat)
    requires Proper(es, key) && Clockwise(es) && GrantAt(es, key, i) && i < n <= |es|
    requires forall k | i < k < n :: !GrantAt(es, key, k)
    ensures NoMoreThanAsked(es, key, i, n)
    decreases n
  {
    hide SinceGrant, NoMoreThanAsked;
    if n == i + 1 {
      GrantAsks(es, key, i);
    } else {
      NoMoreThanAskedHolds(es, key, i, n - 1);
      SinceGrantHolds(es, key, i, n - 1);
      NoMoreThanAskedKept(es, key, i, n - 1);
    }
  }

  /**
   In every run with a clock that does not go back, the next request after a grant is granted exactly if its version is
   another one, or the granted run has finished and one interval has passed since it began and since any failure.
   */
  lemma {:induction false} NextGrantIff(es: seq<Event>, key: Key, i: nat, j: nat)
    requires Proper(es, key) && Clockwise(es)
    requires i < j < |es| && GrantAt(es, key, i) && es[j].Start? && es[j].key == key
    requires forall k | i < k < j :: !GrantAt(es, key, k)
    ensures GrantAt(es, key, j) <==>
              || es[j].version != es[i].version
              || (&& (exists m :: m < j && FinishOf(es, key, i, m))
                  && es[j].now >= es[i].now + es[i].interval
                  && (forall m | m < j && FinishOf(es, key, i, m) && !es[m].success ::
                        es[j].now >= es[m].at + es[i].interval))
  {
    hide Run, Proper, Generation;
    SinceGrantHolds(es, key, i, j);
    NoMoreThanAskedHolds(es, key, i, j);
  }

  /** The first request of a key is granted. */
  lemma {:induction false} FirstGrant(es: seq<Event>, key: Key, j: nat)
    requires j < |es| && es[j].Start? && es[j].key == key
    requires forall k | 0 <= k < j :: !GrantAt(es, key, k)
    ensures GrantAt(es, key, j)
  {
    NoEntryYet(es, key, j);
  }

  lemma {:induction false} NoEntryYet(es: seq<Event>, key: Key, n: nat)
    requires n <= |es| && forall k | 0 <= k < n :: !GrantAt(es, key, k)
    ensures key !in Run(es[..n])
  {
    if n > 0 {
      NoEntryYet(es, key, n - 1);
      RunStep(es, n - 1);
      assert !GrantAt(es, key, n - 1);
    }
  }
}
