/**
 One student's away episodes: a table to which departures are appended and in which they are closed, never removed.
 Every query of the service names one student, so the rows of one student are all that matters to each other.
 */
module AwayEpisodes {
  import opened Outcomes

  datatype AwayState = Away | Returned | Ended

  datatype Episode = Episode(reservation: string, version: nat, startedAt: int, lastMinutes: int, state: AwayState)

  type Table = seq<Episode>

  /** `ORDER BY episode_version DESC LIMIT 1` among the episodes of a reservation. */
  function Latest(es: Table, reservation: string): (r: Option<nat>)
    ensures r.Some? ==> r.value < |es| && es[r.value].reservation == reservation
  {
    if es == [] then None
    else
      var n := |es| - 1;
      var best := Latest(es[..n], reservation);
      if es[n].reservation == reservation && (best.None? || es[best.value].version < es[n].version)
      then Some(n) else best
  }

  /** The episode still open, whatever its reservation. */
  function LatestActive(es: Table): (r: Option<nat>)
    ensures r.Some? ==> r.value < |es| && es[r.value].state.Away?
    ensures r.None? ==> forall i | 0 <= i < |es| :: !es[i].state.Away?
  {
    if es == [] then None
    else if es[|es| - 1].state.Away? then Some(|es| - 1)
    else LatestActive(es[..|es| - 1])
  }

  function Count(es: Table, reservation: string): nat {
    if es == [] then 0
    else Count(es[..|es| - 1], reservation) + if es[|es| - 1].reservation == reservation then 1 else 0
  }

  /**
   At most one episode of the student is open; those of a reservation are numbered 1, 2, 3, ... in order of departure,
   and only the last of them may be open.
   */
  ghost predicate Sound(es: Table) {
    && (forall i | 0 <= i < |es| :: es[i].version == Count(es[..i], es[i].reservation) + 1)
    && (forall i, j | 0 <= i < j < |es| :: !(es[i].state.Away? && es[j].state.Away?))
    && (forall i, j | 0 <= i < j < |es| && es[i].reservation == es[j].reservation :: !es[i].state.Away?)
  }

  ghost predicate OpenAt(es: Table, i: nat, reservation: string, version: nat) {
    i < |es| && es[i].state.Away? && es[i].reservation == reservation && es[i].version == version
  }

  ghost predicate Open(es: Table, reservation: string, version: nat) {
    exists i: nat :: OpenAt(es, i, reservation, version)
  }

  /** Rows are never removed or renumbered, a departure time never moves, and what is closed stays closed. */
  ghost predicate Evolves(es: Table, later: Table) {
    |es| <= |later| && forall i | 0 <= i < |es| ::
      && later[i].reservation == es[i].reservation && later[i].version == es[i].version
      && later[i].startedAt == es[i].startedAt
      && (!es[i].state.Away? ==> later[i] == es[i])
  }

  /** The test of the job dispatcher and of the outbox sender. */
  predicate IsCurrent(es: Table, reservation: string, version: int) {
    version > 0 && Latest(es, reservation).Some? &&
    var e := es[Latest(es, reservation).value];
    e.state.Away? && e.version == version
  }

  function Close(es: Table, i: nat, state: AwayState): Table
    requires i < |es|
  {
    es[i := es[i].(state := state)]
  }

  /** An away observation: the open episode goes on, or a new one opens with the next number. */
  function Depart(es: Table, reservation: string, minutes: int, now: int): Table {
    match Latest(es, reservation)
    case Some(i) =>
      if es[i].state.Away? then es[i := es[i].(lastMinutes := minutes)]
      else es + [Episode(reservation, es[i].version + 1, now - 60 * minutes, minutes, Away)]
    case None => es + [Episode(reservation, 1, now - 60 * minutes, minutes, Away)]
  }

  // ----- Facts about sound tables -----------------------------------------------------------------------------------

  lemma {:induction false} SoundFront(es: Table, n: nat)
    requires Sound(es) && n <= |es|
    ensures Sound(es[..n])
  {
    forall i | 0 <= i < n ensures es[..n][i].version == Count(es[..n][..i], es[..n][i].reservation) + 1 {
      assert es[..n][..i] == es[..i];
    }
  }

  /** The latest episode of a reservation carries the number of its episodes, and is the last of them in the table. */
  lemma {:induction false} LatestIsLast(es: Table, reservation: string)
    requires Sound(es)
    ensures Latest(es, reservation).None? <==> Count(es, reservation) == 0
    ensures Latest(es, reservation).Some? ==> es[Latest(es, reservation).value].version == Count(es, reservation)
    ensures forall k | 0 <= k < |es| && es[k].reservation == reservation ::
              Latest(es, reservation).Some? && k <= Latest(es, reservation).value
  {
    if es != [] {
      var n := |es| - 1;
      SoundFront(es, n);
      LatestIsLast(es[..n], reservation);
      assert es[n].version == Count(es[..n], es[n].reservation) + 1;
      forall k | 0 <= k < n && es[k].reservation == reservation
        ensures Latest(es[..n], reservation).Some? && k <= Latest(es[..n], reservation).value
      {
        assert es[..n][k] == es[k];
      }
    }
  }

  /** The open episode, if any, is the latest of its reservation, so the check is exact. */
  lemma {:induction false} CurrentIffOpen(es: Table, reservation: string, version: int)
    requires Sound(es)
    ensures IsCurrent(es, reservation, version) <==> version > 0 && Open(es, reservation, version)
  {
    LatestIsLast(es, reservation);
    if version > 0 && Open(es, reservation, version) {
      var i: nat :| OpenAt(es, i, reservation, version);
      assert i == Latest(es, reservation).value;
    }
    if IsCurrent(es, reservation, version) {
      assert OpenAt(es, Latest(es, reservation).value, reservation, version);
    }
  }

  lemma {:induction false} OnlyOneOpen(es: Table, i: nat, reservation: string, version: nat)
    requires Sound(es) && i < |es| && es[i].state.Away?
    ensures Open(es, reservation, version) <==> reservation == es[i].reservation && version == es[i].version
  {
    if Open(es, reservation, version) {
      var j: nat :| OpenAt(es, j, reservation, version);
      assert j == i;
    }
    if reservation == es[i].reservation && version == es[i].version {
      assert OpenAt(es, i, reservation, version);
    }
  }

  lemma {:induction false} NoneOpen(es: Table, reservation: string, version: nat)
    requires LatestActive(es).None?
    ensures !Open(es, reservation, version)
  {
  }

  lemma {:induction false} CountIgnoresState(es: Table, later: Table, reservation: string, n: nat)
    requires |es| == |later| && forall i | 0 <= i < |es| :: es[i].reservation == later[i].reservation
    requires n <= |es|
    ensures Count(es[..n], reservation) == Count(later[..n], reservation)
  {
    if n > 0 {
      CountIgnoresState(es, later, reservation, n - 1);
      assert es[..n][..n - 1] == es[..n - 1] && later[..n][..n - 1] == later[..n - 1];
    }
  }

  lemma {:induction false} KeepsNumbers(es: Table, later: Table)
    requires Sound(es) && |es| == |later|
    requires forall i | 0 <= i < |es| :: later[i].reservation == es[i].reservation && later[i].version == es[i].version
    requires forall i | 0 <= i < |es| :: later[i].state.Away? ==> es[i].state.Away?
    ensures Sound(later)
  {
    hide Count;
    forall k | 0 <= k < |later| ensures later[k].version == Count(later[..k], later[k].reservation) + 1 {
      CountIgnoresState(es, later, later[k].reservation, k);
    }
  }

  lemma {:induction false} CloseIsSound(es: Table, i: nat, state: AwayState)
    requires Sound(es) && i < |es| && es[i].state.Away? && !state.Away?
    ensures Sound(Close(es, i, state)) && Evolves(es, Close(es, i, state))
    ensures LatestActive(Close(es, i, state)).None?
  {
    hide Count;
    KeepsNumbers(es, Close(es, i, state));
  }

  lemma {:induction false} GoesOn(es: Table, i: nat, minutes: int)
    requires Sound(es) && i < |es| && es[i].state.Away?
    ensures var later := es[i := es[i].(lastMinutes := minutes)]; Sound(later) && Evolves(es, later)
  {
    hide Count;
    KeepsNumbers(es, es[i := es[i].(lastMinutes := minutes)]);
  }

  /**
   With no other reservation's episode open, an away observation leaves exactly this reservation's latest one open.
   */
  lemma {:induction false} DepartIsSound(es: Table, reservation: string, minutes: int, now: int)
    requires Sound(es) && forall i | 0 <= i < |es| && es[i].state.Away? :: es[i].reservation == reservation
    ensures var later := Depart(es, reservation, minutes, now);
            && Sound(later) && Evolves(es, later)
            && Latest(later, reservation).Some? && later[Latest(later, reservation).value].state.Away?
  {
    hide Sound, Evolves, Count;
    var latest := Latest(es, reservation);
    var later := Depart(es, reservation, minutes, now);
    if latest.Some? && es[latest.value].state.Away? {
      GoesOn(es, latest.value, minutes);
      LastOpen(later, latest.value);
    } else {
      NoOpenEpisode(es, reservation);
      LatestIsLast(es, reservation);
      assert later == es + [Episode(reservation, Count(es, reservation) + 1, now - 60 * minutes, minutes, Away)];
      AppendIsSound(es, Episode(reservation, Count(es, reservation) + 1, now - 60 * minutes, minutes, Away));
      LastOpen(later, |es|);
    }
  }

  lemma {:induction false} NoOpenEpisode(es: Table, reservation: string)
    requires Sound(es) && forall i | 0 <= i < |es| && es[i].state.Away? :: es[i].reservation == reservation
    requires Latest(es, reservation).None? || !es[Latest(es, reservation).value].state.Away?
    ensures forall i | 0 <= i < |es| :: !es[i].state.Away?
  {
    LatestIsLast(es, reservation);
  }

  lemma {:induction false} LastOpen(es: Table, i: nat)
    requires Sound(es) && i < |es| && es[i].state.Away?
    ensures Latest(es, es[i].reservation) == Some(i)
  {
    LatestIsLast(es, es[i].reservation);
  }

  lemma {:induction false} AppendIsSound(es: Table, e: Episode)
    requires Sound(es) && e.version == Count(es, e.reservation) + 1
    requires forall i | 0 <= i < |es| :: !es[i].state.Away?
    ensures Sound(es + [e]) && Evolves(es, es + [e])
  {
    var later := es + [e];
    forall i | 0 <= i < |later| ensures later[i].version == Count(later[..i], later[i].reservation) + 1 {
      assert later[..i] == es[..i];
      assert i == |es| ==> es[..i] == es;
    }
  }

  lemma {:induction false} EvolvesFurther(a: Table, b: Table, c: Table)
    requires Evolves(a, b) && Evolves(b, c)
    ensures Evolves(a, c)
  {
  }
}
