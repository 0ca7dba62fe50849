/** The active scan and the outbox sender, statement by statement, over the transactions of one student's reminders. */
module AwaySender {
  import opened Outcomes
  import opened AwayEpisodes
  import opened AwayReminders

  /** The school's answer about the current reservation. `minutes` is unknown for some kinds of absence. */
  datatype Answer = Answer(reservation: string, terminal: bool, end: int, away: bool, minutes: Option<int>)

  datatype Verdict = NotAway(state: AwayState) | TimeChanged | TooShort | StillAway

  function Threshold(kind: Kind): int {
    match kind
    case Away60 => 60
    case Away80 => 80
  }

  /** What the answer means for a reminder that was made for a reservation ending at `end`. */
  function Judge(key: Key, end: int, answer: Option<Answer>, now: int): Verdict {
    if answer.None? || answer.value.reservation != key.reservation || answer.value.terminal then NotAway(Ended)
    else
      var a := answer.value;
      if a.end != end then TimeChanged
      else if a.end <= now then NotAway(Ended)
      else if !a.away then NotAway(Returned)
      else if a.minutes.Some? && a.minutes.value < Threshold(key.kind) then TooShort
      else StillAway
  }

  // What an answer has to say, condition by condition.

  /** Nothing is left of this reservation: no current one, another one, or one that is finished. */
  ghost predicate Gone(key: Key, answer: Option<Answer>) {
    answer.None? || answer.value.reservation != key.reservation || answer.value.terminal
  }

  /** Away from exactly this reservation, which still runs to the expected end, and long enough if that is known. */
  ghost predicate AwayLongEnough(key: Key, end: int, answer: Option<Answer>, now: int) {
    && answer.Some? && answer.value.reservation == key.reservation && !answer.value.terminal
    && answer.value.end == end && now < end && answer.value.away
    && (answer.value.minutes.Some? && key.kind.Away60? ==> answer.value.minutes.value >= 60)
    && (answer.value.minutes.Some? && key.kind.Away80? ==> answer.value.minutes.value >= 80)
  }

  /** The departure is over: with the reservation, or by the return of the student. */
  ghost predicate Over(key: Key, end: int, answer: Option<Answer>, now: int, state: AwayState) {
    || (state.Ended? && (Gone(key, answer) || (answer.value.end == end && end <= now)))
    || (state.Returned? && !Gone(key, answer) && answer.value.end == end && now < end && !answer.value.away)
  }

  lemma {:induction false} JudgeIff(key: Key, end: int, answer: Option<Answer>, now: int)
    ensures Judge(key, end, answer, now) == StillAway <==> AwayLongEnough(key, end, answer, now)
    ensures forall state :: Judge(key, end, answer, now) == NotAway(state) <==> Over(key, end, answer, now, state)
    ensures !Over(key, end, answer, now, Away)
  {
  }

  class ReminderStore {
    var episodes: Table
    var sub: Subscription
    var jobs: Jobs
    var outbox: Outbox
    /** Every transaction so far; its length is the time at which the outside world is asked. */
    var trace: seq<Step>

    ghost function Now(): State
      reads this
    {
      State(episodes, sub, jobs, outbox)
    }

    ghost predicate Valid()
      reads this
    {
      Now() == Run(trace)
    }

    constructor ()
      ensures Valid() && trace == []
    {
      episodes, sub, jobs, outbox, trace := [], Subscription(false, 0), map[], map[], [];
    }

    /** Any one transaction. */
    method Do(step: Step)
      requires Valid()
      modifies this
      ensures Valid() && trace == old(trace) + [step] && Now() == Apply(old(Now()), step)
    {
      hide Apply;
      var t := Apply(State(episodes, sub, jobs, outbox), step);
      episodes, sub, jobs, outbox := t.episodes, t.sub, t.jobs, t.outbox;
      trace := trace + [step];
      assert trace[..|trace| - 1] == old(trace);
    }

    /** What other scans, dispatchers, senders and preference changes do in the meantime: any transactions at all. */
    method Meanwhile(alone: bool)
      requires Valid()
      modifies this
      ensures Valid() && old(trace) <= trace && (alone ==> trace == old(trace) && Now() == old(Now()))
    {
      var n: nat :| n >= 0;
      for i := 0 to if alone then 0 else n
        invariant Valid() && old(trace) <= trace && (alone ==> trace == old(trace) && Now() == old(Now()))
      {
        var step: Step :| true;
        Do(step);
      }
    }

    /** The sender's last statement on its row, which may fail before or after taking effect unless all is healthy. */
    method FinishOutbox(key: Key, attempts: nat, status: RowStatus, healthy: bool)
      requires Valid()
      modifies this
      ensures Valid() && (trace == old(trace) || trace == old(trace) + [OnRow(key, FinishRow(attempts, status))])
      ensures healthy && HoldsRow(old(Now()), key, attempts) ==> key in outbox && outbox[key].status == status
    {
      hide Run;
      var happens: bool := *;
      if happens || healthy {
        Do(OnRow(key, FinishRow(attempts, status)));
      }
    }

    method CancelReservationWork(reservation: string)
      modifies this`jobs, this`outbox
      ensures Now() == CancelWork(old(Now()), reservation)
    {
      jobs := CancelJobs(jobs, reservation);
      outbox := CancelRows(outbox, reservation);
    }

    method EndActiveEpisode()
      modifies this`episodes, this`jobs, this`outbox
      ensures Now() == EndActive(old(Now()))
    {
      var open := LatestActive(episodes);
      if open.Some? {
        var reservation := episodes[open.value].reservation;
        episodes := Close(episodes, open.value, Ended);
        CancelReservationWork(reservation);
      }
    }

    /** The transaction of `scanActiveUserAttempt`. */
    method ApplyActiveObservation(preference: int, current: Option<Seen>, now: int, away60: bool, away80: bool)
      requires Valid()
      modifies this
      ensures Valid() && trace == old(trace) + [Observe(preference, current, now, away60, away80)]
    {
      hide Depart, Close, CancelJobs, CancelRows, Schedule, Run;
      trace := trace + [Observe(preference, current, now, away60, away80)];
      Extends(old(trace), Observe(preference, current, now, away60, away80));
      if !SubscriptionIs(sub, preference) {
        return;
      }
      if current.None? {
        EndActiveEpisode();
        return;
      }
      var seen := current.value;
      if !seen.live {
        CancelReservationWork(seen.reservation);
        EndActiveEpisode();
        return;
      }
      var open := LatestActive(episodes);
      if open.Some? && episodes[open.value].reservation != seen.reservation {
        var reservation := episodes[open.value].reservation;
        episodes := Close(episodes, open.value, Ended);
        CancelReservationWork(reservation);
      }
      if !seen.away {
        var latest := Latest(episodes, seen.reservation);
        if latest.Some? && episodes[latest.value].state.Away? {
          episodes := Close(episodes, latest.value, Returned);
          CancelReservationWork(seen.reservation);
        }
        return;
      }
      RecordDeparture(seen, now, away60, away80);
    }

    /** An away observation: the episode goes on or a new one opens, and its jobs are scheduled. */
    method RecordDeparture(seen: Seen, now: int, away60: bool, away80: bool)
      modifies this`episodes, this`jobs
      ensures Latest(Depart(old(episodes), seen.reservation, seen.minutes, now), seen.reservation).Some?
      ensures Now() == Schedule(old(Now()).(episodes := Depart(old(episodes), seen.reservation, seen.minutes, now)),
                                seen.reservation, away60, away80)
    {
      hide Depart, Upsert;
      DepartHasLatest(episodes, seen.reservation, seen.minutes, now);
      episodes := Depart(episodes, seen.reservation, seen.minutes, now);
      var e := episodes[Latest(episodes, seen.reservation).value];
      if away60 {
        jobs := Upsert(jobs, Key(seen.reservation, e.version, Away60), e.startedAt + 3600, sub.version);
      }
      if away80 {
        jobs := Upsert(jobs, Key(seen.reservation, e.version, Away80), e.startedAt + 4800, sub.version);
      }
    }

    /** Closes only the episode that was observed; a later departure of the same reservation is left alone. */
    method EndAwayEpisode(reservation: string, preference: int, version: nat, state: AwayState) returns (ended: bool)
      requires Valid() && !state.Away?
      modifies this
      ensures Valid() && trace == old(trace) + [End(reservation, preference, version, state)]
      ensures ended <==> Ends(old(Now()), reservation, preference, version)
      ensures ended ==>
                Open(old(episodes), reservation, version) && !Open(episodes, reservation, version) && NoWork(Now())
      ensures !ended ==> Now() == old(Now())
      ensures ended ==> forall key, attempts | HoldsRow(old(Now()), key, attempts) && key.reservation == reservation ::
                key in outbox && outbox[key].status.OutboxSuppressed?
    {
      hide Close, CancelJobs, CancelRows, Run;
      ghost var before := Now();
      trace := trace + [End(reservation, preference, version, state)];
      Extends(old(trace), End(reservation, preference, version, state));
      ended := false;
      if !SubscriptionIs(sub, preference) {
        return;
      }
      var latest := Latest(episodes, reservation);
      if latest.None? || !episodes[latest.value].state.Away? || episodes[latest.value].version != version {
        return;
      }
      episodes := Close(episodes, latest.value, state);
      CancelReservationWork(reservation);
      SendingIsDropped(before, Now(), reservation);
      ended := true;
      EndCloses(old(trace), reservation, preference, version, state);
    }

    method AwayEpisodeCurrent(reservation: string, version: nat) returns (current: bool)
      requires Valid()
      ensures current <==> version > 0 && Open(episodes, reservation, version)
    {
      hide Run, Sound, Latest;
      RunKeepsInv(trace);
      CurrentIffOpen(episodes, reservation, version) by { SoundOf(Now()); }
      if version == 0 {
        return false;
      }
      var latest := Latest(episodes, reservation);
      current := latest.Some? && episodes[latest.value].state.Away? && episodes[latest.value].version == version;
    }

    /** The check of claim and subscription. */
    method CanSendOutbox(key: Key, attempts: nat) returns (ok: bool)
      ensures ok == CanSend(Now(), key, attempts)
    {
      ok := && key in outbox && outbox[key].status.OutboxSending? && outbox[key].attempts == attempts
            && sub.enabled && sub.version == outbox[key].preference;
    }

    /**
     One claimed row of an away reminder; `school` and `time` say what the school answers and what the clock shows at
     each point of the trace. If the row is published, then in this order: the school confirmed that the student is
     still away from this reservation, for long enough as far as it knows; claim and subscription were found to hold;
     and the latest episode of the reservation was open with exactly the row's number. At the publication that is
     still so exactly when no transaction since has closed the episode. Any other answer prevents the publication; one
     that says the departure is over makes the sender close the episode accordingly, and no other one does. If nothing
     else happens, the school is asked only about a row that may be sent, and a row that is not published is dropped
     unless the school cannot be reached.
     */
    method SendRow(key: Key, attempts: nat, preference: int, end: int, school: nat -> Option<Answer>, time: nat -> int,
        reachable: bool, alone: bool, healthy: bool)
      returns (published: bool, ghost heard: bool, ghost heardAt: nat, ghost canSendAt: nat, ghost checkedAt: nat,
               ghost publishedAt: nat)
      requires Valid()
      modifies this
      ensures Valid() && old(trace) <= trace
      ensures published ==>
                && |old(trace)| <= heardAt <= canSendAt <= checkedAt <= publishedAt <= |trace|
                && heard && AwayLongEnough(key, end, school(heardAt), time(heardAt))
                && CanSend(Run(trace[..canSendAt]), key, attempts)
                && IsCurrent(Run(trace[..checkedAt]).episodes, key.reservation, key.version)
                && (Open(Run(trace[..publishedAt]).episodes, key.reservation, key.version) <==>
                    forall k | checkedAt <= k < publishedAt ::
                        !Closes(Run(trace[..k]), trace[k], key.reservation, key.version))
      ensures heard ==> |old(trace)| <= heardAt <= |trace|
      ensures heard && !AwayLongEnough(key, end, school(heardAt), time(heardAt)) ==>
                && !published
                && (forall state | Over(key, end, school(heardAt), time(heardAt), state) ::
                      heardAt < |trace| && trace[heardAt] == End(key.reservation, preference, key.version, state))
                && ((forall state :: !Over(key, end, school(heardAt), time(heardAt), state)) ==>
                      |trace| == heardAt || trace[heardAt..] == [OnRow(key, FinishRow(attempts, OutboxSuppressed))])
      ensures alone && heard ==>
                CanSend(old(Now()), key, attempts) && Open(old(episodes), key.reservation, key.version)
      ensures heard ==> reachable
      ensures alone && healthy && reachable && !published && HoldsRow(old(Now()), key, attempts) ==>
                key in outbox && outbox[key].status.OutboxSuppressed?
    {
      hide Apply, Run, CanSend, IsCurrent, Open, Closes, AwayLongEnough, Over, Judge;
      published, heard, heardAt, canSendAt, checkedAt, publishedAt := false, false, 0, 0, 0, 0;
      var refused: bool := *;
      if refused {
        FinishOutbox(key, attempts, OutboxSuppressed, healthy);
        return;
      }
      Meanwhile(alone);
      var ok := CanSendOutbox(key, attempts);
      if !ok {
        FinishOutbox(key, attempts, OutboxSuppressed, healthy);
        return;
      }
      Meanwhile(alone);
      var reservationActive: bool := *;
      var current := AwayEpisodeCurrent(key.reservation, key.version);
      if !reservationActive || !current {
        FinishOutbox(key, attempts, OutboxSuppressed, healthy);
        return;
      }
      Meanwhile(alone);
      if !reachable {
        return;
      }
      heard, heardAt := true, |trace|;
      published, canSendAt, checkedAt, publishedAt :=
        FollowAnswer(key, attempts, preference, end, school(|trace|), time(|trace|), alone, healthy);
    }

    /** The sender from the school's answer on. */
    method FollowAnswer(key: Key, attempts: nat, preference: int, end: int, answer: Option<Answer>, now: int,
        alone: bool, healthy: bool)
      returns (published: bool, ghost canSendAt: nat, ghost checkedAt: nat, ghost publishedAt: nat)
      requires Valid()
      modifies this
      ensures Valid() && old(trace) <= trace
      ensures published ==>
                && |old(trace)| <= canSendAt <= checkedAt <= publishedAt <= |trace|
                && AwayLongEnough(key, end, answer, now)
                && CanSend(Run(trace[..canSendAt]), key, attempts)
                && IsCurrent(Run(trace[..checkedAt]).episodes, key.reservation, key.version)
                && (Open(Run(trace[..publishedAt]).episodes, key.reservation, key.version) <==>
                    forall k | checkedAt <= k < publishedAt ::
                        !Closes(Run(trace[..k]), trace[k], key.reservation, key.version))
      ensures !AwayLongEnough(key, end, answer, now) ==>
                && !published
                && (forall state | Over(key, end, answer, now, state) ::
                      |old(trace)| < |trace| &&
                      trace[|old(trace)|] == End(key.reservation, preference, key.version, state))
                && ((forall state :: !Over(key, end, answer, now, state)) ==>
                      trace == old(trace) || trace == old(trace) + [OnRow(key, FinishRow(attempts, OutboxSuppressed))])
      ensures alone && healthy && !published && HoldsRow(old(Now()), key, attempts) ==>
                key in outbox && outbox[key].status.OutboxSuppressed?
    {
      hide Apply, Run, CanSend, IsCurrent, Open, Closes, AwayLongEnough, Over, Judge;
      published, canSendAt, checkedAt, publishedAt := false, 0, 0, 0;
      JudgeIff(key, end, answer, now);
      match Judge(key, end, answer, now) {
        case NotAway(state) =>
          var ended := EndAwayEpisode(key.reservation, preference, key.version, state);
          if !ended {
            FinishOutbox(key, attempts, OutboxSuppressed, healthy);
          }
          return;
        case TimeChanged =>
          FinishOutbox(key, attempts, OutboxSuppressed, healthy);
          return;
        case TooShort =>
          FinishOutbox(key, attempts, OutboxSuppressed, healthy);
          return;
        case StillAway =>
      }
      Meanwhile(alone);
      var ok: bool;
      ok, canSendAt, checkedAt := LastLocalCheck(key, attempts, alone);
      var expired: bool := *;
      if !ok || expired {
        FinishOutbox(key, attempts, OutboxSuppressed, healthy);
        return;
      }
      publishedAt := Publish(key, attempts, canSendAt, checkedAt, alone, healthy);
      published := true;
    }

    /** The remote call and the bookkeeping after it; anything may happen between the check and the call. */
    method Publish(key: Key, attempts: nat, ghost canSendAt: nat, ghost checkedAt: nat, alone: bool, healthy: bool)
      returns (ghost publishedAt: nat)
      requires Valid() && canSendAt <= checkedAt == |trace|
      requires Open(Run(trace).episodes, key.reservation, key.version)
      modifies this
      ensures Valid() && old(trace) <= trace && checkedAt <= publishedAt <= |trace|
      ensures trace[..canSendAt] == old(trace)[..canSendAt] && trace[..checkedAt] == old(trace)
      ensures Open(Run(trace[..publishedAt]).episodes, key.reservation, key.version) <==>
                forall k | checkedAt <= k < publishedAt ::
                    !Closes(Run(trace[..k]), trace[k], key.reservation, key.version)
    {
      hide Apply, Run, Open, Closes;
      Meanwhile(alone);
      publishedAt := |trace|;
      ghost var whole := trace;
      assert whole[..publishedAt] == whole && whole[..checkedAt] == old(trace);
      StillOpenIff(whole, checkedAt, publishedAt, key.reservation, key.version);
      var result: RowStatus := *;
      FinishOutbox(key, attempts, result, healthy);
      SamePrefix(whole, trace, key.reservation, key.version, canSendAt, checkedAt, publishedAt);
    }

    /** The second check of claim and subscription, and then the check of the episode. */
    method LastLocalCheck(key: Key, attempts: nat, alone: bool)
      returns (ok: bool, ghost canSendAt: nat, ghost checkedAt: nat)
      requires Valid()
      modifies this
      ensures Valid() && old(trace) <= trace && (alone ==> Now() == old(Now()))
      ensures ok ==>
                && |old(trace)| <= canSendAt <= checkedAt == |trace|
                && CanSend(Run(trace[..canSendAt]), key, attempts)
                && IsCurrent(Run(trace).episodes, key.reservation, key.version)
                && Open(Run(trace).episodes, key.reservation, key.version)
    {
      hide Apply, Run, CanSend, IsCurrent, Open;
      canSendAt := |trace|;
      assert trace[..canSendAt] == trace;
      ok := CanSendOutbox(key, attempts);
      Meanwhile(alone);
      checkedAt := |trace|;
      assert trace[..canSendAt] == old(trace);
      if ok {
        ok := AwayEpisodeCurrent(key.reservation, key.version);
        if ok {
          OpenIsCurrent(trace, key.reservation, key.version);
        }
      }
    }
  }

  lemma {:induction false} SendingIsDropped(s: State, t: State, reservation: string)
    requires t.outbox == CancelRows(s.outbox, reservation)
    ensures forall key, attempts | HoldsRow(s, key, attempts) && key.reservation == reservation ::
              key in t.outbox && t.outbox[key].status.OutboxSuppressed?
  {
  }

  lemma {:induction false} SamePrefix(trace: seq<Step>, later: seq<Step>, reservation: string, version: nat, a: nat,
      b: nat, c: nat)
    requires trace <= later && a <= b <= c <= |trace|
    ensures trace[..a] == later[..a] && trace[..b] == later[..b] && trace[..c] == later[..c]
    ensures (forall k | b <= k < c :: !Closes(Run(trace[..k]), trace[k], reservation, version))
       <==> (forall k | b <= k < c :: !Closes(Run(later[..k]), later[k], reservation, version))
  {
    hide Run, Closes;
    forall k | b <= k < c ensures trace[..k] == later[..k] && trace[k] == later[k] {
    }
  }

  lemma {:induction false} Extends(trace: seq<Step>, step: Step)
    ensures Run(trace + [step]) == Apply(Run(trace), step)
  {
    assert (trace + [step])[..|trace|] == trace;
  }

  lemma {:induction false} OpenIsCurrent(trace: seq<Step>, reservation: string, version: nat)
    requires version > 0 && Open(Run(trace).episodes, reservation, version)
    ensures IsCurrent(Run(trace).episodes, reservation, version)
  {
    hide Run, IsCurrent;
    RunKeepsInv(trace);
    CurrentIffOpen(Run(trace).episodes, reservation, version);
  }

  lemma {:induction false} EndCloses(trace: seq<Step>, reservation: string, preference: int, version: nat,
      state: AwayState)
    requires !state.Away? && Ends(Run(trace), reservation, preference, version)
    ensures var s, t := Run(trace), EndedBy(Run(trace), reservation, preference, version, state);
            Open(s.episodes, reservation, version) && !Open(t.episodes, reservation, version) && NoWork(t)
  {
    hide Run, CloseAway;
    RunKeepsInv(trace);
    var s := Run(trace);
    var i := Latest(s.episodes, reservation).value;
    assert OpenAt(s.episodes, i, reservation, version);
    CloseKeepsInv(s, i, state);
    NoneOpen(CloseAway(s, i, state).episodes, reservation, version);
  }
}
