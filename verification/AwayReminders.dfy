/**
 From away episodes to reminders: jobs, outbox rows and the transactions that move them, for one student.

 `Step` lists every transaction that touches the away reminders; a run is any sequence of them. Which rows are due,
 which claims are stale and what the school answers are choices of the run.
 */
module AwayReminders {
  import opened Outcomes
  import opened AwayEpisodes

  datatype Kind = Away60 | Away80

  /** A job and its outbox row share one logical key. */
  datatype Key = Key(reservation: string, version: nat, kind: Kind)

  datatype JobStatus = JobPending | JobRunning | JobDone | JobSuppressed | JobCancelled

  /** `claim` is the row's version: a claim holds only as long as it does not change. */
  datatype Job = Job(status: JobStatus, claim: nat, attempts: nat, preference: int, runAt: int, byFeature: bool)

  datatype RowStatus = OutboxPending | OutboxSending | OutboxSent | OutboxFailed | OutboxSuppressed

  datatype Row = Row(status: RowStatus, attempts: nat, preference: int)

  datatype Subscription = Subscription(enabled: bool, version: int)

  type Jobs = map<Key, Job>
  type Outbox = map<Key, Row>

  datatype State = State(episodes: Table, sub: Subscription, jobs: Jobs, outbox: Outbox)

  /** What the school reports about the current reservation; `live` means neither terminal nor over. */
  datatype Seen = Seen(reservation: string, live: bool, away: bool, minutes: int)

  predicate JobOpen(j: Job) {
    j.status.JobPending? || j.status.JobRunning?
  }

  predicate RowOpen(r: Row) {
    r.status.OutboxPending? || r.status.OutboxSending? || r.status.OutboxFailed?
  }

  predicate SubscriptionIs(sub: Subscription, preference: int) {
    sub.enabled && sub.version == preference
  }

  function Minus1(n: nat): nat {
    if n > 0 then n - 1 else 0
  }

  // ----- What the transactions do -----------------------------------------------------------------------------------

  function CancelJobs(jobs: Jobs, reservation: string): Jobs {
    map k | k in jobs ::
      if k.reservation == reservation && JobOpen(jobs[k])
        then jobs[k].(status := JobCancelled, claim := jobs[k].claim + 1) else jobs[k]
  }

  function CancelRows(outbox: Outbox, reservation: string): Outbox {
    map k | k in outbox :: if k.reservation == reservation && RowOpen(outbox[k])
      then outbox[k].(status := OutboxSuppressed) else outbox[k]
  }

  function CancelWork(s: State, reservation: string): State {
    s.(jobs := CancelJobs(s.jobs, reservation), outbox := CancelRows(s.outbox, reservation))
  }

  /** Closing an episode and cancelling its work is one transaction. */
  function CloseAway(s: State, i: nat, state: AwayState): State
    requires i < |s.episodes|
  {
    CancelWork(s.(episodes := Close(s.episodes, i, state)), s.episodes[i].reservation)
  }

  function EndActive(s: State): State {
    match LatestActive(s.episodes)
    case Some(i) => CloseAway(s, i, Ended)
    case None => s
  }

  /** A finished job is not revived, except after a cancellation or when a switched-off feature suppressed it. */
  function Upsert(jobs: Jobs, key: Key, runAt: int, preference: int): Jobs {
    if key !in jobs then jobs[key := Job(JobPending, 1, 0, preference, runAt, false)]
    else
      var j := jobs[key];
      if j.status.JobDone? || j.status.JobRunning? then jobs
      else if j.status.JobPending? && (j.attempts > 0 || runAt >= j.runAt) then jobs
      else if j.status.JobSuppressed? && j.preference == preference && !j.byFeature then jobs
      else jobs[key := j.(status := JobPending, claim := j.claim + 1, preference := preference, runAt := runAt)]
  }

  function Schedule(s: State, reservation: string, away60: bool, away80: bool): State
    requires Latest(s.episodes, reservation).Some?
  {
    var e := s.episodes[Latest(s.episodes, reservation).value];
    var with60 :=
      if away60 then Upsert(s.jobs, Key(reservation, e.version, Away60), e.startedAt + 3600, s.sub.version)
      else s.jobs;
    s.(jobs :=
      if away80 then Upsert(with60, Key(reservation, e.version, Away80), e.startedAt + 4800, s.sub.version)
      else with60)
  }

  /** The transaction of an active scan. */
  function Observed(s: State, preference: int, current: Option<Seen>, now: int, away60: bool, away80: bool): State {
    if !SubscriptionIs(s.sub, preference) then s
    else if current.None? then EndActive(s)
    else
      var seen := current.value;
      if !seen.live then EndActive(CancelWork(s, seen.reservation))
      else
        var open := LatestActive(s.episodes);
        var t :=
          if open.Some? && s.episodes[open.value].reservation != seen.reservation
          then CloseAway(s, open.value, Ended) else s;
        if seen.away then
          var u := t.(episodes := Depart(t.episodes, seen.reservation, seen.minutes, now));
          DepartHasLatest(t.episodes, seen.reservation, seen.minutes, now);
          Schedule(u, seen.reservation, away60, away80)
        else
          var latest := Latest(t.episodes, seen.reservation);
          if latest.Some? && t.episodes[latest.value].state.Away? then CloseAway(t, latest.value, Returned) else t
  }

  /** Whether `endAwayEpisode` will close the episode it was asked to. */
  predicate Ends(s: State, reservation: string, preference: int, version: nat) {
    && SubscriptionIs(s.sub, preference)
    && Latest(s.episodes, reservation).Some?
    && s.episodes[Latest(s.episodes, reservation).value].state.Away?
    && s.episodes[Latest(s.episodes, reservation).value].version == version
  }

  function EndedBy(s: State, reservation: string, preference: int, version: nat, state: AwayState): State {
    if Ends(s, reservation, preference, version) then CloseAway(s, Latest(s.episodes, reservation).value, state) else s
  }

  /** Every unfinished job and row of the student. */
  function SuppressAll(s: State, status: JobStatus, byFeature: bool): State {
    s.(jobs := map k | k in s.jobs ::
         if JobOpen(s.jobs[k]) then s.jobs[k].(status := status, claim := s.jobs[k].claim + 1, byFeature := byFeature)
           else s.jobs[k],
       outbox := map k | k in s.outbox ::
         if RowOpen(s.outbox[k]) then s.outbox[k].(status := OutboxSuppressed) else s.outbox[k])
  }

  /** Before claiming, work of another preference version is dropped. */
  function DropStale(s: State): State {
    s.(jobs := map k | k in s.jobs ::
         var j := s.jobs[k];
         if j.status.JobPending? && !SubscriptionIs(s.sub, j.preference)
           then j.(status := JobSuppressed, byFeature := false) else j,
       outbox := map k | k in s.outbox ::
         var r := s.outbox[k];
         if (r.status.OutboxPending? || r.status.OutboxFailed?) && !SubscriptionIs(s.sub, r.preference)
           then r.(status := OutboxSuppressed)
         else r)
  }

  datatype Step =
    | Observe(preference: int, current: Option<Seen>, now: int, away60: bool, away80: bool)
    | End(reservation: string, preference: int, version: nat, state: AwayState)
    | Prefer(enabled: bool)
    | Reset(enabled: bool)
    | SwitchOff
    | Cancel(reservation: string)
    | DropStaleWork
    | OnJob(key: Key, job: JobStep)
    | OnRow(key: Key, row: RowStep)

  datatype JobStep = ClaimJob | ReleaseJob(claim: nat) | RecoverJob | FinishJob(claim: nat, again: Option<int>,
      byFeature: bool) | CompleteJob(claim: nat) | DeleteJob

  datatype RowStep = ClaimRow | ReleaseRow(attempts: nat) | RecoverRow | FinishRow(attempts: nat,
      status: RowStatus) | DeleteRow

  predicate HoldsJob(s: State, key: Key, claim: nat) {
    key in s.jobs && s.jobs[key].status.JobRunning? && s.jobs[key].claim == claim
  }

  predicate HoldsRow(s: State, key: Key, attempts: nat) {
    key in s.outbox && s.outbox[key].status.OutboxSending? && s.outbox[key].attempts == attempts
  }

  /** Given back unfinished: the attempt does not count, and the old claim no longer holds. */
  function Released(j: Job): Job {
    j.(status := JobPending, attempts := Minus1(j.attempts), claim := j.claim + 1)
  }

  function ApplyToJob(s: State, key: Key, step: JobStep): State
    requires key in s.jobs
  {
    var j := s.jobs[key];
    match step
    case ClaimJob =>
      if j.status.JobPending? && SubscriptionIs(s.sub, j.preference) then
        s.(jobs := s.jobs[key := j.(status := JobRunning, attempts := j.attempts + 1, claim := j.claim + 1)])
      else s
    case ReleaseJob(claim) =>
      if HoldsJob(s, key, claim) then s.(jobs := s.jobs[key := Released(j)]) else s
    case RecoverJob =>
      if j.status.JobRunning? then s.(jobs := s.jobs[key := Released(j)]) else s
    case FinishJob(claim, again, byFeature) =>
      if !HoldsJob(s, key, claim) then s
      else if again.Some? then s.(jobs := s.jobs[key := j.(status := JobPending, runAt := again.value)])
      else s.(jobs := s.jobs[key := j.(status := JobSuppressed, byFeature := byFeature)])
    case CompleteJob(claim) =>
      if HoldsJob(s, key, claim) then
        s.(jobs := s.jobs[key := j.(status := JobDone)],
           outbox := if key in s.outbox then s.outbox else s.outbox[key := Row(OutboxPending, 0, j.preference)])
      else s
    case DeleteJob =>
      if JobOpen(j) then s else s.(jobs := s.jobs - {key})
  }

  function ApplyToRow(s: State, key: Key, step: RowStep): State
    requires key in s.outbox
  {
    var r := s.outbox[key];
    match step
    case ClaimRow =>
      if r.status.OutboxPending? || r.status.OutboxFailed? then
        s.(outbox := s.outbox[key := r.(status := OutboxSending, attempts := r.attempts + 1)])
      else s
    case ReleaseRow(attempts) =>
      if HoldsRow(s, key, attempts)
        then s.(outbox := s.outbox[key := r.(status := OutboxPending, attempts := Minus1(attempts))]) else s
    case RecoverRow =>
      if r.status.OutboxSending? then s.(outbox := s.outbox[key := r.(status := OutboxFailed)]) else s
    case FinishRow(attempts, status) =>
      if HoldsRow(s, key, attempts) then s.(outbox := s.outbox[key := r.(status := status)]) else s
    case DeleteRow =>
      if r.status.OutboxPending? || r.status.OutboxSending? then s else s.(outbox := s.outbox - {key})
  }

  function Apply(s: State, step: Step): State {
    match step
    case Observe(preference, current, now, away60, away80) => Observed(s, preference, current, now, away60, away80)
    case End(reservation, preference, version, state) => if state.Away? then s
      else EndedBy(s, reservation, preference, version, state)
    case Prefer(enabled) =>
      var t := s.(sub := if enabled == s.sub.enabled then s.sub else Subscription(enabled, s.sub.version + 1));
      if enabled then t else SuppressAll(t, JobCancelled, false)
    case Reset(enabled) => SuppressAll(s.(sub := Subscription(enabled, s.sub.version + 1)), JobCancelled, false)
    case SwitchOff => SuppressAll(s, JobSuppressed, true)
    case Cancel(reservation) => CancelWork(s, reservation)
    case DropStaleWork => DropStale(s)
    case OnJob(key, job) => if key in s.jobs then ApplyToJob(s, key, job) else s
    case OnRow(key, row) => if key in s.outbox then ApplyToRow(s, key, row) else s
  }

  function Run(steps: seq<Step>): State {
    if steps == [] then State([], Subscription(false, 0), map[], map[])
    else Apply(Run(steps[..|steps| - 1]), steps[|steps| - 1])
  }

  // ----- What holds in every run ------------------------------------------------------------------------------------

  /** Unfinished work always belongs to the open episode. */
  ghost predicate WorkIsOpen(s: State) {
    && (forall k | k in s.jobs && JobOpen(s.jobs[k]) :: Open(s.episodes, k.reservation, k.version))
    && (forall k | k in s.outbox && RowOpen(s.outbox[k]) :: Open(s.episodes, k.reservation, k.version))
  }

  ghost predicate Inv(s: State) {
    Sound(s.episodes) && WorkIsOpen(s)
  }

  lemma {:induction false} DepartHasLatest(es: Table, reservation: string, minutes: int, now: int)
    ensures Latest(Depart(es, reservation, minutes, now), reservation).Some?
  {
    var later := Depart(es, reservation, minutes, now);
    var latest := Latest(es, reservation);
    if latest.Some? && es[latest.value].state.Away? {
      HasLatest(later, reservation, latest.value);
    } else {
      HasLatest(later, reservation, |es|);
    }
  }

  lemma {:induction false} HasLatest(es: Table, reservation: string, i: nat)
    requires i < |es| && es[i].reservation == reservation
    ensures Latest(es, reservation).Some?
  {
    if i < |es| - 1 {
      HasLatest(es[..|es| - 1], reservation, i);
    }
  }

  /** Taking work away, or changing it without finishing anything unfinished, keeps the invariant. */
  lemma {:induction false} LessWork(s: State, t: State)
    requires Inv(s) && t.episodes == s.episodes
    requires forall k | k in t.jobs && JobOpen(t.jobs[k]) :: k in s.jobs && JobOpen(s.jobs[k])
    requires forall k | k in t.outbox && RowOpen(t.outbox[k]) ::
               (k in s.outbox && RowOpen(s.outbox[k])) || (k in s.jobs && JobOpen(s.jobs[k]))
    ensures Inv(t)
  {
  }

  ghost predicate NoWork(s: State) {
    && (forall k | k in s.jobs :: !JobOpen(s.jobs[k]))
    && (forall k | k in s.outbox :: !RowOpen(s.outbox[k]))
  }

  /** Closing the open episode leaves nothing unfinished at all. */
  lemma {:induction false} CloseKeepsInv(s: State, i: nat, state: AwayState)
    requires Inv(s) && i < |s.episodes| && s.episodes[i].state.Away? && !state.Away?
    ensures Inv(CloseAway(s, i, state)) && NoWork(CloseAway(s, i, state))
    ensures Evolves(s.episodes, CloseAway(s, i, state).episodes)
    ensures LatestActive(CloseAway(s, i, state).episodes).None?
  {
    hide Sound, Evolves;
    CloseIsSound(s.episodes, i, state);
    var t := CloseAway(s, i, state);
    forall k | k in t.jobs ensures !JobOpen(t.jobs[k]) {
      OnlyOneOpen(s.episodes, i, k.reservation, k.version);
    }
    forall k | k in t.outbox ensures !RowOpen(t.outbox[k]) {
      OnlyOneOpen(s.episodes, i, k.reservation, k.version);
    }
  }

  lemma {:induction false} CancelKeepsInv(s: State, reservation: string)
    requires Inv(s)
    ensures Inv(CancelWork(s, reservation))
  {
    LessWork(s, CancelWork(s, reservation));
  }

  lemma {:induction false} EndActiveKeepsInv(s: State)
    requires Inv(s)
    ensures Inv(EndActive(s)) && Evolves(s.episodes, EndActive(s).episodes)
    ensures LatestActive(EndActive(s).episodes).None?
  {
    hide Inv, CloseAway;
    var open := LatestActive(s.episodes);
    if open.Some? {
      CloseKeepsInv(s, open.value, Ended);
    }
  }

  /** Scheduling adds work only for the latest episode, which has to be open. */
  lemma {:induction false} ScheduleKeepsInv(s: State, reservation: string, away60: bool, away80: bool)
    requires Inv(s) && Latest(s.episodes, reservation).Some? &&
             s.episodes[Latest(s.episodes, reservation).value].state.Away?
    ensures Inv(Schedule(s, reservation, away60, away80)) &&
            Schedule(s, reservation, away60, away80).episodes == s.episodes
  {
    var i := Latest(s.episodes, reservation).value;
    var e := s.episodes[i];
    assert OpenAt(s.episodes, i, reservation, e.version);
    var t := Schedule(s, reservation, away60, away80);
    forall k | k in t.jobs && JobOpen(t.jobs[k]) ensures Open(t.episodes, k.reservation, k.version) {
      assert (k in s.jobs && JobOpen(s.jobs[k])) || (k.reservation == reservation && k.version == e.version);
    }
  }

  lemma {:induction false} DepartKeepsInv(s: State, reservation: string, minutes: int, now: int)
    requires Inv(s) && forall i | 0 <= i < |s.episodes| && s.episodes[i].state.Away? ::
               s.episodes[i].reservation == reservation
    ensures var later := Depart(s.episodes, reservation, minutes, now);
            && Inv(s.(episodes := later)) && Evolves(s.episodes, later)
            && Latest(later, reservation).Some? && later[Latest(later, reservation).value].state.Away?
  {
    hide Sound;
    var later := Depart(s.episodes, reservation, minutes, now);
    DepartIsSound(s.episodes, reservation, minutes, now);
    forall r: string, v: nat | Open(s.episodes, r, v) ensures Open(later, r, v) {
      var i: nat :| OpenAt(s.episodes, i, r, v);
      assert OpenAt(later, i, r, v);
    }
  }

  lemma {:induction false} EvolvesFromItself(es: Table)
    ensures Evolves(es, es)
  {
  }

  lemma {:induction false} OneReservation(es: Table, i: nat)
    requires Sound(es) && LatestActive(es) == Some(i)
    ensures forall k | 0 <= k < |es| && es[k].state.Away? :: k == i
  {
  }

  lemma {:induction false} ObserveLive(s: State, preference: int, seen: Seen, now: int, away60: bool, away80: bool)
    requires Inv(s) && SubscriptionIs(s.sub, preference) && seen.live
    ensures var t := Observed(s, preference, Some(seen), now, away60, away80); Inv(t) && Evolves(s.episodes, t.episodes)
  {
    hide Inv, CloseAway, Sound, Evolves, Depart, Schedule;
    var open := LatestActive(s.episodes);
    EvolvesFromItself(s.episodes);
    assert Sound(s.episodes) by { SoundOf(s); }
    var t := s;
    if open.Some? {
      if s.episodes[open.value].reservation != seen.reservation {
        t := CloseAway(s, open.value, Ended);
        CloseKeepsInv(s, open.value, Ended);
      } else {
        OneReservation(s.episodes, open.value);
      }
    }
    assert Sound(t.episodes) by { SoundOf(t); }
    if seen.away {
      DepartKeepsInv(t, seen.reservation, seen.minutes, now);
      var u := t.(episodes := Depart(t.episodes, seen.reservation, seen.minutes, now));
      ScheduleKeepsInv(u, seen.reservation, away60, away80);
      EvolvesFurther(s.episodes, t.episodes, u.episodes);
    } else {
      var latest := Latest(t.episodes, seen.reservation);
      if latest.Some? && t.episodes[latest.value].state.Away? {
        CloseKeepsInv(t, latest.value, Returned);
        EvolvesFurther(s.episodes, t.episodes, CloseAway(t, latest.value, Returned).episodes);
      }
    }
  }

  lemma {:induction false} SoundOf(s: State)
    requires Inv(s)
    ensures Sound(s.episodes)
  {
  }

  lemma {:induction false} JobStepKeepsInv(s: State, key: Key, step: JobStep)
    requires Inv(s) && key in s.jobs
    ensures Inv(ApplyToJob(s, key, step)) && ApplyToJob(s, key, step).episodes == s.episodes
  {
    hide Inv;
    LessWork(s, ApplyToJob(s, key, step));
  }

  lemma {:induction false} RowStepKeepsInv(s: State, key: Key, step: RowStep)
    requires Inv(s) && key in s.outbox
    ensures Inv(ApplyToRow(s, key, step)) && ApplyToRow(s, key, step).episodes == s.episodes
  {
    hide Inv;
    LessWork(s, ApplyToRow(s, key, step));
  }

  /** Every transaction keeps the invariant, and lets the table of episodes only evolve. */
  lemma {:induction false} StepKeepsInv(s: State, step: Step)
    requires Inv(s)
    ensures Inv(Apply(s, step)) && Evolves(s.episodes, Apply(s, step).episodes)
  {
    hide Inv, Sound, Evolves, CloseAway, Depart, Schedule;
    EvolvesFromItself(s.episodes);
    match step
    case Observe(preference, current, now, away60, away80) =>
      if SubscriptionIs(s.sub, preference) {
        if current.Some? && current.value.live {
          ObserveLive(s, preference, current.value, now, away60, away80);
        } else {
          hide Latest;
          EndActiveKeepsInv(s);
          if current.Some? {
            CancelKeepsInv(s, current.value.reservation);
            EndActiveKeepsInv(CancelWork(s, current.value.reservation));
          }
        }
      }
    case End(reservation, preference, version, state) =>
      if !state.Away? && Ends(s, reservation, preference, version) {
        CloseKeepsInv(s, Latest(s.episodes, reservation).value, state);
      }
    case Cancel(reservation) => CancelKeepsInv(s, reservation);
    case OnJob(key, job) =>
      if key in s.jobs {
        JobStepKeepsInv(s, key, job);
      }
    case OnRow(key, row) =>
      if key in s.outbox {
        RowStepKeepsInv(s, key, row);
      }
    case _ => LessWork(s, Apply(s, step));
  }

  /**
   In every run: at most one episode of the student is open; per reservation they are numbered 1, 2, 3, ..., each opened
   after the previous one was closed; and unfinished jobs and rows all belong to the open one.
   */
  lemma {:induction false} RunKeepsInv(steps: seq<Step>)
    ensures Inv(Run(steps))
  {
    hide Inv, Apply;
    if steps == [] {
      StartsSound();
    } else {
      RunKeepsInv(steps[..|steps| - 1]);
      StepKeepsInv(Run(steps[..|steps| - 1]), steps[|steps| - 1]);
    }
  }

  lemma {:induction false} StartsSound()
    ensures Inv(Run([]))
  {
  }

  /** Between any two points of a run no departure time moves and no closed episode reopens. */
  lemma {:induction false} RunEvolves(steps: seq<Step>, a: nat, b: nat)
    requires a <= b <= |steps|
    ensures Evolves(Run(steps[..a]).episodes, Run(steps[..b]).episodes)
    decreases b
  {
    hide Evolves, Apply;
    if a == b {
      EvolvesFromItself(Run(steps[..a]).episodes);
    } else {
      RunEvolves(steps, a, b - 1);
      RunKeepsInv(steps[..b - 1]);
      assert steps[..b][..b - 1] == steps[..b - 1];
      StepKeepsInv(Run(steps[..b - 1]), steps[b - 1]);
      EvolvesFurther(Run(steps[..a]).episodes, Run(steps[..b - 1]).episodes, Run(steps[..b]).episodes);
    }
  }

  // ----- What an absence brings about -------------------------------------------------------------------------------

  /**
   Which jobs scheduling puts up (again): new and cancelled ones, those that were dropped for another preference or a
   switched-off feature, and those that were never tried and are due earlier now.
   */
  ghost predicate IsPutUp(s: State, key: Key, runAt: int) {
    || key !in s.jobs || s.jobs[key].status.JobCancelled?
    || (s.jobs[key].status.JobSuppressed? && (s.jobs[key].preference != s.sub.version || s.jobs[key].byFeature))
    || (s.jobs[key].status.JobPending? && s.jobs[key].attempts == 0 && runAt < s.jobs[key].runAt)
  }

  /** With the feature on there is a job for the key, put up for the given time or as it was; with it off all stays. */
  ghost predicate Scheduled(s: State, t: State, key: Key, on: bool, runAt: int) {
    if on then
      && key in t.jobs
      && (IsPutUp(s, key, runAt) ==>
            && t.jobs[key].status.JobPending? && t.jobs[key].runAt == runAt && t.jobs[key].preference == s.sub.version
            && (key in s.jobs ==> t.jobs[key].claim > s.jobs[key].claim))
      && (!IsPutUp(s, key, runAt) ==> t.jobs[key] == s.jobs[key])
    else
      (key in t.jobs <==> key in s.jobs) && (key in s.jobs ==> t.jobs[key] == s.jobs[key])
  }

  /** The reminders of departure `version`: after 60 and after 80 minutes, counted from the departure in row `i`. */
  ghost predicate RemindersOf(s: State, t: State, i: nat, reservation: string, version: nat, away60: bool,
      away80: bool) {
    && OpenAt(t.episodes, i, reservation, version)
    && Scheduled(s, t, Key(reservation, version, Away60), away60, t.episodes[i].startedAt + 60 * 60)
    && Scheduled(s, t, Key(reservation, version, Away80), away80, t.episodes[i].startedAt + 80 * 60)
  }

  /** An observed absence belongs to one open departure, which began that many minutes ago if it is new. */
  lemma {:induction false} AbsenceSchedules(s: State, preference: int, seen: Seen, now: int, away60: bool,
      away80: bool) returns (i: nat)
    requires Inv(s) && SubscriptionIs(s.sub, preference) && seen.live && seen.away
    ensures var t := Observed(s, preference, Some(seen), now, away60, away80);
            && i < |t.episodes| && RemindersOf(s, t, i, seen.reservation, t.episodes[i].version, away60, away80)
            && (i >= |s.episodes| ==> t.episodes[i].startedAt == now - 60 * seen.minutes)
  {
    hide Inv, CloseAway, Sound, Evolves, Depart, Schedule;
    var open := LatestActive(s.episodes);
    assert Sound(s.episodes) by { SoundOf(s); }
    var t := s;
    if open.Some? {
      if s.episodes[open.value].reservation != seen.reservation {
        t := CloseAway(s, open.value, Ended);
        CloseKeepsInv(s, open.value, Ended);
        OthersKept(s, open.value, seen.reservation);
      } else {
        OneReservation(s.episodes, open.value);
      }
    }
    assert Sound(t.episodes) by { SoundOf(t); }
    DepartKeepsInv(t, seen.reservation, seen.minutes, now);
    var u := t.(episodes := Depart(t.episodes, seen.reservation, seen.minutes, now));
    assert Sound(u.episodes) by { SoundOf(u); }
    i := Latest(u.episodes, seen.reservation).value;
    NewestDeparture(t.episodes, seen.reservation, seen.minutes, now);
    ScheduleSchedules(s, u, seen.reservation, away60, away80);
  }

  lemma {:induction false} OthersKept(s: State, i: nat, reservation: string)
    requires i < |s.episodes| && s.episodes[i].reservation != reservation
    ensures var t := CloseAway(s, i, Ended);
            && |t.episodes| == |s.episodes| && t.sub == s.sub
            && forall k: Key | k.reservation == reservation ::
                 (k in t.jobs <==> k in s.jobs) && (k in s.jobs ==> t.jobs[k] == s.jobs[k])
  {
  }

  lemma {:induction false} NewestDeparture(es: Table, reservation: string, minutes: int, now: int)
    requires Sound(Depart(es, reservation, minutes, now))
    ensures var later := Depart(es, reservation, minutes, now);
            && Latest(later, reservation).Some?
            && (Latest(later, reservation).value >= |es| ==>
                  later[Latest(later, reservation).value].startedAt == now - 60 * minutes)
  {
    hide Sound;
    DepartHasLatest(es, reservation, minutes, now);
  }

  lemma {:induction false} ScheduleSchedules(s: State, u: State, reservation: string, away60: bool, away80: bool)
    requires Latest(u.episodes, reservation).Some? && u.sub == s.sub
    requires u.episodes[Latest(u.episodes, reservation).value].state.Away?
    requires forall k: Key | k.reservation == reservation ::
               (k in u.jobs <==> k in s.jobs) && (k in s.jobs ==> u.jobs[k] == s.jobs[k])
    ensures Schedule(u, reservation, away60, away80).episodes == u.episodes
    ensures var i := Latest(u.episodes, reservation).value;
            RemindersOf(s, Schedule(u, reservation, away60, away80), i, reservation, u.episodes[i].version, away60,
                        away80)
  {
  }

  // ----- What is over stays over ------------------------------------------------------------------------------------

  /** What becomes of a job: its claim number never falls, it is claimed only under a new one, and done is done. */
  ghost predicate JobMoves(j: Job, k: Job) {
    && k.claim >= j.claim
    && (k.status.JobRunning? ==> k.claim > j.claim || j.status.JobRunning?)
    && (j.status.JobDone? ==> k == j)
  }

  /** A job moves like that, and a row that was sent or dropped stays as it is. */
  ghost predicate Moves(s: State, t: State, key: Key) {
    && (key in s.jobs ==> key in t.jobs && JobMoves(s.jobs[key], t.jobs[key]))
    && (key in s.outbox && !RowOpen(s.outbox[key]) ==> key in t.outbox && t.outbox[key] == s.outbox[key])
  }

  lemma {:induction false} MovesFurther(s: State, t: State, u: State, key: Key)
    requires Moves(s, t, key) && Moves(t, u, key)
    ensures Moves(s, u, key)
  {
  }

  /**
   So moves what is not claimed or reported on: no job begins to run, and none is taken away under the same number.
   */
  ghost predicate Shifts(s: State, t: State, key: Key) {
    && Moves(s, t, key) && t.outbox.Keys == s.outbox.Keys
    && (key in s.jobs && s.jobs[key].status.JobRunning? ==>
          t.jobs[key] == s.jobs[key] || t.jobs[key].claim > s.jobs[key].claim)
    && (key in s.jobs && t.jobs[key].status.JobRunning? ==> t.jobs[key] == s.jobs[key])
  }

  lemma {:induction false} ShiftsFurther(s: State, t: State, u: State, key: Key)
    requires Shifts(s, t, key) && Shifts(t, u, key)
    ensures Shifts(s, u, key)
  {
  }

  lemma {:induction false} CancelMoves(s: State, reservation: string, key: Key)
    ensures Shifts(s, CancelWork(s, reservation), key)
  {
  }

  lemma {:induction false} CloseMoves(s: State, i: nat, state: AwayState, key: Key)
    requires i < |s.episodes|
    ensures Shifts(s, CloseAway(s, i, state), key)
  {
    hide CancelWork, Close, Shifts;
    CancelMoves(s.(episodes := Close(s.episodes, i, state)), s.episodes[i].reservation, key);
    SameWorkMoves(s, s.(episodes := Close(s.episodes, i, state)), key);
    ShiftsFurther(s, s.(episodes := Close(s.episodes, i, state)), CloseAway(s, i, state), key);
  }

  lemma {:induction false} SameWorkMoves(s: State, t: State, key: Key)
    requires t.jobs == s.jobs && t.outbox == s.outbox
    ensures Shifts(s, t, key)
  {
  }

  lemma {:induction false} UpsertMoves(s: State, k: Key, runAt: int, preference: int, key: Key)
    ensures Shifts(s, s.(jobs := Upsert(s.jobs, k, runAt, preference)), key)
  {
  }

  lemma {:induction false} ScheduleMoves(s: State, reservation: string, away60: bool, away80: bool, key: Key)
    requires Latest(s.episodes, reservation).Some?
    ensures Shifts(s, Schedule(s, reservation, away60, away80), key)
  {
    hide Shifts, Upsert, Latest;
    var e := s.episodes[Latest(s.episodes, reservation).value];
    SameWorkMoves(s, s, key);
    var t := if away60
      then s.(jobs := Upsert(s.jobs, Key(reservation, e.version, Away60), e.startedAt + 3600, s.sub.version)) else s;
    UpsertMoves(s, Key(reservation, e.version, Away60), e.startedAt + 3600, s.sub.version, key);
    UpsertMoves(t, Key(reservation, e.version, Away80), e.startedAt + 4800, s.sub.version, key);
    var u := Schedule(s, reservation, away60, away80);
    if away80 {
      ShiftsFurther(s, t, u, key);
    }
  }

  lemma {:induction false} EndActiveMoves(s: State, key: Key)
    ensures Shifts(s, EndActive(s), key)
  {
    hide Shifts, CloseAway;
    SameWorkMoves(s, s, key);
    if LatestActive(s.episodes).Some? {
      CloseMoves(s, LatestActive(s.episodes).value, Ended, key);
    }
  }

  lemma {:induction false} ObserveMoves(s: State, preference: int, current: Option<Seen>, now: int, away60: bool,
      away80: bool, key: Key)
    ensures Shifts(s, Observed(s, preference, current, now, away60, away80), key)
  {
    hide Shifts, CloseAway, Schedule, CancelWork, EndActive, Depart, Latest;
    SameWorkMoves(s, s, key);
    EndActiveMoves(s, key);
    if current.Some? && SubscriptionIs(s.sub, preference) {
      var seen := current.value;
      if !seen.live {
        CancelMoves(s, seen.reservation, key);
        EndActiveMoves(CancelWork(s, seen.reservation), key);
        ShiftsFurther(s, CancelWork(s, seen.reservation), EndActive(CancelWork(s, seen.reservation)), key);
      } else {
        LiveMoves(s, preference, seen, now, away60, away80, key);
      }
    }
  }

  lemma {:induction false} LiveMoves(s: State, preference: int, seen: Seen, now: int, away60: bool, away80: bool,
      key: Key)
    requires SubscriptionIs(s.sub, preference) && seen.live
    ensures Shifts(s, Observed(s, preference, Some(seen), now, away60, away80), key)
  {
    hide Shifts, CloseAway, Schedule, CancelWork, EndActive, Depart, Latest;
    SameWorkMoves(s, s, key);
    var open := LatestActive(s.episodes);
    var t := s;
    if open.Some? && s.episodes[open.value].reservation != seen.reservation {
      t := CloseAway(s, open.value, Ended);
      CloseMoves(s, open.value, Ended, key);
    }
    var last := Observed(s, preference, Some(seen), now, away60, away80);
    if seen.away {
      DepartHasLatest(t.episodes, seen.reservation, seen.minutes, now);
      var u := t.(episodes := Depart(t.episodes, seen.reservation, seen.minutes, now));
      SameWorkMoves(t, u, key);
      ScheduleMoves(u, seen.reservation, away60, away80, key);
      ShiftsFurther(s, t, u, key);
      ShiftsFurther(s, u, last, key);
    } else if Latest(t.episodes, seen.reservation).Some? {
      CloseMoves(t, Latest(t.episodes, seen.reservation).value, Returned, key);
      SameWorkMoves(t, t, key);
      ShiftsFurther(s, t, last, key);
    }
  }

  /** Every transaction but a clean-up moves the work like that. */
  lemma {:induction false} StepMoves(s: State, step: Step, key: Key)
    requires step != OnJob(key, DeleteJob) && step != OnRow(key, DeleteRow)
    ensures Moves(s, Apply(s, step), key)
  {
    hide Latest, CloseAway, Observed;
    match step
    case Observe(preference, current, now, away60, away80) =>
      ObserveMoves(s, preference, current, now, away60, away80, key);
    case End(reservation, preference, version, state) =>
      SameWorkMoves(s, s, key);
      if Latest(s.episodes, reservation).Some? {
        CloseMoves(s, Latest(s.episodes, reservation).value, state, key);
      }
    case Cancel(reservation) => CancelMoves(s, reservation, key);
    case _ =>
  }

  // ----- Who may do what --------------------------------------------------------------------------------------------

  /** The holder of the claim reports how the job went. */
  ghost predicate IsReport(s: State, step: Step, key: Key) {
    exists claim: nat ::
      HoldsJob(s, key, claim) && ((exists again: Option<int>, byFeature: bool ::
                                     step == OnJob(key, FinishJob(claim, again, byFeature))) ||
                                  step == OnJob(key, CompleteJob(claim)))
  }

  /**
   A job begins to run only under the preference it was made for, and only the holder's report ends it without a new
   claim number. No unfinished job disappears.
   */
  ghost predicate ClaimsKept(s: State, step: Step, key: Key) {
    var t := Apply(s, step);
    && (key in s.jobs && JobOpen(s.jobs[key]) ==> key in t.jobs)
    && (key in s.jobs && s.jobs[key].status.JobRunning? && !IsReport(s, step, key) ==>
          t.jobs[key] == s.jobs[key] || t.jobs[key].claim > s.jobs[key].claim)
    && (key in s.jobs && key in t.jobs && t.jobs[key].status.JobRunning? && t.jobs[key] != s.jobs[key] ==>
          SubscriptionIs(s.sub, s.jobs[key].preference) && t.jobs[key].preference == s.jobs[key].preference)
  }

  lemma {:induction false} StepKeepsClaims(s: State, step: Step, key: Key)
    ensures ClaimsKept(s, step, key)
  {
    hide Latest, Observed, Close, LatestActive;
    match step
    case Observe(preference, current, now, away60, away80) =>
      ObserveMoves(s, preference, current, now, away60, away80, key);
    case OnJob(k, job) =>
      if job.FinishJob? && k == key && HoldsJob(s, key, job.claim) {
        assert step == OnJob(key, FinishJob(job.claim, job.again, job.byFeature));
      }
      if job.CompleteJob? && k == key && HoldsJob(s, key, job.claim) {
        assert step == OnJob(key, CompleteJob(job.claim));
      }
    case _ =>
  }

  /**
   A row appears only when the holder of the job completes it: the job is done then, and the row waits under the same
   preference. A row that waits or is being sent is not removed, and whatever is open and not being sent can be claimed.
   */
  lemma {:induction false} RowsComeFromJobs(s: State, step: Step, key: Key)
    ensures var t := Apply(s, step);
            && (key !in s.outbox ==>
                  (key in t.outbox <==>
                     exists claim: nat :: step == OnJob(key, CompleteJob(claim)) && HoldsJob(s, key, claim)))
            && (key !in s.outbox && key in t.outbox ==>
                  && t.outbox[key] == Row(OutboxPending, 0, s.jobs[key].preference)
                  && t.jobs[key].status.JobDone?)
            && (key in s.outbox && (s.outbox[key].status.OutboxPending? || s.outbox[key].status.OutboxSending?) ==>
                  key in t.outbox)
            && (key in s.outbox && step == OnRow(key, ClaimRow) ==>
                  RowOpen(s.outbox[key]) && !s.outbox[key].status.OutboxSending? ==>
                  HoldsRow(t, key, s.outbox[key].attempts + 1))
  {
    hide Latest, Depart, Close, LatestActive, Schedule, CancelJobs, SuppressAll;
    match step
    case SwitchOff => SuppressAllKeepsKeys(s, JobSuppressed, true);
    case Reset(enabled) =>
      SuppressAllKeepsKeys(s.(sub := Subscription(enabled, s.sub.version + 1)), JobCancelled, false);
    case Prefer(enabled) =>
      var sub := if enabled == s.sub.enabled then s.sub else Subscription(enabled, s.sub.version + 1);
      SuppressAllKeepsKeys(s.(sub := sub), JobCancelled, false);
    case Observe(preference, current, now, away60, away80) =>
      ObserveMoves(s, preference, current, now, away60, away80, key);
    case _ =>
  }

  lemma {:induction false} SuppressAllKeepsKeys(s: State, status: JobStatus, byFeature: bool)
    ensures SuppressAll(s, status, byFeature).outbox.Keys == s.outbox.Keys
  {
  }

  /**
   A claim of a waiting job, and the ways it ends: given back or recovered, the attempt does not count; put off, it
   waits for the new time; dropped, it says whether the feature was off.
   */
  lemma {:induction false} JobClaimAndBack(s: State, key: Key, at: int, byFeature: bool)
    requires key in s.jobs && s.jobs[key].status.JobPending? && SubscriptionIs(s.sub, s.jobs[key].preference)
    ensures var t, j := Apply(s, OnJob(key, ClaimJob)), s.jobs[key];
            && HoldsJob(t, key, j.claim + 1) && t.jobs[key].attempts == j.attempts + 1
            && Apply(t, OnJob(key, ReleaseJob(j.claim + 1))).jobs[key] == j.(claim := j.claim + 2)
            && Apply(t, OnJob(key, RecoverJob)).jobs[key] == j.(claim := j.claim + 2)
            && Apply(t, OnJob(key, FinishJob(j.claim + 1, Some(at), byFeature))).jobs[key]
               == j.(claim := j.claim + 1, attempts := j.attempts + 1, runAt := at)
            && Apply(t, OnJob(key, FinishJob(j.claim + 1, None, byFeature))).jobs[key]
               == t.jobs[key].(status := JobSuppressed, byFeature := byFeature)
  {
  }

  /** A claim of a row, and the ways it ends: given back, the attempt does not count; recovered, it failed. */
  lemma {:induction false} RowClaimAndBack(s: State, key: Key, status: RowStatus)
    requires key in s.outbox && (s.outbox[key].status.OutboxPending? || s.outbox[key].status.OutboxFailed?)
    ensures var t, r := Apply(s, OnRow(key, ClaimRow)), s.outbox[key];
            && HoldsRow(t, key, r.attempts + 1)
            && Apply(t, OnRow(key, ReleaseRow(r.attempts + 1))).outbox[key] == r.(status := OutboxPending)
            && Apply(t, OnRow(key, RecoverRow)).outbox[key] == Row(OutboxFailed, r.attempts + 1, r.preference)
            && Apply(t, OnRow(key, FinishRow(r.attempts + 1, status))).outbox[key]
               == Row(status, r.attempts + 1, r.preference)
  {
  }

  /**
   Switching reminders off, resetting the preference or switching the feature off leaves nothing to do and changes no
   departure; only the first two change the preference version, which no earlier work carries any more.
   */
  lemma {:induction false} NothingAfterSwitchingOff(s: State, step: Step)
    requires step == Prefer(false) || step.Reset? || step.SwitchOff?
    ensures var t := Apply(s, step);
            && NoWork(t) && t.episodes == s.episodes
            && (step == Prefer(false) || step == Reset(false) ==> !t.sub.enabled)
            && (step.Reset? || (step.Prefer? && s.sub.enabled) ==> t.sub.version == s.sub.version + 1)
            && (step.SwitchOff? || (step.Prefer? && !s.sub.enabled) ==> t.sub == s.sub)
            && (forall k | k in s.jobs && JobOpen(s.jobs[k]) ::
                  t.jobs[k].claim > s.jobs[k].claim && (t.jobs[k].status.JobSuppressed? <==> step.SwitchOff?))
  {
  }

  /** A cancelled reservation has nothing left to do, and the work of other reservations is untouched. */
  lemma {:induction false} NothingAfterCancelling(s: State, reservation: string, key: Key)
    ensures var t := Apply(s, Cancel(reservation));
            && (key.reservation == reservation ==>
                  && (key in t.jobs ==> !JobOpen(t.jobs[key])) && (key in t.outbox ==> !RowOpen(t.outbox[key])))
            && (key.reservation != reservation ==>
                  && (key in s.jobs ==> key in t.jobs && t.jobs[key] == s.jobs[key])
                  && (key in s.outbox ==> key in t.outbox && t.outbox[key] == s.outbox[key]))
  {
  }

  /** Dropping stale work leaves waiting exactly what was made for the current preference. */
  lemma {:induction false} NothingStaleWaits(s: State, key: Key)
    ensures var t := Apply(s, DropStaleWork);
            && (key in s.jobs && s.jobs[key].status.JobPending? ==>
                  key in t.jobs && (t.jobs[key].status.JobPending? <==> SubscriptionIs(s.sub, s.jobs[key].preference)))
            && (key in s.outbox && (s.outbox[key].status.OutboxPending? || s.outbox[key].status.OutboxFailed?) ==>
                  key in t.outbox && (RowOpen(t.outbox[key]) <==> SubscriptionIs(s.sub, s.outbox[key].preference)))
  {
  }

  ghost predicate NotCleanedUp(steps: seq<Step>, a: nat, b: nat, key: Key)
    requires b <= |steps|
  {
    forall k | a <= k < b :: steps[k] != OnJob(key, DeleteJob) && steps[k] != OnRow(key, DeleteRow)
  }

  /**
   Between any two points of a run: a job that is done stays done and a row that was sent or dropped stays as it is,
   until they are cleaned up.
   */
  lemma {:induction false} RunMoves(steps: seq<Step>, a: nat, b: nat, key: Key)
    requires a <= b <= |steps| && NotCleanedUp(steps, a, b, key)
    ensures Moves(Run(steps[..a]), Run(steps[..b]), key)
    decreases b
  {
    hide Apply, Run, Moves;
    if a == b {
      SameWorkMoves(Run(steps[..a]), Run(steps[..b]), key);
    } else {
      RunMoves(steps, a, b - 1, key);
      RunStep(steps, b - 1);
      StepMoves(Run(steps[..b - 1]), steps[b - 1], key);
      MovesFurther(Run(steps[..a]), Run(steps[..b - 1]), Run(steps[..b]), key);
    }
  }

  /** A claim that was lost never holds again: whoever still acts on it changes nothing. */
  lemma {:induction false} LostClaim(steps: seq<Step>, a: nat, b: nat, c: nat, key: Key, claim: nat)
    requires a <= b <= c <= |steps| && NotCleanedUp(steps, a, c, key)
    requires HoldsJob(Run(steps[..a]), key, claim) && !HoldsJob(Run(steps[..b]), key, claim)
    ensures !HoldsJob(Run(steps[..c]), key, claim)
  {
    hide Apply, Run;
    RunMoves(steps, a, b, key);
    RunMoves(steps, b, c, key);
  }

  // ----- When an episode stops being the open one -------------------------------------------------------------------

  /**
   The transactions that close episode `version` of `reservation`, judged from the state before and the call alone.
   */
  predicate Closes(s: State, step: Step, reservation: string, version: nat) {
    match step
    case Observe(preference, current, now, away60, away80) =>
      && SubscriptionIs(s.sub, preference)
      && (current.None? || !current.value.live || current.value.reservation != reservation || !current.value.away)
    case End(r, preference, v, state) =>
      !state.Away? && SubscriptionIs(s.sub, preference) && r == reservation && v == version
    case _ => false
  }

  lemma {:induction false} ObserveCloses(s: State, preference: int, current: Option<Seen>, now: int, away60: bool,
      away80: bool, i: nat, reservation: string, version: nat)
    requires Inv(s) && OpenAt(s.episodes, i, reservation, version) && SubscriptionIs(s.sub, preference)
    ensures var later := Observed(s, preference, current, now, away60, away80).episodes;
            Open(later, reservation, version) <==>
            current.Some? && current.value.live && current.value.reservation == reservation && current.value.away
  {
    hide Evolves, Count;
    assert LatestActive(s.episodes) == Some(i);
    LastOpen(s.episodes, i);
    var t := Observed(s, preference, current, now, away60, away80);
    if current.Some? && current.value.live && current.value.reservation == reservation && current.value.away {
      assert t.episodes == s.episodes[i := s.episodes[i].(lastMinutes := current.value.minutes)];
      assert OpenAt(t.episodes, i, reservation, version);
    } else {
      forall j: nat ensures !OpenAt(t.episodes, j, reservation, version) {
        NotOpenAfterClosing(s, preference, current, now, away60, away80, i, j);
      }
    }
  }

  lemma {:induction false} NotOpenAfterClosing(s: State, preference: int, current: Option<Seen>, now: int,
      away60: bool, away80: bool, i: nat, j: nat)
    requires Inv(s) && i < |s.episodes| && s.episodes[i].state.Away? && SubscriptionIs(s.sub, preference)
    requires current.None? || !current.value.live || current.value.reservation != s.episodes[i].reservation ||
             !current.value.away
    ensures !OpenAt(Observed(s, preference, current, now, away60, away80).episodes, j, s.episodes[i].reservation,
        s.episodes[i].version)
  {
    hide Evolves, Count;
    assert LatestActive(s.episodes) == Some(i);
    LastOpen(s.episodes, i);
  }

  /**
   An open episode stays open through a transaction exactly when the transaction is not one of those that close it.
   */
  lemma {:induction false} ClosesExactly(s: State, step: Step, reservation: string, version: nat)
    requires Inv(s) && Open(s.episodes, reservation, version)
    ensures Open(Apply(s, step).episodes, reservation, version) <==> !Closes(s, step, reservation, version)
  {
    hide Sound, Count;
    var i: nat :| OpenAt(s.episodes, i, reservation, version);
    assert Sound(s.episodes) by { SoundOf(s); }
    match step
    case Observe(preference, current, now, away60, away80) =>
      if SubscriptionIs(s.sub, preference) {
        ObserveCloses(s, preference, current, now, away60, away80, i, reservation, version);
      }
    case End(r, preference, v, state) =>
      LastOpen(s.episodes, i);
      if !state.Away? && Ends(s, r, preference, v) {
        var k := Latest(s.episodes, r).value;
        CloseIsSound(s.episodes, k, state);
        NoneOpen(Close(s.episodes, k, state), reservation, version);
        OnlyOneOpen(s.episodes, k, reservation, version);
      }
    case OnJob(key, job) => if key in s.jobs { JobStepKeepsInv(s, key, job); }
    case OnRow(key, row) => if key in s.outbox { RowStepKeepsInv(s, key, row); }
    case _ =>
  }

  lemma {:induction false} RunStep(steps: seq<Step>, n: nat)
    requires n < |steps|
    ensures Run(steps[..n + 1]) == Apply(Run(steps[..n]), steps[n])
  {
    assert steps[..n + 1][..n] == steps[..n];
  }

  lemma {:induction false} NeverReopens(steps: seq<Step>, a: nat, b: nat, i: nat, reservation: string, version: nat)
    requires a <= b <= |steps|
    requires var es := Run(steps[..a]).episodes;
             i < |es| && es[i].reservation == reservation && es[i].version == version && !es[i].state.Away?
    ensures !Open(Run(steps[..b]).episodes, reservation, version)
  {
    hide Apply, Run, Count;
    RunEvolves(steps, a, b);
    RunKeepsInv(steps[..b]);
    var later := Run(steps[..b]).episodes;
    assert later[i].reservation == reservation && later[i].version == version && !later[i].state.Away?;
    NumbersAreUnique(later, i, reservation, version);
  }

  lemma {:induction false} CountGrows(es: Table, reservation: string, i: nat, j: nat)
    requires i <= j <= |es|
    ensures Count(es[..i], reservation) <= Count(es[..j], reservation)
    ensures i < j && es[i].reservation == reservation ==> Count(es[..i], reservation) < Count(es[..j], reservation)
  {
    if i < j {
      CountGrows(es, reservation, i, j - 1);
      assert es[..j][..j - 1] == es[..j - 1];
    }
  }

  lemma {:induction false} NumbersGrow(es: Table, i: nat, j: nat)
    requires Sound(es) && i < j < |es| && es[i].reservation == es[j].reservation
    ensures es[i].version < es[j].version
  {
    hide Count;
    CountGrows(es, es[i].reservation, i, j);
    assert es[i].version == Count(es[..i], es[i].reservation) + 1;
    assert es[j].version == Count(es[..j], es[j].reservation) + 1;
  }

  lemma {:induction false} NumbersAreUnique(es: Table, i: nat, reservation: string, version: nat)
    requires Sound(es) && i < |es| && es[i].reservation == reservation && es[i].version == version && !es[i].state.Away?
    ensures !Open(es, reservation, version)
  {
    hide Sound;
    forall j: nat ensures !OpenAt(es, j, reservation, version) {
      if j < |es| && es[j].reservation == reservation && j != i {
        NumbersGrow(es, if i < j then i else j, if i < j then j else i);
      }
    }
  }

  /**
   From one point of a run to a later one, an open episode is still open exactly when no transaction in between closed
   it.
   */
  lemma {:induction false} StillOpenIff(steps: seq<Step>, a: nat, b: nat, reservation: string, version: nat)
    requires a <= b <= |steps| && Open(Run(steps[..a]).episodes, reservation, version)
    ensures Open(Run(steps[..b]).episodes, reservation, version) <==>
              forall k | a <= k < b :: !Closes(Run(steps[..k]), steps[k], reservation, version)
    decreases b
  {
    hide Apply, Run, Closes, Open;
    if a < b {
      StillOpenIff(steps, a, b - 1, reservation, version);
      RunKeepsInv(steps[..b - 1]);
      RunStep(steps, b - 1);
      if Open(Run(steps[..b - 1]).episodes, reservation, version) {
        ClosesExactly(Run(steps[..b - 1]), steps[b - 1], reservation, version);
      } else {
        StaysClosed(steps, a, b - 1, b, reservation, version);
      }
    }
  }

  lemma {:induction false} StaysClosed(steps: seq<Step>, a: nat, m: nat, b: nat, reservation: string, version: nat)
    requires a <= m <= b <= |steps| && Open(Run(steps[..a]).episodes, reservation, version)
    requires !Open(Run(steps[..m]).episodes, reservation, version)
    ensures !Open(Run(steps[..b]).episodes, reservation, version)
  {
    hide Apply, Run;
    var i: nat :| OpenAt(Run(steps[..a]).episodes, i, reservation, version);
    RunEvolves(steps, a, m);
    assert !OpenAt(Run(steps[..m]).episodes, i, reservation, version);
    NeverReopens(steps, m, b, i, reservation, version);
  }

  // ----- Sending ----------------------------------------------------------------------------------------------------

  /** The check before sending: the claim still holds and the subscription is the one the row was made for. */
  predicate CanSend(s: State, key: Key, attempts: nat) {
    HoldsRow(s, key, attempts) && SubscriptionIs(s.sub, s.outbox[key].preference)
  }

  /** The check passes only for rows of the open episode: once a departure is closed, none of its rows passes again. */
  lemma {:induction false} OnlyOpenCanSend(steps: seq<Step>, key: Key, attempts: nat)
    requires CanSend(Run(steps), key, attempts)
    ensures Open(Run(steps).episodes, key.reservation, key.version)
  {
    hide Run;
    RunKeepsInv(steps);
  }

  // The race between the last check and the publication, played out on one reservation.

  const RACE_KEY := Key("r", 1, Away60)
  const FIRST := Episode("r", 1, -3600, 60, Away)
  const ON := Subscription(true, 1)

  lemma {:induction false} RaceDeparture()
    ensures Apply(State([], ON, map[], map[]), Observe(1, Some(Seen("r", true, true, 60)), 0, true, false))
         == State([FIRST], ON, map[RACE_KEY := Job(JobPending, 1, 0, 1, 0, false)], map[])
  {
    var es := Depart([], "r", 60, 0);
    assert es == [FIRST] && es[..0] == [];
    assert Latest(es, "r") == Some(0);
  }

  lemma {:induction false} RaceClaims(pending: Job)
    requires pending == Job(JobPending, 1, 0, 1, 0, false)
    ensures var s := State([FIRST], ON, map[RACE_KEY := pending], map[]);
            var t := Apply(Apply(Apply(s, OnJob(RACE_KEY, ClaimJob)), OnJob(RACE_KEY, CompleteJob(2))),
                OnRow(RACE_KEY, ClaimRow));
            t.episodes == [FIRST] && t.sub == ON && CanSend(t, RACE_KEY, 1)
  {
  }

  lemma {:induction false} RaceReturn(s: State)
    requires s.episodes == [FIRST] && s.sub == ON
    ensures IsCurrent(s.episodes, "r", 1)
    ensures var t := Apply(s, Observe(1, Some(Seen("r", true, false, 0)), 0, true, false));
            t.episodes == [FIRST.(state := Returned)] && t.sub == ON
  {
    assert s.episodes[..0] == [];
    assert Latest(s.episodes, "r") == Some(0);
  }

  lemma {:induction false} RaceSecondDeparture(s: State)
    requires s.episodes == [FIRST.(state := Returned)] && s.sub == ON
    ensures var t := Apply(s, Observe(1, Some(Seen("r", true, true, 1)), 60, true, false));
            !Open(t.episodes, "r", 1) && Open(t.episodes, "r", 2)
  {
    hide Upsert, CancelJobs, CancelRows;
    assert s.episodes[..0] == [];
    assert Latest(s.episodes, "r") == Some(0);
    var es := Depart(s.episodes, "r", 1, 60);
    assert es == s.episodes + [Episode("r", 2, 0, 1, Away)] && es[..1] == s.episodes;
    assert OpenAt(es, 1, "r", 2);
  }

  /**
   Check and publication are two steps. Here the check passes for departure 1 of a reservation, the student returns and
   leaves again, and only then the reminder of departure 1 goes out.
   */
  lemma {:induction false} CheckThenPublishRace()
    ensures exists steps: seq<Step>, checked: nat, key: Key ::
              && checked <= |steps| && key.version == 1 && CanSend(Run(steps[..checked]), key, 1)
              && IsCurrent(Run(steps[..checked]).episodes, key.reservation, 1)
              && !Open(Run(steps).episodes, key.reservation, 1) && Open(Run(steps).episodes, key.reservation, 2)
  {
    hide Apply, Run, CanSend, IsCurrent, Open;
    var steps := [Prefer(true), Observe(1, Some(Seen("r", true, true, 60)), 0, true, false),
                  OnJob(RACE_KEY, ClaimJob), OnJob(RACE_KEY, CompleteJob(2)), OnRow(RACE_KEY, ClaimRow),
                  Observe(1, Some(Seen("r", true, false, 0)), 0, true, false),
                  Observe(1, Some(Seen("r", true, true, 1)), 60, true, false)];
    var s1, s2 := Run(steps[..1]), Run(steps[..2]);
    var s3, s4, s5, s6 := Run(steps[..3]), Run(steps[..4]), Run(steps[..5]), Run(steps[..6]);
    assert steps[..0] == [] && steps[..7] == steps;
    RunStep(steps, 0);
    RaceBegins();
    RunStep(steps, 1);
    RaceDeparture();
    RunStep(steps, 2);
    RunStep(steps, 3);
    RunStep(steps, 4);
    RaceClaims(Job(JobPending, 1, 0, 1, 0, false));
    assert s3 == Apply(s2, OnJob(RACE_KEY, ClaimJob));
    assert s4 == Apply(s3, OnJob(RACE_KEY, CompleteJob(2)));
    assert s5 == Apply(s4, OnRow(RACE_KEY, ClaimRow));
    RunStep(steps, 5);
    RaceReturn(s5);
    RunStep(steps, 6);
    RaceSecondDeparture(s6);
    assert CanSend(Run(steps[..5]), RACE_KEY, 1);
  }

  lemma {:induction false} RaceBegins()
    ensures Apply(Run([]), Prefer(true)) == State([], ON, map[], map[])
  {
  }
}
