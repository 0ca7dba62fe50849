/**
 The push of one stored feed event: claim, one identifier issued by the push service and kept for every attempt, and
 at most ten recorded attempts.

 Workers of one or more dispatchers share the row of a delivery through single statements (`Step`). A statement may
 report an error and still have taken effect, a worker may have listed the row long before it claims it, and a claim
 that takes too long is given back while its worker is still busy.
 */
module PushDelivery {
  import opened Outcomes
  import opened Decimal

  // ----- When a push is too late ------------------------------------------------------------------------------------

  datatype Event = Event(kind: string, fields: map<string, string>)

  function UpperChar(c: char): char {
    if 'a' <= c <= 'z' then c - 32 as char else c
  }

  function Upper(s: string): string {
    if s == [] then [] else [UpperChar(s[0])] + Upper(s[1..])
  }

  function TrimLeft(s: string): string {
    if s != [] && (s[0] == ' ' || '\t' <= s[0] <= '\r') then TrimLeft(s[1..]) else s
  }

  function TrimRight(s: string): string {
    if s != [] && (s[|s| - 1] == ' ' || '\t' <= s[|s| - 1] <= '\r') then TrimRight(s[..|s| - 1]) else s
  }

  function Field(e: Event, name: string): string {
    if name in e.fields then e.fields[name] else ""
  }

  /** The field that holds the business deadline of a timely library reminder. */
  function DeadlineField(e: Event): Option<string> {
    if Upper(e.kind) != "LIBRARY" then None
    else
      var notification := Upper(TrimRight(TrimLeft(Field(e, "notification_type"))));
      if notification == "TEAM_INVITATION" then Some("expires_at")
      else if notification == "START_30" then Some("start_at")
      else if notification == "END_10" || notification == "AWAY_60" || notification == "AWAY_80" then Some("end_at")
      else None
  }

  /** A deadline that is missing or malformed counts as passed. */
  predicate Expired(e: Event, now: int) {
    DeadlineField(e).Some? &&
    var deadline := Atoi(Field(e, DeadlineField(e).value));
    deadline.None? || deadline.value <= 0 || deadline.value <= now
  }

  // The same said without computing: which field counts for whom, and what has to stand in it.

  predicate Blank(c: char) {
    c == ' ' || '\t' <= c <= '\r'
  }

  /** The word, with letters in either case. */
  ghost predicate SpelledLike(s: string, word: string) {
    |s| == |word| && forall i | 0 <= i < |s| :: EitherCase(s[i], word[i])
  }

  predicate EitherCase(c: char, capital: char) {
    c == capital || ('A' <= capital <= 'Z' && c as int == capital as int + 32)
  }

  /** The word in either case, with any space around it. */
  ghost predicate Says(s: string, word: string) {
    exists before: string, core: string, after: string :: SaysIn(s, word, before, core, after)
  }

  ghost predicate SaysIn(s: string, word: string, before: string, core: string, after: string) {
    s == before + core + after && SpelledLike(core, word) && forall c | c in before + after :: Blank(c)
  }

  ghost predicate Timely(kind: string, field: string) {
    || (kind == "TEAM_INVITATION" && field == "expires_at")
    || (kind == "START_30" && field == "start_at")
    || ((kind == "END_10" || kind == "AWAY_60" || kind == "AWAY_80") && field == "end_at")
  }

  ghost predicate IsTimely(e: Event, kind: string) {
    && SpelledLike(e.kind, "LIBRARY")
    && "notification_type" in e.fields && Says(e.fields["notification_type"], kind)
  }

  /** A timely library reminder names its deadline, a positive number of seconds that is still to come. */
  ghost predicate StillDue(e: Event, now: int) {
    forall kind: string, field: string | Timely(kind, field) && IsTimely(e, kind) ::
      field in e.fields && exists deadline: int ::
        Spells(e.fields[field], deadline) && now < deadline && 0 < deadline <= INT64_MAX
  }

  lemma {:induction false} UpperCharIff(c: char, capital: char)
    requires !('a' <= capital <= 'z')
    ensures UpperChar(c) == capital <==> EitherCase(c, capital)
  {
  }

  lemma {:induction false} UpperIff(s: string, word: string)
    requires forall i | 0 <= i < |word| :: !('a' <= word[i] <= 'z')
    ensures Upper(s) == word <==> SpelledLike(s, word)
  {
    hide EitherCase, UpperChar;
    if s != [] && word != [] {
      UpperIff(s[1..], word[1..]);
      UpperCharIff(s[0], word[0]);
      assert s == [s[0]] + s[1..] && word == [word[0]] + word[1..];
    }
  }

  lemma {:induction false} LeftTrimmed(s: string) returns (before: string)
    ensures s == before + TrimLeft(s) && forall c | c in before :: Blank(c)
    ensures TrimLeft(s) != [] ==> !Blank(TrimLeft(s)[0])
  {
    before := [];
    if s != [] && Blank(s[0]) {
      before := LeftTrimmed(s[1..]);
      before := [s[0]] + before;
    }
  }

  lemma {:induction false} RightTrimmed(s: string) returns (after: string)
    ensures s == TrimRight(s) + after && forall c | c in after :: Blank(c)
    ensures TrimRight(s) != [] ==> !Blank(TrimRight(s)[|TrimRight(s)| - 1]) && TrimRight(s)[0] == s[0]
  {
    after := [];
    if s != [] && Blank(s[|s| - 1]) {
      after := RightTrimmed(s[..|s| - 1]);
      after := after + [s[|s| - 1]];
    }
  }

  lemma {:induction false} TrimLeftOf(before: string, s: string)
    requires (forall c | c in before :: Blank(c)) && s != [] && !Blank(s[0])
    ensures TrimLeft(before + s) == s
  {
    if before == [] {
      assert before + s == s;
    } else {
      assert (before + s)[1..] == before[1..] + s && before[0] in before;
      TrimLeftOf(before[1..], s);
    }
  }

  lemma {:induction false} TrimRightOf(s: string, after: string)
    requires (forall c | c in after :: Blank(c)) && s != [] && !Blank(s[|s| - 1])
    ensures TrimRight(s + after) == s
  {
    if after == [] {
      assert s + after == s;
    } else {
      var n := |after| - 1;
      assert (s + after)[..|s| + n] == s + after[..n] && after[n] in after;
      TrimRightOf(s, after[..n]);
    }
  }

  /** A word of capitals, digits and underscores. */
  predicate IsWord(word: string) {
    word != [] && forall i | 0 <= i < |word| ::
      'A' <= word[i] <= 'Z' || '0' <= word[i] <= '9' || word[i] == '_'
  }

  lemma {:induction false} SaysIff(s: string, word: string)
    requires IsWord(word)
    ensures Upper(TrimRight(TrimLeft(s))) == word <==> Says(s, word)
  {
    hide Upper, TrimLeft, TrimRight;
    var core := TrimRight(TrimLeft(s));
    if Upper(core) == word {
      UpperIff(core, word);
      var before := LeftTrimmed(s);
      var after := RightTrimmed(TrimLeft(s));
      assert before + (core + after) == before + core + after;
      assert SaysIn(s, word, before, core, after);
    }
    if Says(s, word) {
      var b: string, t: string, a: string :| SaysIn(s, word, b, t, a);
      NotBlank(t, word);
      assert b + t + a == b + (t + a);
      TrimLeftOf(b, t + a);
      TrimRightOf(t, a);
      UpperIff(t, word);
    }
  }

  lemma {:induction false} NotBlank(s: string, word: string)
    requires IsWord(word) && SpelledLike(s, word)
    ensures s != [] && forall c | c in s :: !Blank(c)
  {
    forall c | c in s ensures !Blank(c) {
      var i :| 0 <= i < |s| && s[i] == c;
      assert EitherCase(s[i], word[i]);
    }
  }

  lemma {:induction false} KindIff(e: Event, kind: string)
    requires IsWord(kind)
    ensures IsTimely(e, kind) <==>
              Upper(e.kind) == "LIBRARY" && Upper(TrimRight(TrimLeft(Field(e, "notification_type")))) == kind
  {
    hide Says, Upper, TrimLeft, TrimRight, SpelledLike;
    UpperIff(e.kind, "LIBRARY");
    SaysIff(Field(e, "notification_type"), kind);
    NothingIsSaid(kind);
  }

  lemma {:induction false} NothingIsSaid(kind: string)
    requires IsWord(kind)
    ensures !Says("", kind)
  {
  }

  lemma {:induction false} DeadlineFieldIff(e: Event, kind: string, field: string)
    requires Timely(kind, field)
    ensures IsTimely(e, kind) ==> DeadlineField(e) == Some(field)
  {
    hide IsTimely, Upper, TrimLeft, TrimRight, Field;
    KindIff(e, kind);
  }

  lemma {:induction false} KindOf(e: Event) returns (kind: string)
    requires DeadlineField(e).Some?
    ensures Timely(kind, DeadlineField(e).value) && IsTimely(e, kind)
  {
    hide IsTimely, Upper, TrimLeft, TrimRight, Field;
    kind := Upper(TrimRight(TrimLeft(Field(e, "notification_type"))));
    KindIff(e, kind);
  }

  /** The expiry check suppresses exactly the timely reminders whose deadline is not a number still to come. */
  lemma {:induction false} ExpiredIff(e: Event, now: int)
    ensures Expired(e, now) <==> !StillDue(e, now)
  {
    hide IsTimely, DeadlineField, Spells, Atoi;
    if StillDue(e, now) && DeadlineField(e).Some? {
      var kind := KindOf(e);
      var field := DeadlineField(e).value;
      var deadline: int :| Spells(e.fields[field], deadline) && now < deadline && 0 < deadline <= INT64_MAX;
      AtoiIff(e.fields[field], deadline);
    }
    if !Expired(e, now) {
      forall kind: string, field: string | Timely(kind, field) && IsTimely(e, kind)
        ensures field in e.fields && exists deadline: int ::
                  Spells(e.fields[field], deadline) && now < deadline && 0 < deadline <= INT64_MAX
      {
        DeadlineFieldIff(e, kind, field);
        NoNumeral();
        var deadline := Atoi(Field(e, field)).value;
        AtoiIff(e.fields[field], deadline);
      }
    }
  }

  lemma {:induction false} NoNumeral()
    ensures Atoi("").None?
  {
  }

  // ----- The statements on a delivery's row --------------------------------------------------------------------------

  const MAX_ATTEMPTS := 10

  datatype Status = Pending | Sending | Sent | Suppressed | Failed

  datatype Row = Row(status: Status, attempts: nat, cid: string)

  /** One push: its identifier, when the allow-list was read for it, and when its deadline was checked. */
  datatype Pushed = Pushed(cid: string, permittedAt: int, checkedAt: int)

  datatype State = State(row: Row, pushes: seq<Pushed>)

  /** The event of the delivery, and at which times the student's allow-list permits its type. */
  datatype Env = Env(event: Event, allows: int -> bool)

  datatype Step =
    Claim | Recover | SaveCID(cid: string) | Finish(suppressed: bool) | Retry(attempts: nat) | Push(push: Pushed)

  /** The condition of the statement; a statement that matches no row changes nothing and reports an error. */
  predicate Matches(s: State, step: Step) {
    match step
    case Claim => s.row.status.Pending?
    case SaveCID(_) => s.row.status.Sending? && s.row.cid == ""
    case Push(_) => true
    case _ => s.row.status.Sending?
  }

  function Apply(s: State, step: Step): State {
    if !Matches(s, step) then s
    else
      match step
      case Claim => s.(row := s.row.(status := Sending))
      case Recover => s.(row := s.row.(status := Pending))
      case SaveCID(cid) => s.(row := s.row.(cid := cid))
      case Finish(suppressed) => s.(row := s.row.(status := if suppressed then Suppressed else Sent))
      case Retry(attempts) =>
        s.(row := s.row.(status := if attempts >= MAX_ATTEMPTS then Failed else Pending, attempts := attempts))
      case Push(push) => s.(pushes := s.pushes + [push])
  }

  function Run(steps: seq<Step>): State {
    if steps == [] then State(Row(Pending, 0, ""), []) else Apply(Run(steps[..|steps| - 1]), steps[|steps| - 1])
  }

  /**
   What a worker keeps to, and may rely on the others to keep to: it pushes with the stored identifier, after an
   allow-list read that permits the type and, no earlier, an expiry check that passes; and it marks as sent only what
   was pushed.
   */
  predicate Allowed(env: Env, s: State, step: Step) {
    match step
    case SaveCID(cid) => cid != ""
    case Retry(attempts) => 1 <= attempts <= MAX_ATTEMPTS
    case Push(push) => Proper(env, s.row, push)
    case Finish(suppressed) => suppressed || s.pushes != []
    case _ => true
  }

  ghost predicate Disciplined(env: Env, steps: seq<Step>) {
    steps == [] ||
    var before := steps[..|steps| - 1];
    Disciplined(env, before) && Allowed(env, Run(before), steps[|steps| - 1])
  }

  /** A push with the stored identifier, permitted by the allow-list and then still in time. */
  predicate Proper(env: Env, row: Row, push: Pushed) {
    && push.cid != "" && push.cid == row.cid
    && env.allows(push.permittedAt) && push.permittedAt <= push.checkedAt && !Expired(env.event, push.checkedAt)
  }

  predicate Final(status: Status) {
    status.Sent? || status.Suppressed? || status.Failed?
  }

  /**
   Every push so far used the one stored identifier, was permitted and was in time; only a pushed delivery is marked
   sent; and the row has failed exactly with its tenth recorded attempt.
   */
  ghost predicate Inv(env: Env, s: State) {
    && (forall i | 0 <= i < |s.pushes| ::
          Proper(env, s.row, s.pushes[i]) && StillDue(env.event, s.pushes[i].checkedAt))
    && (s.row.status.Sent? ==> s.pushes != [])
    && s.row.attempts <= MAX_ATTEMPTS && (s.row.status.Failed? <==> s.row.attempts == MAX_ATTEMPTS)
  }

  /** In every disciplined run, with any number of workers and however stale their view of the row. */
  lemma {:induction false} RunKeepsInv(env: Env, steps: seq<Step>)
    requires Disciplined(env, steps)
    ensures Inv(env, Run(steps))
    ensures Run(steps).row.attempts <= 10 && (Run(steps).row.status.Failed? <==> Run(steps).row.attempts == 10)
  {
    hide Inv, Allowed, Apply;
    if steps == [] {
      StartsSound(env);
    } else {
      RunKeepsInv(env, steps[..|steps| - 1]);
      StepKeepsInv(env, Run(steps[..|steps| - 1]), steps[|steps| - 1]);
    }
    AtMostTen(env, Run(steps));
  }

  lemma {:induction false} AtMostTen(env: Env, s: State)
    requires Inv(env, s)
    ensures s.row.attempts <= 10 && (s.row.status.Failed? <==> s.row.attempts == 10)
  {
  }

  lemma {:induction false} StartsSound(env: Env)
    ensures Inv(env, Run([]))
  {
  }

  lemma {:induction false} StepKeepsInv(env: Env, s: State, step: Step)
    requires Inv(env, s) && Allowed(env, s, step)
    ensures Inv(env, Apply(s, step))
  {
    hide Expired, StillDue;
    var t := Apply(s, step);
    forall i | 0 <= i < |t.pushes|
      ensures Proper(env, t.row, t.pushes[i]) && StillDue(env.event, t.pushes[i].checkedAt)
    {
      assert i < |s.pushes| ==> Proper(env, s.row, s.pushes[i]);
      ExpiredIff(env.event, t.pushes[i].checkedAt);
    }
  }

  /** Sent, suppressed and failed are never left, an identifier once stored is never replaced, and no push is undone. */
  lemma {:induction false} FinalIsFinal(env: Env, steps: seq<Step>, a: nat, b: nat)
    requires a <= b <= |steps| && Disciplined(env, steps)
    ensures Final(Run(steps[..a]).row.status) ==> Run(steps[..b]).row == Run(steps[..a]).row
    ensures Run(steps[..a]).row.cid != "" ==> Run(steps[..b]).row.cid == Run(steps[..a]).row.cid
    ensures Run(steps[..a]).pushes <= Run(steps[..b]).pushes
    decreases b
  {
    hide Allowed;
    if a < b {
      FinalIsFinal(env, steps, a, b - 1);
      assert steps[..b][..b - 1] == steps[..b - 1];
    }
  }

  /** The delivery counts as sent, or as suppressed, exactly once a worker that held it has marked it so. */
  lemma {:induction false} FinalByMark(steps: seq<Step>, suppressed: bool)
    ensures Run(steps).row.status == (if suppressed then Suppressed else Sent) <==>
              exists k | 0 <= k < |steps| :: steps[k] == Finish(suppressed) && Run(steps[..k]).row.status.Sending?
  {
    if steps != [] {
      var n := |steps| - 1;
      FinalByMark(steps[..n], suppressed);
      if k :| 0 <= k < n && steps[..n][k] == Finish(suppressed) && Run(steps[..n][..k]).row.status.Sending? {
        assert steps[..n][..k] == steps[..k] && steps[k] == steps[..n][k];
      }
      if k :| 0 <= k < |steps| && steps[k] == Finish(suppressed) && Run(steps[..k]).row.status.Sending? {
        if k < n {
          assert steps[..n][k] == steps[k] && steps[..n][..k] == steps[..k];
        }
      }
    }
  }

  // ----- Counting attempts -------------------------------------------------------------------------------------------

  /** How many failures have been recorded. */
  function Retries(steps: seq<Step>): nat {
    if steps == [] then 0
    else
      var before := steps[..|steps| - 1];
      Retries(before) + if steps[|steps| - 1].Retry? && Run(before).row.status.Sending? then 1 else 0
  }

  /** At every moment the recorded attempts are the recorded failures. */
  ghost predicate Counted(steps: seq<Step>) {
    forall n: nat | n <= |steps| :: Run(steps[..n]).row.attempts == Retries(steps[..n])
  }

  /** Whoever records a failure has seen the attempts as they are. */
  ghost predicate Fresh(steps: seq<Step>) {
    forall n: nat | n < |steps| && steps[n].Retry? && Run(steps[..n]).row.status.Sending? ::
      steps[n].attempts == Run(steps[..n]).row.attempts + 1
  }

  lemma {:induction false} RunStep(steps: seq<Step>, n: nat)
    requires n < |steps|
    ensures Run(steps[..n + 1]) == Apply(Run(steps[..n]), steps[n])
    ensures Retries(steps[..n + 1]) ==
            Retries(steps[..n]) + if steps[n].Retry? && Run(steps[..n]).row.status.Sending? then 1 else 0
  {
    assert steps[..n + 1][..n] == steps[..n];
  }

  /** The attempts count the failures exactly when nobody records a failure with a stale view. */
  lemma {:induction false} CountedIffFresh(steps: seq<Step>)
    ensures Counted(steps) <==> Fresh(steps)
  {
    hide Run, Retries;
    if Counted(steps) {
      forall n: nat | n < |steps| && steps[n].Retry? && Run(steps[..n]).row.status.Sending?
        ensures steps[n].attempts == Run(steps[..n]).row.attempts + 1
      {
        RunStep(steps, n);
      }
    }
    if Fresh(steps) {
      forall n: nat | n <= |steps| ensures Run(steps[..n]).row.attempts == Retries(steps[..n]) {
        CountsUpTo(steps, n);
      }
    }
  }

  lemma {:induction false} CountsUpTo(steps: seq<Step>, n: nat)
    requires Fresh(steps) && n <= |steps|
    ensures Run(steps[..n]).row.attempts == Retries(steps[..n])
  {
    if n > 0 {
      CountsUpTo(steps, n - 1);
      RunStep(steps, n - 1);
    }
  }

  /** Then the tenth recorded failure, and no earlier one, ends the delivery. */
  lemma {:induction false} AttemptsAreCounted(env: Env, steps: seq<Step>)
    requires Disciplined(env, steps) && Fresh(steps)
    ensures Run(steps).row.attempts == Retries(steps) <= MAX_ATTEMPTS
    ensures Run(steps).row.status.Failed? <==> Retries(steps) == MAX_ATTEMPTS
  {
    hide Run, Retries, Fresh;
    RunKeepsInv(env, steps);
    CountedIffFresh(steps);
    assert steps[..|steps|] == steps;
  }

  /** With several dispatchers a stale view can record the same attempt number twice. */
  lemma {:induction false} StaleViewLosesCount(env: Env)
    ensures exists steps: seq<Step> :: Disciplined(env, steps) && Run(steps).row.attempts == 1 && Retries(steps) == 2
  {
    var steps := [Claim, Retry(1), Claim, Retry(1)];
    var s1, s2, s3 := steps[..1], steps[..2], steps[..3];
    assert s1[..0] == [] && s2[..1] == s1 && s3[..2] == s2 && steps[..3] == s3;
    assert Disciplined(env, []) && Disciplined(env, s1) && Disciplined(env, s2) && Disciplined(env, s3) &&
        Disciplined(env, steps);
    assert Run(s1).row == Row(Sending, 0, "") && Run(s2).row == Row(Pending, 1, "") &&
        Run(s3).row == Row(Sending, 1, "");
    assert Retries([]) == 0 && Retries(s1) == 0 && Retries(s2) == 1 && Retries(s3) == 1 && Retries(steps) == 2;
  }

  // ----- A worker ---------------------------------------------------------------------------------------------------

  class Delivery {
    const env: Env
    var row: Row
    var pushes: seq<Pushed>
    var clock: int
    ghost var trace: seq<Step>

    ghost function Current(): State
      reads this
    {
      State(row, pushes)
    }

    ghost predicate Valid()
      reads this
    {
      Disciplined(env, trace) && Run(trace) == Current()
    }

    constructor (env: Env)
      ensures Valid() && trace == [] && this.env == env
    {
      this.env := env;
      row, pushes, clock, trace := Row(Pending, 0, ""), [], 0, [];
    }

    method Do(step: Step)
      requires Valid() && Allowed(env, Current(), step)
      modifies this`row, this`pushes, this`trace
      ensures Valid() && trace == old(trace) + [step] && Current() == Apply(old(Current()), step)
      ensures old(pushes) <= pushes && (old(row).cid != "" ==> row.cid == old(row).cid)
    {
      hide Allowed;
      var t := Apply(State(row, pushes), step);
      Extends(env, trace, step);
      row, pushes, trace := t.row, t.pushes, trace + [step];
    }

    /** The other workers and the clock. A lone dispatcher has no other workers. */
    method Meanwhile(alone: bool)
      requires Valid()
      modifies this
      ensures Valid() && old(trace) <= trace && clock >= old(clock)
      ensures old(pushes) <= pushes && (old(row).cid != "" ==> row.cid == old(row).cid)
      ensures alone ==> trace == old(trace) && row == old(row) && pushes == old(pushes)
    {
      hide Allowed, Apply, Run, Disciplined;
      var passed: nat, n: nat :| true;
      clock := clock + passed;
      for i := 0 to n
        invariant Valid() && old(trace) <= trace && clock >= old(clock)
        invariant old(pushes) <= pushes && (old(row).cid != "" ==> row.cid == old(row).cid)
        invariant alone ==> trace == old(trace) && row == old(row) && pushes == old(pushes)
      {
        var step: Step :| true;
        if !alone && Allowed(env, State(row, pushes), step) {
          Do(step);
        }
      }
    }

    /**
     One statement on the row. It reports success only if it matched, and may fail after taking effect, unless the
     database is `healthy`.
     */
    method Update(step: Step, healthy: bool) returns (ok: bool)
      requires Valid() && Allowed(env, Current(), step) && !step.Push?
      modifies this`row, this`pushes, this`trace
      ensures Valid() && (trace == old(trace) || trace == old(trace) + [step])
      ensures Current() == if trace == old(trace) then old(Current()) else Apply(old(Current()), step)
      ensures old(row).cid != "" ==> row.cid == old(row).cid
      ensures ok ==> trace == old(trace) + [step] && Matches(old(Current()), step)
      ensures healthy ==> trace == old(trace) + [step] && (ok <==> Matches(old(Current()), step))
      ensures pushes == old(pushes) && (!step.Retry? ==> row.attempts == old(row).attempts)
    {
      hide Allowed;
      var happens: bool := *;
      ok := false;
      if happens || healthy {
        var matched := Matches(State(row, pushes), step);
        Do(step);
        var reported: bool := *;
        ok := matched && (reported || healthy);
      }
    }

    /** Everything between claim and final mark: suppressed, pushed, or in trouble. */
    method Attempt(listed: Row, alone: bool, healthy: bool, readable: bool)
      returns (result: Result, pushed: bool, ghost push: Pushed)
      requires Valid() && (listed.cid != "" ==> row.cid == listed.cid)
      modifies this
      ensures Valid() && old(trace) <= trace && clock >= old(clock) && (result == Delivered ==> pushed)
      ensures pushed ==> InTime(env, push, old(clock), clock) && push in pushes
      ensures alone ==> pushes == old(pushes) + if pushed then [push] else []
      ensures alone ==> row.attempts == old(row).attempts && (Fresh(old(trace)) ==> Fresh(trace))
      ensures result == Over ==> row.status == Suppressed && !pushed
      ensures alone && healthy && old(row).status.Sending? && result != Over ==> row.status.Sending?
      ensures healthy && old(row).status.Sending? && readable && !StillDue(env.event, old(clock)) ==> result == Over
    {
      hide Expired, StillDue, Apply, Run, Disciplined, Matches, Fresh, Allowed, InTime;
      result, pushed, push := Trouble, false, Pushed("", 0, 0);
      ExpiredIff(env.event, clock);
      var missing: bool := *;
      if missing {
        result := Suppress(healthy);
        return;
      }
      if !readable {
        return;
      }
      if Expired(env.event, clock) {
        result := Suppress(healthy);
        return;
      }
      var prepared: bool, noTarget: bool := *, *;
      if noTarget {
        result := Suppress(healthy);
        return;
      }
      if !prepared {
        return;
      }
      var cid := listed.cid;
      if cid == "" {
        var issued: string :| true;
        if issued == "" {
          return;
        }
        cid := issued;
        Meanwhile(alone);
        var saved := Store(cid, healthy);
        if !saved {
          return;
        }
      }
      ghost var from := clock;
      result, pushed, push := SendPrepared(cid, alone, healthy);
      if pushed {
        Wider(env, push, from, clock, old(clock), clock);
      }
    }

    /**
     The identifier is stored. A push follows only after the latest allow-list permitted the type and, later still, the
     deadline had not passed.
     */
    method SendPrepared(cid: string, alone: bool, healthy: bool)
      returns (result: Result, pushed: bool, ghost push: Pushed)
      requires Valid() && cid != "" && row.cid == cid
      modifies this
      ensures Valid() && old(trace) <= trace && clock >= old(clock) && (result == Delivered ==> pushed)
      ensures pushed ==> InTime(env, push, old(clock), clock) && push in pushes && push.cid == row.cid == cid
      ensures alone ==> pushes == old(pushes) + if pushed then [push] else []
      ensures alone ==> row.attempts == old(row).attempts && (Fresh(old(trace)) ==> Fresh(trace))
      ensures result == Over ==> row.status == Suppressed && !pushed
      ensures alone && healthy && old(row).status.Sending? && result != Over ==> row.status.Sending?
    {
      hide Expired, StillDue, Apply, Run, Disciplined, Matches, Fresh;
      result, pushed, push := Trouble, false, Pushed(cid, 0, 0);
      Meanwhile(alone);
      var read: bool := *;
      if !read {
        return;
      }
      if !env.allows(clock) {
        result := Suppress(healthy);
        return;
      }
      var permittedAt := clock;
      Meanwhile(alone);
      if Expired(env.event, clock) {
        result := Suppress(healthy);
        return;
      }
      var checkedAt := clock;
      ExpiredIff(env.event, checkedAt);
      var tooLate: bool := *;
      if tooLate {
        result := Suppress(healthy);
        return;
      }
      Meanwhile(alone);
      push := Pushed(cid, permittedAt, checkedAt);
      StaysFresh(trace, Push(Pushed(cid, permittedAt, checkedAt)));
      PushIsRecorded(Current(), push);
      Do(Push(Pushed(cid, permittedAt, checkedAt)));
      pushed := true;
      var success: bool := *;
      result := if success then Delivered else Trouble;
    }

    method Suppress(healthy: bool) returns (result: Result)
      requires Valid()
      modifies this`row, this`pushes, this`trace
      ensures Valid() && old(trace) <= trace && pushes == old(pushes) && row.attempts == old(row).attempts
      ensures Fresh(old(trace)) ==> Fresh(trace)
      ensures result == Over || result == Trouble
      ensures result == Over ==> row.status == Suppressed
      ensures healthy && old(row).status.Sending? ==> result == Over
    {
      hide Run, Disciplined, Fresh;
      StaysFresh(trace, Finish(true));
      var ok := Update(Finish(true), healthy);
      result := if ok then Over else Trouble;
    }

    method Store(cid: string, healthy: bool) returns (ok: bool)
      requires Valid() && cid != ""
      modifies this`row, this`pushes, this`trace
      ensures Valid() && old(trace) <= trace && pushes == old(pushes) && row.attempts == old(row).attempts
      ensures Fresh(old(trace)) ==> Fresh(trace)
      ensures (ok ==> row.cid == cid) && row.status == old(row).status
    {
      hide Run, Disciplined, Fresh;
      StaysFresh(trace, SaveCID(cid));
      ok := Update(SaveCID(cid), healthy);
    }

    /**
     One delivery as a worker takes it from its list; the row may have changed since it was listed. With a healthy
     database and no other worker it ends sent, suppressed, or with one more attempt counted; and a reminder that is too
     late already is suppressed, if it can be read (`readable`).
     */
    method DispatchOne(listed: Row, alone: bool, healthy: bool, readable: bool)
      returns (pushed: bool, ghost push: Pushed)
      requires Valid() && listed.status.Pending? && listed.attempts < MAX_ATTEMPTS
      requires listed.cid != "" ==> row.cid == listed.cid
      requires alone ==> row == listed
      modifies this
      ensures Valid() && old(trace) <= trace && clock >= old(clock)
      ensures pushed ==> InTime(env, push, old(clock), clock) && push in pushes
      ensures alone ==> pushes == old(pushes) + if pushed then [push] else []
      ensures alone && Fresh(old(trace)) ==> Fresh(trace)
      ensures alone && healthy ==>
                || (row.status.Sent? && pushed) || row.status.Suppressed?
                || (row.status == (if listed.attempts + 1 == 10 then Failed else Pending) &&
                    row.attempts == listed.attempts + 1)
      ensures alone && healthy && readable && !StillDue(env.event, old(clock)) ==> row.status.Suppressed? && !pushed
    {
      hide Run, Disciplined, Fresh, Expired, StillDue, InTime;
      pushed, push := false, Pushed("", 0, 0);
      StaysFresh(trace, Claim);
      var claimed := Update(Claim, healthy);
      if !claimed {
        return;
      }
      var result: Result;
      result, pushed, push := Attempt(listed, alone, healthy, readable);
      if result == Over {
        return;
      }
      ghost var done := clock;
      if result == Delivered {
        Meanwhile(alone);
        Wider(env, push, old(clock), done, old(clock), clock);
        StaysFresh(trace, Finish(false));
        var ok := Update(Finish(false), healthy);
        if ok {
          return;
        }
      }
      Meanwhile(alone);
      if pushed {
        Wider(env, push, old(clock), done, old(clock), clock);
      }
      CountsOn(trace, listed.attempts + 1);
      var marked := Update(Retry(listed.attempts + 1), healthy);
    }

    /** A row that can be listed always has attempts left. */
    method ListDue() returns (listed: Option<Row>)
      requires Valid()
      ensures listed.Some? ==> listed.value == row && row.status == Pending && row.attempts < MAX_ATTEMPTS
    {
      hide Run, Disciplined;
      RunKeepsInv(env, trace);
      var due: bool := *;
      listed := if due && row.status == Pending then Some(row) else None;
    }

    /** Claims given back after the time limit; the worker that held one may still be busy. */
    method RecoverSending()
      requires Valid()
      modifies this`row, this`pushes, this`trace
      ensures Valid() && old(trace) <= trace && pushes == old(pushes)
      ensures row == old(row) || (old(row).status == Sending && row == old(row).(status := Pending))
      ensures Fresh(old(trace)) ==> Fresh(trace)
    {
      hide Run, Disciplined, Fresh;
      var stale: bool := *;
      if stale {
        StaysFresh(trace, Recover);
        var ok := Update(Recover, false);
      }
    }

    /** What one dispatcher does with this delivery over any number of runs; every recorded failure counts. */
    method DispatchAlone(runs: nat)
      requires Valid() && Fresh(trace)
      modifies this
      ensures Valid() && old(trace) <= trace && Counted(trace)
      ensures row.attempts == Retries(trace) <= MAX_ATTEMPTS
      ensures row.status == Failed <==> Retries(trace) == MAX_ATTEMPTS
    {
      hide Run, Disciplined, Fresh, Counted, Retries, InTime;
      for i := 0 to runs
        invariant Valid() && old(trace) <= trace && Fresh(trace)
      {
        RecoverSending();
        var listed := ListDue();
        if listed.Some? {
          var healthy: bool, readable: bool := *, *;
          var pushed, push := DispatchOne(listed.value, true, healthy, readable);
        }
      }
      CountedIffFresh(trace);
      AttemptsAreCounted(env, trace);
    }
  }

  datatype Result = Over | Delivered | Trouble

  /** The allow-list read and the expiry check of a push fell into this time and passed. */
  ghost predicate InTime(env: Env, push: Pushed, from: int, to: int) {
    from <= push.permittedAt <= push.checkedAt <= to && env.allows(push.permittedAt) &&
        StillDue(env.event, push.checkedAt)
  }

  lemma {:induction false} Wider(env: Env, push: Pushed, from: int, to: int, earlier: int, later: int)
    requires InTime(env, push, from, to) && earlier <= from && to <= later
    ensures InTime(env, push, earlier, later)
  {
  }

  lemma {:induction false} FreshStep(trace: seq<Step>, step: Step)
    requires step.Retry? && Run(trace).row.status.Sending? ==> step.attempts == Run(trace).row.attempts + 1
    ensures Fresh(trace) ==> Fresh(trace + [step])
  {
    hide Run;
    forall n: nat | n <= |trace| ensures (trace + [step])[..n] == trace[..n] {
    }
    assert trace[..|trace|] == trace;
  }

  lemma {:induction false} StaysFresh(trace: seq<Step>, step: Step)
    requires !step.Retry?
    ensures Fresh(trace) ==> Fresh(trace + [step])
  {
    FreshStep(trace, step);
  }

  lemma {:induction false} CountsOn(trace: seq<Step>, attempts: nat)
    ensures Fresh(trace) && attempts == Run(trace).row.attempts + 1 ==> Fresh(trace + [Retry(attempts)])
  {
    hide Fresh, Run;
    if attempts == Run(trace).row.attempts + 1 {
      FreshStep(trace, Retry(attempts));
    }
  }

  lemma {:induction false} PushIsRecorded(s: State, push: Pushed)
    ensures Apply(s, Push(push)) == s.(pushes := s.pushes + [push])
  {
  }

  lemma {:induction false} Extends(env: Env, trace: seq<Step>, step: Step)
    requires Disciplined(env, trace) && Allowed(env, Run(trace), step)
    ensures Disciplined(env, trace + [step]) && Run(trace + [step]) == Apply(Run(trace), step)
  {
    assert (trace + [step])[..|trace|] == trace;
  }

  // ----- The dispatcher's loops -------------------------------------------------------------------------------------

  const BATCH_SIZE := 100
  const MAX_PER_DISPATCH := 2000
  const CONCURRENCY := 10

  function Min(a: nat, b: nat): nat {
    if a < b then a else b
  }

  /** The send loop of one group stops as soon as the dispatch is cancelled; `until` is how far it gets. */
  method DispatchGroup(group: seq<nat>, until: nat) returns (handed: seq<nat>, cancelled: bool)
    ensures handed == group[..Min(until, |group|)] && (cancelled <==> until < |group|)
  {
    handed := [];
    for i := 0 to |group|
      invariant handed == group[..i] && i <= until
    {
      if i == until {
        return handed, true;
      }
      handed := handed + [group[i]];
    }
    cancelled := false;
  }

  /**
   Groups of ten, of which the n-th is cancelled after `until(n)` deliveries or has other trouble: a batch is handed out
   once and in order, down to the group that ended it, and completely if none did.
   */
  method DispatchBatch(deliveries: seq<nat>, loads: nat -> bool, until: nat -> nat, trouble: nat -> bool)
    returns (handed: seq<nat>, ok: bool)
    ensures handed <= deliveries
    ensures ok ==> handed == deliveries
    ensures ok <==> forall n: nat | n * CONCURRENCY < |deliveries| ::
                      loads(n) && until(n) >= Min(CONCURRENCY, |deliveries| - n * CONCURRENCY) && !trouble(n)
  {
    handed, ok := [], true;
    var n := 0;
    while n * CONCURRENCY < |deliveries|
      invariant handed == deliveries[..Min(n * CONCURRENCY, |deliveries|)]
      invariant forall k: nat | k < n && k * CONCURRENCY < |deliveries| ::
                  loads(k) && until(k) >= Min(CONCURRENCY, |deliveries| - k * CONCURRENCY) && !trouble(k)
      decreases |deliveries| - n * CONCURRENCY
    {
      if !loads(n) {
        return handed, false;
      }
      var start := n * CONCURRENCY;
      var group := deliveries[start..Min(start + CONCURRENCY, |deliveries|)];
      var part, cancelled := DispatchGroup(group, until(n));
      assert group[..|part|] == deliveries[start..][..|part|];
      assert deliveries[..start] + deliveries[start..][..|part|] == deliveries[..start + |part|];
      handed := handed + part;
      if cancelled || trouble(n) {
        return handed, false;
      }
      n := n + 1;
    }
  }

  /**
   How a dispatch goes: `due` is what the list gives when it is read again, the rest concerns the n-th group of it.
   */
  datatype Course = Course(due: nat -> Option<seq<nat>>, loads: (nat, nat) -> bool, until: (nat, nat) -> nat,
                           trouble: (nat, nat) -> bool)

  ghost predicate Smooth(course: Course) {
    && (forall turn :: course.due(turn).Some?)
    && (forall turn, n :: course.loads(turn, n) && course.until(turn, n) >= CONCURRENCY && !course.trouble(turn, n))
  }

  /** The list as it is read for the turn-th time, cut to the limit of that reading. */
  function Listed(course: Course, turn: nat, processed: nat): seq<nat> {
    var limit := if processed < MAX_PER_DISPATCH then Min(BATCH_SIZE, MAX_PER_DISPATCH - processed) else 0;
    match course.due(turn)
    case Some(list) => list[..Min(limit, |list|)]
    case None => []
  }

  /** Everything one dispatch has to hand out: full batches, up to the first that is not full or the limit. */
  function Work(course: Course, turn: nat, processed: nat): (work: seq<nat>)
    requires processed <= MAX_PER_DISPATCH
    ensures processed + |work| <= MAX_PER_DISPATCH
    decreases MAX_PER_DISPATCH - processed
  {
    var list := Listed(course, turn, processed);
    if list == [] || |list| < Min(BATCH_SIZE, MAX_PER_DISPATCH - processed) then list
    else list + Work(course, turn + 1, processed + |list|)
  }

  /** The turn-th batch of a dispatch. */
  method HandOut(course: Course, turn: nat, list: seq<nat>) returns (part: seq<nat>, ok: bool)
    ensures part <= list && (ok ==> part == list) && (Smooth(course) ==> ok)
  {
    part, ok := DispatchBatch(list, (n: nat) => course.loads(turn, n), (n: nat) => course.until(turn, n),
                              (n: nat) => course.trouble(turn, n));
  }

  lemma {:induction false} PrefixOfWork(handed: seq<nat>, list: seq<nat>, rest: seq<nat>, part: seq<nat>)
    requires part <= list && list <= rest
    ensures handed + part <= handed + rest
    ensures forall later: seq<nat> | rest == list + later :: handed + rest == (handed + list) + later
  {
  }

  /** A dispatch without errors hands out all of its work, once and in order; an error cuts it off. */
  method DispatchDue(recovers: bool, course: Course) returns (handed: seq<nat>, ok: bool)
    ensures handed <= Work(course, 0, 0) && |handed| <= MAX_PER_DISPATCH
    ensures ok ==> handed == Work(course, 0, 0)
    ensures !recovers ==> !ok && handed == []
    ensures recovers && Smooth(course) ==> ok
  {
    hide Smooth, Listed;
    handed, ok := [], recovers;
    if !recovers {
      return;
    }
    var turn := 0;
    while |handed| < MAX_PER_DISPATCH
      invariant ok && |handed| <= MAX_PER_DISPATCH
      invariant handed + Work(course, turn, |handed|) == Work(course, 0, 0)
      decreases MAX_PER_DISPATCH - |handed|
    {
      var limit := Min(BATCH_SIZE, MAX_PER_DISPATCH - |handed|);
      if course.due(turn).None? {
        SmoothLists(course, turn);
        return handed, false;
      }
      var rows := course.due(turn).value;
      var list := rows[..Min(limit, |rows|)];
      ListedNow(course, turn, |handed|);
      ghost var rest := Work(course, turn, |handed|);
      if list == [] {
        return;
      }
      var part, complete := HandOut(course, turn, list);
      PrefixOfWork(handed, list, rest, part);
      if !complete {
        return handed + part, false;
      }
      if |list| < limit {
        return handed + list, true;
      }
      handed := handed + list;
      turn := turn + 1;
    }
  }

  lemma {:induction false} ListedNow(course: Course, turn: nat, processed: nat)
    requires processed < MAX_PER_DISPATCH && course.due(turn).Some?
    ensures var rows := course.due(turn).value;
            Listed(course, turn, processed) == rows[..Min(Min(BATCH_SIZE, MAX_PER_DISPATCH - processed), |rows|)]
  {
  }

  lemma {:induction false} SmoothLists(course: Course, turn: nat)
    ensures Smooth(course) ==> course.due(turn).Some?
  {
  }
}
