/**
 Consuming one Kafka partition of feed events: sessions that end and resume at the committed offset, storage that may
 fail after taking effect, and a counter in memory that lets a message pass after repeated permanent failures.
 */
module FeedConsumer {
  import opened Outcomes

  const THRESHOLD := 5
  const MAX_ENTRIES := 10000
  const MAX_ATTEMPTS := 4

  /**
   `sound` says whether the payload decodes and passes the storage checks; a message from an old producer has no key.
   */
  datatype Message = Message(sound: bool, student: string, key: Option<string>, library: bool)

  /** The digest of a message's coordinates is taken to be as good as the coordinates themselves. */
  datatype Key = Given(text: string) | FromKafka(offset: nat, student: string)

  datatype Item = Item(student: string, key: Key)

  function KeyOf(m: Message, offset: nat): Key {
    if m.key.Some? then Given(m.key.value) else FromKafka(offset, m.student)
  }

  function ItemOf(m: Message, offset: nat): Item {
    Item(m.student, KeyOf(m, offset))
  }

  /**
   `position` is the next message of the session, and everything before it is marked. `others` counts the skip entries
   of other partitions. `failed` and `suppressed` only record what happened: every permanent failure, and the messages
   whose storage found the student's library messages switched off. `settled` says that storing the next message
   succeeded.
   */
  datatype State = State(log: seq<Message>, committed: nat, position: nat, settled: bool, failures: map<nat, nat>,
      others: nat,
                         stored: seq<Item>, libraryOn: set<string>, failed: map<nat, nat>, suppressed: set<nat>)

  function Count(m: map<nat, nat>, offset: nat): nat {
    if offset in m then m[offset] else 0
  }

  // ----- The transitions --------------------------------------------------------------------------------------------

  /** The storage transaction: a switched-off library message is left out, a known key changes nothing. */
  function Stored(s: State): State
    requires s.position < |s.log|
  {
    var m := s.log[s.position];
    var item := ItemOf(m, s.position);
    if m.library && m.student !in s.libraryOn then s.(suppressed := s.suppressed + {s.position})
    else if item in s.stored then s
    else s.(stored := s.stored + [item])
  }

  predicate Full(failures: map<nat, nat>, others: nat, offset: nat) {
    |failures| + others >= MAX_ENTRIES && offset !in failures
  }

  /** Counts a permanent failure; the whole map is cleared before it would grow past its limit. */
  function Failures(failures: map<nat, nat>, others: nat, offset: nat): map<nat, nat> {
    if Full(failures, others, offset) then map[offset := 1]
    else failures[offset := Count(failures, offset) + 1]
  }

  /** Marking the next message: the session goes on behind it. */
  function Marked(s: State): State {
    s.(position := s.position + 1, settled := false, failures := s.failures - {s.position})
  }

  /** One more permanent failure of the next message. */
  function FailedOnce(s: State): State {
    s.(failures := Failures(s.failures, s.others, s.position),
       others := if Full(s.failures, s.others, s.position) then 0 else s.others,
       failed := s.failed[s.position := Count(s.failed, s.position) + 1])
  }

  datatype Step =
    | Append(m: Message)
    | Prefer(student: string, on: bool)
    | OtherPartitions(entries: nat, cleared: bool)
    | Store(ok: bool, took: bool)
    | Fail
    | Acknowledge
    | Drop
    | Commit
    | Resume
    | Restart

  function Apply(s: State, step: Step): State {
    match step
    case Append(m) => s.(log := s.log + [m])
    case Prefer(student, on) => s.(libraryOn := if on then s.libraryOn + {student} else s.libraryOn - {student})
    case OtherPartitions(entries, cleared) => s.(others := entries, failures := if cleared then map[] else s.failures)
    case Store(ok, took) => if s.position < |s.log| && (ok || took) then Stored(s).(settled := s.settled || ok) else s
    case Fail => FailedOnce(s)
    case Acknowledge => Marked(s)
    case Drop => Marked(s)
    case Commit => s.(committed := s.position)
    case Resume => s.(position := s.committed, settled := false)
    case Restart => s.(position := s.committed, settled := false, failures := map[], others := 0)
  }

  /**
   What the consumer keeps to: it stores sound messages and counts failures of unsound ones, it acknowledges only what
   was stored, and it drops only what has reached the threshold.
   */
  predicate Allowed(s: State, step: Step) {
    match step
    case Store(_, _) => s.position < |s.log| && s.log[s.position].sound
    case Fail => s.position < |s.log| && !s.log[s.position].sound
    case Acknowledge => s.position < |s.log| && s.settled
    case Drop => s.position < |s.log| && !s.log[s.position].sound && Count(s.failures, s.position) >= THRESHOLD
    case _ => true
  }

  function Run(steps: seq<Step>): State {
    if steps == [] then State([], 0, 0, false, map[], 0, [], {}, map[], {})
    else Apply(Run(steps[..|steps| - 1]), steps[|steps| - 1])
  }

  ghost predicate Disciplined(steps: seq<Step>) {
    steps == [] || (Disciplined(steps[..|steps| - 1]) && Allowed(Run(steps[..|steps| - 1]), steps[|steps| - 1]))
  }

  // ----- Safety of every run ----------------------------------------------------------------------------------------

  /** A message that may be passed: failed often enough for good, stored, or switched off by its student. */
  ghost predicate Passable(s: State, offset: nat)
    requires offset < |s.log|
  {
    var m := s.log[offset];
    if !m.sound then Count(s.failed, offset) >= THRESHOLD
    else ItemOf(m, offset) in s.stored || (m.library && offset in s.suppressed)
  }

  ghost predicate NoRepeats(items: seq<Item>) {
    forall i, j | 0 <= i < j < |items| :: items[i] != items[j]
  }

  ghost predicate FromTheLog(s: State) {
    forall item | item in s.stored :: exists o: nat :: o < |s.log| && s.log[o].sound && ItemOf(s.log[o], o) == item
  }

  ghost predicate Inv(s: State) {
    && s.committed <= s.position <= |s.log|
    && (forall o: nat | o < s.position :: Passable(s, o))
    && (s.settled ==> s.position < |s.log| && s.log[s.position].sound && Passable(s, s.position))
    && (forall o | o in s.failures :: s.failures[o] <= Count(s.failed, o))
    && NoRepeats(s.stored) && FromTheLog(s)
  }

  lemma {:induction false} StoreKeepsInv(s: State, ok: bool, took: bool)
    requires Inv(s) && Allowed(s, Store(ok, took))
    ensures Inv(Apply(s, Store(ok, took)))
  {
    var t := Apply(s, Store(ok, took));
    if t != s {
      assert Passable(t, s.position);
      forall o: nat | o < s.position ensures Passable(t, o) {
        assert Passable(s, o);
      }
      forall item | item in t.stored
        ensures exists o: nat :: o < |t.log| && t.log[o].sound && ItemOf(t.log[o], o) == item
      {
        if item !in s.stored {
          assert item == ItemOf(t.log[s.position], s.position);
        }
      }
    }
  }

  lemma {:induction false} FailKeepsInv(s: State)
    requires Inv(s) && Allowed(s, Fail)
    ensures Inv(Apply(s, Fail))
  {
    var t := Apply(s, Fail);
    forall o: nat | o < s.position ensures Passable(t, o) {
      assert Passable(s, o);
    }
  }

  lemma {:induction false} MarkKeepsInv(s: State, step: Step)
    requires Inv(s) && (step.Acknowledge? || step.Drop?) && Allowed(s, step)
    ensures Inv(Apply(s, step))
  {
    var t := Apply(s, step);
    assert Passable(t, s.position);
    forall o: nat | o < s.position ensures Passable(t, o) {
      assert Passable(s, o);
    }
  }

  lemma {:induction false} AppendKeepsInv(s: State, m: Message)
    requires Inv(s)
    ensures Inv(Apply(s, Append(m)))
  {
    var t := Apply(s, Append(m));
    forall o: nat | o < s.position ensures Passable(t, o) {
      assert Passable(s, o);
    }
    forall item | item in t.stored
      ensures exists o: nat :: o < |t.log| && t.log[o].sound && ItemOf(t.log[o], o) == item
    {
      var o: nat :| o < |s.log| && s.log[o].sound && ItemOf(s.log[o], o) == item;
      assert t.log[o] == s.log[o];
    }
  }

  lemma {:induction false} StepKeepsInv(s: State, step: Step)
    requires Inv(s) && Allowed(s, step)
    ensures Inv(Apply(s, step))
  {
    match step
    case Append(m) => AppendKeepsInv(s, m);
    case Store(ok, took) => StoreKeepsInv(s, ok, took);
    case Fail => FailKeepsInv(s);
    case Acknowledge => MarkKeepsInv(s, step);
    case Drop => MarkKeepsInv(s, step);
    case _ =>
      var t := Apply(s, step);
      assert t.log == s.log && t.stored == s.stored && t.failed == s.failed && t.suppressed == s.suppressed;
      forall o: nat | o < t.position ensures Passable(t, o) {
        assert Passable(s, o);
      }
  }

  lemma {:induction false} RunKeepsInv(steps: seq<Step>)
    requires Disciplined(steps)
    ensures Inv(Run(steps))
  {
    hide Inv, Apply, Allowed;
    if steps == [] {
      assert Inv(Run([])) by { StartsEmpty(); }
    } else {
      RunKeepsInv(steps[..|steps| - 1]);
      StepKeepsInv(Run(steps[..|steps| - 1]), steps[|steps| - 1]);
    }
  }

  lemma {:induction false} StartsEmpty()
    ensures Inv(Run([]))
  {
  }

  /**
   In every disciplined run of sessions that end, crash and resume: an offset below the committed one was stored, or
   dropped after at least five permanent failures, or belongs to a library message that its student had switched off
   when it was handled. A sound message that met nothing but faults is therefore never passed. Whatever is stored
   comes from a sound message, and nothing is stored twice.
   */
  lemma {:induction false} CommittedIsHandled(steps: seq<Step>, offset: nat)
    requires Disciplined(steps) && offset < Run(steps).committed
    ensures var s := Run(steps);
            && offset < |s.log|
            && (!s.log[offset].sound ==> Count(s.failed, offset) >= 5)
            && (s.log[offset].sound && !(s.log[offset].library && offset in s.suppressed) ==>
                ItemOf(s.log[offset], offset) in s.stored)
            && NoRepeats(s.stored) && FromTheLog(s)
  {
    hide Apply, Run;
    RunKeepsInv(steps);
    assert Passable(Run(steps), offset);
  }

  /** What is stored stays stored, and the log only grows. */
  lemma {:induction false} RunGrows(steps: seq<Step>, a: nat, b: nat)
    requires a <= b <= |steps|
    ensures Run(steps[..a]).log <= Run(steps[..b]).log && Run(steps[..a]).stored <= Run(steps[..b]).stored
    decreases b
  {
    hide Run;
    if a < b {
      RunGrows(steps, a, b - 1);
      RunStep(steps, b - 1);
      StepGrows(Run(steps[..b - 1]), steps[b - 1]);
    }
  }

  lemma {:induction false} StepGrows(s: State, step: Step)
    ensures s.log <= Apply(s, step).log && s.stored <= Apply(s, step).stored
  {
  }

  /**
   However often an offset is delivered again, it stands for the same item, and an item once stored has one entry from
   then on. Two offsets stand for one item only if both messages carry the same key from their producer.
   */
  lemma {:induction false} StoredOnceForAll(steps: seq<Step>, a: nat, b: nat, offset: nat)
    requires Disciplined(steps) && a <= b <= |steps| && offset < |Run(steps[..a]).log|
    requires var s := Run(steps[..a]); ItemOf(s.log[offset], offset) in s.stored
    ensures var s, t := Run(steps[..a]), Run(steps[..b]);
            && offset < |t.log| && ItemOf(t.log[offset], offset) == ItemOf(s.log[offset], offset)
            && multiset(t.stored)[ItemOf(t.log[offset], offset)] == 1
            && forall o: nat | o < |t.log| && o != offset && ItemOf(t.log[o], o) == ItemOf(t.log[offset], offset) ::
                 t.log[o].key.Some? && t.log[o].key == t.log[offset].key
  {
    hide Run, Disciplined, Passable, FromTheLog;
    RunGrows(steps, a, b);
    DisciplinedPrefix(steps, b);
    RunKeepsInv(steps[..b]);
    OnceWithoutRepeats(Run(steps[..b]).stored, ItemOf(Run(steps[..b]).log[offset], offset));
  }

  lemma {:induction false} DisciplinedPrefix(steps: seq<Step>, n: nat)
    requires Disciplined(steps) && n <= |steps|
    ensures Disciplined(steps[..n])
  {
    hide Run, Allowed;
    if n < |steps| {
      DisciplinedPrefix(steps[..|steps| - 1], n);
      assert steps[..|steps| - 1][..n] == steps[..n];
    } else {
      assert steps[..n] == steps;
    }
  }

  lemma {:induction false} OnceWithoutRepeats(items: seq<Item>, item: Item)
    requires NoRepeats(items) && item in items
    ensures multiset(items)[item] == 1
  {
    var n := |items| - 1;
    assert items == items[..n] + [items[n]];
    if item == items[n] {
      assert item !in items[..n];
    } else {
      assert item in items[..n];
      OnceWithoutRepeats(items[..n], item);
    }
  }

  /** The claim without its last case is false: this message is committed, neither stored nor ever failed. */
  lemma {:induction false} SwitchedOffIsPassed()
    ensures exists steps: seq<Step> ::
              Disciplined(steps) && Run(steps).committed == 1 && Run(steps).stored == [] && Run(steps).failed == map[]
  {
    hide Apply, Run, Allowed;
    var m := Message(true, "s", Some("k"), true);
    var steps := [Append(m), Store(true, true), Acknowledge, Commit];
    assert steps[..4] == steps && steps[..0] == [];
    RunStep(steps, 0);
    RunStep(steps, 1);
    RunStep(steps, 2);
    RunStep(steps, 3);
    StartState();
    PassedUnstored(Run([]), m);
    var s1, s2, s3 := steps[..1], steps[..2], steps[..3];
    assert s1[..0] == [] && s2[..1] == s1 && s3[..2] == s2 && steps[..3] == s3;
    assert Disciplined([]) && Disciplined(s1) && Disciplined(s2) && Disciplined(s3);
  }

  lemma {:induction false} StartState()
    ensures Run([]) == State([], 0, 0, false, map[], 0, [], {}, map[], {})
  {
  }

  lemma {:induction false} PassedUnstored(s: State, m: Message)
    requires s == State([], 0, 0, false, map[], 0, [], {}, map[], {}) && m == Message(true, "s", Some("k"), true)
    ensures var t := Apply(Apply(Apply(Apply(s, Append(m)), Store(true, true)), Acknowledge), Commit);
            t.committed == 1 && t.stored == [] && t.failed == map[]
    ensures Allowed(s, Append(m)) && Allowed(Apply(s, Append(m)), Store(true, true))
    ensures Allowed(Apply(Apply(s, Append(m)), Store(true, true)), Acknowledge)
    ensures Allowed(Apply(Apply(Apply(s, Append(m)), Store(true, true)), Acknowledge), Commit)
  {
  }

  lemma {:induction false} RunStep(steps: seq<Step>, n: nat)
    requires n < |steps|
    ensures Run(steps[..n + 1]) == Apply(Run(steps[..n]), steps[n])
  {
    assert steps[..n + 1][..n] == steps[..n];
  }

  /** A storage transaction that takes effect and finds the message wanted: not a library message, or switched on. */
  predicate Accepts(s: State, step: Step, item: Item) {
    && step.Store? && (step.ok || step.took) && s.position < |s.log|
    && var m := s.log[s.position];
       ItemOf(m, s.position) == item && (m.library ==> m.student in s.libraryOn)
  }

  /** Some delivery of the item met its student's preference switched on, or needed none. */
  ghost predicate EverAccepted(steps: seq<Step>, item: Item) {
    exists n: nat :: n < |steps| && Accepts(Run(steps[..n]), steps[n], item)
  }

  lemma {:induction false} AcceptedStep(steps: seq<Step>, item: Item)
    requires steps != []
    ensures var k := |steps| - 1;
            EverAccepted(steps, item) <==> EverAccepted(steps[..k], item) || Accepts(Run(steps[..k]), steps[k], item)
  {
    hide Accepts, Run;
    var k := |steps| - 1;
    forall n: nat | n < k ensures steps[..k][..n] == steps[..n] && steps[..k][n] == steps[n] {
    }
    if EverAccepted(steps[..k], item) {
      var n: nat :| n < k && Accepts(Run(steps[..k][..n]), steps[..k][n], item);
      assert Accepts(Run(steps[..n]), steps[n], item);
    }
    if EverAccepted(steps, item) {
      var n: nat :| n < |steps| && Accepts(Run(steps[..n]), steps[n], item);
      assert n < k ==> Accepts(Run(steps[..k][..n]), steps[..k][n], item);
    }
  }

  /** An item is stored exactly when it was ever accepted, so a switched-off message is lost exactly if it never was. */
  lemma {:induction false} StoredIffAccepted(steps: seq<Step>, item: Item)
    ensures item in Run(steps).stored <==> EverAccepted(steps, item)
  {
    hide Accepts, Apply, EverAccepted;
    if steps == [] {
      StartState();
      NeverAccepted(item);
    } else {
      var k := |steps| - 1;
      StoredIffAccepted(steps[..k], item);
      AcceptedStep(steps, item);
      StoreStep(Run(steps[..k]), steps[k], item);
    }
  }

  lemma {:induction false} NeverAccepted(item: Item)
    ensures !EverAccepted([], item)
  {
  }

  lemma {:induction false} StoreStep(s: State, step: Step, item: Item)
    ensures item in Apply(s, step).stored <==> item in s.stored || Accepts(s, step, item)
  {
  }

  /** How many storage attempts a run has made. */
  function Stores(steps: seq<Step>): nat {
    if steps == [] then 0 else Stores(steps[..|steps| - 1]) + if steps[|steps| - 1].Store? then 1 else 0
  }

  // ----- Counting failures ------------------------------------------------------------------------------------------

  /** The step leaves the failures of `offset` alone: no restart, no clearing, no room made, and it is not passed. */
  ghost predicate KeepsCount(s: State, step: Step, offset: nat) {
    match step
    case OtherPartitions(_, cleared) => !cleared
    case Fail => s.position in s.failures || |s.failures| + s.others < MAX_ENTRIES
    case Acknowledge => s.position != offset
    case Drop => s.position != offset
    case Restart => false
    case _ => true
  }

  /** How often `offset` failed between two points of a run. */
  ghost function Failed(steps: seq<Step>, a: nat, b: nat, offset: nat): nat
    requires a <= b <= |steps|
    decreases b
  {
    if a == b then 0
    else
      Failed(steps, a, b - 1, offset) +
      if steps[b - 1].Fail? && Run(steps[..b - 1]).position == offset then 1 else 0
  }

  lemma {:induction false} CountStep(s: State, step: Step, offset: nat)
    requires KeepsCount(s, step, offset)
    ensures Count(Apply(s, step).failures, offset) ==
              Count(s.failures, offset) + if step.Fail? && s.position == offset then 1 else 0
  {
  }

  /** A message that was passed starts again at nothing, and so does everything when the program restarts. */
  lemma {:induction false} CountStarts(s: State, step: Step, offset: nat)
    requires ((step.Acknowledge? || step.Drop?) && s.position == offset) || step.Restart?
    ensures Count(Apply(s, step).failures, offset) == 0
  {
  }

  /** What was not committed is delivered again, by the next session as by the next start of the program. */
  lemma {:induction false} NothingIsSkipped(steps: seq<Step>, offset: nat)
    requires steps != [] && (steps[|steps| - 1].Resume? || steps[|steps| - 1].Restart?)
    ensures Run(steps).position <= offset <==> Run(steps).committed <= offset
    ensures Run(steps).committed == Run(steps[..|steps| - 1]).committed && !Run(steps).settled
  {
  }

  /**
   As long as nothing clears it, the counter counts every failure; so after five of them the message can be dropped, in
   any session, and does not block the partition.
   */
  lemma {:induction false} FailuresAdd(steps: seq<Step>, a: nat, b: nat, offset: nat)
    requires a <= b <= |steps| && forall k | a <= k < b :: KeepsCount(Run(steps[..k]), steps[k], offset)
    ensures Count(Run(steps[..b]).failures, offset) ==
            Count(Run(steps[..a]).failures, offset) + Failed(steps, a, b, offset)
    ensures var s := Run(steps[..b]);
            (Failed(steps, a, b, offset) >= 5 && s.position == offset < |s.log| && !s.log[offset].sound) ==>
            Allowed(s, Drop)
    decreases b
  {
    hide Apply, Run, KeepsCount;
    if a < b {
      FailuresAdd(steps, a, b - 1, offset);
      RunStep(steps, b - 1);
      CountStep(Run(steps[..b - 1]), steps[b - 1], offset);
    }
  }

  // ----- The consumer -----------------------------------------------------------------------------------------------

  datatype Outcome = Ack | Transient | Permanent

  class Consumer {
    var log: seq<Message>
    var committed: nat
    var position: nat
    var settled: bool
    var failures: map<nat, nat>
    var others: nat
    var stored: seq<Item>
    var libraryOn: set<string>
    var failed: map<nat, nat>
    var suppressed: set<nat>
    ghost var trace: seq<Step>

    ghost function Now(): State
      reads this
    {
      State(log, committed, position, settled, failures, others, stored, libraryOn, failed, suppressed)
    }

    ghost predicate Valid()
      reads this
    {
      Disciplined(trace) && Now() == Run(trace)
    }

    constructor ()
      ensures Valid() && trace == []
    {
      log, committed, position, settled, failures, others := [], 0, 0, false, map[], 0;
      stored, libraryOn, failed, suppressed, trace := [], {}, map[], {}, [];
    }

    method Do(step: Step)
      requires Valid() && Allowed(Now(), step)
      modifies this
      ensures Valid() && trace == old(trace) + [step] && Now() == Apply(old(Now()), step)
      ensures Stores(trace) == Stores(old(trace)) + if step.Store? then 1 else 0
    {
      hide Apply, Run, Allowed, Disciplined;
      Extends(trace, step);
      var t := Apply(State(log, committed, position, settled, failures, others, stored, libraryOn, failed, suppressed),
          step);
      log, committed, position, settled, failures, others := t.log, t.committed, t.position, t.settled, t.failures,
          t.others;
      stored, libraryOn, failed, suppressed := t.stored, t.libraryOn, t.failed, t.suppressed;
      trace := trace + [step];
      assert trace[..|trace| - 1] == old(trace);
    }

    /** What goes on beside the message loop: producers, preferences, other partitions, and the periodic commit. */
    method Meanwhile()
      requires Valid()
      modifies this
      ensures Valid() && old(trace) <= trace && position == old(position) && old(log) <= log && settled == old(settled)
      ensures Stores(trace) == Stores(old(trace))
    {
      var n: nat :| n >= 0;
      for i := 0 to n
        invariant Valid() && old(trace) <= trace && position == old(position) && old(log) <= log &&
                  settled == old(settled)
        invariant Stores(trace) == Stores(old(trace))
      {
        var step: Step :| true;
        if step.Append? || step.Prefer? || step.OtherPartitions? || step.Commit? {
          Do(step);
        }
      }
    }

    /** The skipper's own bookkeeping: how often has the next message failed, and is that often enough? */
    method RecordFailure() returns (count: nat, reached: bool)
      modifies this`failures, this`others
      ensures failures == Failures(old(failures), old(others), position)
      ensures others == if Full(old(failures), old(others), position) then 0 else old(others)
      ensures count == Count(failures, position) && (reached <==> count >= THRESHOLD)
    {
      if |failures| + others >= MAX_ENTRIES {
        if position !in failures {
          failures := map[];
          others := 0;
        }
      }
      failures := failures[position := Count(failures, position) + 1];
      count := failures[position];
      reached := count >= THRESHOLD;
    }

    /**
     Below the threshold the offset stays where it is and the session ends; at the threshold the message is passed.
     */
    method DropPermanentMessage() returns (dropped: bool)
      requires Valid() && position < |log| && !log[position].sound
      modifies this
      ensures Valid() && trace == old(trace) + if dropped then [Fail, Drop] else [Fail]
      ensures position == old(position) + if dropped then 1 else 0
      ensures dropped <==> Count(Failures(old(failures), old(others), old(position)), old(position)) >= THRESHOLD
    {
      hide Run, Disciplined, Failures, Full;
      Extends(trace, Fail);
      trace := trace + [Fail];
      var count, reached := RecordFailure();
      failed := failed[position := Count(failed, position) + 1];
      dropped := reached;
      if dropped {
        Do(Drop);
      }
    }

    /**
     One message. Storage is tried up to four times; an attempt that fails may have taken effect, and a panic may come
     before or after any of them. Only success is acknowledged, and only a message that can never be stored fails for
     good. If all is `healthy` the message is stored and acknowledged, unless it can never be.
     */
    method ConsumeMessage(healthy: bool) returns (outcome: Outcome)
      requires Valid() && position < |log|
      modifies this
      ensures Valid() && old(trace) <= trace && position == old(position) && old(log) <= log
      ensures Stores(trace) <= Stores(old(trace)) + 4
      ensures outcome == Ack ==> settled && log[position].sound
      ensures outcome == Permanent ==> !log[position].sound && trace == old(trace)
      ensures healthy ==> outcome == if log[position].sound then Ack else Permanent
    {
      hide Apply, Run;
      var attempts := 0;
      outcome := Transient;
      var panics: bool := *;
      if panics && !healthy {
        return;
      }
      if !log[position].sound {
        return Permanent;
      }
      while attempts < MAX_ATTEMPTS
        invariant Valid() && old(trace) <= trace && position == old(position) && old(log) <= log
        invariant attempts <= MAX_ATTEMPTS && Stores(trace) == Stores(old(trace)) + attempts
        invariant log[position].sound && (healthy ==> attempts == 0)
      {
        Meanwhile();
        var cancelled: bool := *;
        if cancelled && !healthy {
          return;
        }
        attempts := attempts + 1;
        var works: bool, took: bool := *, *;
        var ok := works || healthy;
        StoreEffect(Now(), ok, took);
        Do(Store(ok, took));
        panics := *;
        if panics && !healthy {
          return;
        }
        if ok {
          return Ack;
        }
      }
    }

    /** One session, from the committed offset until it is cancelled or a message cannot be passed. */
    method ConsumeClaim()
      requires Valid()
      modifies this
      ensures Valid() && old(trace) <= trace
    {
      hide Apply, Run;
      Do(Resume);
      var n: nat :| n >= 0;
      for i := 0 to n
        invariant Valid() && old(trace) <= trace
      {
        Meanwhile();
        var cancelled: bool := *;
        if cancelled {
          return;
        }
        if position < |log| {
          var healthy: bool := *;
          var outcome := ConsumeMessage(healthy);
          match outcome {
            case Ack =>
              Do(Acknowledge);
            case Transient =>
              return;
            case Permanent =>
              cancelled := *;
              if cancelled {
                return;
              }
              var dropped := DropPermanentMessage();
              if !dropped {
                return;
              }
          }
        }
      }
    }

    /** Sessions follow each other; the process may restart in between, losing the counts it holds in memory. */
    method RunConsumer(sessions: nat)
      requires Valid()
      modifies this
      ensures Valid() && old(trace) <= trace
      ensures forall offset: nat | offset < committed :: offset < |log| &&
                (Count(failed, offset) >= THRESHOLD || ItemOf(log[offset], offset) in stored ||
                 (log[offset].library && offset in suppressed))
      ensures NoRepeats(stored)
    {
      hide Apply, Run;
      for i := 0 to sessions
        invariant Valid() && old(trace) <= trace
      {
        ConsumeClaim();
        var restarts: bool := *;
        if restarts {
          Do(Restart);
        }
      }
      RunKeepsInv(trace);
      forall offset: nat | offset < committed
        ensures offset < |log| &&
                (Count(failed, offset) >= THRESHOLD || ItemOf(log[offset], offset) in stored ||
                 (log[offset].library && offset in suppressed))
      {
        CommittedIsHandled(trace, offset);
      }
    }
  }

  lemma {:induction false} Extends(trace: seq<Step>, step: Step)
    requires Disciplined(trace) && Allowed(Run(trace), step)
    ensures Disciplined(trace + [step]) && Run(trace + [step]) == Apply(Run(trace), step)
  {
    assert (trace + [step])[..|trace|] == trace;
  }

  lemma {:induction false} StoreEffect(s: State, ok: bool, took: bool)
    requires s.position < |s.log| && s.log[s.position].sound
    ensures Apply(s, Store(ok, took)).position == s.position && Apply(s, Store(ok, took)).log == s.log
    ensures ok ==> Apply(s, Store(ok, took)).settled
  {
  }
}
