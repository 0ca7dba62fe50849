/**
 Publishing scheduled messages: a broadcast walks the user table page by page into Kafka, and a plan is removed only
 after its publication succeeded, so that a failed run can be repeated with the same key.

 Between any two steps the consumer may store messages, other producers may append to the log, users may register and
 time passes. Any number of users may register while the service runs, but only finitely many (`arrivals`).
 */
module FeedBroadcast {
  const BATCH := 50

  datatype User = User(id: nat, student: string)

  /** Who a message is for and its stable key. */
  datatype Item = Item(student: string, key: string)

  /** What a trace records: a message gets stored, the service asks who has one, the service attempts to send one. */
  datatype Event = Stored(item: Item) | LookedUp(students: seq<string>, key: string) | Sent(item: Item)

  datatype Status = Accepted | Duplicate | Failed

  /**
   `valid` says whether the content passes the storage checks; `currentOnly` is the strategy "all" of a targeted plan.
   */
  datatype Plan = Plan(id: string, valid: bool, targeted: bool, currentOnly: bool, students: seq<string>)

  /** A plan taken off the queue, the user table at that moment, and the time span of its last publication. */
  datatype Retired = Retired(plan: Plan, users: seq<User>, from: int, to: int)

  function KeyOf(plan: Plan): string {
    "muxi:" + plan.id
  }

  /** The key is that of the plan with this id and of no other. */
  ghost predicate OwnKey(key: string, id: string) {
    forall plan: Plan :: KeyOf(plan) == key <==> plan.id == id
  }

  /** Messages of different plans are never taken for each other, nor for one that got a random key. */
  lemma {:induction false} KeysAreOwn(p: Plan, q: Plan)
    ensures KeyOf(p) == KeyOf(q) <==> p.id == q.id
    ensures OwnKey(KeyOf(p), p.id)
    ensures forall random: string :: KeyOf(p) != "message:" + random
  {
    forall r: Plan ensures KeyOf(p) == KeyOf(r) <==> p.id == r.id {
      assert KeyOf(p)[5..] == p.id && KeyOf(r)[5..] == r.id;
    }
    forall random: string ensures KeyOf(p) != "message:" + random {
      assert KeyOf(p)[1] == 'u' && ("message:" + random)[1] == 'e';
    }
  }

  ghost predicate Ascending(users: seq<User>) {
    && (forall i | 0 <= i < |users| :: users[i].id >= 1)
    && (forall i, j | 0 <= i < j < |users| :: users[i].id < users[j].id)
  }

  /** `WHERE id > lastID ORDER BY id` on a table in ascending order. */
  function After(users: seq<User>, lastID: nat): seq<User> {
    if users == [] then []
    else if users[0].id > lastID then [users[0]] + After(users[1..], lastID)
    else After(users[1..], lastID)
  }

  function Page(users: seq<User>, lastID: nat): seq<User> {
    var rest := After(users, lastID);
    if |rest| <= BATCH then rest else rest[..BATCH]
  }

  lemma {:induction false} AfterIsSuffix(users: seq<User>, lastID: nat, n: nat)
    requires Ascending(users) && n <= |users|
    requires if n == 0 then lastID == 0 else users[n - 1].id == lastID
    ensures After(users, lastID) == users[n..]
  {
    if users != [] {
      if n == 0 {
        AfterIsSuffix(users[1..], 0, 0);
      } else if n == 1 {
        AllAfter(users[1..], lastID);
      } else {
        AfterIsSuffix(users[1..], lastID, n - 1);
        assert users[0].id < users[n - 1].id;
      }
    }
  }

  lemma {:induction false} AllAfter(users: seq<User>, lastID: nat)
    requires forall i | 0 <= i < |users| :: users[i].id > lastID
    ensures After(users, lastID) == users
  {
    if users != [] {
      AllAfter(users[1..], lastID);
    }
  }

  // ----- What a retired plan has achieved ---------------------------------------------------------------------------

  /** Stored already, or in Kafka and so still to be stored. */
  predicate Handled(stored: set<Item>, log: seq<Item>, student: string, key: string) {
    Item(student, key) in stored || Item(student, key) in log
  }

  ghost predicate CurrentThroughout(isCurrent: (string, int) -> bool, student: string, from: int, to: int) {
    forall t | from <= t <= to :: isCurrent(student, t)
  }

  /** Whom a plan owed its message: everybody it names or addresses, if current all through its publication. */
  ghost predicate Owed(isCurrent: (string, int) -> bool, r: Retired, student: string) {
    if r.plan.targeted
      then student in r.plan.students && (!r.plan.currentOnly || CurrentThroughout(isCurrent, student, r.from, r.to))
    else (exists u | u in r.users :: u.student == student) && CurrentThroughout(isCurrent, student, r.from, r.to)
  }

  /** All of them have a message stored or on its way that belongs to this plan and to no other. */
  ghost predicate Delivered(isCurrent: (string, int) -> bool, r: Retired, stored: set<Item>, log: seq<Item>) {
    && OwnKey(KeyOf(r.plan), r.plan.id)
    && forall student | Owed(isCurrent, r, student) :: Handled(stored, log, student, KeyOf(r.plan))
  }

  /** The only plans that are dropped unpublished: content that can never be stored, or an empty list of recipients. */
  predicate Broken(plan: Plan) {
    !plan.valid || (plan.targeted && plan.students == [])
  }

  ghost predicate AllDelivered(isCurrent: (string, int) -> bool, retired: seq<Retired>, stored: set<Item>,
      log: seq<Item>) {
    forall i | 0 <= i < |retired| :: Broken(retired[i].plan) || Delivered(isCurrent, retired[i], stored, log)
  }

  lemma {:induction false} DeliveredStays(isCurrent: (string, int) -> bool, retired: seq<Retired>, stored: set<Item>,
      log: seq<Item>, laterStored: set<Item>, laterLog: seq<Item>)
    requires AllDelivered(isCurrent, retired, stored, log) && stored <= laterStored && log <= laterLog
    ensures AllDelivered(isCurrent, retired, laterStored, laterLog)
  {
    hide Owed;
    forall i | 0 <= i < |retired| && !Broken(retired[i].plan)
      ensures Delivered(isCurrent, retired[i], laterStored, laterLog)
    {
      assert Delivered(isCurrent, retired[i], stored, log);
    }
  }

  // ----- Whom a message may be sent to ------------------------------------------------------------------------------

  function StoredIn(trace: seq<Event>): set<Item> {
    if trace == [] then {}
    else
      var before := trace[..|trace| - 1];
      match trace[|trace| - 1]
      case Stored(item) => StoredIn(before) + {item}
      case _ => StoredIn(before)
  }

  /** What the latest look-up since `from` did not find: the items of its students that were not stored then. */
  function Missing(trace: seq<Event>, from: nat): set<Item> {
    if |trace| <= from then {}
    else
      var before := trace[..|trace| - 1];
      match trace[|trace| - 1]
      case LookedUp(students, key) => set s | s in students && Item(s, key) !in StoredIn(before) :: Item(s, key)
      case _ => Missing(before, from)
  }

  /** Since `from`, every look-up was of at most one page, and whatever was sent the latest of them had not found. */
  ghost predicate Cleared(trace: seq<Event>, from: nat) {
    |trace| <= from ||
    var before := trace[..|trace| - 1];
    && Cleared(before, from)
    && match trace[|trace| - 1]
       case LookedUp(students, _) => |students| <= BATCH
       case Sent(item) => item in Missing(before, from)
       case Stored(_) => true
  }

  /** The look-up at `h` is of at most one page, asked for this item, and did not find it. */
  ghost predicate NotFoundAt(trace: seq<Event>, h: nat, item: Item)
    requires h < |trace|
  {
    && trace[h].LookedUp? && |trace[h].students| <= BATCH
    && item.student in trace[h].students && item.key == trace[h].key
    && item !in StoredIn(trace[..h])
  }

  /** Behind every attempt to send stands the look-up of its own page, the latest one before it. */
  lemma {:induction false} SentAfterLookUp(trace: seq<Event>, from: nat, i: nat)
    requires Cleared(trace, from) && from <= i < |trace| && trace[i].Sent?
    ensures exists h: nat :: from <= h < i && NotFoundAt(trace, h, trace[i].item) &&
                             forall k | h < k < i :: !trace[k].LookedUp?
  {
    hide StoredIn;
    var n := |trace| - 1;
    var before := trace[..n];
    var h: nat;
    if i < n {
      SentAfterLookUp(before, from, i);
      h :| from <= h < i && NotFoundAt(before, h, before[i].item) && forall k | h < k < i :: !before[k].LookedUp?;
    } else {
      h := MissingWasLookedUp(before, from, trace[i].item);
    }
    assert before[..h] == trace[..h] && before[h] == trace[h];
    assert NotFoundAt(trace, h, trace[i].item);
    forall k | h < k < i ensures !trace[k].LookedUp? {
      assert before[k] == trace[k];
    }
  }

  lemma {:induction false} MissingWasLookedUp(trace: seq<Event>, from: nat, item: Item) returns (h: nat)
    requires Cleared(trace, from) && item in Missing(trace, from)
    ensures from <= h < |trace| && NotFoundAt(trace, h, item) && forall k | h < k < |trace| :: !trace[k].LookedUp?
  {
    hide StoredIn;
    h := |trace| - 1;
    var before := trace[..h];
    if !trace[h].LookedUp? {
      h := MissingWasLookedUp(before, from, item);
      assert before[..h] == trace[..h] && before[h] == trace[h];
      assert forall k | h < k < |before| :: before[k] == trace[k];
    }
  }

  lemma {:induction false} MissingSince(trace: seq<Event>, from: nat, later: nat)
    requires from <= later
    ensures Missing(trace, later) <= Missing(trace, from)
  {
    hide StoredIn;
    if |trace| > later {
      MissingSince(trace[..|trace| - 1], from, later);
    }
  }

  lemma {:induction false} SentKeyTogether(trace: seq<Event>, from: nat, later: nat, key: string)
    requires from <= later <= |trace| && SentKey(trace[..later], from, key) && SentKey(trace, later, key)
    ensures SentKey(trace, from, key)
  {
    forall i | from <= i < |trace| && trace[i].Sent? ensures trace[i].item.key == key {
      assert i < later ==> trace[..later][i] == trace[i];
    }
  }

  lemma {:induction false} ClearedTogether(trace: seq<Event>, from: nat, later: nat)
    requires from <= later <= |trace| && Cleared(trace[..later], from) && Cleared(trace, later)
    ensures Cleared(trace, from)
  {
    hide Missing;
    if later == |trace| {
      assert trace[..later] == trace;
    } else {
      var before := trace[..|trace| - 1];
      assert before[..later] == trace[..later];
      ClearedTogether(before, from, later);
      MissingSince(before, from, later);
    }
  }

  lemma {:induction false} OneMoreEvent(trace: seq<Event>, event: Event, from: nat)
    requires from <= |trace|
    ensures StoredIn(trace + [event]) == if event.Stored? then StoredIn(trace) + {event.item} else StoredIn(trace)
    ensures !event.LookedUp? ==> Missing(trace + [event], from) == Missing(trace, from)
    ensures event.LookedUp? ==>
              forall item :: item in Missing(trace + [event], from) <==>
                  item.student in event.students && item.key == event.key && item !in StoredIn(trace)
    ensures (Cleared(trace, from) && (event.LookedUp? ==> |event.students| <= BATCH) &&
             (event.Sent? ==> event.item in Missing(trace, from))) ==> Cleared(trace + [event], from)
  {
    assert (trace + [event])[..|trace|] == trace;
  }

  /** Nothing but storing happened between the two traces. */
  ghost predicate OnlyStored(before: seq<Event>, trace: seq<Event>) {
    before <= trace && forall i | |before| <= i < |trace| :: trace[i].Stored?
  }

  lemma {:induction false} StoringClears(before: seq<Event>, trace: seq<Event>, from: nat)
    requires OnlyStored(before, trace) && from <= |before|
    ensures Missing(trace, from) == Missing(before, from)
    ensures Cleared(before, from) ==> Cleared(trace, from)
    ensures forall key | SentKey(before, from, key) :: SentKey(trace, from, key)
  {
    hide StoredIn;
    if |before| < |trace| {
      var n := |trace| - 1;
      assert trace[n].Stored?;
      StoringClears(before, trace[..n], from);
    } else {
      assert before == trace;
    }
  }

  /** Whatever was sent since `from` has this key. */
  ghost predicate SentKey(trace: seq<Event>, from: nat, key: string) {
    forall i | from <= i < |trace| && trace[i].Sent? :: trace[i].item.key == key
  }

  ghost predicate NothingSent(trace: seq<Event>, from: nat) {
    forall i | from <= i < |trace| :: !trace[i].Sent?
  }

  /** The cursor stands on row number `done`. */
  ghost predicate UpTo(users: seq<User>, lastID: nat, done: nat) {
    done <= |users| && if done == 0 then lastID == 0 else users[done - 1].id == lastID
  }

  /** Everybody of these rows whom the broadcast addresses has the message stored or on its way. */
  ghost predicate Reached(isCurrent: (string, int) -> bool, rows: seq<User>, stored: set<Item>, log: seq<Item>,
      key: string, official: bool, at: int) {
    forall i | 0 <= i < |rows| :: (!official || isCurrent(rows[i].student, at)) ==>
        Handled(stored, log, rows[i].student, key)
  }

  lemma {:induction false} StoredIsHandled(stored: set<Item>, log: seq<Item>, student: string, key: string)
    ensures Item(student, key) in stored || Item(student, key) in log <==> Handled(stored, log, student, key)
  {
  }

  lemma {:induction false} NothingYet(isCurrent: (string, int) -> bool, stored: set<Item>, log: seq<Item>, key: string,
      official: bool, at: int)
    ensures Reached(isCurrent, [], stored, log, key, official, at)
  {
  }

  lemma {:induction false} ReachedOne(isCurrent: (string, int) -> bool, u: User, stored: set<Item>, log: seq<Item>,
      key: string, official: bool, at: int)
    requires (!official || isCurrent(u.student, at)) ==> Handled(stored, log, u.student, key)
    ensures Reached(isCurrent, [u], stored, log, key, official, at)
  {
  }

  lemma {:induction false} ClearedFromHere(trace: seq<Event>)
    ensures Cleared(trace, |trace|) && forall key :: SentKey(trace, |trace|, key)
  {
  }

  function Students(page: seq<User>): (students: seq<string>)
    ensures |students| == |page| && forall i | 0 <= i < |page| :: students[i] == page[i].student
  {
    seq(|page|, i requires 0 <= i < |page| => page[i].student)
  }

  lemma {:induction false} ReachedStays(isCurrent: (string, int) -> bool, rows: seq<User>, stored: set<Item>,
      log: seq<Item>, laterStored: set<Item>, laterLog: seq<Item>, key: string, official: bool, at: int)
    requires Reached(isCurrent, rows, stored, log, key, official, at) && stored <= laterStored && log <= laterLog
    ensures Reached(isCurrent, rows, laterStored, laterLog, key, official, at)
  {
    forall i | 0 <= i < |rows| && (!official || isCurrent(rows[i].student, at))
      ensures Handled(laterStored, laterLog, rows[i].student, key)
    {
      assert Handled(stored, log, rows[i].student, key);
    }
  }

  lemma {:induction false} ReachedTogether(isCurrent: (string, int) -> bool, a: seq<User>, b: seq<User>,
      stored: set<Item>, log: seq<Item>, key: string, official: bool, at: int)
    requires Reached(isCurrent, a, stored, log, key, official, at) &&
             Reached(isCurrent, b, stored, log, key, official, at)
    ensures Reached(isCurrent, a + b, stored, log, key, official, at)
  {
  }

  function Without(plans: seq<Plan>, plan: Plan): seq<Plan> {
    if plans == [] then []
    else Without(plans[..|plans| - 1], plan) + if plans[|plans| - 1] == plan then [] else [plans[|plans| - 1]]
  }

  /** At most `plan` has gone. */
  ghost predicate Removed(before: seq<Plan>, after: seq<Plan>, plan: Plan) {
    after == before || forall p :: p in after <==> p in before && p != plan
  }

  lemma {:induction false} WithoutRemoves(plans: seq<Plan>, plan: Plan)
    ensures forall p :: p in Without(plans, plan) <==> p in plans && p != plan
  {
    if plans != [] {
      WithoutRemoves(plans[..|plans| - 1], plan);
      assert plans == plans[..|plans| - 1] + [plans[|plans| - 1]];
    }
  }

  lemma {:induction false} NothingRemoved(plans: seq<Plan>, plan: Plan)
    ensures Removed(plans, plans, plan)
  {
  }

  /** The record of a plan's removal, made between two moments. */
  ghost predicate Accounts(r: Retired, plan: Plan, users: seq<User>, from: int, to: int) {
    r.plan == plan && users <= r.users && from <= r.from <= r.to <= to
  }

  /** Every plan that has gone has such a record. */
  ghost predicate AllAccounted(before: seq<Plan>, after: seq<Plan>, records: seq<Retired>, users: seq<User>, from: int,
      to: int) {
    forall p | p in before && p !in after :: exists r :: r in records && Accounts(r, p, users, from, to)
  }

  lemma {:induction false} AccountsTogether(a: seq<Plan>, b: seq<Plan>, c: seq<Plan>, first: seq<Retired>,
      second: seq<Retired>, users: seq<User>, laterUsers: seq<User>, from: int, mid: int, to: int)
    requires AllAccounted(a, b, first, users, from, mid) && AllAccounted(b, c, second, laterUsers, mid, to)
    requires users <= laterUsers && from <= mid <= to
    ensures AllAccounted(a, c, first + second, users, from, to)
  {
    forall p | p in a && p !in c ensures exists r :: r in first + second && Accounts(r, p, users, from, to) {
      if p in b {
        var r :| r in second && Accounts(r, p, laterUsers, mid, to);
        assert r in first + second;
      } else {
        var r :| r in first && Accounts(r, p, users, from, mid);
        assert r in first + second;
      }
    }
  }

  lemma {:induction false} AccountsFromNothing(plans: seq<Plan>, users: seq<User>, clock: int)
    ensures AllAccounted(plans, plans, [], users, clock, clock)
  {
  }

  lemma {:induction false} OneAccounted(before: seq<Plan>, after: seq<Plan>, records: seq<Retired>, r: Retired,
      users: seq<User>, from: int, to: int)
    requires Removed(before, after, r.plan) && Accounts(r, r.plan, users, from, to)
    requires after == before || records == [r]
    ensures AllAccounted(before, after, records, users, from, to)
    ensures forall p | p in after :: p in before
  {
  }

  /** A named recipient is served, or is one of those the plan leaves out. */
  ghost predicate NamedDone(isCurrent: (string, int) -> bool, plan: Plan, student: string, from: int, to: int,
      stored: set<Item>, log: seq<Item>) {
    (!plan.currentOnly || CurrentThroughout(isCurrent, student, from, to)) ==>
        Handled(stored, log, student, KeyOf(plan))
  }

  lemma {:induction false} NamedStays(isCurrent: (string, int) -> bool, plan: Plan, student: string, from: int,
      to: int, later: int, stored: set<Item>, log: seq<Item>, laterStored: set<Item>, laterLog: seq<Item>)
    requires NamedDone(isCurrent, plan, student, from, to, stored, log) && to <= later && stored <= laterStored &&
             log <= laterLog
    ensures NamedDone(isCurrent, plan, student, from, later, laterStored, laterLog)
  {
  }

  lemma {:induction false} BroadcastDelivers(isCurrent: (string, int) -> bool, r: Retired, stored: set<Item>,
      log: seq<Item>, at: int)
    requires !r.plan.targeted && r.from <= at <= r.to &&
             Reached(isCurrent, r.users, stored, log, KeyOf(r.plan), true, at)
    ensures Delivered(isCurrent, r, stored, log)
  {
    hide Handled;
    KeysAreOwn(r.plan, r.plan);
    forall student | Owed(isCurrent, r, student) ensures Handled(stored, log, student, KeyOf(r.plan)) {
      var i :| 0 <= i < |r.users| && r.users[i].student == student;
      assert isCurrent(student, at);
    }
  }

  class FeedService {
    const isCurrent: (string, int) -> bool
    var users: seq<User>
    var stored: set<Item>
    var log: seq<Item>
    var clock: int
    var plans: seq<Plan>
    ghost var arrivals: nat
    ghost var trace: seq<Event>
    ghost var retired: seq<Retired>

    ghost predicate Valid()
      reads this
    {
      && Ascending(users) && AllDelivered(isCurrent, retired, stored, log)
      && stored == StoredIn(trace) && Cleared(trace, 0)
    }

    constructor (isCurrent: (string, int) -> bool)
      ensures Valid() && retired == [] && trace == []
    {
      this.isCurrent := isCurrent;
      users, stored, log, clock, plans, arrivals, trace, retired := [], {}, [], 0, [], 0, [], [];
    }

    /** Consumers, other producers, registrations and the clock; only the postcondition is relied on. */
    method Meanwhile()
      requires Valid()
      modifies this`users, this`stored, this`log, this`clock, this`arrivals, this`trace
      ensures Valid() && clock >= old(clock) && |users| + arrivals == |old(users)| + old(arrivals)
      ensures old(users) <= users && old(stored) <= stored && old(log) <= log && OnlyStored(old(trace), trace)
    {
      hide AllDelivered, Ascending, StoredIn, Cleared, Missing;
      var item: Item, later: nat :| true;
      OneMoreEvent(trace, Stored(item), 0);
      stored := stored + {item};
      trace := trace + [Stored(item)];
      log := log + [item];
      clock := clock + later;
      DeliveredStays(isCurrent, retired, old(stored), old(log), stored, log);
    }

    /** Who of these students has a message of this key stored. */
    method LookUp(students: seq<string>, key: string, ghost from: nat, healthy: bool)
      returns (ok: bool, existing: set<string>)
      requires Valid() && |students| <= BATCH && from <= |trace| && Cleared(trace, from)
      modifies this`trace
      ensures Valid() && from <= |trace| && Cleared(trace, from)
      ensures trace == if ok then old(trace) + [LookedUp(students, key)] else old(trace)
      ensures healthy ==> ok
      ensures ok ==> forall u | u in students :: u in existing <==> Item(u, key) in stored
      ensures ok ==> forall u | u in students && u !in existing :: Item(u, key) in Missing(trace, from)
    {
      hide AllDelivered, Ascending, StoredIn, Cleared, Missing;
      existing := set u | u in students && Item(u, key) in stored;
      var works: bool := *;
      ok := works || healthy;
      if ok {
        OneMoreEvent(trace, LookedUp(students, key), 0);
        OneMoreEvent(trace, LookedUp(students, key), from);
        trace := trace + [LookedUp(students, key)];
      }
    }

    /** A send that fails may have reached the log all the same. */
    method SendMessage(item: Item, ghost from: nat, healthy: bool) returns (ok: bool)
      requires Valid() && from <= |trace| && Cleared(trace, from) && item in Missing(trace, from)
      modifies this`log, this`trace
      ensures Valid() && old(log) <= log && trace == old(trace) + [Sent(item)]
      ensures Cleared(trace, from) && Missing(trace, from) == Missing(old(trace), from)
      ensures (ok ==> item in log) && (healthy ==> ok)
    {
      hide AllDelivered, Ascending, StoredIn, Cleared, Missing;
      MissingSince(trace, 0, from);
      OneMoreEvent(trace, Sent(item), 0);
      OneMoreEvent(trace, Sent(item), from);
      trace := trace + [Sent(item)];
      var arrives: bool := *;
      ok := false;
      if arrives || healthy {
        log := log + [item];
        var reported: bool := *;
        ok := reported || healthy;
      }
      DeliveredStays(isCurrent, retired, old(stored), old(log), stored, log);
    }

    /** One page: those who already had the message stored when the page was looked up are passed over. */
    method SendPage(page: seq<User>, key: string, official: bool, broadcastAt: int, healthy: bool) returns (ok: bool)
      requires Valid() && |page| <= BATCH
      modifies this`users, this`stored, this`log, this`clock, this`arrivals, this`trace
      ensures Valid() && clock >= old(clock) && |users| + arrivals == |old(users)| + old(arrivals)
      ensures old(users) <= users && old(stored) <= stored && old(log) <= log
      ensures ok ==> Reached(isCurrent, page, stored, log, key, official, broadcastAt)
      ensures healthy ==> ok
      ensures old(trace) <= trace && Cleared(trace, |old(trace)|) && SentKey(trace, |old(trace)|, key)
    {
      hide AllDelivered, Ascending, Handled, StoredIn, Cleared, Missing, Reached;
      ok := false;
      ghost var from := |trace|;
      ClearedFromHere(trace);
      MeanwhileSince(from);
      var students := Students(page);
      var found, existing := LookUp(students, key, from, healthy);
      if !found {
        return;
      }
      NothingYet(isCurrent, stored, log, key, official, broadcastAt);
      assert page[..0] == [];
      for i := 0 to |page|
        invariant Valid() && clock >= old(clock) && |users| + arrivals == |old(users)| + old(arrivals)
        invariant old(users) <= users && old(stored) <= stored && old(log) <= log
        invariant Reached(isCurrent, page[..i], stored, log, key, official, broadcastAt)
        invariant forall u | u in students && u in existing :: Item(u, key) in stored
        invariant old(trace) <= trace && Cleared(trace, from) && SentKey(trace, from, key)
        invariant forall u | u in students && u !in existing :: Item(u, key) in Missing(trace, from)
      {
        ghost var storedThen, logThen := stored, log;
        var student := page[i].student;
        assert students[i] == student;
        if !official || isCurrent(student, broadcastAt) {
          var cancelled: bool := *;
          if cancelled && !healthy {
            return;
          }
          if student !in existing {
            MeanwhileSince(from);
            var sent := SendMessage(Item(student, key), from, healthy);
            if !sent {
              return;
            }
          }
          StoredIsHandled(stored, log, student, key);
        }
        ReachedStays(isCurrent, page[..i], storedThen, logThen, stored, log, key, official, broadcastAt);
        ReachedOne(isCurrent, page[i], stored, log, key, official, broadcastAt);
        ReachedTogether(isCurrent, page[..i], [page[i]], stored, log, key, official, broadcastAt);
        assert page[..i + 1] == page[..i] + [page[i]];
      }
      assert page[..|page|] == page;
      ok := true;
    }

    /** `Meanwhile`, seen from an earlier point of the trace: what a look-up found missing is still what it found. */
    method MeanwhileSince(ghost from: nat)
      requires Valid() && from <= |trace| && Cleared(trace, from)
      modifies this`users, this`stored, this`log, this`clock, this`arrivals, this`trace
      ensures Valid() && clock >= old(clock) && |users| + arrivals == |old(users)| + old(arrivals)
      ensures old(users) <= users && old(stored) <= stored && old(log) <= log && OnlyStored(old(trace), trace)
      ensures Cleared(trace, from) && Missing(trace, from) == Missing(old(trace), from)
    {
      hide AllDelivered, Ascending, StoredIn, Cleared, Missing;
      Meanwhile();
      StoringClears(old(trace), trace, from);
    }

    /** Reads the page after `lastID`, which is the `done`-th row. */
    method ReadPage(lastID: nat, ghost done: nat, ghost key: string, ghost official: bool,
        ghost at: int, healthy: bool) returns (ok: bool, page: seq<User>)
      requires Valid() && UpTo(users, lastID, done) && Reached(isCurrent, users[..done], stored, log, key, official, at)
      modifies this`users, this`stored, this`log, this`clock, this`arrivals, this`trace
      ensures Valid() && clock >= old(clock) && |users| + arrivals == |old(users)| + old(arrivals)
      ensures old(users) <= users && old(stored) <= stored && old(log) <= log
      ensures Reached(isCurrent, users[..done], stored, log, key, official, at)
      ensures OnlyStored(old(trace), trace) && (healthy ==> ok)
      ensures ok ==>
                done + |page| <= |users| && page == users[done..done + |page|] && |page| <= BATCH &&
                (page == [] ==> users[..done] == users)
    {
      hide AllDelivered, Ascending, Reached, Handled, StoredIn, Cleared, Missing;
      Meanwhile();
      assert users[..done] == old(users)[..done];
      ReachedStays(isCurrent, users[..done], old(stored), old(log), stored, log, key, official, at);
      var works: bool := *;
      ok := works || healthy;
      page := Page(users, lastID);
      AfterIsSuffix(users, lastID, done);
    }

    /** The broadcast of one page, seen from the whole table. */
    method SendRows(page: seq<User>, ghost done: nat, key: string, official: bool, at: int, healthy: bool)
      returns (ok: bool)
      requires Valid() && done + |page| <= |users| && page == users[done..done + |page|] && |page| <= BATCH
      requires Reached(isCurrent, users[..done], stored, log, key, official, at)
      modifies this`users, this`stored, this`log, this`clock, this`arrivals, this`trace
      ensures Valid() && clock >= old(clock) && |users| + arrivals == |old(users)| + old(arrivals)
      ensures old(users) <= users && old(stored) <= stored && old(log) <= log
      ensures ok ==> Reached(isCurrent, users[..done + |page|], stored, log, key, official, at)
      ensures healthy ==> ok
      ensures old(trace) <= trace && Cleared(trace, |old(trace)|) && SentKey(trace, |old(trace)|, key)
    {
      hide AllDelivered, Ascending, Reached, SentKey, Handled, StoredIn, Cleared, Missing;
      ok := SendPage(page, key, official, at, healthy);
      if ok {
        ReachedStays(isCurrent, old(users)[..done], old(stored), old(log), stored, log, key, official, at);
        ReachedTogether(isCurrent, old(users)[..done], page, stored, log, key, official, at);
        assert users[..done + |page|] == old(users)[..done] + page;
      }
    }

    /**
     The broadcast. When it reports success, everybody it addresses who is in the user table by then has the message
     stored or on its way. Every attempt, successful or not, went to somebody of the page looked up last, for whom that
     look-up, made during the broadcast, found no message of this key.
     */
    method Broadcast(key: string, official: bool, valid: bool, healthy: bool) returns (status: Status, ghost at: int)
      requires Valid()
      modifies this`users, this`stored, this`log, this`clock, this`arrivals, this`trace
      ensures Valid() && old(clock) <= at <= clock && status != Duplicate
      ensures old(users) <= users && old(stored) <= stored && old(log) <= log
      ensures key == "" || !valid ==> status == Failed && trace == old(trace)
      ensures status == Accepted ==> Reached(isCurrent, users, stored, log, key, official, at)
      ensures healthy && key != "" && valid ==> status == Accepted
      ensures old(trace) <= trace && Cleared(trace, |old(trace)|) && SentKey(trace, |old(trace)|, key)
    {
      hide AllDelivered, Ascending, Reached, SentKey, Handled, StoredIn, Cleared, Missing;
      at := clock;
      status := Failed;
      NothingYet(isCurrent, stored, log, key, official, at);
      assert users[..0] == [];
      ClearedFromHere(trace);
      if key == "" || !valid {
        return;
      }
      var broadcastAt := clock;
      var lastID := 0;
      ghost var done: nat := 0;
      while true
        invariant Valid() && clock >= at == broadcastAt
        invariant old(users) <= users && old(stored) <= stored && old(log) <= log
        invariant old(trace) <= trace && Cleared(trace, |old(trace)|) && SentKey(trace, |old(trace)|, key)
        invariant UpTo(users, lastID, done) &&
                  Reached(isCurrent, users[..done], stored, log, key, official, broadcastAt)
        decreases |users| + arrivals - done
      {
        ghost var traceBefore := trace;
        var read, page := ReadPage(lastID, done, key, official, broadcastAt, healthy);
        StoringClears(traceBefore, trace, |old(trace)|);
        if !read {
          return;
        }
        if page == [] {
          return Accepted, at;
        }
        ghost var traceThen := trace;
        var ok := SendRows(page, done, key, official, broadcastAt, healthy);
        assert trace[..|traceThen|] == traceThen;
        ClearedTogether(trace, |old(trace)|, |traceThen|);
        SentKeyTogether(trace, |old(trace)|, |traceThen|, key);
        if !ok {
          return;
        }
        done := done + |page|;
        lastID := page[|page| - 1].id;
      }
    }

    /** One recipient. A message already stored is reported as a duplicate and not sent. */
    method PublishOne(student: string, key: string, valid: bool, healthy: bool) returns (status: Status)
      requires Valid()
      modifies this`users, this`stored, this`log, this`clock, this`arrivals, this`trace
      ensures Valid() && clock >= old(clock)
      ensures old(users) <= users && old(stored) <= stored && old(log) <= log
      ensures status != Failed ==> Handled(stored, log, student, key)
      ensures healthy && valid ==> status != Failed
      ensures status == Duplicate || Item(student, key) in old(stored) ==> NothingSent(trace, |old(trace)|)
      ensures old(trace) <= trace && Cleared(trace, |old(trace)|) && SentKey(trace, |old(trace)|, key)
    {
      hide AllDelivered, Ascending, StoredIn, Cleared, Missing;
      status := Failed;
      ghost var from := |trace|;
      ClearedFromHere(trace);
      if !valid {
        return;
      }
      MeanwhileSince(from);
      var found, existing := LookUp([student], key, from, healthy);
      if !found {
        return;
      }
      if student in existing {
        return Duplicate;
      }
      MeanwhileSince(from);
      var ok := SendMessage(Item(student, key), from, healthy);
      status := if ok then Accepted else Failed;
    }

    // ----- The scheduler ---------------------------------------------------------------------------------------------

    method Schedule(plan: Plan)
      requires Valid()
      modifies this`plans
      ensures Valid() && plans == old(plans) + [plan]
    {
      plans := plans + [plan];
    }

    /** Removing a plan from the queue; a removal that reports failure may have happened. */
    method StopPlan(plan: Plan, ghost r: Retired, healthy: bool) returns (ok: bool)
      requires Valid() && r.plan == plan
      requires Broken(plan) || Delivered(isCurrent, r, stored, log)
      modifies this`plans, this`retired
      ensures Valid() && Removed(old(plans), plans, plan) && old(retired) <= retired
      ensures plans != old(plans) ==> retired == old(retired) + [r]
      ensures healthy ==> ok && plan !in plans
    {
      hide Delivered, Broken, Ascending, StoredIn, Cleared;
      ok := false;
      var happens: bool := *;
      if happens || healthy {
        plans := Without(plans, plan);
        WithoutRemoves(old(plans), plan);
        retired := retired + [r];
        var reported: bool := *;
        ok := reported || healthy;
      } else {
        NothingRemoved(plans, plan);
      }
    }

    /** The publication of one valid plan to the recipients it names; it stops at the first failure. */
    method PublishToNamed(plan: Plan, ghost from: int, healthy: bool) returns (ok: bool)
      requires Valid() && plan.targeted && from <= clock
      modifies this`users, this`stored, this`log, this`clock, this`arrivals, this`trace
      ensures Valid() && clock >= old(clock) && old(users) <= users && old(trace) <= trace
      ensures ok ==> Delivered(isCurrent, Retired(plan, users, from, clock), stored, log)
      ensures healthy && plan.valid ==> ok
    {
      hide AllDelivered, Ascending, Handled, SentKey, StoredIn, Cleared;
      KeysAreOwn(plan, plan);
      for i := 0 to |plan.students|
        invariant Valid() && clock >= old(clock) && old(users) <= users && old(trace) <= trace
        invariant forall j | 0 <= j < i :: NamedDone(isCurrent, plan, plan.students[j], from, clock, stored, log)
      {
        ghost var storedThen, logThen, clockThen := stored, log, clock;
        var student := plan.students[i];
        Meanwhile();
        var now := clock;
        if !plan.currentOnly || isCurrent(student, now) {
          var status := PublishOne(student, KeyOf(plan), plan.valid, healthy);
          if status == Failed {
            return false;
          }
        }
        forall j | 0 <= j < i ensures NamedDone(isCurrent, plan, plan.students[j], from, clock, stored, log) {
          NamedStays(isCurrent, plan, plan.students[j], from, clockThen, clock, storedThen, logThen, stored, log);
        }
      }
      ok := true;
    }

    /** One plan. It leaves the queue only broken, or delivered; and it does leave if all is `healthy`. */
    method PublishPlan(plan: Plan, healthy: bool) returns (ok: bool)
      requires Valid()
      modifies this`users, this`stored, this`log, this`clock, this`arrivals, this`trace, this`plans, this`retired
      ensures Valid() && clock >= old(clock) && old(users) <= users && old(retired) <= retired && old(trace) <= trace
      ensures forall p | p in plans :: p in old(plans)
      ensures AllAccounted(old(plans), plans, retired[|old(retired)|..], old(users), old(clock), clock)
      ensures forall p | p in old(plans) && p != plan :: p in plans
      ensures healthy ==> ok && plan !in plans
    {
      hide AllDelivered, Ascending, Delivered, SentKey, Reached, AllAccounted, StoredIn, Cleared;
      ok := true;
      ghost var from := clock;
      ghost var r := Retired(plan, users, from, clock);
      NothingRemoved(plans, plan);
      OneAccounted(plans, plans, retired[|old(retired)|..], r, users, from, clock);
      if plan.valid && !(plan.targeted && plan.students == []) {
        KeysAreOwn(plan, plan);
        if plan.targeted {
          ok := PublishToNamed(plan, from, healthy);
        } else {
          var status, at := Broadcast(KeyOf(plan), true, plan.valid, healthy);
          ok := status == Accepted;
          if ok {
            BroadcastDelivers(isCurrent, Retired(plan, users, from, clock), stored, log, at);
          }
        }
        r := Retired(plan, users, from, clock);
        OneAccounted(plans, plans, retired[|old(retired)|..], r, old(users), from, clock);
        if !ok {
          return;
        }
      }
      ok := StopPlan(plan, r, healthy);
      assert plans != old(plans) ==> retired[|old(retired)|..] == [r];
      OneAccounted(old(plans), plans, retired[|old(retired)|..], r, old(users), from, clock);
    }

    /** One run of the scheduler over the due plans; it ends at the first failure, and later runs start over. */
    method Tick(isDue: Plan -> bool, healthy: bool)
      requires Valid()
      modifies this`users, this`stored, this`log, this`clock, this`arrivals, this`trace, this`plans, this`retired
      ensures Valid() && clock >= old(clock) && old(users) <= users && old(retired) <= retired && old(trace) <= trace
      ensures forall p | p in plans :: p in old(plans)
      ensures forall p | p in old(plans) && !isDue(p) :: p in plans
      ensures healthy ==> forall p | p in plans :: !isDue(p)
      ensures AllAccounted(old(plans), plans, retired[|old(retired)|..], old(users), old(clock), clock)
    {
      hide AllDelivered, Ascending, AllAccounted, StoredIn, Cleared;
      var due: seq<Plan> := DuePlans(isDue, healthy);
      assert retired[|old(retired)|..] == [];
      AccountsFromNothing(plans, users, clock);
      for i := 0 to |due|
        invariant Valid() && clock >= old(clock) && old(users) <= users && old(retired) <= retired &&
                  old(trace) <= trace
        invariant forall p | p in plans :: p in old(plans)
        invariant forall p | p in old(plans) && !isDue(p) :: p in plans
        invariant healthy ==> forall p | p in due[..i] :: p !in plans
        invariant AllAccounted(old(plans), plans, retired[|old(retired)|..], old(users), old(clock), clock)
      {
        ghost var plansThen, retiredThen, usersThen, clockThen := plans, retired, users, clock;
        var ok := PublishPlan(due[i], healthy);
        AccountsTogether(old(plans), plansThen, plans, retiredThen[|old(retired)|..], retired[|retiredThen|..],
                         old(users), usersThen, old(clock), clockThen, clock);
        assert retired[|old(retired)|..] == retiredThen[|old(retired)|..] + retired[|retiredThen|..];
        if !ok {
          return;
        }
        assert due[..i + 1] == due[..i] + [due[i]];
      }
      assert due[..|due|] == due;
    }

    /** The plans whose time has come, or none if the queue cannot be read. */
    method DuePlans(isDue: Plan -> bool, healthy: bool) returns (due: seq<Plan>)
      ensures forall p | p in due :: p in plans && isDue(p)
      ensures healthy ==> forall p | p in plans && isDue(p) :: p in due
    {
      due := [];
      var readable: bool := *;
      if !readable && !healthy {
        return;
      }
      for i := 0 to |plans|
        invariant forall p | p in due :: p in plans && isDue(p)
        invariant forall p | p in plans[..i] && isDue(p) :: p in due
      {
        assert plans[..i + 1] == plans[..i] + [plans[i]];
        if isDue(plans[i]) {
          due := due + [plans[i]];
        }
      }
      assert plans[..|plans|] == plans;
    }
  }
}
