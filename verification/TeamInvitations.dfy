/**
 Team invitations: one fact per team and recipient, a daily quota per recipient, and an outbox entry exactly for the
 invitations that are to be delivered.

 Times are nanoseconds. A transaction is one step; between two steps of a request anything may happen that other
 requests and the preference synchronisation can do.
 */
module TeamInvitations {
  import opened Outcomes
  import opened TextOrdering

  const SECOND := 1_000_000_000
  const HOUR := 3600 * SECOND

  datatype Subscription = Subscription(enabled: bool, version: int)

  /** What was decided about one recipient of one team; `created` is when. */
  datatype Invitation = Invitation(team: string, recipient: string, operator: string, observed: nat, expires: nat,
      enqueued: bool, created: nat)

  datatype Outgoing = Outgoing(team: string, recipient: string, version: int, expires: int)

  datatype Team = Team(id: string, operator: string, isMaster: bool, status: int, expiration: Option<nat>,
      members: map<string, int>)

  datatype Config = Config(maxRecipients: int, maxAge: nat, dailyLimit: nat, known: set<int>, pending: set<int>)

  datatype Answer =
    Accepted | InvalidArgument | PermissionDenied | FailedPrecondition | ResourceExhausted | Unavailable | Internal

  /** `Again` stands for a lost uniqueness race, a deadlock or a lock timeout, `Broken` for any other database error. */
  datatype TxResult = Committed | Again | Broken | Refused(answer: Answer)

  // ----- Normalising the request ------------------------------------------------------------------------------------

  predicate IsSpace(c: char) {
    c == ' ' || '\t' <= c <= '\r'
  }

  predicate IsStudentID(s: string) {
    s != "" && |s| <= 64 && !IsSpace(s[0]) && !IsSpace(s[|s| - 1])
  }

  predicate IsTeamID(s: string) {
    1 <= |s| <= 128 && forall c | c in s :: '0' <= c <= '9'
  }

  ghost predicate Ascending(s: seq<string>) {
    forall i, j | 0 <= i < j < |s| :: TextLess(s[i], s[j])
  }

  function InsertText(x: string, s: seq<string>): (r: seq<string>)
    ensures forall y :: y in r <==> y == x || y in s
  {
    if s == [] || TextLess(x, s[0]) then [x] + s else [s[0]] + InsertText(x, s[1..])
  }

  lemma {:induction false} InsertAscends(x: string, s: seq<string>)
    requires Ascending(s) && x !in s
    ensures Ascending(InsertText(x, s))
  {
    hide TextLess;
    if s != [] {
      var r := InsertText(x, s);
      TextOrder(x, s[0], s[0]);
      if TextLess(x, s[0]) {
        forall j | 0 <= j < |s| ensures TextLess(x, s[j]) {
          TextOrder(x, s[0], s[j]);
        }
      } else {
        InsertAscends(x, s[1..]);
        forall j | 1 <= j < |r| ensures TextLess(r[0], r[j]) {
          assert r[j] in InsertText(x, s[1..]);
        }
      }
    }
  }

  /** `s` starts or ends with a space. */
  ghost predicate Padded(s: string) {
    exists c: char, rest: string ::
      (c as int == 32 || 9 <= c as int <= 13) && (s == [c] + rest || s == rest + [c])
  }

  lemma {:induction false} StudentIDIff(s: string)
    ensures IsStudentID(s) <==> 1 <= |s| <= 64 && !Padded(s)
  {
    if s != [] {
      assert s == [s[0]] + s[1..] && s == s[..|s| - 1] + [s[|s| - 1]];
    }
  }

  /** A team is named by digits, everybody is named without space around, and nobody invites himself. */
  ghost predicate Admissible(operator: string, team: string, recipients: seq<string>, maxRecipients: int) {
    && 1 <= |operator| <= 64 && !Padded(operator)
    && 1 <= |team| <= 128 && (forall c | c in team :: '0' <= c <= '9')
    && 1 <= |recipients| <= maxRecipients && |recipients| <= 20
    && (forall x | x in recipients :: 1 <= |x| <= 64 && !Padded(x) && x != operator)
  }

  lemma {:induction false} AdmissibleIff(operator: string, team: string, recipients: seq<string>, maxRecipients: int)
    ensures Admissible(operator, team, recipients, maxRecipients) <==>
              && IsStudentID(operator) && IsTeamID(team) && 1 <= |recipients| <= maxRecipients && |recipients| <= 20
              && forall x | x in recipients :: IsStudentID(x) && x != operator
  {
    hide IsStudentID, Padded;
    StudentIDIff(operator);
    forall x | x in recipients ensures IsStudentID(x) <==> 1 <= |x| <= 64 && !Padded(x) {
      StudentIDIff(x);
    }
  }

  lemma {:induction false} AdmissibleOperator(operator: string, team: string, recipients: seq<string>,
      maxRecipients: int)
    ensures Admissible(operator, team, recipients, maxRecipients) ==>
              IsStudentID(operator) && forall x | x in recipients :: x != operator
  {
    AdmissibleIff(operator, team, recipients, maxRecipients);
  }

  /** Recipients without repetition, in order; the limits count the recipients as they were sent. */
  method Normalize(operator: string, team: string, recipients: seq<string>,
      maxRecipients: int) returns (r: Option<seq<string>>)
    ensures r.Some? <==> Admissible(operator, team, recipients, maxRecipients)
    ensures r.Some? ==> Ascending(r.value) && forall x :: x in r.value <==> x in recipients
  {
    hide IsStudentID, IsTeamID, TextLess, Admissible;
    AdmissibleIff(operator, team, recipients, maxRecipients);
    if !IsStudentID(operator) || !IsTeamID(team)
       || |recipients| == 0 || |recipients| > maxRecipients || |recipients| > 20 {
      return None;
    }
    var result: seq<string> := [];
    for i := 0 to |recipients|
      invariant forall x | x in recipients[..i] :: IsStudentID(x) && x != operator
      invariant Ascending(result) && forall x :: x in result <==> x in recipients[..i]
    {
      var x := recipients[i];
      if !IsStudentID(x) || x == operator {
        return None;
      }
      if x !in result {
        InsertAscends(x, result);
        result := InsertText(x, result);
      }
    }
    r := Some(result);
  }

  // ----- The table of invitations -----------------------------------------------------------------------------------

  predicate Has(rows: seq<Invitation>, team: string, recipient: string) {
    exists r | r in rows :: r.team == team && r.recipient == recipient
  }

  /** Another operator already invited one of the recipients to this team. */
  predicate Mismatch(rows: seq<Invitation>, operator: string, team: string, recipients: seq<string>) {
    exists r | r in rows :: r.team == team && r.recipient in recipients && r.operator != operator
  }

  function Pending(rows: seq<Invitation>, team: string, recipients: seq<string>): (p: seq<string>)
    ensures forall x :: x in p <==> x in recipients && !Has(rows, team, x)
  {
    if recipients == [] then []
    else
      var front := Pending(rows, team, recipients[..|recipients| - 1]);
      var x := recipients[|recipients| - 1];
      assert recipients == recipients[..|recipients| - 1] + [x];
      if Has(rows, team, x) then front else front + [x]
  }

  /** Days of UTC+8. */
  function LocalDay(t: nat): nat {
    (t + 8 * HOUR) / (24 * HOUR)
  }

  function DailyCount(rows: seq<Invitation>, recipient: string, day: nat): nat {
    if rows == [] then 0
    else
      var r := rows[|rows| - 1];
      DailyCount(rows[..|rows| - 1], recipient, day)
      + if r.recipient == recipient && r.enqueued && LocalDay(r.created) == day then 1 else 0
  }

  /** What the outbox should hold, in order. */
  function Enqueued(rows: seq<Invitation>): seq<(string, string, int)> {
    if rows == [] then []
    else
      var r := rows[|rows| - 1];
      Enqueued(rows[..|rows| - 1]) + if r.enqueued then [(r.team, r.recipient, r.expires)] else []
  }

  function Sent(outbox: seq<Outgoing>): seq<(string, string, int)> {
    if outbox == [] then []
    else
      var o := outbox[|outbox| - 1];
      Sent(outbox[..|outbox| - 1]) + [(o.team, o.recipient, o.expires)]
  }

  ghost predicate OnePerRecipient(rows: seq<Invitation>) {
    forall i, j | 0 <= i < j < |rows| :: rows[i].team != rows[j].team || rows[i].recipient != rows[j].recipient
  }

  ghost predicate WithinQuota(rows: seq<Invitation>, limit: nat) {
    forall recipient: string, day: nat :: DailyCount(rows, recipient, day) <= limit
  }

  ghost predicate InTime(rows: seq<Invitation>, maxAge: nat) {
    forall r | r in rows :: r.observed < r.expires <= r.observed + maxAge
  }

  /** Everything the invitation store promises. */
  ghost predicate Sound(rows: seq<Invitation>, outbox: seq<Outgoing>, config: Config) {
    && OnePerRecipient(rows)
    && WithinQuota(rows, config.dailyLimit)
    && InTime(rows, config.maxAge)
    && Sent(outbox) == Enqueued(rows)
  }

  lemma {:induction false} AddInvitation(rows: seq<Invitation>, outbox: seq<Outgoing>, config: Config, r: Invitation,
      version: int)
    requires Sound(rows, outbox, config)
    requires !Has(rows, r.team, r.recipient) && r.observed < r.expires <= r.observed + config.maxAge
    requires r.enqueued ==> DailyCount(rows, r.recipient, LocalDay(r.created)) < config.dailyLimit
    ensures Sound(rows + [r],
                  if r.enqueued then outbox + [Outgoing(r.team, r.recipient, version, r.expires)] else outbox, config)
  {
    hide LocalDay;
    var rows' := rows + [r];
    assert rows'[..|rows|] == rows;
    forall recipient: string, day: nat ensures DailyCount(rows', recipient, day) <= config.dailyLimit {
      assert DailyCount(rows, recipient, day) <= config.dailyLimit;
    }
    if r.enqueued {
      var outbox' := outbox + [Outgoing(r.team, r.recipient, version, r.expires)];
      assert outbox'[..|outbox|] == outbox;
    }
  }

  // ----- Deciding about one request ---------------------------------------------------------------------------------

  /** A request after its checks: what every invitation of it carries. */
  datatype Request = Request(operator: string, team: string, recipients: seq<string>, observed: nat, expires: nat)

  predicate Subscribed(subs: map<string, Subscription>, recipient: string) {
    recipient in subs && subs[recipient].enabled
  }

  /** The fact recorded for a recipient: to be delivered if subscribed and below the daily limit, else suppressed. */
  function Decision(rows: seq<Invitation>, subs: map<string, Subscription>, q: Request, recipient: string, limit: nat,
      now: nat): Invitation {
    var enqueued := Subscribed(subs, recipient) && DailyCount(rows, recipient, LocalDay(now)) < limit;
    Invitation(q.team, recipient, q.operator, q.observed, q.expires, enqueued, now)
  }

  ghost predicate Decided(added: seq<Invitation>, todo: seq<string>, rows: seq<Invitation>,
      subs: map<string, Subscription>, q: Request, limit: nat, now: nat) {
    |added| == |todo| && forall k | 0 <= k < |added| :: added[k] == Decision(rows, subs, q, todo[k], limit, now)
  }

  lemma {:induction false} NothingDecided(rows: seq<Invitation>, subs: map<string, Subscription>, q: Request,
      limit: nat, now: nat)
    ensures Decided([], [], rows, subs, q, limit, now)
  {
  }

  lemma {:induction false} SubscribedWhenEnqueued(rows: seq<Invitation>, subs: map<string, Subscription>, q: Request,
      recipient: string, limit: nat, now: nat)
    ensures var r := Decision(rows, subs, q, recipient, limit, now);
            r.team == q.team && r.recipient == recipient && r.expires == q.expires && (r.enqueued ==> recipient in subs)
  {
  }

  lemma {:induction false} OthersDoNotCount(rows: seq<Invitation>, added: seq<Invitation>, recipient: string, day: nat)
    requires forall r | r in added :: r.recipient != recipient
    ensures DailyCount(rows + added, recipient, day) == DailyCount(rows, recipient, day)
  {
    hide LocalDay;
    if added == [] {
      assert rows + added == rows;
    } else {
      var n := |added| - 1;
      OthersDoNotCount(rows, added[..n], recipient, day);
      assert (rows + added)[..|rows + added| - 1] == rows + added[..n];
    }
  }

  // Who is to be notified, said in terms of the tables.

  /** From midnight to midnight of day `d`, in UTC+8. */
  ghost predicate OnDay(t: int, d: int) {
    d * (24 * HOUR) - 8 * HOUR <= t < (d + 1) * (24 * HOUR) - 8 * HOUR
  }

  ghost predicate OneDay(a: int, b: int) {
    exists d: int :: OnDay(a, d) && OnDay(b, d)
  }

  /** The invitations that were enqueued for the recipient on the day of `t`. */
  ghost function EnqueuedThatDay(rows: seq<Invitation>, recipient: string, t: nat): set<nat> {
    set i: nat | i < |rows| && rows[i].recipient == recipient && rows[i].enqueued &&
                 OneDay(rows[i].created, t)
  }

  /** The recipient has reminders switched on, and this day's limit is not yet reached. */
  ghost predicate ToBeNotified(rows: seq<Invitation>, subs: map<string, Subscription>, limit: nat, r: Invitation) {
    r.recipient in subs && subs[r.recipient].enabled && |EnqueuedThatDay(rows, r.recipient, r.created)| < limit
  }

  /** The outbox entries of new invitations: one for each that is enqueued, under the recipient's current version. */
  ghost function EntriesOf(added: seq<Invitation>, subs: map<string, Subscription>): seq<Outgoing> {
    if added == [] then []
    else
      var r := added[|added| - 1];
      var front := EntriesOf(added[..|added| - 1], subs);
      if r.enqueued && r.recipient in subs
      then front + [Outgoing(r.team, r.recipient, subs[r.recipient].version, r.expires)] else front
  }

  ghost predicate EndsWith(outbox: seq<Outgoing>, entries: seq<Outgoing>) {
    |entries| <= |outbox| && outbox[|outbox| - |entries|..] == entries
  }

  lemma {:induction false} SameDay(a: nat, b: nat)
    ensures LocalDay(a) == LocalDay(b) <==> OneDay(a, b)
  {
    assert OnDay(a, LocalDay(a)) && OnDay(b, LocalDay(b));
  }

  lemma {:induction false} CountIsSize(rows: seq<Invitation>, recipient: string, t: nat)
    ensures DailyCount(rows, recipient, LocalDay(t)) == |EnqueuedThatDay(rows, recipient, t)|
  {
    hide LocalDay, OneDay;
    if rows != [] {
      var n := |rows| - 1;
      CountIsSize(rows[..n], recipient, t);
      SameDay(rows[n].created, t);
      var front, all := EnqueuedThatDay(rows[..n], recipient, t), EnqueuedThatDay(rows, recipient, t);
      assert all == if n in all then front + {n} else front;
    }
  }

  lemma {:induction false} DecisionIsRight(rows: seq<Invitation>, subs: map<string, Subscription>, q: Request,
      recipient: string, limit: nat, now: nat)
    ensures var r := Decision(rows, subs, q, recipient, limit, now);
            r.enqueued <==> ToBeNotified(rows, subs, limit, r)
  {
    hide LocalDay, DailyCount, EnqueuedThatDay;
    CountIsSize(rows, recipient, now);
  }

  lemma {:induction false} DecidedAreRight(added: seq<Invitation>, todo: seq<string>, rows: seq<Invitation>,
      subs: map<string, Subscription>, q: Request, limit: nat, now: nat)
    requires Decided(added, todo, rows, subs, q, limit, now)
    ensures forall r | r in added :: r.enqueued <==> ToBeNotified(rows, subs, limit, r)
  {
    hide Decision, ToBeNotified;
    forall r | r in added ensures r.enqueued <==> ToBeNotified(rows, subs, limit, r) {
      var k :| 0 <= k < |added| && added[k] == r;
      DecisionIsRight(rows, subs, q, todo[k], limit, now);
    }
  }

  lemma {:induction false} NoEntries(subs: map<string, Subscription>)
    ensures EntriesOf([], subs) == []
  {
  }

  lemma {:induction false} OneMoreEntry(added: seq<Invitation>, r: Invitation, subs: map<string, Subscription>)
    ensures EntriesOf(added + [r], subs) ==
              if r.enqueued && r.recipient in subs
              then EntriesOf(added, subs) + [Outgoing(r.team, r.recipient, subs[r.recipient].version, r.expires)]
              else EntriesOf(added, subs)
  {
    assert (added + [r])[..|added|] == added;
  }

  ghost predicate Distinct(s: seq<string>) {
    forall i, j | 0 <= i < j < |s| :: s[i] != s[j]
  }

  lemma {:induction false} PendingIsDistinct(rows: seq<Invitation>, team: string, recipients: seq<string>)
    requires Distinct(recipients)
    ensures Distinct(Pending(rows, team, recipients))
  {
    if recipients != [] {
      var n := |recipients| - 1;
      PendingIsDistinct(rows, team, recipients[..n]);
      var front := Pending(rows, team, recipients[..n]);
      forall i | 0 <= i < |front| ensures front[i] != recipients[n] {
        assert front[i] in recipients[..n];
      }
    }
  }

  lemma {:induction false} AscendingIsDistinct(s: seq<string>)
    requires Ascending(s)
    ensures Distinct(s)
  {
    forall i, j | 0 <= i < j < |s| ensures s[i] != s[j] {
      TextOrder(s[i], s[j], s[j]);
    }
  }

  /** The next recipient of a transaction may be decided from the rows the transaction started with. */
  lemma {:induction false} DecideNext(rows: seq<Invitation>, added: seq<Invitation>, outbox: seq<Outgoing>,
      todo: seq<string>, subs: map<string, Subscription>, q: Request, config: Config, now: nat)
    requires Sound(rows + added, outbox, config) && |added| < |todo|
    requires Decided(added, todo[..|added|], rows, subs, q, config.dailyLimit, now)
    requires Distinct(todo) && forall x | x in todo :: !Has(rows, q.team, x)
    requires q.observed < q.expires <= q.observed + config.maxAge
    ensures var x := todo[|added|];
            var r := Decision(rows, subs, q, x, config.dailyLimit, now);
            && Decision(rows + added, subs, q, x, config.dailyLimit, now) == r
            && Decided(added + [r], todo[..|added| + 1], rows, subs, q, config.dailyLimit, now)
            && (r.enqueued ==>
                Sound(rows + (added + [r]), outbox + [Outgoing(q.team, x, subs[x].version, q.expires)], config))
            && (!r.enqueued ==> Sound(rows + (added + [r]), outbox, config))
  {
    hide LocalDay, Sound, DailyCount;
    var x := todo[|added|];
    var r := Decision(rows, subs, q, x, config.dailyLimit, now);
    OthersDoNotCount(rows, added, x, LocalDay(now));
    assert rows + (added + [r]) == (rows + added) + [r];
    assert x in todo;
    AddInvitation(rows + added, outbox, config, r, if r.enqueued then subs[x].version else 0);
  }

  /** Every recipient of the request has its invitation, by this operator. */
  ghost predicate AllRecorded(rows: seq<Invitation>, operator: string, team: string, recipients: seq<string>) {
    forall x | x in recipients :: exists r :: r in rows && r.team == team && r.recipient == x && r.operator == operator
  }

  lemma {:induction false} DecidedAreRecorded(rows: seq<Invitation>, added: seq<Invitation>,
      subs: map<string, Subscription>, q: Request, limit: nat, now: nat)
    requires !Mismatch(rows, q.operator, q.team, q.recipients)
    requires Decided(added, Pending(rows, q.team, q.recipients), rows, subs, q, limit, now)
    ensures AllRecorded(rows + added, q.operator, q.team, q.recipients)
  {
    hide DailyCount, LocalDay;
    var todo := Pending(rows, q.team, q.recipients);
    forall x | x in q.recipients
      ensures exists r :: r in rows + added && r.team == q.team && r.recipient == x && r.operator == q.operator
    {
      if x in todo {
        var k :| 0 <= k < |todo| && todo[k] == x;
        assert added[k] in rows + added;
      } else {
        var r :| r in rows && r.team == q.team && r.recipient == x;
        assert r in rows + added;
      }
    }
  }

  /** The delivery age after the observation or the expiry of the team, whichever comes first, both cut to seconds. */
  ghost predicate Deadline(team: Team, config: Config, observed: nat, expires: nat) {
    && team.expiration.Some? && observed % SECOND == 0 && expires % SECOND == 0
    && expires <= observed + config.maxAge && expires <= team.expiration.value
    && (observed + config.maxAge < expires + SECOND || team.expiration.value < expires + SECOND)
  }

  /** What the school's answer must have said for an invitation to be recorded. */
  ghost predicate CheckedByTeam(team: Team, config: Config, operator: string, teamID: string, r: Invitation) {
    && team.id == teamID && team.operator == operator && team.isMaster && team.status == 0
    && Deadline(team, config, r.observed, r.expires)
    && r.recipient in team.members && team.members[r.recipient] in config.pending
    && forall member | member in team.members :: team.members[member] in config.known
  }

  /** An invitation written for a request between two moments, to a recipient who had none before. */
  ghost predicate CarriedBy(r: Invitation, q: Request, before: seq<Invitation>, from: nat, to: nat) {
    && from <= r.created <= to
    && r.team == q.team && r.operator == q.operator && r.observed == q.observed && r.expires == q.expires
    && r.recipient in Pending(before, q.team, q.recipients)
  }

  lemma {:induction false} HasStays(rows: seq<Invitation>, later: seq<Invitation>, team: string, recipient: string)
    requires rows <= later && Has(rows, team, recipient)
    ensures Has(later, team, recipient)
  {
    var r :| r in rows && r.team == team && r.recipient == recipient;
    assert r in later;
  }

  lemma {:induction false} MismatchStays(rows: seq<Invitation>, later: seq<Invitation>, operator: string, team: string,
      recipients: seq<string>)
    requires rows <= later && Mismatch(rows, operator, team, recipients)
    ensures Mismatch(later, operator, team, recipients)
  {
    var r :| r in rows && r.team == team && r.recipient in recipients && r.operator != operator;
    assert r in later;
  }

  lemma {:induction false} PendingStays(rows: seq<Invitation>, later: seq<Invitation>, team: string,
      recipients: seq<string>, recipient: string)
    requires rows <= later && recipient in Pending(later, team, recipients)
    ensures recipient in Pending(rows, team, recipients)
  {
    if Has(rows, team, recipient) {
      HasStays(rows, later, team, recipient);
    }
  }

  lemma {:induction false} WrittenAreCarried(before: seq<Invitation>, base: seq<Invitation>, added: seq<Invitation>,
      subs: map<string, Subscription>, q: Request, limit: nat, now: nat)
    requires before <= base
    requires added == [] || Decided(added, Pending(base, q.team, q.recipients), base, subs, q, limit, now)
    ensures forall r | r in added :: CarriedBy(r, q, before, now, now)
  {
    hide DailyCount, LocalDay, Has, Pending;
    var todo := Pending(base, q.team, q.recipients);
    forall r | r in added ensures CarriedBy(r, q, before, now, now) {
      var k :| 0 <= k < |added| && added[k] == r;
      assert todo[k] in todo;
      PendingStays(before, base, q.team, q.recipients, r.recipient);
    }
  }

  lemma {:induction false} CarriedWithin(added: seq<Invitation>, q: Request, before: seq<Invitation>, now: nat,
      from: nat, to: nat)
    requires (forall r | r in added :: CarriedBy(r, q, before, now, now)) && (added != [] ==> from <= now <= to)
    ensures forall r | r in added :: CarriedBy(r, q, before, from, to)
  {
  }

  /** Normalising changes the order and number of the recipients, not who they are. */
  lemma {:induction false} SameRecipients(rows: seq<Invitation>, operator: string, team: string, a: seq<string>,
      b: seq<string>)
    requires forall x :: x in a <==> x in b
    ensures Mismatch(rows, operator, team, a) <==> Mismatch(rows, operator, team, b)
    ensures AllRecorded(rows, operator, team, a) <==> AllRecorded(rows, operator, team, b)
  {
  }

  lemma {:induction false} FirstIsIn(s: seq<string>)
    ensures s != [] ==> s[0] in s
  {
  }

  /** With one row per team and recipient, whoever has been invited by this operator needs nothing more. */
  lemma {:induction false} RecordedIsNotPending(rows: seq<Invitation>, outbox: seq<Outgoing>, config: Config,
      operator: string, team: string, recipients: seq<string>)
    requires Sound(rows, outbox, config)
    ensures AllRecorded(rows, operator, team, recipients) ==>
              !Mismatch(rows, operator, team, recipients) && Pending(rows, team, recipients) == []
  {
    hide Pending, WithinQuota, InTime, Sent, Enqueued;
    if AllRecorded(rows, operator, team, recipients) {
      forall r | r in rows && r.team == team && r.recipient in recipients ensures r.operator == operator {
        var q :| q in rows && q.team == team && q.recipient == r.recipient && q.operator == operator;
        var i :| 0 <= i < |rows| && rows[i] == r;
        var j :| 0 <= j < |rows| && rows[j] == q;
        assert i == j;
      }
      var pending := Pending(rows, team, recipients);
      forall x ensures x !in pending {
        assert x in recipients ==> Has(rows, team, x);
      }
      FirstIsIn(pending);
    }
  }

  lemma {:induction false} NothingPending(rows: seq<Invitation>, operator: string, team: string,
      recipients: seq<string>)
    requires Pending(rows, team, recipients) == [] && !Mismatch(rows, operator, team, recipients)
    ensures AllRecorded(rows, operator, team, recipients)
  {
    hide Pending;
    forall x | x in recipients
      ensures exists r :: r in rows && r.team == team && r.recipient == x && r.operator == operator
    {
      assert Has(rows, team, x);
    }
  }

  /** Observed and recorded while the request ran, and to be delivered within the delivery age of the observation. */
  ghost predicate OnTime(r: Invitation, config: Config, from: nat, to: nat) {
    && from - SECOND < r.observed <= r.created <= to && from <= r.created
    && from < r.expires <= r.observed + config.maxAge
  }

  class InvitationService {
    const config: Config
    var subs: map<string, Subscription>
    var rows: seq<Invitation>
    var outbox: seq<Outgoing>
    var clock: nat
    ghost var transactions: nat

    ghost predicate Valid()
      reads this
    {
      Sound(rows, outbox, config)
    }

    constructor (config: Config)
      ensures Valid() && rows == [] && this.config == config
    {
      this.config := config;
      subs, rows, outbox, clock, transactions := map[], [], [], 0, 0;
      new;
      assert Valid();
    }

    method Now() returns (now: nat)
      modifies this`clock
      ensures now == clock >= old(clock)
    {
      var passed: nat :| passed >= 0;
      clock := clock + passed;
      now := clock;
    }

    /** Other requests and the preference synchronisation; only the postcondition is relied on. */
    method Meanwhile()
      requires Valid()
      modifies this
      ensures Valid() && old(rows) <= rows && clock >= old(clock) && transactions == old(transactions)
    {
      subs := *;
      var now := Now();
    }

    /** The decisions of a transaction, one recipient after the other; any statement may fail. */
    method DecideAll(q: Request, todo: seq<string>, at: nat)
      returns (failure: Option<TxResult>, newRows: seq<Invitation>, newOutbox: seq<Outgoing>,
               ghost added: seq<Invitation>)
      requires Valid() && Distinct(todo) && forall x | x in todo :: !Has(rows, q.team, x)
      requires q.observed < q.expires <= q.observed + config.maxAge
      ensures failure.Some? ==> failure.value == Again || failure.value == Broken
      ensures failure.None? ==>
                && newRows == rows + added && newOutbox == outbox + EntriesOf(added, subs)
                && Sound(newRows, newOutbox, config) && Decided(added, todo, rows, subs, q, config.dailyLimit, at)
    {
      hide Sound, DailyCount, LocalDay, Decided, Decision, Has, EntriesOf;
      failure, added := None, [];
      newRows, newOutbox := rows, outbox;
      NoEntries(subs);
      NothingDecided(rows, subs, q, config.dailyLimit, at);
      assert todo[..0] == [] && rows + added == rows;
      for i := 0 to |todo|
        invariant |added| == i && newRows == rows + added && Sound(newRows, newOutbox, config)
        invariant Decided(added, todo[..i], rows, subs, q, config.dailyLimit, at)
        invariant newOutbox == outbox + EntriesOf(added, subs)
      {
        DecideNext(rows, added, newOutbox, todo, subs, q, config, at);
        var failed: TxResult := *;
        if failed == Again || failed == Broken {
          return Some(failed), newRows, newOutbox, added;
        }
        var r := Decision(newRows, subs, q, todo[i], config.dailyLimit, at);
        assert newRows + [r] == rows + (added + [r]);
        SubscribedWhenEnqueued(newRows, subs, q, todo[i], config.dailyLimit, at);
        OneMoreEntry(added, r, subs);
        newRows := newRows + [r];
        if r.enqueued {
          newOutbox := newOutbox + [Outgoing(q.team, todo[i], subs[todo[i]].version, q.expires)];
        }
        added := added + [r];
      }
      assert todo[..|todo|] == todo;
    }

    /**
     One transaction: all decisions of the request or none, each invitation together with its outbox entry, stamped
     with the time of the transaction. A commit whose acknowledgement is lost reports `Broken`.
     */
    method Transaction(q: Request, available: bool)
      returns (result: TxResult, ghost added: seq<Invitation>, ghost now: nat)
      requires Valid() && Distinct(q.recipients) && q.expires <= q.observed + config.maxAge
      modifies this`rows, this`outbox, this`clock, this`transactions
      ensures Valid() && clock >= old(clock) && transactions == old(transactions) + 1
      ensures rows == old(rows) + added && (added == [] ==> outbox == old(outbox))
      ensures result == Again || result.Refused? || !available ==> added == []
      ensures Mismatch(old(rows), q.operator, q.team, q.recipients) ==> added == [] && result != Committed
      ensures result == Committed || added != [] ==>
                && old(clock) <= now <= clock
                && Decided(added, Pending(old(rows), q.team, q.recipients), old(rows), subs, q, config.dailyLimit, now)
      ensures forall r | r in added :: r.enqueued <==> ToBeNotified(old(rows), subs, config.dailyLimit, r)
      ensures outbox == old(outbox) + EntriesOf(added, subs)
      ensures result == Committed || added != [] ==> AllRecorded(rows, q.operator, q.team, q.recipients)
      ensures added != [] ==> old(clock) < q.expires && q.observed < q.expires
    {
      hide Sound, DailyCount, LocalDay, Decided, Decision, Mismatch, Has, AllRecorded, EntriesOf, ToBeNotified;
      NoEntries(subs);
      added, now, transactions := [], clock, transactions + 1;
      var trouble: TxResult := *;
      assert rows + added == rows;
      if trouble == Again || trouble == Broken {
        return trouble, added, now;
      }
      if Mismatch(rows, q.operator, q.team, q.recipients) {
        return Refused(PermissionDenied), added, now;
      }
      var todo := Pending(rows, q.team, q.recipients);
      if todo == [] {
        NothingDecided(rows, subs, q, config.dailyLimit, now);
        assert rows + [] == rows;
        DecidedAreRecorded(rows, [], subs, q, config.dailyLimit, now);
        return Committed, added, now;
      }
      if !available {
        return Refused(Unavailable), added, now;
      }
      var instant := Now();
      if q.expires <= instant || q.expires <= q.observed {
        return Refused(FailedPrecondition), added, now;
      }
      var at := Now();
      now := at;
      PendingIsDistinct(rows, q.team, q.recipients);
      var failure, newRows, newOutbox, decided := DecideAll(q, todo, at);
      if failure.Some? {
        return failure.value, added, at;
      }
      added := decided;
      DecidedAreRight(added, todo, rows, subs, q, config.dailyLimit, at);
      DecidedAreRecorded(rows, added, subs, q, config.dailyLimit, at);
      rows, outbox := newRows, newOutbox;
      var acknowledged: bool := *;
      result := if acknowledged then Committed else Broken;
    }

    /**
     Up to three attempts at the transaction, of which at most one writes. The observation and the deadline stay those
     of the first check.
     */
    method Enqueue(q: Request) returns (answer: Answer, ghost base: seq<Invitation>, ghost added: seq<Invitation>)
      requires Valid() && Distinct(q.recipients) && q.expires <= q.observed + config.maxAge
      modifies this
      ensures Valid() && clock >= old(clock) && old(rows) <= base && rows == base + added
      ensures answer != Accepted && answer != Internal ==> added == []
      ensures transactions <= old(transactions) + 3
      ensures answer == Accepted || added != [] ==> AllRecorded(rows, q.operator, q.team, q.recipients)
      ensures Mismatch(old(rows), q.operator, q.team, q.recipients) ==> added == [] && answer != Accepted
      ensures forall r | r in added :: CarriedBy(r, q, old(rows), old(clock), clock)
      ensures added != [] ==> old(clock) < q.expires
      ensures (forall r | r in added :: r.enqueued <==> ToBeNotified(base, subs, config.dailyLimit, r))
      ensures EndsWith(outbox, EntriesOf(added, subs))
    {
      hide Sound, DailyCount, LocalDay, Decided, AllRecorded, Has, Mismatch, Pending, CarriedBy;
      hide ToBeNotified, EntriesOf;
      base, added := rows, [];
      NoEntries(subs);
      for attempt := 0 to 3
        invariant Valid() && clock >= old(clock) && added == [] && base == rows && old(rows) <= rows
        invariant transactions == old(transactions) + attempt
      {
        var available: bool := *;
        base := rows;
        ghost var from := clock;
        var result, written, at := Transaction(q, available);
        added := written;
        if Mismatch(old(rows), q.operator, q.team, q.recipients) {
          MismatchStays(old(rows), base, q.operator, q.team, q.recipients);
        }
        WrittenAreCarried(old(rows), base, added, subs, q, config.dailyLimit, at);
        CarriedWithin(added, q, old(rows), at, old(clock), clock);
        if result == Committed {
          return Accepted, base, added;
        }
        if result.Refused? {
          return if result.answer == Accepted then Internal else result.answer, base, added;
        }
        if result == Broken || attempt == 2 {
          return Internal, base, added;
        }
        Meanwhile();
        base := rows;
        NoEntries(subs);
        assert base + added == rows;
        var timedOut: bool := *;
        if timedOut {
          return Unavailable, base, added;
        }
      }
      NoEntries(subs);
      assert base + added == rows;
      answer := Internal;
    }

    /**
     A whole request. `admitted` covers the request and concurrency limits, `team` is what the school answers about the
     operator's current team. Whatever it writes, it writes last and in one transaction, on top of rows (`base`) that
     other requests may have added to in the meantime. Only an internal error leaves open whether it wrote: a commit may
     succeed without being acknowledged.
     */
    method Notify(operator: string, teamID: string, recipients: seq<string>, available: bool, admitted: bool,
        ready: bool, team: Option<Team>)
      returns (answer: Answer, ghost base: seq<Invitation>, ghost added: seq<Invitation>)
      requires Valid()
      modifies this
      ensures Valid()
      ensures old(rows) <= base && rows == base + added
      ensures answer != Accepted && answer != Internal ==> added == []
      ensures transactions <= old(transactions) + 3
      ensures answer == Accepted || added != [] ==> AllRecorded(rows, operator, teamID, recipients)
      ensures Mismatch(old(rows), operator, teamID, recipients) ==> added == [] && answer != Accepted
      ensures forall r | r in added ::
                && r.team == teamID && r.operator == operator && r.recipient in recipients && r.recipient != operator
                && team.Some? && CheckedByTeam(team.value, config, operator, teamID, r)
                && OnTime(r, config, old(clock), clock)
                && (r.enqueued <==> ToBeNotified(base, subs, config.dailyLimit, r))
      ensures EndsWith(outbox, EntriesOf(added, subs))
      ensures (available && admitted && Admissible(operator, teamID, recipients, config.maxRecipients) &&
               AllRecorded(old(rows), operator, teamID, recipients)) ==> answer == Accepted || answer == Internal
    {
      hide Sound, DailyCount, LocalDay, AllRecorded, IsStudentID, Ascending, Has, Mismatch, Pending, Admissible;
      hide ToBeNotified, EntriesOf;
      base, added := rows, [];
      NoEntries(subs);
      AdmissibleOperator(operator, teamID, recipients, config.maxRecipients);
      assert base + added == rows;
      if !IsStudentID(operator) {
        return InvalidArgument, base, added;
      }
      if !available {
        return Unavailable, base, added;
      }
      if !admitted {
        return ResourceExhausted, base, added;
      }
      var normalized := Normalize(operator, teamID, recipients, config.maxRecipients);
      if normalized.None? {
        return InvalidArgument, base, added;
      }
      var wanted := normalized.value;
      AscendingIsDistinct(wanted);
      SameRecipients(rows, operator, teamID, wanted, recipients);
      RecordedIsNotPending(rows, outbox, config, operator, teamID, wanted);
      var found: bool := *;
      if !found {
        return Internal, base, added;
      }
      if Mismatch(rows, operator, teamID, wanted) {
        return PermissionDenied, base, added;
      }
      var pending := Pending(rows, teamID, wanted);
      if pending == [] {
        NothingPending(rows, operator, teamID, wanted);
        SameRecipients(rows, operator, teamID, wanted, recipients);
        return Accepted, base, added;
      }
      ghost var seen := rows;
      Meanwhile();
      base := rows;
      NoEntries(subs);
      assert base + added == rows;
      var answered: bool := *;
      if !ready || !answered {
        return Unavailable, base, added;
      }
      if team.None? {
        return FailedPrecondition, base, added;
      }
      var q, problem := Check(operator, teamID, wanted, pending, team.value);
      if problem.Some? {
        return problem.value, base, added;
      }
      label Checked:
      answer, base, added := Enqueue(q);
      SameRecipients(rows, operator, teamID, wanted, recipients);
      forall r | r in added
        ensures r.team == teamID && r.operator == operator && r.recipient in recipients
        ensures CheckedByTeam(team.value, config, operator, teamID, r) && OnTime(r, config, old(clock), clock)
      {
        PendingStays(seen, old@Checked(rows), teamID, wanted, r.recipient);
      }
    }

    /** The school's answer, checked against the recipients that are still to be invited. */
    method Check(operator: string, teamID: string, wanted: seq<string>, pending: seq<string>,
        team: Team) returns (q: Request, problem: Option<Answer>)
      modifies this`clock
      ensures clock >= old(clock) && problem != Some(Accepted)
      ensures problem.None? ==>
                && q.operator == operator && q.team == teamID && q.recipients == wanted
                && old(clock) - SECOND < q.observed <= clock && Deadline(team, config, q.observed, q.expires)
                && forall x | x in pending ::
                  CheckedByTeam(team, config, operator, teamID,
                      Invitation(teamID, x, operator, q.observed, q.expires, true, 0))
    {
      q := Request(operator, teamID, wanted, 0, 0);
      if team.id != teamID {
        return q, Some(FailedPrecondition);
      }
      if team.operator != operator || !team.isMaster {
        return q, Some(PermissionDenied);
      }
      var observed := Now();
      observed := observed - observed % SECOND;
      var now := Now();
      if team.status != 0 || team.expiration.None? || team.expiration.value <= now {
        return q, Some(FailedPrecondition);
      }
      if exists member | member in team.members :: team.members[member] !in config.known {
        return q, Some(Unavailable);
      }
      for i := 0 to |pending|
        invariant forall x | x in pending[..i] :: x in team.members && team.members[x] in config.pending
      {
        if pending[i] !in team.members || team.members[pending[i]] !in config.pending {
          return q, Some(FailedPrecondition);
        }
      }
      var expires := observed + config.maxAge;
      if team.expiration.value < expires {
        expires := team.expiration.value;
      }
      expires := expires - expires % SECOND;
      q, problem := Request(operator, teamID, wanted, observed, expires), None;
    }
  }
}
