/**
 Booking a whole plan, all segments or none, and cancelling it as a group.

 The school's booking system is the field `live`, and what it answers is an input of each operation (`School`): a
 request that fails may or may not have taken effect, and a listing may fail or be incomplete. Nothing is assumed
 about the answers beyond what a postcondition names explicitly.
 */
module SmartSeatBooking {
  import opened Outcomes
  import opened Minutes
  import opened KeyBags
  import opened SmartSeatSegments
  import opened SmartSeatMatching
  import P = SmartSeatPlanner

  datatype StoredSegment = StoredSegment(seatID: string, seatLabel: string, roomID: string, start: string, end: string)

  /** `Dirty` marks a failure whose rollback reported an error as well. */
  datatype ReserveOutcome = Rejected | Unavailable | Booked | Failed(at: nat) | FailedDirty(at: nat)
  datatype CancelOutcome =
    NoGroup | NotListed | Unreadable | Missing | PartlyCancelled(count: nat) | Cancelled(count: nat)

  type Bookings = map<nat, Record>

  /** What becomes of a request: it may fail before or after taking effect. */
  datatype Reply = Confirmed | FailedAfter | FailedBefore

  /**
   The school as one operation meets it: the timeline for the i-th query, the reply to the i-th booking, the listing
   when given bookings are live, and the reply to the cancellation of a record.
   */
  datatype School = School(authorised: bool, timeline: (nat, string) -> Option<seq<P.Interval>>, request: nat -> Reply,
                           listing: Bookings -> Option<seq<Option<Record>>>, cancel: nat -> Reply)

  ghost predicate Wanted(r: Record, segments: seq<Segment>, date: string) {
    exists s | s in segments :: RecordKey(r) == SegmentKey(s, date)
  }

  ghost predicate NoneWanted(live: Bookings, segments: seq<Segment>, date: string) {
    forall id | id in live :: !Wanted(live[id], segments, date)
  }

  /** At most one live booking for each requested seat and time. */
  ghost predicate OnePerKey(live: Bookings, segments: seq<Segment>, date: string) {
    forall a, b | a in live && b in live && Wanted(live[a], segments, date) ::
        RecordKey(live[a]) == RecordKey(live[b]) ==> a == b
  }

  ghost predicate WellFormed(live: Bookings) {
    forall id | id in live :: live[id].id == id && live[id].WellFormed()
  }

  /** The listing shows exactly the live bookings of the date, each once. */
  ghost predicate Exact(records: seq<Option<Record>>, live: Bookings, date: string) {
    && (forall i | 0 <= i < |records| && records[i].Some? ::
          records[i].value.id in live && live[records[i].value.id] == records[i].value)
    && (forall id | id in live && live[id].date == date :: Some(live[id]) in records)
    && (forall i, j | 0 <= i < j < |records| && records[i].Some? :: records[i] != records[j])
  }

  /** The school lists exactly what is live, whatever that is. */
  ghost predicate Truthful(school: School, date: string) {
    forall live: Bookings | WellFormed(live) :: Lists(school, live, date)
  }

  ghost predicate Lists(school: School, live: Bookings, date: string) {
    school.listing(live).Some? && Exact(school.listing(live).value, live, date)
  }

  ghost predicate Within(live: Bookings, before: Bookings) {
    forall id | id in live :: id in before && live[id] == before[id]
  }

  function SegmentOf(r: Record): Segment {
    Segment(r.roomID, r.seatID, r.seatLabel, r.begin % DAY, r.end % DAY)
  }

  /** The segment is that of the record: its seat, its clock times, its room and its label. */
  ghost predicate Names(s: Segment, r: Record, date: string) {
    SegmentKey(s, date) == RecordKey(r) && s.roomID == r.roomID && s.seatLabel == r.seatLabel
  }

  ghost predicate Named(residue: seq<Segment>, r: Record, date: string) {
    exists s | s in residue :: Names(s, r, date)
  }

  // ----- Stored groups ----------------------------------------------------------------------------------------------

  function Stored(segments: seq<Segment>): seq<StoredSegment>
    requires forall s | s in segments :: InDay(s)
  {
    if segments == [] then []
    else
      var s := segments[0];
      assert InDay(s);
      [StoredSegment(s.seatID, s.seatLabel, s.roomID, FormatMinute(s.start), FormatMinute(s.end))]
      + Stored(segments[1..])
  }

  function ReadStored(items: seq<StoredSegment>): Option<seq<Segment>> {
    if items == [] then Some([])
    else
      var t := items[0];
      match (ParseMinute(t.start), ParseMinute(t.end), ReadStored(items[1..]))
      case (Some(start), Some(end), Some(rest)) => Some([Segment(t.roomID, t.seatID, t.seatLabel, start, end)] + rest)
      case _ => None
  }

  ghost predicate Bookable(segments: seq<Segment>) {
    forall s | s in segments :: 0 <= s.start < DAY && 0 <= s.end < DAY
  }

  lemma {:induction false} StoredReadsBack(segments: seq<Segment>)
    requires Bookable(segments)
    ensures ReadStored(Stored(segments)) == Some(segments)
  {
    hide ParseMinute, FormatMinute;
    if segments != [] {
      var s := segments[0];
      assert 0 <= s.start < DAY && 0 <= s.end < DAY && Bookable(segments[1..]) by { FirstBookable(segments); }
      ParseOfFormat(s.start);
      ParseOfFormat(s.end);
      StoredReadsBack(segments[1..]);
      var t := StoredSegment(s.seatID, s.seatLabel, s.roomID, FormatMinute(s.start), FormatMinute(s.end));
      ReadsFirst(t, Stored(segments[1..]), s, segments[1..]);
      assert segments == [s] + segments[1..];
    }
  }

  lemma {:induction false} FirstBookable(segments: seq<Segment>)
    requires Bookable(segments) && segments != []
    ensures 0 <= segments[0].start < DAY && 0 <= segments[0].end < DAY && Bookable(segments[1..])
  {
    assert segments[0] in segments;
  }

  lemma {:induction false} ReadsFirst(t: StoredSegment, items: seq<StoredSegment>, s: Segment, segments: seq<Segment>)
    requires ParseMinute(t.start) == Some(s.start) && ParseMinute(t.end) == Some(s.end)
    requires s == Segment(t.roomID, t.seatID, t.seatLabel, s.start, s.end) && ReadStored(items) == Some(segments)
    ensures ReadStored([t] + items) == Some([s] + segments)
  {
    hide ParseMinute;
    assert ([t] + items)[1..] == items;
  }

  /** A stored group that can be read is in time order. */
  ghost predicate GroupInOrder(items: seq<StoredSegment>) {
    ReadStored(items).Some? ==> StrictlyByStart(ReadStored(items).value)
  }

  // ----- Matching against an exact listing ---------------------------------------------------------------------------

  /** What the matching of a listing's records to segments gives. */
  ghost predicate Matching(records: seq<Option<Record>>, date: string, segments: seq<Segment>, matched: seq<Record>,
      positions: seq<nat>) {
    && multiset(RecordKeys(matched)) == Outside(ListedKeys(records), {}) * multiset(SegmentKeys(segments, date))
    && |positions| == |matched|
    && forall i | 0 <= i < |matched| :: positions[i] < |records| && records[positions[i]] == Some(matched[i])
  }

  /** As many listed records for each segment key as listing and segments have in common. */
  ghost predicate MatchedIn(records: seq<Option<Record>>, date: string, segments: seq<Segment>, matched: seq<Record>) {
    exists positions :: Matching(records, date, segments, matched, positions)
  }

  lemma {:induction false} MatchedIsWanted(records: seq<Option<Record>>, date: string, segments: seq<Segment>,
      matched: seq<Record>, j: nat)
    requires multiset(RecordKeys(matched)) == Outside(ListedKeys(records), {}) * multiset(SegmentKeys(segments, date))
    requires j < |matched|
    ensures Wanted(matched[j], segments, date)
  {
    hide Outside;
    assert RecordKeys(matched)[j] in multiset(RecordKeys(matched));
    assert RecordKey(matched[j]) in multiset(SegmentKeys(segments, date));
    var i :| 0 <= i < |segments| && SegmentKeys(segments, date)[i] == RecordKey(matched[j]);
    assert segments[i] in segments;
  }

  ghost predicate HasBooking(live: Bookings, k: Key) {
    exists id | id in live :: RecordKey(live[id]) == k
  }

  lemma {:induction false} ListedIffBooked(live: Bookings, records: seq<Option<Record>>, k: Key)
    requires Exact(records, live, k.date)
    ensures k in Outside(ListedKeys(records), {}) <==> HasBooking(live, k)
  {
    hide Outside;
    OutsideHasPosition(ListedKeys(records), {}, k);
    if k in Outside(ListedKeys(records), {}) {
      var i :| 0 <= i < |records| && ListedKeys(records)[i] == Some(k);
      assert records[i].value.id in live;
    }
    if HasBooking(live, k) {
      var id :| id in live && RecordKey(live[id]) == k;
      var i :| 0 <= i < |records| && records[i] == Some(live[id]);
      assert ListedKeys(records)[i] == Some(k);
    }
  }

  /** Against an exact listing, every live booking of a requested segment is matched. */
  lemma {:induction false} WantedIsMatched(live: Bookings, records: seq<Option<Record>>, date: string,
      segments: seq<Segment>, matched: seq<Record>, positions: seq<nat>, id: nat)
    requires Exact(records, live, date) && WellFormed(live) && OnePerKey(live, segments, date)
    requires Matching(records, date, segments, matched, positions)
    requires id in live && Wanted(live[id], segments, date)
    ensures live[id] in matched
  {
    hide Outside, WellFormed;
    var k := RecordKey(live[id]);
    var s :| s in segments && SegmentKey(s, date) == k;
    var n :| 0 <= n < |segments| && segments[n] == s;
    assert SegmentKeys(segments, date)[n] in multiset(SegmentKeys(segments, date));
    ListedIffBooked(live, records, k);
    assert k in multiset(RecordKeys(matched));
    var j :| 0 <= j < |matched| && RecordKeys(matched)[j] == k;
    assert records[positions[j]] == Some(matched[j]);
    assert matched[j].id == id;
  }

  /** Whatever is live can be listed exactly. */
  lemma {:induction false} ExactListing(live: Bookings, date: string)
    requires WellFormed(live)
    ensures exists records :: Exact(records, live, date)
  {
    hide WellFormed, Exact;
    var records: seq<Option<Record>> := [];
    var rest: set<nat> := live.Keys;
    while rest != {}
      invariant rest <= live.Keys
      invariant forall i | 0 <= i < |records| ::
                  records[i].Some? && records[i].value.id in live.Keys - rest &&
                  live[records[i].value.id] == records[i].value
      invariant forall id | id in live.Keys - rest :: Some(live[id]) in records
      invariant forall i, j | 0 <= i < j < |records| :: records[i] != records[j]
      decreases |rest|
    {
      var id :| id in rest;
      assert live[id].id == id by { IdOf(live, id); }
      rest := rest - {id};
      records := records + [Some(live[id])];
    }
    assert Exact(records, live, date) by { IsExact(records, live, date); }
  }

  lemma {:induction false} IsExact(records: seq<Option<Record>>, live: Bookings, date: string)
    requires forall i | 0 <= i < |records| ::
               records[i].Some? && records[i].value.id in live && live[records[i].value.id] == records[i].value
    requires forall id | id in live :: Some(live[id]) in records
    requires forall i, j | 0 <= i < j < |records| :: records[i] != records[j]
    ensures Exact(records, live, date)
  {
  }

  ghost function ExactListingOf(live: Bookings, date: string): (records: seq<Option<Record>>)
    requires WellFormed(live)
    ensures Exact(records, live, date)
  {
    ExactListing(live, date);
    var records :| Exact(records, live, date);
    records
  }

  /** A truthful school exists for every date, whatever it replies to bookings and cancellations. */
  lemma {:induction false} SomeSchoolIsTruthful(school: School, date: string)
    ensures exists listing :: Truthful(school.(listing := listing), date)
  {
    hide WellFormed, Exact;
    var listing: Bookings -> Option<seq<Option<Record>>> :=
      live => if WellFormed(live) then Some(ExactListingOf(live, date)) else None;
    assert Truthful(school.(listing := listing), date);
  }

  // ----- What a rollback leaves --------------------------------------------------------------------------------------

  /** Bookings nobody asked to cancel are still there. */
  ghost predicate Untouched(before: Bookings, live: Bookings, segments: seq<Segment>, date: string) {
    forall id | id in before && !Wanted(before[id], segments, date) :: id in live && live[id] == before[id]
  }

  /** Whatever is still booked of the segments is in the residue, and without an error nothing is. */
  ghost predicate Accounted(live: Bookings, segments: seq<Segment>, date: string, residue: seq<Segment>, failed: bool) {
    && (forall id | id in live && Wanted(live[id], segments, date) :: Named(residue, live[id], date))
    && (!failed ==> NoneWanted(live, segments, date))
  }

  predicate Hit(matched: seq<Record>, id: nat) {
    exists j | 0 <= j < |matched| :: matched[j].id == id
  }

  /** The cancellations of these records, each with its reply: what took effect is gone, and nothing else. */
  ghost predicate Effects(before: Bookings, live: Bookings, matched: seq<Record>, reply: nat -> Reply) {
    && Within(live, before)
    && forall id | id in before :: id in live <==> !Hit(matched, id) || reply(id).FailedBefore?
  }

  lemma {:induction false} OneMoreEffect(before: Bookings, live: Bookings, later: Bookings, matched: seq<Record>,
      r: Record, reply: nat -> Reply)
    requires Effects(before, live, matched, reply)
    requires later == if reply(r.id).FailedBefore? then live else live - {r.id}
    ensures Effects(before, later, matched + [r], reply)
  {
    forall id ensures Hit(matched + [r], id) <==> Hit(matched, id) || id == r.id {
      if Hit(matched, id) {
        var j :| 0 <= j < |matched| && matched[j].id == id;
        assert (matched + [r])[j].id == id;
      }
      assert (matched + [r])[|matched|] == r;
    }
  }

  /** The segments of the records whose cancellation was not confirmed. */
  function ResidueOf(matched: seq<Record>, reply: nat -> Reply): (residue: seq<Segment>)
    ensures forall s | s in residue :: 0 <= s.start < DAY && 0 <= s.end < DAY
  {
    if matched == [] then []
    else
      var r := matched[|matched| - 1];
      ResidueOf(matched[..|matched| - 1], reply) + if reply(r.id).Confirmed? then [] else [SegmentOf(r)]
  }

  /** One segment for each unconfirmed record, in order, and each the segment of its record. */
  ghost predicate NamesInOrder(residue: seq<Segment>, matched: seq<Record>, reply: nat -> Reply, date: string) {
    if matched == [] then residue == []
    else
      var r := matched[|matched| - 1];
      if reply(r.id).Confirmed? then NamesInOrder(residue, matched[..|matched| - 1], reply, date)
      else
        && residue != [] && Names(residue[|residue| - 1], r, date)
        && NamesInOrder(residue[..|residue| - 1], matched[..|matched| - 1], reply, date)
  }

  lemma {:induction false} SegmentOfNames(r: Record, date: string)
    requires r.date == date
    ensures Names(SegmentOf(r), r, date)
  {
  }

  lemma {:induction false} OneMoreName(residue: seq<Segment>, matched: seq<Record>, s: Segment, r: Record,
      reply: nat -> Reply, date: string)
    requires NamesInOrder(residue, matched, reply, date) && (!reply(r.id).Confirmed? ==> Names(s, r, date))
    ensures NamesInOrder(if reply(r.id).Confirmed? then residue else residue + [s], matched + [r], reply, date)
  {
    hide Names;
    assert (matched + [r])[..|matched|] == matched && (residue + [s])[..|residue|] == residue;
  }

  lemma {:induction false} ResidueNames(matched: seq<Record>, reply: nat -> Reply, date: string)
    requires forall i | 0 <= i < |matched| :: matched[i].date == date
    ensures NamesInOrder(ResidueOf(matched, reply), matched, reply, date)
  {
    hide Names, SegmentOf, ResidueOf;
    if matched == [] {
      assert ResidueOf([], reply) == [] by { NoEffects(map[], reply); }
    } else {
      hide NamesInOrder;
      var n := |matched| - 1;
      var front, r := matched[..n], matched[n];
      ResidueNames(front, reply, date);
      SegmentOfNames(r, date);
      OneMoreName(ResidueOf(front, reply), front, SegmentOf(r), r, reply, date);
      OneMoreResidue(front, r, reply);
      assert matched == front + [r];
      assert ResidueOf(front, reply) + [] == ResidueOf(front, reply);
    }
  }

  /** So the residue names exactly the unconfirmed records. */
  lemma {:induction false} NamedExactly(residue: seq<Segment>, matched: seq<Record>, reply: nat -> Reply, date: string)
    requires NamesInOrder(residue, matched, reply, date)
    ensures forall j | 0 <= j < |matched| && !reply(matched[j].id).Confirmed? :: Named(residue, matched[j], date)
    ensures forall s | s in residue ::
              exists j | 0 <= j < |matched| :: !reply(matched[j].id).Confirmed? && Names(s, matched[j], date)
  {
    hide Names;
    if matched != [] {
      var n := |matched| - 1;
      var kept := !reply(matched[n].id).Confirmed?;
      var front := if kept then residue[..|residue| - 1] else residue;
      NamedExactly(front, matched[..n], reply, date);
      forall j | 0 <= j < |matched| && !reply(matched[j].id).Confirmed? ensures Named(residue, matched[j], date) {
        if j < n {
          assert Named(front, matched[..n][j], date);
          var s :| s in front && Names(s, matched[j], date);
          assert s in residue;
        } else {
          assert residue[|residue| - 1] in residue;
        }
      }
      forall s | s in residue
        ensures exists j | 0 <= j < |matched| :: !reply(matched[j].id).Confirmed? && Names(s, matched[j], date)
      {
        if s in front {
          var j :| 0 <= j < n && !reply(matched[..n][j].id).Confirmed? && Names(s, matched[..n][j], date);
          assert matched[j] == matched[..n][j];
        } else {
          assert s == residue[|residue| - 1];
        }
      }
    }
  }

  lemma {:induction false} MatchedOnDate(records: seq<Option<Record>>, date: string, segments: seq<Segment>,
      matched: seq<Record>, positions: seq<nat>)
    requires Matching(records, date, segments, matched, positions)
    ensures forall j | 0 <= j < |matched| :: matched[j].date == date
  {
    hide Outside, RecordKeys, SegmentKeys, ListedKeys;
    forall j | 0 <= j < |matched| ensures matched[j].date == date {
      MatchedIsWanted(records, date, segments, matched, j);
    }
  }

  lemma {:induction false} ResidueAscends(matched: seq<Record>, served: seq<Segment>, date: string, reply: nat -> Reply)
    requires |matched| == |served| && StrictlyByStart(served)
    requires forall i | 0 <= i < |matched| :: RecordKey(matched[i]) == SegmentKey(served[i], date)
    ensures StrictlyByStart(ResidueOf(matched, reply))
    ensures forall s | s in ResidueOf(matched, reply) :: served != [] && s.start <= served[|served| - 1].start
  {
    if matched != [] {
      var n := |matched| - 1;
      assert StrictlyByStart(served[..n]);
      ResidueAscends(matched[..n], served[..n], date, reply);
      assert SegmentOf(matched[n]).start == served[n].start;
      var front := ResidueOf(matched[..n], reply);
      forall i | 0 <= i < |front| ensures front[i].start < served[n].start {
        assert front[i] in front;
        assert n > 0 && served[..n][n - 1] == served[n - 1];
      }
    }
  }

  lemma {:induction false} EmptyAscends()
    ensures StrictlyByStart([]) && Bookable([])
  {
  }

  lemma {:induction false} NoEffects(live: Bookings, reply: nat -> Reply)
    ensures Effects(live, live, [], reply) && ResidueOf([], reply) == []
  {
  }

  lemma {:induction false} OneMoreResidue(matched: seq<Record>, r: Record, reply: nat -> Reply)
    ensures ResidueOf(matched + [r], reply) ==
            ResidueOf(matched, reply) + if reply(r.id).Confirmed? then [] else [SegmentOf(r)]
  {
    assert (matched + [r])[..|matched|] == matched;
  }

  lemma {:induction false} EffectsAreWithin(before: Bookings, live: Bookings, matched: seq<Record>, reply: nat -> Reply)
    requires Effects(before, live, matched, reply)
    ensures Within(live, before)
  {
  }

  lemma {:induction false} ResidueIsShorter(matched: seq<Record>, reply: nat -> Reply)
    ensures |ResidueOf(matched, reply)| <= |matched|
  {
    if matched != [] {
      ResidueIsShorter(matched[..|matched| - 1], reply);
    }
  }

  /** Against an exact listing the records matched are those of the wanted bookings. */
  lemma {:induction false} HitsAreWanted(before: Bookings, records: seq<Option<Record>>, date: string,
      segments: seq<Segment>, matched: seq<Record>, positions: seq<nat>, id: nat)
    requires Exact(records, before, date) && WellFormed(before) && Matching(records, date, segments, matched, positions)
    ensures Hit(matched, id) ==> id in before && before[id] in matched && Wanted(before[id], segments, date)
    ensures OnePerKey(before, segments, date) && id in before && Wanted(before[id], segments, date) ==> Hit(matched, id)
  {
    hide RecordKeys, ListedKeys, SegmentKeys, OnePerKey, Outside;
    if Hit(matched, id) {
      var j :| 0 <= j < |matched| && matched[j].id == id;
      assert records[positions[j]] == Some(matched[j]);
      MatchedIsWanted(records, date, segments, matched, j);
    }
    if OnePerKey(before, segments, date) && id in before && Wanted(before[id], segments, date) {
      WantedIsMatched(before, records, date, segments, matched, positions, id);
      var j :| 0 <= j < |matched| && matched[j] == before[id];
    }
  }

  /** Some wanted booking's cancellation is not confirmed. */
  ghost predicate Unconfirmed(before: Bookings, segments: seq<Segment>, date: string, reply: nat -> Reply) {
    exists id | id in before :: Wanted(before[id], segments, date) && !reply(id).Confirmed?
  }

  /** The wanted bookings that are gone are those whose cancellation took effect. */
  ghost predicate GoneByReply(before: Bookings, live: Bookings, segments: seq<Segment>, date: string,
      reply: nat -> Reply) {
    forall id | id in before && Wanted(before[id], segments, date) :: id in live <==> reply(id).FailedBefore?
  }

  /**
   A rollback that works from an exact listing. Other bookings are untouched, and the residue names unconfirmed ones
   only. If there is at most one booking per segment, the wanted ones go exactly as the school's replies say, every one
   not confirmed is named in the residue, and an error is reported exactly if there is one.
   */
  ghost predicate RolledBack(before: Bookings, live: Bookings, segments: seq<Segment>, date: string,
      residue: seq<Segment>, failed: bool, reply: nat -> Reply) {
    && Untouched(before, live, segments, date)
    && (forall s | s in residue :: NamesLeft(s, before, segments, date, reply))
    && (OnePerKey(before, segments, date) ==>
          && GoneByReply(before, live, segments, date, reply)
          && (failed <==> Unconfirmed(before, segments, date, reply))
          && forall id | Left(before, segments, date, reply, id) :: Named(residue, before[id], date))
  }

  /** A wanted booking whose cancellation was not confirmed. */
  ghost predicate Left(before: Bookings, segments: seq<Segment>, date: string, reply: nat -> Reply, id: nat) {
    id in before && Wanted(before[id], segments, date) && !reply(id).Confirmed?
  }

  ghost predicate NamesLeft(s: Segment, before: Bookings, segments: seq<Segment>, date: string, reply: nat -> Reply) {
    exists id :: Left(before, segments, date, reply, id) && Names(s, before[id], date)
  }

  lemma {:induction false} EffectsAreExact(before: Bookings, live: Bookings, records: seq<Option<Record>>, date: string,
      segments: seq<Segment>, matched: seq<Record>, positions: seq<nat>, reply: nat -> Reply)
    requires Exact(records, before, date) && WellFormed(before) && Matching(records, date, segments, matched, positions)
    requires Effects(before, live, matched, reply)
    ensures Untouched(before, live, segments, date)
    ensures OnePerKey(before, segments, date) ==> GoneByReply(before, live, segments, date, reply)
    ensures OnePerKey(before, segments, date) ==>
              (Unconfirmed(before, segments, date, reply) <==>
                  exists j | 0 <= j < |matched| :: !reply(matched[j].id).Confirmed?)
  {
    hide Exact, WellFormed, OnePerKey, Matching, Hit, Wanted;
    forall id | id in before
      ensures Hit(matched, id) ==> Wanted(before[id], segments, date)
      ensures OnePerKey(before, segments, date) && Wanted(before[id], segments, date) ==> Hit(matched, id)
    {
      HitsAreWanted(before, records, date, segments, matched, positions, id);
    }
    if OnePerKey(before, segments, date) {
      if Unconfirmed(before, segments, date, reply) {
        var id :| id in before && Wanted(before[id], segments, date) && !reply(id).Confirmed?;
        HitHasPosition(matched, id);
      }
      if j :| 0 <= j < |matched| && !reply(matched[j].id).Confirmed? {
        PositionIsHit(matched, j);
        HitsAreWanted(before, records, date, segments, matched, positions, matched[j].id);
      }
    }
  }

  lemma {:induction false} HitHasPosition(matched: seq<Record>, id: nat)
    requires Hit(matched, id)
    ensures exists j | 0 <= j < |matched| :: matched[j].id == id
  {
  }

  lemma {:induction false} PositionIsHit(matched: seq<Record>, j: nat)
    requires j < |matched|
    ensures Hit(matched, matched[j].id)
  {
  }

  lemma {:induction false} RollbackIsExact(before: Bookings, live: Bookings, records: seq<Option<Record>>, date: string,
      segments: seq<Segment>, matched: seq<Record>, positions: seq<nat>, residue: seq<Segment>, reply: nat -> Reply)
    requires Exact(records, before, date) && WellFormed(before) && Matching(records, date, segments, matched, positions)
    requires Effects(before, live, matched, reply) && NamesInOrder(residue, matched, reply, date)
    ensures RolledBack(before, live, segments, date, residue, residue != [], reply)
  {
    hide Exact, WellFormed, OnePerKey, Matching, Effects, Untouched, GoneByReply, NamesInOrder, Unconfirmed, Names;
    hide Named, Wanted, Hit;
    EffectsAreExact(before, live, records, date, segments, matched, positions, reply);
    NamedExactly(residue, matched, reply, date);
    forall s | s in residue ensures NamesLeft(s, before, segments, date, reply) {
      var j :| 0 <= j < |matched| && !reply(matched[j].id).Confirmed? && Names(s, matched[j], date);
      MatchedIsLive(before, records, date, segments, matched, positions, j);
      PositionIsHit(matched, j);
      HitsAreWanted(before, records, date, segments, matched, positions, matched[j].id);
      assert Left(before, segments, date, reply, matched[j].id);
    }
    forall id | OnePerKey(before, segments, date) && Left(before, segments, date, reply, id)
      ensures Named(residue, before[id], date)
    {
      HitsAreWanted(before, records, date, segments, matched, positions, id);
      HitHasPosition(matched, id);
      var j :| 0 <= j < |matched| && matched[j].id == id;
      MatchedIsLive(before, records, date, segments, matched, positions, j);
    }
    UnconfirmedIffResidue(residue, matched, reply, date);
  }

  lemma {:induction false} UnconfirmedIffResidue(residue: seq<Segment>, matched: seq<Record>, reply: nat -> Reply,
      date: string)
    requires NamesInOrder(residue, matched, reply, date)
    ensures residue != [] <==> exists j | 0 <= j < |matched| :: !reply(matched[j].id).Confirmed?
  {
    hide Names;
    if matched != [] {
      var n := |matched| - 1;
      if reply(matched[n].id).Confirmed? {
        UnconfirmedIffResidue(residue, matched[..n], reply, date);
        assert forall j | 0 <= j < n :: matched[..n][j] == matched[j];
      }
    }
  }

  lemma {:induction false} MatchedIsLive(before: Bookings, records: seq<Option<Record>>, date: string,
      segments: seq<Segment>, matched: seq<Record>, positions: seq<nat>, j: nat)
    requires Exact(records, before, date) && Matching(records, date, segments, matched, positions) && j < |matched|
    ensures matched[j].id in before && before[matched[j].id] == matched[j]
  {
    hide Outside, RecordKeys, SegmentKeys, ListedKeys;
    assert records[positions[j]] == Some(matched[j]);
  }

  lemma {:induction false} IdOf(live: Bookings, id: nat)
    requires WellFormed(live) && id in live
    ensures live[id].id == id
  {
  }

  lemma {:induction false} NothingToRollBack(live: Bookings, date: string, reply: nat -> Reply)
    ensures RolledBack(live, live, [], date, [], false, reply)
  {
  }

  lemma {:induction false} RollbackAccounts(before: Bookings, live: Bookings, segments: seq<Segment>, date: string,
      residue: seq<Segment>, failed: bool, reply: nat -> Reply)
    requires RolledBack(before, live, segments, date, residue, failed, reply) && OnePerKey(before, segments, date) &&
             Within(live, before)
    ensures Accounted(live, segments, date, residue, failed) && Untouched(before, live, segments, date)
  {
    hide Wanted;
  }

  lemma {:induction false} RollbackIsClean(before: Bookings, live: Bookings, segments: seq<Segment>, date: string,
      residue: seq<Segment>, failed: bool, reply: nat -> Reply)
    requires RolledBack(before, live, segments, date, residue, failed, reply) && OnePerKey(before, segments, date)
    ensures (forall id :: reply(id).Confirmed?) ==> !failed
  {
  }

  // ----- Growth while reserving --------------------------------------------------------------------------------------

  /** `live` is `base` plus one new booking for each of the first |ids| segments. */
  ghost predicate Grown(base: Bookings, live: Bookings, segments: seq<Segment>, date: string, ids: seq<nat>) {
    && |ids| <= |segments|
    && (forall id | id in base :: id in live && live[id] == base[id])
    && (forall id | id in live :: id in base || id in ids)
    && (forall j | 0 <= j < |ids| ::
        ids[j] in live && ids[j] !in base && RecordKey(live[ids[j]]) == SegmentKey(segments[j], date))
  }

  lemma {:induction false} GrownIsOnePerKey(base: Bookings, live: Bookings, segments: seq<Segment>, date: string,
      ids: seq<nat>)
    requires Grown(base, live, segments, date, ids) && NoneWanted(base, segments, date)
    requires StrictlyByStart(segments)
    ensures OnePerKey(live, segments, date)
    ensures forall id | id in live && Wanted(live[id], segments, date) :: Wanted(live[id], segments[..|ids|], date)
  {
    forall a, b | a in live && b in live && Wanted(live[a], segments, date) && RecordKey(live[a]) == RecordKey(live[b])
      ensures a == b
    {
      assert Wanted(live[b], segments, date);
      var i :| 0 <= i < |ids| && ids[i] == a;
      var j :| 0 <= j < |ids| && ids[j] == b;
      assert SegmentKey(segments[i], date) == SegmentKey(segments[j], date);
    }
    forall id | id in live && Wanted(live[id], segments, date) ensures Wanted(live[id], segments[..|ids|], date) {
      var j :| 0 <= j < |ids| && ids[j] == id;
      assert segments[..|ids|][j] == segments[j];
    }
  }

  // ----- Checking before booking -------------------------------------------------------------------------------------

  /** The school's i-th timeline has a free interval around the i-th segment. */
  predicate IsFree(school: School, segments: seq<Segment>, i: nat)
    requires i < |segments|
  {
    var intervals := school.timeline(i, segments[i].seatID);
    intervals.Some? && exists iv | iv in intervals.value :: iv.start <= segments[i].start && segments[i].end <= iv.end
  }

  /** The i-th booking succeeds; a segment that ends at midnight cannot even be requested. */
  predicate Succeeds(school: School, segments: seq<Segment>, i: nat)
    requires i < |segments|
  {
    segments[i].end < DAY && school.request(i).Confirmed?
  }

  /** The first request that does not succeed, counted from 1. */
  predicate FailedFirstAt(school: School, segments: seq<Segment>, at: nat) {
    && 1 <= at <= |segments| && !Succeeds(school, segments, at - 1)
    && forall i | 0 <= i < at - 1 :: Succeeds(school, segments, i)
  }

  /** How many bookings there are once the request number `at` has failed: it may have booked its segment or not. */
  function Taken(school: School, segments: seq<Segment>, at: nat): nat
    requires 1 <= at <= |segments|
  {
    if segments[at - 1].end < DAY && !school.request(at - 1).FailedBefore? then at else at - 1
  }

  // ----- Booking step by step ----------------------------------------------------------------------------------------

  /** Whether both times parse, in this order. */
  predicate Requestable(start: string, end: string) {
    ParseMinute(start).Some? && ParseMinute(end).Some? && ParseMinute(start).value < ParseMinute(end).value
  }

  /** Everything booked before is booked still. */
  ghost predicate Kept(before: Bookings, live: Bookings) {
    forall id | id in before :: id in live && live[id] == before[id]
  }

  lemma {:induction false} PrefixAscends(segments: seq<Segment>, n: nat)
    requires StrictlyByStart(segments) && n <= |segments|
    ensures StrictlyByStart(segments[..n]) && forall s | s in segments[..n] :: s in segments
  {
  }

  lemma {:induction false} NothingGrown(base: Bookings, segments: seq<Segment>, date: string)
    ensures Grown(base, base, segments, date, []) && Bookable(segments[..0])
  {
  }

  lemma {:induction false} ChainIsInDay(items: seq<Option<TextSegment>>)
    requires Normalized(items).Some?
    ensures forall s | s in Normalized(items).value :: InDay(s) && s.start < s.end
    ensures StrictlyByStart(Normalized(items).value)
  {
    hide ParseSegment, Normalized;
    AcceptedIsChain(items);
    var chain := Normalized(items).value;
    assert IsChain(chain);
  }

  lemma {:induction false} BookedIsWanted(r: Record, s: Segment, date: string)
    requires InDay(s) && r.seatID == s.seatID && r.date == date
    ensures ParseMinute(FormatMinute(s.start)) == Some(r.begin) && ParseMinute(FormatMinute(s.end)) == Some(r.end) ==>
              RecordKey(r) == SegmentKey(s, date) && 0 <= s.start < DAY && 0 <= s.end < DAY
  {
    hide ParseMinute, FormatMinute;
    ParseOfFormat(s.start);
    ParseOfFormat(s.end);
  }

  lemma {:induction false} GrowsByOne(base: Bookings, before: Bookings, live: Bookings, segments: seq<Segment>,
      date: string, ids: seq<nat>, r: Record)
    requires Grown(base, before, segments, date, ids) && |ids| < |segments|
    requires r.id !in before && live == before[r.id := r] && RecordKey(r) == SegmentKey(segments[|ids|], date)
    ensures Grown(base, live, segments, date, ids + [r.id])
  {
  }

  lemma {:induction false} BookableByOne(segments: seq<Segment>, i: nat)
    requires i < |segments| && Bookable(segments[..i]) && 0 <= segments[i].start < DAY && 0 <= segments[i].end < DAY
    ensures Bookable(segments[..i + 1])
  {
    assert segments[..i + 1] == segments[..i] + [segments[i]];
  }

  lemma {:induction false} FewerSegments(live: Bookings, segments: seq<Segment>, date: string, n: nat)
    requires n <= |segments|
    ensures forall id | id in live && Wanted(live[id], segments[..n], date) :: Wanted(live[id], segments, date)
    ensures OnePerKey(live, segments, date) ==> OnePerKey(live, segments[..n], date)
    ensures forall s | s in segments[..n] :: s in segments
  {
  }

  lemma {:induction false} OneOfTheBooked(base: Bookings, mid: Bookings, segments: seq<Segment>, date: string,
      ids: seq<nat>, n: nat, id: nat)
    requires |ids| <= n <= |segments| && Grown(base, mid, segments, date, ids) && NoneWanted(base, segments, date)
    requires id in mid && (id !in base || Wanted(mid[id], segments, date))
    ensures Wanted(mid[id], segments[..n], date) && Wanted(mid[id], segments, date)
  {
    var j :| 0 <= j < |ids| && ids[j] == id;
    assert segments[..n][j] == segments[j];
    assert segments[j] in segments[..n] && segments[j] in segments;
  }

  /** After a rollback from an exact listing: what was there before still is, and the rest is in the residue. */
  lemma {:induction false} BackToBase(base: Bookings, mid: Bookings, live: Bookings, segments: seq<Segment>,
      date: string, ids: seq<nat>, n: nat, residue: seq<Segment>, failed: bool)
    requires |ids| <= n <= |segments| && Grown(base, mid, segments, date, ids) && NoneWanted(base, segments, date)
    requires Within(live, mid) && Untouched(mid, live, segments[..n], date) &&
             Accounted(live, segments[..n], date, residue, failed)
    ensures Kept(base, live)
    ensures Accounted(live, segments, date, residue, failed)
    ensures !failed ==> live == base
  {
    hide Wanted;
    forall id | id in base ensures id in live && live[id] == base[id] {
      if Wanted(mid[id], segments[..n], date) {
        FewerSegments(mid, segments, date, n);
      }
    }
    forall id | id in live && (id !in base || Wanted(live[id], segments, date))
      ensures Wanted(live[id], segments[..n], date) && Wanted(live[id], segments, date)
    {
      OneOfTheBooked(base, mid, segments, date, ids, n, id);
    }
  }

  /** Some segment has no live booking at all. */
  ghost predicate Lost(live: Bookings, segments: seq<Segment>, date: string) {
    exists s | s in segments :: !HasBooking(live, SegmentKey(s, date))
  }

  /** With an exact listing, segments are missing exactly when one of them has no booking. */
  lemma {:induction false} LostIsMissing(live: Bookings, records: seq<Option<Record>>, date: string,
      segments: seq<Segment>, missing: seq<Segment>)
    requires Exact(records, live, date)
    requires multiset(SegmentKeys(missing, date)) ==
        multiset(SegmentKeys(segments, date)) - Outside(ListedKeys(records), {})
    requires Lost(live, segments, date)
    ensures missing != []
  {
    hide Outside, Exact;
    var s :| s in segments && !HasBooking(live, SegmentKey(s, date));
    var n :| 0 <= n < |segments| && segments[n] == s;
    ListedIffBooked(live, records, SegmentKey(s, date));
    assert SegmentKeys(segments, date)[n] in multiset(SegmentKeys(segments, date));
    assert SegmentKey(s, date) in multiset(SegmentKeys(missing, date));
  }

  lemma {:induction false} MissingIsLost(live: Bookings, records: seq<Option<Record>>, date: string,
      segments: seq<Segment>, missing: seq<Segment>)
    requires Exact(records, live, date)
    requires multiset(SegmentKeys(missing, date)) ==
        multiset(SegmentKeys(segments, date)) - Outside(ListedKeys(records), {})
    requires StrictlyByStart(segments) && missing != []
    ensures Lost(live, segments, date)
  {
    hide Outside, Exact;
    var k := SegmentKey(missing[0], date);
    assert SegmentKeys(missing, date)[0] in multiset(SegmentKeys(missing, date));
    IncreasingKeysAreDistinct(segments, date, k);
    ListedIffBooked(live, records, k);
    var n :| 0 <= n < |segments| && SegmentKeys(segments, date)[n] == k;
    assert segments[n] in segments;
  }

  lemma {:induction false} IncreasingKeysAreDistinct(segments: seq<Segment>, date: string, k: Key)
    requires StrictlyByStart(segments)
    ensures multiset(SegmentKeys(segments, date))[k] <= 1
  {
    if segments != [] {
      var n := |segments| - 1;
      IncreasingKeysAreDistinct(segments[..n], date, k);
      assert SegmentKeys(segments, date) == SegmentKeys(segments[..n], date) + [SegmentKey(segments[n], date)];
      assert forall i | 0 <= i < n :: SegmentKeys(segments[..n], date)[i] != SegmentKey(segments[n], date);
    }
  }

  lemma {:induction false} ReadStoredInDay(items: seq<StoredSegment>)
    ensures ReadStored(items).Some? ==> forall s | s in ReadStored(items).value :: InDay(s)
  {
    hide ParseMinute;
    if items != [] {
      ParseMinuteInRange(items[0].start);
      ParseMinuteInRange(items[0].end);
      ReadStoredInDay(items[1..]);
    }
  }

  lemma {:induction false} EverySegmentMatched(records: seq<Option<Record>>, date: string, segments: seq<Segment>,
      matched: seq<Record>, served: seq<Segment>)
    requires |matched| == |served| && multiset(segments) == multiset(served)
    requires multiset(RecordKeys(matched)) == Outside(ListedKeys(records), {}) * multiset(SegmentKeys(segments, date))
    requires multiset(SegmentKeys(segments, date)) - Outside(ListedKeys(records), {}) == multiset{}
    ensures |matched| == |segments| && multiset(RecordKeys(matched)) == multiset(SegmentKeys(segments, date))
  {
    assert |multiset(segments)| == |segments| && |multiset(served)| == |served|;
    assert forall k :: (multiset(SegmentKeys(segments, date)) - Outside(ListedKeys(records), {}))[k] == 0;
  }

  lemma {:induction false} KeyIsLost(before: Bookings, live: Bookings, date: string, segments: seq<Segment>, r: Record)
    requires Within(live, before) && OnePerKey(before, segments, date)
    requires r.id in before && before[r.id] == r && r.id !in live && Wanted(r, segments, date)
    ensures Lost(live, segments, date)
  {
    var s :| s in segments && RecordKey(r) == SegmentKey(s, date);
    forall id | id in before && RecordKey(before[id]) == SegmentKey(s, date) ensures id == r.id {
      assert Wanted(before[id], segments, date);
    }
  }

  /**
   A cancellation that works from an exact listing. The group is refused exactly when one of its bookings is gone, and
   no other booking is touched. Otherwise, with one booking per segment, its bookings go exactly as the school's
   replies say, and the cancellation is complete exactly if all of them are confirmed.
   */
  ghost predicate CancelSpec(before: Bookings, live: Bookings, date: string, segments: seq<Segment>,
      outcome: CancelOutcome, reply: nat -> Reply) {
    && Untouched(before, live, segments, date)
    && (outcome.Missing? <==> Lost(before, segments, date))
    && (!outcome.Missing? && OnePerKey(before, segments, date) ==>
          && GoneByReply(before, live, segments, date, reply)
          && (outcome.Cancelled? <==> !Unconfirmed(before, segments, date, reply)))
  }

  lemma {:induction false} CancelKeepsSpec(before: Bookings, live: Bookings, records: seq<Option<Record>>, date: string,
      segments: seq<Segment>, matched: seq<Record>, missing: seq<Segment>, positions: seq<nat>, outcome: CancelOutcome,
      reply: nat -> Reply)
    requires Exact(records, before, date) && WellFormed(before) && StrictlyByStart(segments)
    requires Matching(records, date, segments, matched, positions)
    requires multiset(SegmentKeys(missing, date)) ==
        multiset(SegmentKeys(segments, date)) - Outside(ListedKeys(records), {})
    requires if missing != [] then outcome.Missing? && live == before
             else !outcome.Missing? && Effects(before, live, matched, reply)
    requires missing == [] ==>
               (outcome.Cancelled? <==> forall j | 0 <= j < |matched| :: reply(matched[j].id).Confirmed?)
    ensures CancelSpec(before, live, date, segments, outcome, reply)
  {
    hide Exact, WellFormed, OnePerKey, Lost, StrictlyByStart, Matching, Effects, GoneByReply, Unconfirmed, Outside,
         SegmentKeys, ListedKeys;
    if Lost(before, segments, date) {
      LostIsMissing(before, records, date, segments, missing);
    }
    if missing != [] {
      MissingIsLost(before, records, date, segments, missing);
    } else {
      EffectsAreExact(before, live, records, date, segments, matched, positions, reply);
    }
  }

  lemma {:induction false} LostStays(live: Bookings, later: Bookings, segments: seq<Segment>, date: string)
    requires Lost(live, segments, date) && Within(later, live)
    ensures Lost(later, segments, date)
  {
  }

  lemma {:induction false} ResidueLostIff(before: Bookings, live: Bookings, later: Bookings, segments: seq<Segment>,
      date: string, residue: seq<Segment>, failed: bool, reply: nat -> Reply)
    requires RolledBack(before, live, segments, date, residue, failed, reply) && OnePerKey(before, segments, date)
    ensures Lost(later, residue, date) <==>
              exists id :: Left(before, segments, date, reply, id) && !HasBooking(later, RecordKey(before[id]))
  {
    hide HasBooking, OnePerKey, RecordKey, SegmentKey, Wanted, Untouched, GoneByReply, Unconfirmed;
    if Lost(later, residue, date) {
      var s :| s in residue && !HasBooking(later, SegmentKey(s, date));
      assert NamesLeft(s, before, segments, date, reply);
    }
    if id :| Left(before, segments, date, reply, id) && !HasBooking(later, RecordKey(before[id])) {
      assert Named(residue, before[id], date);
      var s :| s in residue && Names(s, before[id], date);
      assert !HasBooking(later, SegmentKey(s, date));
    }
  }

  /**
   The group that a failed booking leaves behind is refused exactly when one of the bookings whose cancellation was not
   confirmed is no longer there.
   */
  lemma {:induction false} ResidueCanBeCancelled(before: Bookings, live: Bookings, later: Bookings, final: Bookings,
      segments: seq<Segment>, date: string, residue: seq<Segment>, failed: bool, outcome: CancelOutcome,
      reply: nat -> Reply, replyAgain: nat -> Reply)
    requires RolledBack(before, live, segments, date, residue, failed, reply) && OnePerKey(before, segments, date)
    ensures CancelSpec(later, final, date, residue, outcome, replyAgain) ==>
              (outcome.Missing? <==>
                 exists id :: Left(before, segments, date, reply, id) && !HasBooking(later, RecordKey(before[id])))
  {
    hide RolledBack, OnePerKey, Lost, Left, HasBooking;
    ResidueLostIff(before, live, later, segments, date, residue, failed, reply);
  }

  /** Cancelled right away, it is refused exactly when an unconfirmed cancellation did take effect. */
  lemma {:induction false} ResidueLostAtOnce(before: Bookings, live: Bookings, segments: seq<Segment>, date: string,
      residue: seq<Segment>, failed: bool, reply: nat -> Reply)
    requires RolledBack(before, live, segments, date, residue, failed, reply) && OnePerKey(before, segments, date)
    requires Within(live, before)
    ensures Lost(live, residue, date) <==>
              exists id | id in before :: Wanted(before[id], segments, date) && reply(id).FailedAfter?
  {
    hide Wanted, RecordKey, SegmentKey, HasBooking, Lost, OnePerKey, Within;
    ResidueLostIff(before, live, live, segments, date, residue, failed, reply);
    forall id | Left(before, segments, date, reply, id)
      ensures HasBooking(live, RecordKey(before[id])) <==> reply(id).FailedBefore?
    {
      KeptIffFailedBefore(before, live, segments, date, id, reply);
    }
    if id :| id in before && Wanted(before[id], segments, date) && reply(id).FailedAfter? {
      assert Left(before, segments, date, reply, id);
    }
  }

  lemma {:induction false} KeptIffFailedBefore(before: Bookings, live: Bookings, segments: seq<Segment>, date: string,
      id: nat, reply: nat -> Reply)
    requires GoneByReply(before, live, segments, date, reply) && OnePerKey(before, segments, date)
    requires Within(live, before) && id in before && Wanted(before[id], segments, date)
    ensures HasBooking(live, RecordKey(before[id])) <==> reply(id).FailedBefore?
  {
    hide Wanted, RecordKey;
    if HasBooking(live, RecordKey(before[id])) {
      var k :| k in live && RecordKey(live[k]) == RecordKey(before[id]);
      assert before[k] == live[k] && k == id;
    }
  }

  /** Bookings as time passes, with nothing booked anew. */
  ghost predicate NothingAdded(history: seq<Bookings>) {
    forall i | 0 < i < |history| :: Within(history[i], history[i - 1])
  }

  lemma {:induction false} LostForGood(history: seq<Bookings>, n: nat, segments: seq<Segment>, date: string)
    requires n < |history| && NothingAdded(history) && Lost(history[0], segments, date)
    ensures Lost(history[n], segments, date)
  {
    hide Lost, Within;
    if n > 0 {
      LostForGood(history, n - 1, segments, date);
      LostStays(history[n - 1], history[n], segments, date);
    }
  }

  /**
   A cancellation of which anything took effect is the last word: as long as nothing is booked anew, every later attempt
   to cancel the group, however many there have been by then, is refused.
   */
  lemma {:induction false} PartlyCancelledForGood(before: Bookings, history: seq<Bookings>, n: nat, final: Bookings,
      date: string, segments: seq<Segment>, id: nat, outcome: CancelOutcome, again: CancelOutcome,
      reply: nat -> Reply, replyAgain: nat -> Reply)
    requires WellFormed(before) && OnePerKey(before, segments, date)
    requires id in before && Wanted(before[id], segments, date) && !reply(id).FailedBefore?
    requires n < |history| && NothingAdded(history) && Within(history[0], before)
    ensures (CancelSpec(before, history[0], date, segments, outcome, reply) && !outcome.Missing? &&
             CancelSpec(history[n], final, date, segments, again, replyAgain)) ==> again.Missing?
  {
    hide OnePerKey, Lost, Wanted, Within, NothingAdded;
    if CancelSpec(before, history[0], date, segments, outcome, reply) && !outcome.Missing? {
      KeyIsLost(before, history[0], date, segments, before[id]);
      LostForGood(history, n, segments, date);
    }
  }

  /** The booking side of the seat service for one student. */
  class SeatService {
    var live: Bookings
    var nextID: nat
    var groups: map<string, seq<StoredSegment>>

    ghost predicate Valid()
      reads this
    {
      && WellFormed(live)
      && (forall id | id in live :: id < nextID)
      && (forall date | date in groups :: GroupInOrder(groups[date]))
    }

    // ----- The school's side -----------------------------------------------------------------------------------------

    /** Times that do not parse are refused before any request is made; otherwise a failure may still have booked. */
    method ReserveSeat(seatID: string, date: string, start: string, end: string, reply: Reply)
      returns (ok: bool, ghost r: Record)
      requires Valid()
      modifies this`live, this`nextID
      ensures Valid() && nextID >= old(nextID) && r.id == old(nextID)
      ensures ok <==> Requestable(start, end) && reply.Confirmed?
      ensures live == if Requestable(start, end) && !reply.FailedBefore? then old(live)[r.id := r] else old(live)
      ensures Requestable(start, end) ==>
                r.seatID == seatID && r.date == date &&
                r.begin == ParseMinute(start).value && r.end == ParseMinute(end).value
    {
      ok := false;
      var begin, finish := ParseMinute(start), ParseMinute(end);
      r := Record(nextID, "", "", "", "", 0, 0);
      if begin.None? || finish.None? || finish.value <= begin.value {
        return;
      }
      ParseMinuteInRange(start);
      ParseMinuteInRange(end);
      var room: string, seatLabel: string := *, *;
      var booking := Record(nextID, room, seatID, seatLabel, date, begin.value, finish.value);
      r := booking;
      if !reply.FailedBefore? {
        live := live[nextID := booking];
        nextID := nextID + 1;
      }
      ok := reply.Confirmed?;
    }

    method CancelReserve(id: nat, reply: Reply) returns (ok: bool)
      requires Valid()
      modifies this`live
      ensures Valid()
      ensures live == if reply.FailedBefore? then old(live) else old(live) - {id}
      ensures ok <==> reply.Confirmed?
    {
      if !reply.FailedBefore? {
        live := live - {id};
      }
      ok := reply.Confirmed?;
    }

    method SaveGroup(date: string, segments: seq<Segment>, saves: bool)
      requires Valid() && Bookable(segments) && StrictlyByStart(segments)
      modifies this`groups
      ensures Valid() && ReadStored(Stored(segments)) == Some(segments)
      ensures groups == if saves then old(groups)[date := Stored(segments)] else old(groups)
    {
      hide ParseMinute, FormatMinute, StrictlyByStart, ReadStored, Stored, WellFormed;
      StoredReadsBack(segments);
      if saves {
        groups := groups[date := Stored(segments)];
      }
    }

    // ----- Rolling back ----------------------------------------------------------------------------------------------

    /** Cancels every listed booking of the given segments and returns what could not be confirmed. */
    method Rollback(date: string, segments: seq<Segment>, school: School)
      returns (residue: seq<Segment>, failed: bool, ghost matched: seq<Record>)
      requires Valid() && forall s | s in segments :: InDay(s)
      modifies this`live
      ensures Valid() && Within(live, old(live)) && Bookable(residue)
      ensures StrictlyByStart(segments) ==> StrictlyByStart(residue)
      ensures segments == [] ==> !failed
      ensures segments != [] && school.listing(old(live)).Some? ==>
                && MatchedIn(school.listing(old(live)).value, date, segments, matched)
                && Effects(old(live), live, matched, school.cancel)
                && residue == ResidueOf(matched, school.cancel) && (failed <==> residue != [])
                && NamesInOrder(residue, matched, school.cancel, date)
      ensures segments != [] && school.listing(old(live)).None? ==> failed && residue == [] && live == old(live)
      ensures residue != [] ==> failed
      ensures Lists(school, old(live), date) ==>
                RolledBack(old(live), live, segments, date, residue, failed, school.cancel)
    {
      hide InDay, WellFormed, Exact, RolledBack, ResidueOf, Effects, Outside, ParseMinute, FormatMinute,
           StrictlyByStart, NamesInOrder;
      residue, failed, matched := [], false, [];
      EmptyAscends();
      if segments == [] {
        NothingToRollBack(live, date, school.cancel);
        return;
      }
      failed := true;
      var listed := school.listing(live);
      if listed.None? {
        return;
      }
      var records := listed.value;
      failed := false;
      var found, missing, positions, served := MatchRecords(records, date, segments);
      assert Matching(records, date, segments, found, positions);
      matched := found;
      ghost var before := live;
      NoEffects(live, school.cancel);
      for i := 0 to |found|
        invariant Valid() && Effects(before, live, found[..i], school.cancel)
        invariant residue == ResidueOf(found[..i], school.cancel) && (failed <==> residue != [])
      {
        ghost var next := if school.cancel(found[i].id).FailedBefore? then live else live - {found[i].id};
        OneMoreEffect(before, live, next, found[..i], found[i], school.cancel);
        OneMoreResidue(found[..i], found[i], school.cancel);
        assert found[..i + 1] == found[..i] + [found[i]];
        var cancelled := CancelReserve(found[i].id, school.cancel(found[i].id));
        if !cancelled {
          failed := true;
          residue := residue + [SegmentOf(found[i])];
        }
      }
      assert found[..|found|] == found;
      EffectsAreWithin(before, live, found, school.cancel);
      MatchedOnDate(records, date, segments, found, positions);
      ResidueNames(found, school.cancel, date);
      if StrictlyByStart(segments) {
        ResidueAscends(found, served, date, school.cancel);
      }
      if Exact(records, before, date) {
        RollbackIsExact(before, live, records, date, segments, found, positions, residue, school.cancel);
      }
    }

    // ----- Booking a plan --------------------------------------------------------------------------------------------

    method IntervalsCover(intervals: seq<P.Interval>, start: int, end: int) returns (covered: bool)
      ensures covered <==> exists iv | iv in intervals :: iv.start <= start && end <= iv.end
    {
      for i := 0 to |intervals|
        invariant forall iv | iv in intervals[..i] :: !(iv.start <= start && end <= iv.end)
      {
        if intervals[i].start <= start && intervals[i].end >= end {
          return true;
        }
      }
      covered := false;
    }

    /** Asks for one timeline per segment and stops at the first that is not free. */
    method VerifyFree(chain: seq<Segment>, school: School) returns (free: bool)
      ensures free <==> forall i | 0 <= i < |chain| :: IsFree(school, chain, i)
    {
      for i := 0 to |chain|
        invariant forall j | 0 <= j < i :: IsFree(school, chain, j)
      {
        var intervals := school.timeline(i, chain[i].seatID);
        if intervals.None? {
          assert !IsFree(school, chain, i);
          return false;
        }
        var covered := IntervalsCover(intervals.value, chain[i].start, chain[i].end);
        if !covered {
          assert !IsFree(school, chain, i);
          return false;
        }
      }
      free := true;
    }

    /**
     All segments or none. Nothing is requested before every segment was found free. A failing request may have booked
     its segment, so the rollback covers it as well; `peak` are the bookings when the rollback begins.
     */
    method Reserve(date: string, validDate: bool, items: seq<Option<TextSegment>>, school: School, saves: bool)
      returns (outcome: ReserveOutcome, ghost segments: seq<Segment>, ghost ids: seq<nat>, ghost residue: seq<Segment>,
               ghost peak: Bookings)
      requires Valid()
      modifies this
      ensures Valid()
      ensures outcome.Rejected? <==> date == "" || !validDate || Normalized(items).None?
      ensures !outcome.Rejected? ==> Normalized(items) == Some(segments)
      ensures outcome.Unavailable? <==>
                !outcome.Rejected? &&
                !(school.authorised && forall i | 0 <= i < |segments| :: IsFree(school, segments, i))
      ensures outcome.Booked? <==>
                !outcome.Rejected? && !outcome.Unavailable? &&
                forall i | 0 <= i < |segments| :: Succeeds(school, segments, i)
      ensures outcome.Rejected? || outcome.Unavailable? ==> live == old(live) && groups == old(groups)
      ensures outcome.Booked? ==>
                && |ids| == |segments| && Grown(old(live), live, segments, date, ids) && Bookable(segments)
                && groups == if saves then old(groups)[date := Stored(segments)] else old(groups)
      ensures outcome.Failed? || outcome.FailedDirty? ==>
                && FailedFirstAt(school, segments, outcome.at) && Within(live, peak)
                && Grown(old(live), peak, segments, date, ids) && |ids| == Taken(school, segments, outcome.at)
                && (school.listing(peak).None? ==> outcome.FailedDirty? && residue == [] && live == peak)
                && (Lists(school, peak, date) ==>
                    RolledBack(peak, live, segments[..outcome.at], date, residue, outcome.FailedDirty?, school.cancel))
      ensures outcome.Failed? ==> groups == old(groups)
      ensures outcome.FailedDirty? ==>
                && Bookable(residue)
                && groups == if saves && residue != [] then old(groups)[date := Stored(residue)] else old(groups)
      ensures Truthful(school, date) && NoneWanted(old(live), segments, date) ==>
                && (outcome.Failed? ==> live == old(live))
                && (outcome.FailedDirty? ==> Kept(old(live), live) && Accounted(live, segments, date, residue, true))
                && ((forall id :: school.cancel(id).Confirmed?) ==> !outcome.FailedDirty?)
    {
      hide WellFormed, Accounted, Bookable, ParseMinute, FormatMinute, Grown, NoneWanted, Normalized, IsChain, IsFree,
           Truthful;
      hide StrictlyByStart, Kept, ReadStored, Stored, Succeeds, Lists, RolledBack;
      segments, ids, residue, peak := [], [], [], live;
      if date == "" || !validDate {
        outcome := Rejected;
        return;
      }
      var normalized := Normalize(items);
      if normalized.None? {
        outcome := Rejected;
        return;
      }
      var chain := normalized.value;
      segments := chain;
      ChainIsInDay(items);
      outcome := Unavailable;
      if !school.authorised {
        return;
      }
      var free := VerifyFree(chain, school);
      if !free {
        return;
      }
      NothingGrown(live, chain, date);
      for i := 0 to |chain|
        invariant Valid() && groups == old(groups)
        invariant |ids| == i && Grown(old(live), live, chain, date, ids) && Bookable(chain[..i])
        invariant forall j | 0 <= j < i :: Succeeds(school, chain, j)
      {
        var ok, grown := ReserveSegment(chain, i, date, school, old(live), ids);
        ids := grown;
        if !ok {
          peak := live;
          var left, failed := RollbackTo(date, chain, i, old(live), ids, school);
          residue := left;
          if left != [] {
            SaveGroup(date, left, saves);
          }
          outcome := if failed then FailedDirty(i + 1) else Failed(i + 1);
          return;
        }
      }
      assert chain[..|chain|] == chain;
      SaveGroup(date, chain, saves);
      outcome := Booked;
    }

    /** One request of the loop; `ids` are the bookings it has made so far. */
    method ReserveSegment(chain: seq<Segment>, i: nat, date: string, school: School, ghost base: Bookings,
        ghost ids: seq<nat>)
      returns (ok: bool, ghost grown: seq<nat>)
      requires Valid() && i < |chain| && InDay(chain[i]) && chain[i].start < chain[i].end
      requires |ids| == i && Grown(base, live, chain, date, ids) && Bookable(chain[..i])
      modifies this`live, this`nextID
      ensures Valid() && Grown(base, live, chain, date, grown) && |grown| == Taken(school, chain, i + 1)
      ensures ok <==> Succeeds(school, chain, i)
      ensures ok ==> |grown| == i + 1 && Bookable(chain[..i + 1])
    {
      hide WellFormed, Grown, Bookable, ParseMinute, FormatMinute;
      ghost var before := live;
      var start, end := FormatMinute(chain[i].start), FormatMinute(chain[i].end);
      ParseOfFormat(chain[i].start);
      ParseOfFormat(chain[i].end);
      var done, r := ReserveSeat(chain[i].seatID, date, start, end, school.request(i));
      ok, grown := done, ids;
      if Requestable(start, end) && !school.request(i).FailedBefore? {
        BookedIsWanted(r, chain[i], date);
        GrowsByOne(base, before, live, chain, date, ids, r);
        BookableByOne(chain, i);
        grown := ids + [r.id];
      }
    }

    /** The rollback of segments 0 to `at`, seen from before the first request. */
    method RollbackTo(date: string, segments: seq<Segment>, at: nat, ghost base: Bookings, ghost ids: seq<nat>,
        school: School)
      returns (residue: seq<Segment>, failed: bool)
      requires Valid() && forall s | s in segments :: InDay(s)
      requires StrictlyByStart(segments)
      requires at < |segments| && |ids| <= at + 1 && Grown(base, live, segments, date, ids)
      modifies this`live
      ensures Valid() && Bookable(residue) && StrictlyByStart(residue) && (residue != [] ==> failed)
      ensures Within(live, old(live))
      ensures school.listing(old(live)).None? ==> failed && residue == [] && live == old(live)
      ensures Lists(school, old(live), date) ==>
                RolledBack(old(live), live, segments[..at + 1], date, residue, failed, school.cancel)
      ensures Truthful(school, date) && NoneWanted(base, segments, date) ==>
                && Kept(base, live)
                && Accounted(live, segments, date, residue, failed)
                && (!failed ==> live == base)
                && ((forall id :: school.cancel(id).Confirmed?) ==> !failed)
    {
      hide InDay, WellFormed, OnePerKey, Accounted, Bookable, ParseMinute, FormatMinute, Grown, NoneWanted, RolledBack,
           Lists;
      ghost var mid := live;
      PrefixAscends(segments, at + 1);
      ghost var matched;
      residue, failed, matched := Rollback(date, segments[..at + 1], school);
      if Truthful(school, date) && NoneWanted(base, segments, date) {
        assert Lists(school, mid, date);
        GrownIsOnePerKey(base, mid, segments, date, ids);
        FewerSegments(mid, segments, date, at + 1);
        RollbackAccounts(mid, live, segments[..at + 1], date, residue, failed, school.cancel);
        RollbackIsClean(mid, live, segments[..at + 1], date, residue, failed, school.cancel);
        BackToBase(base, mid, live, segments, date, ids, at + 1, residue, failed);
      }
    }

    // ----- Cancelling a group ----------------------------------------------------------------------------------------

    /** Goes on after a failure, and counts the confirmed cancellations. */
    method CancelAll(records: seq<Record>, school: School) returns (count: nat, failed: bool)
      requires Valid()
      modifies this`live
      ensures Valid() && Effects(old(live), live, records, school.cancel)
      ensures failed <==> exists j | 0 <= j < |records| :: !school.cancel(records[j].id).Confirmed?
      ensures count == |records| - |ResidueOf(records, school.cancel)|
    {
      hide WellFormed, Effects, ResidueOf;
      count, failed := 0, false;
      NoEffects(live, school.cancel);
      for i := 0 to |records|
        invariant Valid() && Effects(old(live), live, records[..i], school.cancel)
        invariant failed <==> exists j | 0 <= j < i :: !school.cancel(records[j].id).Confirmed?
        invariant count == i - |ResidueOf(records[..i], school.cancel)|
      {
        ghost var next := if school.cancel(records[i].id).FailedBefore? then live else live - {records[i].id};
        OneMoreEffect(old(live), live, next, records[..i], records[i], school.cancel);
        OneMoreResidue(records[..i], records[i], school.cancel);
        assert records[..i + 1] == records[..i] + [records[i]];
        var ok := CancelReserve(records[i].id, school.cancel(records[i].id));
        if ok {
          count := count + 1;
        } else {
          failed := true;
        }
      }
      assert records[..|records|] == records;
    }

    /** Matches, and cancels only if nothing is missing. */
    method CancelListed(date: string, segments: seq<Segment>, records: seq<Option<Record>>, school: School)
      returns (outcome: CancelOutcome, ghost matched: seq<Record>)
      requires Valid() && StrictlyByStart(segments) && forall s | s in segments :: InDay(s)
      modifies this`live
      ensures Valid() && Within(live, old(live))
      ensures outcome.Missing? || outcome.PartlyCancelled? || outcome.Cancelled?
      ensures outcome.Missing? ==> live == old(live)
      ensures forall r | r in matched :: Some(r) in records
      ensures !outcome.Missing? ==>
                && multiset(RecordKeys(matched)) == multiset(SegmentKeys(segments, date))
                && Effects(old(live), live, matched, school.cancel)
                && outcome.count == |segments| - |ResidueOf(matched, school.cancel)|
                && (outcome.Cancelled? <==> forall j | 0 <= j < |matched| :: school.cancel(matched[j].id).Confirmed?)
      ensures Exact(records, old(live), date) ==> CancelSpec(old(live), live, date, segments, outcome, school.cancel)
    {
      hide InDay, WellFormed, Exact, CancelSpec, Effects, ResidueOf, Outside, StrictlyByStart, ParseMinute,
           FormatMinute;
      ghost var before := live;
      var found, missing, positions, served := MatchRecords(records, date, segments);
      matched := found;
      if missing != [] {
        outcome := Missing;
      } else {
        EverySegmentMatched(records, date, segments, matched, served);
        var count, failed := CancelAll(found, school);
        EffectsAreWithin(before, live, matched, school.cancel);
        ResidueIsShorter(matched, school.cancel);
        outcome := if failed then PartlyCancelled(count) else Cancelled(count);
      }
      if Exact(records, before, date) {
        CancelKeepsSpec(before, live, records, date, segments, matched, missing, positions, outcome, school.cancel);
      }
    }

    /**
     Cancels every booking of the stored group and then forgets the group. One segment without a record stops everything
     before the first cancellation. `matched` are the listed records that were cancelled.
     */
    method Cancel(date: string, validDate: bool, loads: bool, deletes: bool, school: School)
      returns (outcome: CancelOutcome, ghost segments: seq<Segment>, ghost matched: seq<Record>)
      requires Valid()
      modifies this`live, this`groups
      ensures Valid() && Within(live, old(live))
      ensures outcome.NoGroup? <==> date == "" || !validDate || !loads || date !in old(groups)
      ensures outcome.NotListed? <==> !outcome.NoGroup? && (!school.authorised || school.listing(old(live)).None?)
      ensures outcome.Unreadable? <==> !outcome.NoGroup? && !outcome.NotListed? && ReadStored(old(groups)[date]).None?
      ensures groups == if outcome.Cancelled? && deletes then old(groups) - {date} else old(groups)
      ensures !outcome.Cancelled? && !outcome.PartlyCancelled? ==> live == old(live)
      ensures outcome.Missing? || outcome.PartlyCancelled? || outcome.Cancelled? ==>
                && ReadStored(old(groups)[date]) == Some(segments)
                && (Lists(school, old(live), date) ==>
                    CancelSpec(old(live), live, date, segments, outcome, school.cancel))
      ensures outcome.PartlyCancelled? || outcome.Cancelled? ==>
                && (forall r | r in matched :: Some(r) in school.listing(old(live)).value)
                && multiset(RecordKeys(matched)) == multiset(SegmentKeys(segments, date))
                && Effects(old(live), live, matched, school.cancel)
                && outcome.count == |segments| - |ResidueOf(matched, school.cancel)|
                && (outcome.Cancelled? <==> forall j | 0 <= j < |matched| :: school.cancel(matched[j].id).Confirmed?)
    {
      hide InDay, WellFormed, Exact, CancelSpec, Effects, ResidueOf, StrictlyByStart, ParseMinute, FormatMinute,
           ReadStored;
      segments, matched := [], [];
      outcome := NoGroup;
      if date == "" || !validDate || !loads || date !in groups {
        return;
      }
      var stored := groups[date];
      outcome := NotListed;
      if !school.authorised {
        return;
      }
      var listed := school.listing(live);
      if listed.None? {
        return;
      }
      var read := ReadStored(stored);
      if read.None? {
        outcome := Unreadable;
        return;
      }
      segments := read.value;
      ReadStoredInDay(stored);
      assert GroupInOrder(stored);
      outcome, matched := CancelListed(date, read.value, listed.value, school);
      if outcome.Cancelled? && deletes {
        groups := groups - {date};
      }
    }
  }
}
