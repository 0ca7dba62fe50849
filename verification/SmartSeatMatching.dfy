/** Bags of keys that are used up position by position. */
module KeyBags {
  import opened Outcomes

  /** The keys at positions outside `used`; a missing entry has none. */
  ghost function Outside<K>(keys: seq<Option<K>>, used: set<nat>): multiset<K> {
    if keys == [] then multiset{}
    else
      var n := |keys| - 1;
      Outside(keys[..n], used) + if keys[n].Some? && n !in used then multiset{keys[n].value} else multiset{}
  }

  lemma {:induction false} OutsideHasPosition<K>(keys: seq<Option<K>>, used: set<nat>, k: K)
    ensures k in Outside(keys, used) <==> exists i :: 0 <= i < |keys| && i !in used && keys[i] == Some(k)
  {
    if keys != [] {
      var n := |keys| - 1;
      OutsideHasPosition(keys[..n], used, k);
      if i :| 0 <= i < |keys| && i !in used && keys[i] == Some(k) {
        assert i < n ==> keys[..n][i] == keys[i];
      }
    }
  }

  lemma {:induction false} UseOne<K>(keys: seq<Option<K>>, used: set<nat>, i: nat)
    requires i < |keys| && i !in used && keys[i].Some?
    ensures Outside(keys, used) == Outside(keys, used + {i}) + multiset{keys[i].value}
  {
    var n := |keys| - 1;
    var front := keys[..n];
    if i < n {
      UseOne(front, used, i);
      assert n in used <==> n in used + {i};
    } else {
      LaterPosition(front, used, i);
    }
  }

  lemma {:induction false} LaterPosition<K>(keys: seq<Option<K>>, used: set<nat>, i: nat)
    requires i >= |keys|
    ensures Outside(keys, used) == Outside(keys, used + {i})
  {
    if keys != [] {
      LaterPosition(keys[..|keys| - 1], used, i);
    }
  }

  /** Serving what can be served and never passing over a free key ends in the intersection and the difference. */
  lemma {:induction false} ServedIsIntersection<K>(have: multiset<K>, want: multiset<K>, taken: multiset<K>,
      unserved: multiset<K>, left: multiset<K>)
    requires have == taken + left && want == taken + unserved
    requires forall k | k in unserved :: k !in left
    ensures taken == have * want && unserved == want - have
  {
  }
}

/** Matching reservation records to the segments of a plan, by seat, date and clock times. */
module SmartSeatMatching {
  import opened Outcomes
  import opened Minutes
  import opened SmartSeatSegments
  import opened KeyBags

  /** A reservation as the school reports it; the minutes count from midnight of its date. */
  datatype Record = Record(id: nat, roomID: string, seatID: string, seatLabel: string, date: string, begin: nat,
      end: nat)
  {
    predicate WellFormed() {
      begin < end <= DAY
    }
  }

  datatype Key = Key(seatID: string, date: string, begin: int, end: int)

  /** A record's times are clock times, so an end at minute 1440 reads as minute 0. */
  function RecordKey(r: Record): Key {
    Key(r.seatID, r.date, r.begin % DAY, r.end % DAY)
  }

  predicate InDay(s: Segment) {
    0 <= s.start <= DAY && 0 <= s.end <= DAY
  }

  function SegmentKey(s: Segment, date: string): Key {
    Key(s.seatID, date, s.start, s.end)
  }

  /** The comparison the code makes, on printed times. */
  predicate SameText(r: Record, s: Segment, date: string)
    requires InDay(s)
  {
    && r.seatID == s.seatID && r.date == date
    && FormatMinute(r.begin % DAY) == FormatMinute(s.start)
    && FormatMinute(r.end % DAY) == FormatMinute(s.end)
  }

  lemma {:induction false} SameTextIsSameKey(r: Record, s: Segment, date: string)
    requires InDay(s)
    ensures SameText(r, s, date) <==> RecordKey(r) == SegmentKey(s, date)
  {
    if SameText(r, s, date) {
      FormatInjective(r.begin % DAY, s.start);
      FormatInjective(r.end % DAY, s.end);
    }
  }

  ghost function RecordKeys(records: seq<Record>): (keys: seq<Key>)
    ensures |keys| == |records| && forall i | 0 <= i < |records| :: keys[i] == RecordKey(records[i])
  {
    seq(|records|, i requires 0 <= i < |records| => RecordKey(records[i]))
  }

  /** What a listing offers, nil entries included. */
  ghost function ListedKeys(records: seq<Option<Record>>): (keys: seq<Option<Key>>)
    ensures |keys| == |records|
    ensures forall i | 0 <= i < |records| ::
              keys[i] == if records[i].Some? then Some(RecordKey(records[i].value)) else None
  {
    seq(|records|, i requires 0 <= i < |records| =>
      if records[i].Some? then Some(RecordKey(records[i].value)) else None)
  }

  ghost function SegmentKeys(segments: seq<Segment>, date: string): (keys: seq<Key>)
    ensures |keys| == |segments| && forall i | 0 <= i < |segments| :: keys[i] == SegmentKey(segments[i], date)
  {
    seq(|segments|, i requires 0 <= i < |segments| => SegmentKey(segments[i], date))
  }

  /** The first unused record that agrees with a segment. */
  method FindUnused(records: seq<Option<Record>>, used: set<nat>, s: Segment, date: string) returns (i: nat,
      found: bool)
    requires InDay(s)
    ensures found ==>
              i < |records| && i !in used && records[i].Some? && RecordKey(records[i].value) == SegmentKey(s, date)
    ensures !found ==> SegmentKey(s, date) !in Outside(ListedKeys(records), used)
  {
    i, found := 0, false;
    while i < |records|
      invariant i <= |records|
      invariant forall j | 0 <= j < i && j !in used :: ListedKeys(records)[j] != Some(SegmentKey(s, date))
    {
      if records[i].Some? && i !in used {
        SameTextIsSameKey(records[i].value, s, date);
        if SameText(records[i].value, s, date) {
          found := true;
          return;
        }
      }
      i := i + 1;
    }
    OutsideHasPosition(ListedKeys(records), used, SegmentKey(s, date));
  }

  /** Keys taken, keys left in the listing and keys unserved always add up, and nothing servable was passed over. */
  ghost predicate KeysAddUp(records: seq<Option<Record>>, date: string, done: seq<Segment>, used: set<nat>,
      matched: seq<Record>, missing: seq<Segment>)
  {
    && Outside(ListedKeys(records), {}) == multiset(RecordKeys(matched)) + Outside(ListedKeys(records), used)
    && multiset(SegmentKeys(done, date)) == multiset(RecordKeys(matched)) + multiset(SegmentKeys(missing, date))
    && forall k | k in SegmentKeys(missing, date) :: k !in Outside(ListedKeys(records), used)
  }

  /** Who got which record. */
  ghost predicate Assignment(records: seq<Option<Record>>, date: string, done: seq<Segment>, used: set<nat>,
      matched: seq<Record>, missing: seq<Segment>, positions: seq<nat>, served: seq<Segment>)
  {
    && |positions| == |matched| == |served|
    && (forall i | 0 <= i < |matched| ::
        positions[i] < |records| && positions[i] in used && records[positions[i]] == Some(matched[i]))
    && (forall i, j | 0 <= i < j < |positions| :: positions[i] != positions[j])
    && (forall i | 0 <= i < |matched| :: RecordKey(matched[i]) == SegmentKey(served[i], date))
    && multiset(done) == multiset(served) + multiset(missing)
  }

  /** Served in the order in which they were asked. */
  ghost predicate InOrder(done: seq<Segment>, served: seq<Segment>) {
    (forall i | 0 <= i < |served| :: served[i] in done) && (StrictlyByStart(done) ==> StrictlyByStart(served))
  }

  lemma {:induction false} StaysInOrder(done: seq<Segment>, served: seq<Segment>, s: Segment)
    requires InOrder(done, served)
    ensures InOrder(done + [s], served) && InOrder(done + [s], served + [s])
  {
    if StrictlyByStart(done + [s]) {
      assert StrictlyByStart(done) by {
        assert forall i | 0 <= i < |done| :: (done + [s])[i] == done[i];
      }
      forall i | 0 <= i < |served| ensures served[i].start < s.start {
        var k :| 0 <= k < |done| && done[k] == served[i];
        assert (done + [s])[k].start < (done + [s])[|done|].start;
      }
    }
  }

  lemma {:induction false} TakeKey(records: seq<Option<Record>>, date: string, done: seq<Segment>, used: set<nat>,
      matched: seq<Record>, missing: seq<Segment>, s: Segment, at: nat)
    requires KeysAddUp(records, date, done, used, matched, missing)
    requires at < |records| && at !in used && records[at].Some? && RecordKey(records[at].value) == SegmentKey(s, date)
    ensures KeysAddUp(records, date, done + [s], used + {at}, matched + [records[at].value], missing)
  {
    UseOne(ListedKeys(records), used, at);
    assert SegmentKeys(done + [s], date) == SegmentKeys(done, date) + [SegmentKey(s, date)];
    assert RecordKeys(matched + [records[at].value]) == RecordKeys(matched) + [SegmentKey(s, date)];
  }

  lemma {:induction false} MissKey(records: seq<Option<Record>>, date: string, done: seq<Segment>, used: set<nat>,
      matched: seq<Record>, missing: seq<Segment>, s: Segment)
    requires KeysAddUp(records, date, done, used, matched, missing)
    requires SegmentKey(s, date) !in Outside(ListedKeys(records), used)
    ensures KeysAddUp(records, date, done + [s], used, matched, missing + [s])
  {
    assert SegmentKeys(done + [s], date) == SegmentKeys(done, date) + [SegmentKey(s, date)];
    assert SegmentKeys(missing + [s], date) == SegmentKeys(missing, date) + [SegmentKey(s, date)];
  }

  lemma {:induction false} Assign(records: seq<Option<Record>>, date: string, done: seq<Segment>, used: set<nat>,
      matched: seq<Record>, missing: seq<Segment>, positions: seq<nat>, served: seq<Segment>, s: Segment, at: nat)
    requires Assignment(records, date, done, used, matched, missing, positions, served)
    requires at < |records| && at !in used && records[at].Some? && RecordKey(records[at].value) == SegmentKey(s, date)
    ensures Assignment(records, date, done + [s], used + {at}, matched + [records[at].value], missing, positions + [at],
        served + [s])
  {
  }

  lemma {:induction false} LeaveOut(records: seq<Option<Record>>, date: string, done: seq<Segment>, used: set<nat>,
      matched: seq<Record>, missing: seq<Segment>, positions: seq<nat>, served: seq<Segment>, s: Segment)
    requires Assignment(records, date, done, used, matched, missing, positions, served)
    ensures Assignment(records, date, done + [s], used, matched, missing + [s], positions, served)
  {
  }

  /**
   Each segment takes the first record of its key that is still free. The outcome is a maximum matching: the matched
   keys are the multiset intersection of what was listed and what was asked for, no position is used twice, and every
   segment is either matched or missing.
   */
  method MatchRecords(records: seq<Option<Record>>, date: string, segments: seq<Segment>)
    returns (matched: seq<Record>, missing: seq<Segment>, ghost positions: seq<nat>, ghost served: seq<Segment>)
    requires forall s | s in segments :: InDay(s)
    ensures forall s | s in missing + served :: s in segments
    ensures multiset(RecordKeys(matched)) == Outside(ListedKeys(records), {}) * multiset(SegmentKeys(segments, date))
    ensures multiset(SegmentKeys(missing, date)) ==
        multiset(SegmentKeys(segments, date)) - Outside(ListedKeys(records), {})
    ensures |positions| == |matched| == |served|
    ensures forall i | 0 <= i < |matched| :: positions[i] < |records| && records[positions[i]] == Some(matched[i])
    ensures forall i, j | 0 <= i < j < |positions| :: positions[i] != positions[j]
    ensures forall i | 0 <= i < |matched| :: RecordKey(matched[i]) == SegmentKey(served[i], date)
    ensures multiset(segments) == multiset(served) + multiset(missing)
    ensures StrictlyByStart(segments) ==> StrictlyByStart(served)
  {
    hide KeysAddUp, Assignment, InDay, StrictlyByStart;
    matched, missing, positions, served := [], [], [], [];
    var used: set<nat> := {};
    StartsEmpty(records, date);
    for i := 0 to |segments|
      invariant forall s | s in missing + served :: s in segments
      invariant KeysAddUp(records, date, segments[..i], used, matched, missing)
      invariant Assignment(records, date, segments[..i], used, matched, missing, positions, served)
      invariant InOrder(segments[..i], served)
    {
      var s := segments[i];
      assert segments[..i + 1] == segments[..i] + [s];
      StaysInOrder(segments[..i], served, s);
      var at, found := FindUnused(records, used, s, date);
      if found {
        TakeKey(records, date, segments[..i], used, matched, missing, s, at);
        Assign(records, date, segments[..i], used, matched, missing, positions, served, s, at);
        used := used + {at};
        matched := matched + [records[at].value];
        positions, served := positions + [at], served + [s];
      } else {
        MissKey(records, date, segments[..i], used, matched, missing, s);
        LeaveOut(records, date, segments[..i], used, matched, missing, positions, served, s);
        missing := missing + [s];
      }
    }
    assert segments[..|segments|] == segments;
    MatchingIsMaximum(records, date, segments, used, matched, missing);
    AssignmentIsSound(records, date, segments, used, matched, missing, positions, served);
  }

  lemma {:induction false} StartsEmpty(records: seq<Option<Record>>, date: string)
    ensures KeysAddUp(records, date, [], {}, [], [])
    ensures Assignment(records, date, [], {}, [], [], [], [])
  {
  }

  lemma {:induction false} MatchingIsMaximum(records: seq<Option<Record>>, date: string, segments: seq<Segment>,
      used: set<nat>, matched: seq<Record>, missing: seq<Segment>)
    requires KeysAddUp(records, date, segments, used, matched, missing)
    ensures multiset(RecordKeys(matched)) == Outside(ListedKeys(records), {}) * multiset(SegmentKeys(segments, date))
    ensures multiset(SegmentKeys(missing, date)) ==
        multiset(SegmentKeys(segments, date)) - Outside(ListedKeys(records), {})
  {
    ServedIsIntersection(Outside(ListedKeys(records), {}), multiset(SegmentKeys(segments, date)),
        multiset(RecordKeys(matched)),
                         multiset(SegmentKeys(missing, date)), Outside(ListedKeys(records), used));
  }

  lemma {:induction false} AssignmentIsSound(records: seq<Option<Record>>, date: string, segments: seq<Segment>,
      used: set<nat>, matched: seq<Record>, missing: seq<Segment>, positions: seq<nat>, served: seq<Segment>)
    requires Assignment(records, date, segments, used, matched, missing, positions, served)
    ensures |positions| == |matched| == |served|
    ensures forall i | 0 <= i < |matched| :: positions[i] < |records| && records[positions[i]] == Some(matched[i])
    ensures forall i, j | 0 <= i < j < |positions| :: positions[i] != positions[j]
    ensures forall i | 0 <= i < |matched| :: RecordKey(matched[i]) == SegmentKey(served[i], date)
    ensures multiset(segments) == multiset(served) + multiset(missing)
  {
  }
}
