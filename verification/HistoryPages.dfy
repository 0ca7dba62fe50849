/**
 Reading a student's reservation history page by page, newest first, down to a known reservation or to the look-back
 date.
 */
module HistoryPages {
  import opened Decimal
  import opened Minutes
  import opened TextOrdering

  /** `sound` stands for the field checks every row of a page must pass. */
  datatype Row = Row(id: string, date: string, sound: bool)

  datatype Outcome = Failed | Page(rows: seq<Row>, complete: bool)

  /** Where a read ends: the watermark, if there is one, or the first row before the cut-off date. */
  predicate Stops(row: Row, watermark: string, cutoff: string) {
    (watermark != "" && row.id == watermark) || TextLess(row.date, cutoff)
  }

  /** What a read is for: every row down to the first stopping one. */
  function TakeUntil(history: seq<Row>, watermark: string, cutoff: string): seq<Row> {
    if history == [] || Stops(history[0], watermark, cutoff) then []
    else [history[0]] + TakeUntil(history[1..], watermark, cutoff)
  }

  ghost predicate NoStop(rows: seq<Row>, watermark: string, cutoff: string) {
    forall i | 0 <= i < |rows| :: !Stops(rows[i], watermark, cutoff)
  }

  lemma {:induction false} TakeUntilIs(history: seq<Row>, watermark: string, cutoff: string, k: nat)
    requires k <= |history| && NoStop(history[..k], watermark, cutoff)
    ensures history[..k] <= TakeUntil(history, watermark, cutoff)
    ensures k == |history| || Stops(history[k], watermark, cutoff) ==>
              TakeUntil(history, watermark, cutoff) == history[..k]
  {
    hide Stops;
    if k > 0 {
      assert !Stops(history[..k][0], watermark, cutoff);
      assert history[..k][1..] == history[1..][..k - 1];
      TakeUntilIs(history[1..], watermark, cutoff, k - 1);
    }
  }

  // What a read is for, said in terms of calendar dates.

  datatype Date = Date(year: nat, month: nat, day: nat)
  {
    predicate Proper() {
      year < 10000 && 1 <= month <= 12 && 1 <= day <= 31
    }

    /** `2006-01-02` */
    function Text(): string {
      Pad2(year / 100) + Pad2(year % 100) + "-" + Pad2(month) + "-" + Pad2(day)
    }
  }

  predicate Before(a: Date, b: Date) {
    a.year < b.year || (a.year == b.year && (a.month < b.month || (a.month == b.month && a.day < b.day)))
  }

  lemma {:induction false} FieldOrder(a: nat, b: nat, x: string, y: string)
    requires a < 100 && b < 100
    ensures TextLess(Pad2(a) + x, Pad2(b) + y) <==> a < b || (a == b && TextLess(x, y))
  {
    hide Pad2, Value;
    Pad2Value(a);
    Pad2Value(b);
    SameWidthOrder(Pad2(a), Pad2(b));
    PartByPart(Pad2(a), Pad2(b), x, y);
  }

  /** Dates as text are ordered like the dates. */
  lemma {:induction false} DateOrder(a: Date, b: Date)
    requires a.Proper() && b.Proper()
    ensures TextLess(a.Text(), b.Text()) <==> Before(a, b)
  {
    hide Pad2;
    var aDay, bDay := Pad2(a.day), Pad2(b.day);
    var aMonth, bMonth := Pad2(a.month) + ("-" + aDay), Pad2(b.month) + ("-" + bDay);
    assert aDay + "" == aDay && bDay + "" == bDay;
    FieldOrder(a.day, b.day, "", "");
    PartByPart("-", "-", aDay, bDay);
    FieldOrder(a.month, b.month, "-" + aDay, "-" + bDay);
    PartByPart("-", "-", aMonth, bMonth);
    FieldOrder(a.year % 100, b.year % 100, "-" + aMonth, "-" + bMonth);
    FieldOrder(a.year / 100, b.year / 100, Pad2(a.year % 100) + ("-" + aMonth), Pad2(b.year % 100) + ("-" + bMonth));
    assert a.Text() == Pad2(a.year / 100) + (Pad2(a.year % 100) + ("-" + aMonth));
    assert b.Text() == Pad2(b.year / 100) + (Pad2(b.year % 100) + ("-" + bMonth));
  }

  /** Kept are the rows from the cut-off date on, down to the watermark or to the first earlier row. */
  lemma {:induction false} KeptIsRecent(history: seq<Row>, dates: seq<Date>, watermark: string, cutoff: Date)
    requires cutoff.Proper() && |dates| == |history|
    requires forall i | 0 <= i < |history| :: dates[i].Proper() && history[i].date == dates[i].Text()
    ensures var kept := TakeUntil(history, watermark, cutoff.Text());
            var n := |kept|;
            && kept <= history
            && (forall i | 0 <= i < n :: !Before(dates[i], cutoff) && (watermark == "" || history[i].id != watermark))
            && (n < |history| ==> Before(dates[n], cutoff) || (watermark != "" && history[n].id == watermark))
  {
    hide Stops, Before, Date.Proper, Date.Text;
    if history != [] {
      KeptIsRecent(history[1..], dates[1..], watermark, cutoff);
      StopsAt(history[0], dates[0], watermark, cutoff);
    }
  }

  lemma {:induction false} StopsAt(row: Row, date: Date, watermark: string, cutoff: Date)
    requires cutoff.Proper() && date.Proper() && row.date == date.Text()
    ensures Stops(row, watermark, cutoff.Text()) <==>
              Before(date, cutoff) || (watermark != "" && row.id == watermark)
  {
    hide TextLess, Before, Date.Proper, Date.Text;
    DateOrder(date, cutoff);
  }

  function Min(a: int, b: int): int {
    if a < b then a else b
  }

  /** One page of the school's fixed list. */
  function PageOf(history: seq<Row>, from: nat, size: nat): seq<Row> {
    if from >= |history| then [] else history[from..Min(from + size, |history|)]
  }

  /** A page whose request fails, or that holds a row with unusable fields. */
  predicate Unreadable(history: seq<Row>, page: nat, pageSize: nat, answered: nat -> bool) {
    !answered(page) || exists row | row in PageOf(history, page * pageSize, pageSize) :: !row.sound
  }

  /** A page that has to be asked for: neither a stopping row nor the end of the list comes before it. */
  predicate Needed(history: seq<Row>, page: nat, pageSize: nat, watermark: string, cutoff: string) {
    && page * pageSize <= |TakeUntil(history, watermark, cutoff)|
    && (page == 0 || page * pageSize < |history|)
  }

  lemma {:induction false} NothingNeededAfter(history: seq<Row>, page: nat, pageSize: nat, watermark: string,
      cutoff: string)
    requires |TakeUntil(history, watermark, cutoff)| < (page + 1) * pageSize || |history| <= (page + 1) * pageSize
    ensures forall later: nat | later > page :: !Needed(history, later, pageSize, watermark, cutoff)
  {
    hide TakeUntil;
    forall later: nat | later > page ensures !Needed(history, later, pageSize, watermark, cutoff) {
      AtMost(page, later, pageSize);
    }
  }

  lemma {:induction false} NeededNow(history: seq<Row>, page: nat, pageSize: nat, watermark: string, cutoff: string,
      count: int)
    requires page * pageSize <= |TakeUntil(history, watermark, cutoff)|
    requires page > 0 && count == |history| ==> page * pageSize < |history|
    ensures count == |history| ==> Needed(history, page, pageSize, watermark, cutoff)
  {
  }

  /** The first `from` rows have been read, all of them sound and none of them stopping. */
  ghost predicate ReadTo(history: seq<Row>, from: nat, rows: seq<Row>, watermark: string, cutoff: string) {
    && from <= |history| && rows == history[..from]
    && NoStop(rows, watermark, cutoff) && forall row | row in rows :: row.sound
  }

  lemma {:induction false} ReadIsPrefix(history: seq<Row>, from: nat, rows: seq<Row>, watermark: string, cutoff: string)
    requires ReadTo(history, from, rows, watermark, cutoff)
    ensures rows <= TakeUntil(history, watermark, cutoff) && |rows| == from <= |history|
    ensures forall row | row in rows :: row.sound
    ensures from == |history| ==> rows == TakeUntil(history, watermark, cutoff)
  {
    TakeUntilIs(history, watermark, cutoff, from);
  }

  /** The inner loop over one page, starting at row `from`. */
  method AppendUntil(history: seq<Row>, from: nat, before: seq<Row>, list: seq<Row>, watermark: string,
      cutoff: string) returns (rows: seq<Row>, stopped: bool)
    requires ReadTo(history, from, before, watermark, cutoff)
    requires from + |list| <= |history| && list == history[from..from + |list|] && forall row | row in list :: row.sound
    ensures if stopped
            then rows == TakeUntil(history, watermark, cutoff) && |rows| < from + |list| &&
                 forall row | row in rows :: row.sound
            else ReadTo(history, from + |list|, rows, watermark, cutoff)
  {
    hide Stops, TakeUntil;
    rows, stopped := before, false;
    for i := 0 to |list|
      invariant ReadTo(history, from + i, rows, watermark, cutoff)
    {
      assert list[i] == history[from + i];
      if Stops(list[i], watermark, cutoff) {
        TakeUntilIs(history, watermark, cutoff, from + i);
        return rows, true;
      }
      rows := rows + [list[i]];
    }
  }

  /**
   Reads pages until a row stops it, a page comes back short, or as many rows as the school counts have been read.
   `count` is what the school reports next to each page; `answered` says which requests succeed. Whatever is answered
   is a prefix of what the read is for; with the right count it is all of it, unless the page cap cut it off, and then
   it says so.
   */
  method RecentHistory(history: seq<Row>, count: int, watermark: string, cutoff: string, pageSize: nat,
      maxPages: nat, answered: nat -> bool) returns (r: Outcome)
    requires pageSize >= 1 && maxPages >= 1
    ensures r.Failed? ==> exists page: nat :: page < maxPages && Unreadable(history, page, pageSize, answered)
    ensures count == |history| ==>
              (r.Failed? <==> exists page: nat :: page < maxPages && Unreadable(history, page, pageSize, answered) &&
                                                  Needed(history, page, pageSize, watermark, cutoff))
    ensures r.Page? ==> r.rows <= TakeUntil(history, watermark, cutoff) && forall row | row in r.rows :: row.sound
    ensures r.Page? && count == |history| ==>
              && (r.complete <==>
                  |TakeUntil(history, watermark, cutoff)| < maxPages * pageSize || |history| <= maxPages * pageSize)
              && |r.rows| == if r.complete then |TakeUntil(history, watermark, cutoff)| else maxPages * pageSize
  {
    hide Stops, TakeUntil, ReadTo, Needed;
    var rows: seq<Row> := [];
    var from := 0;
    StartReading(history, watermark, cutoff);
    for page := 0 to maxPages
      invariant from == page * pageSize && ReadTo(history, from, rows, watermark, cutoff)
      invariant page > 0 && count == |history| ==> from < |history|
      invariant forall before: nat | before < page :: !Unreadable(history, before, pageSize, answered)
    {
      ReadIsPrefix(history, from, rows, watermark, cutoff);
      NeededNow(history, page, pageSize, watermark, cutoff, count);
      if !answered(page) {
        assert Unreadable(history, page, pageSize, answered);
        return Failed;
      }
      var list := PageOf(history, from, pageSize);
      if exists row | row in list :: !row.sound {
        assert Unreadable(history, page, pageSize, answered);
        return Failed;
      }
      AtMost(page, maxPages, pageSize);
      var stopped: bool;
      rows, stopped := AppendUntil(history, from, rows, list, watermark, cutoff);
      if stopped {
        NothingNeededAfter(history, page, pageSize, watermark, cutoff);
        return Page(rows, true);
      }
      ReadIsPrefix(history, from + |list|, rows, watermark, cutoff);
      if |list| < pageSize || |rows| >= count {
        if count == |history| {
          NothingNeededAfter(history, page, pageSize, watermark, cutoff);
        }
        return Page(rows, true);
      }
      from := from + pageSize;
    }
    ReadIsPrefix(history, from, rows, watermark, cutoff);
    r := Page(rows, false);
  }

  lemma {:induction false} StartReading(history: seq<Row>, watermark: string, cutoff: string)
    ensures ReadTo(history, 0, [], watermark, cutoff)
  {
  }

  lemma {:induction false} AtMost(page: nat, maxPages: nat, pageSize: nat)
    requires page < maxPages
    ensures (page + 1) * pageSize == page * pageSize + pageSize <= maxPages * pageSize
  {
    assert maxPages * pageSize == (page + 1) * pageSize + (maxPages - page - 1) * pageSize;
    assert (maxPages - page - 1) * pageSize >= 0;
  }
}
