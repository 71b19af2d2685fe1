/** The audit log, newest first, read page by page with the last row shown as the cursor. */
module AuditPaging {
  import opened Lists
  import opened Options

  datatype Entry = Entry(ts: int, id: nat, action: string, user: nat)

  datatype Filter = Filter(action: Option<string>, user: Option<nat>)

  /** Rows one request writes share a timestamp; ids are unique. */
  ghost predicate Keyed(rows: set<Entry>)
  {
    forall a, b | a in rows && b in rows && a.id == b.id :: a == b
  }

  predicate Older(ts1: int, id1: nat, ts2: int, id2: nat)
  {
    ts1 < ts2 || (ts1 == ts2 && id1 < id2)
  }

  predicate Matches(e: Entry, f: Filter)
  {
    && (f.action.Some? ==> e.action == f.action.value)
    && (f.user.Some? ==> e.user == f.user.value)
  }

  /** The cursor conditions of the query: the pair when both halves are given, the timestamp
      alone when only it is. */
  predicate Admits(e: Entry, before: Option<int>, beforeId: Option<nat>)
  {
    if before.Some? && beforeId.Some? then Older(e.ts, e.id, before.value, beforeId.value)
    else if before.Some? then e.ts < before.value
    else true
  }

  function Selected(rows: set<Entry>, f: Filter, before: Option<int>, beforeId: Option<nat>): set<Entry>
  {
    set e | e in rows && Matches(e, f) && Admits(e, before, beforeId)
  }

  // Order

  ghost predicate IsNewest(e: Entry, rows: set<Entry>)
  {
    e in rows && forall x | x in rows && x != e :: Older(x.ts, x.id, e.ts, e.id)
  }

  lemma {:induction false} NewestExists(rows: set<Entry>)
    requires rows != {} && Keyed(rows)
    ensures exists e :: IsNewest(e, rows)
    decreases |rows|
  {
    var x :| x in rows;
    if rows == {x} {
      assert IsNewest(x, rows);
    } else {
      var rest := rows - {x};
      assert rows == rest + {x};
      NewestExists(rest);
      var y :| IsNewest(y, rest);
      assert x.id != y.id;
      assert IsNewest(if Older(x.ts, x.id, y.ts, y.id) then y else x, rows);
    }
  }

  ghost function Newest(rows: set<Entry>): (e: Entry)
    requires rows != {} && Keyed(rows)
    ensures IsNewest(e, rows)
  {
    NewestExists(rows);
    var e :| IsNewest(e, rows);
    e
  }

  /** The first `limit` rows in descending order. */
  ghost function Top(rows: set<Entry>, limit: nat): seq<Entry>
    requires Keyed(rows)
    decreases limit
  {
    if rows == {} || limit == 0 then [] else [Newest(rows)] + Top(rows - {Newest(rows)}, limit - 1)
  }

  ghost function Descending(rows: set<Entry>): seq<Entry>
    requires Keyed(rows)
  {
    Top(rows, |rows|)
  }

  /** One call of `list_recent`. */
  ghost function ListRecent(
    rows: set<Entry>, limit: nat, before: Option<int>, beforeId: Option<nat>, f: Filter): seq<Entry>
    requires Keyed(rows)
  {
    Top(Selected(rows, f, before, beforeId), limit)
  }

  /** What is left of a set below one of its rows. */
  function Below(rows: set<Entry>, e: Entry): set<Entry>
  {
    set x | x in rows && Older(x.ts, x.id, e.ts, e.id)
  }

  ghost predicate Falling(listing: seq<Entry>)
  {
    forall i, j | 0 <= i < j < |listing| ::
      Older(listing[j].ts, listing[j].id, listing[i].ts, listing[i].id)
  }

  /** A listing is every row once, newest first. */
  lemma {:induction false} DescendingIsTheSet(rows: set<Entry>)
    requires Keyed(rows)
    ensures |Descending(rows)| == |rows|
    ensures forall e :: e in Descending(rows) <==> e in rows
    ensures Falling(Descending(rows))
    decreases |rows|
  {
    if rows != {} {
      var top := Newest(rows);
      var rest := Descending(rows - {top});
      DescendingIsTheSet(rows - {top});
      assert Descending(rows) == [top] + rest;
      forall j | 0 <= j < |rest| ensures Older(rest[j].ts, rest[j].id, top.ts, top.id) {
        assert rest[j] in rest;
      }
    }
  }

  lemma ListingStep(rows: set<Entry>)
    requires rows != {} && Keyed(rows)
    ensures var rest := rows - {Newest(rows)};
      rest == Below(rows, Newest(rows)) && Descending(rows) == [Newest(rows)] + Descending(rest)
  {
  }

  lemma BelowIsSmaller(rows: set<Entry>, e: Entry)
    requires e in rows
    ensures |Below(rows, e)| < |rows|
  {
    var rest := rows - {e};
    assert Below(rows, e) <= rest;
    SubsetIsSmaller(Below(rows, e), rest);
  }

  lemma BelowWithoutNewest(rows: set<Entry>, e: Entry)
    requires rows != {} && Keyed(rows) && e in rows - {Newest(rows)}
    ensures Below(rows - {Newest(rows)}, e) == Below(rows, e)
  {
  }

  ghost function Last(page: seq<Entry>): Entry
    requires page != []
  {
    page[|page| - 1]
  }

  /** A page is the head of the listing, and the rest of the listing is what lies below the
      page's last row. */
  lemma {:induction false} PageSplitsListing(rows: set<Entry>, limit: nat)
    requires Keyed(rows) && rows != {} && limit >= 1
    ensures var page := Top(rows, limit);
      && page != [] && Last(page) in rows
      && |page| == (if limit < |rows| then limit else |rows|)
      && Descending(rows) == page + Descending(Below(rows, Last(page)))
    decreases limit
  {
    var top := Newest(rows);
    var rest := rows - {top};
    ListingStep(rows);
    if limit == 1 || rest == {} {
      assert Top(rest, limit - 1) == [];
      assert Top(rows, limit) == [top];
    } else {
      PageSplitsListing(rest, limit - 1);
      var page := Top(rest, limit - 1);
      var last := Last(page);
      assert Last([top] + page) == last;
      BelowWithoutNewest(rows, last);
      Regroup([top], page, Descending(Below(rows, last)));
    }
  }

  /** A page falls, keeps within its limit, and leaves out only rows older than all it shows,
      and those only when it is full. */
  lemma CutPageIsFull(here: set<Entry>, limit: nat, e: Entry)
    requires Keyed(here)
    ensures var page := Top(here, limit);
      && |page| <= limit && Falling(page) && (forall x | x in page :: x in here)
      && (e in here && e !in page ==> |page| == limit && forall x | x in page :: Older(e.ts, e.id, x.ts, x.id))
  {
    var page := Top(here, limit);
    if here != {} && limit >= 1 {
      PageSplitsListing(here, limit);
      PageSortsOut(here, limit);
      if e in here && e !in page {
        DescendingIsTheSet(here);
        assert e in Descending(Below(here, Last(page)));
        LastIsOldest(page, e);
      }
    }
  }

  lemma LastIsOldest(page: seq<Entry>, e: Entry)
    requires page != [] && Falling(page) && Older(e.ts, e.id, Last(page).ts, Last(page).id)
    ensures forall x | x in page :: Older(e.ts, e.id, x.ts, x.id)
  {
  }

  /** What one request answers, row by row: only rows the filters and the cursor let through,
      newest first, at most as many as asked for; and any such row left out is older than every
      row shown, on a page that is full. */
  lemma PageIsTheNewestMatching(
    rows: set<Entry>, limit: nat, before: Option<int>, beforeId: Option<nat>, f: Filter, e: Entry)
    requires Keyed(rows) && e in rows
    ensures var page := ListRecent(rows, limit, before, beforeId, f);
      var wanted := (f.action.Some? ==> e.action == f.action.value) && (f.user.Some? ==> e.user == f.user.value)
        && (before.Some? && beforeId.None? ==> e.ts < before.value)
        && (before.Some? && beforeId.Some? ==>
              e.ts < before.value || (e.ts == before.value && e.id < beforeId.value));
      && |page| <= limit
      && (forall i, j | 0 <= i < j < |page| ::
            page[j].ts < page[i].ts || (page[j].ts == page[i].ts && page[j].id < page[i].id))
      && (forall x | x in page :: x in rows)
      && (e in page ==> wanted)
      && (wanted && e !in page ==> |page| == limit && forall x | x in page ::
            e.ts < x.ts || (e.ts == x.ts && e.id < x.id))
  {
    CutPageIsFull(Selected(rows, f, before, beforeId), limit, e);
  }

  // Following the pages

  function Cursor(e: Entry): (Option<int>, Option<nat>)
  {
    (Some(e.ts), Some(e.id))
  }

  /** The pages a reader gets, one table per request, until a page is empty or the requests
      run out. */
  ghost function Follow(
    tables: seq<set<Entry>>, limit: nat, cursor: (Option<int>, Option<nat>), f: Filter): seq<seq<Entry>>
    requires forall i | 0 <= i < |tables| :: Keyed(tables[i])
    decreases |tables|
  {
    if tables == [] then []
    else
      var page := ListRecent(tables[0], limit, cursor.0, cursor.1, f);
      if page == [] then [page]
      else [page] + Follow(tables[1..], limit, Cursor(Last(page)), f)
  }

  /** Between two requests rows may arrive, but only above the last row shown. */
  ghost predicate OnlyNewerArrive(tables: seq<set<Entry>>, limit: nat, cursor: (Option<int>, Option<nat>), f: Filter)
    requires forall i | 0 <= i < |tables| :: Keyed(tables[i])
    decreases |tables|
  {
    |tables| >= 2 ==>
      var page := ListRecent(tables[0], limit, cursor.0, cursor.1, f);
      page != [] ==>
        var last := Last(page);
        && Below(tables[1], last) == Below(tables[0], last)
        && OnlyNewerArrive(tables[1..], limit, Cursor(last), f)
  }

  ghost function Concat(pages: seq<seq<Entry>>): seq<Entry>
  {
    if pages == [] then [] else pages[0] + Concat(pages[1..])
  }

  lemma SelectedBelow(rows: set<Entry>, f: Filter, before: Option<int>, beforeId: Option<nat>, last: Entry)
    requires last in Selected(rows, f, before, beforeId)
    ensures Below(Selected(rows, f, before, beforeId), last) == Selected(rows, f, Some(last.ts), Some(last.id))
  {
  }

  lemma SelectedDependsOnBelow(a: set<Entry>, b: set<Entry>, f: Filter, last: Entry)
    requires Below(a, last) == Below(b, last)
    ensures Selected(a, f, Some(last.ts), Some(last.id)) == Selected(b, f, Some(last.ts), Some(last.id))
  {
    forall e ensures
      e in Selected(a, f, Some(last.ts), Some(last.id)) <==> e in Selected(b, f, Some(last.ts), Some(last.id))
    {
      assert e in Below(a, last) <==> e in Below(b, last);
    }
  }

  lemma PagesStep(page: seq<Entry>, later: seq<seq<Entry>>, rest: seq<Entry>)
    requires later != [] && Concat(later) <= rest
    ensures var pages := [page] + later;
      && Concat(pages) == page + Concat(later) && Concat(pages) <= page + rest
      && (Concat(later) == rest ==> Concat(pages) == page + rest)
      && pages[|pages| - 1] == later[|later| - 1]
  {
    assert ([page] + later)[1..] == later;
  }

  lemma OnePage(page: seq<Entry>)
    ensures Concat([page]) == page
  {
    assert [page][1..] == [] && page + [] == page;
  }

  lemma OnePageMore(tables: seq<set<Entry>>, limit: nat, cursor: (Option<int>, Option<nat>), f: Filter)
    requires forall i | 0 <= i < |tables| :: Keyed(tables[i])
    requires tables != [] && limit >= 1 && Selected(tables[0], f, cursor.0, cursor.1) != {}
    ensures var here := Selected(tables[0], f, cursor.0, cursor.1);
      var page := ListRecent(tables[0], limit, cursor.0, cursor.1, f);
      && page != [] && Last(page) in here
      && Follow(tables, limit, cursor, f) == [page] + Follow(tables[1..], limit, Cursor(Last(page)), f)
      && Descending(here) == page + Descending(Below(here, Last(page)))
      && Below(here, Last(page)) == Selected(tables[0], f, Some(Last(page).ts), Some(Last(page).id))
      && |Below(here, Last(page))| < |here|
  {
    var here := Selected(tables[0], f, cursor.0, cursor.1);
    PageSplitsListing(here, limit);
    var last := Last(Top(here, limit));
    BelowIsSmaller(here, last);
    SelectedBelow(tables[0], f, cursor.0, cursor.1, last);
  }

  /** Following the last row's cursor to an empty page shows every matching row of the table as
      it first was exactly once, in descending order, whatever arrives above the cursor. */
  lemma {:induction false} PagesAreTheListing(
    tables: seq<set<Entry>>, limit: nat, cursor: (Option<int>, Option<nat>), f: Filter)
    requires forall i | 0 <= i < |tables| :: Keyed(tables[i])
    requires tables != [] && limit >= 1
    requires OnlyNewerArrive(tables, limit, cursor, f)
    ensures var pages := Follow(tables, limit, cursor, f);
      var all := Descending(Selected(tables[0], f, cursor.0, cursor.1));
      && pages != [] && Concat(pages) <= all
      && (pages[|pages| - 1] == [] ==> Concat(pages) == all)
      && (|tables| > |Selected(tables[0], f, cursor.0, cursor.1)| ==> pages[|pages| - 1] == [])
    decreases |tables|
  {
    var here := Selected(tables[0], f, cursor.0, cursor.1);
    var page := ListRecent(tables[0], limit, cursor.0, cursor.1, f);
    if here == {} {
      OnePage(page);
    } else {
      OnePageMore(tables, limit, cursor, f);
      var last := Last(page);
      if |tables| == 1 {
        OnePage(page);
        assert [page] + [] == [page];
      } else {
        SelectedDependsOnBelow(tables[1], tables[0], f, last);
        PagesAreTheListing(tables[1..], limit, Cursor(last), f);
        PagesStep(page, Follow(tables[1..], limit, Cursor(last), f), Descending(Below(here, last)));
      }
    }
  }

  lemma FallingPrefix(page: seq<Entry>, tail: seq<Entry>)
    requires Falling(page + tail)
    ensures Falling(page)
    ensures forall e :: e in page + tail <==> e in page || e in tail
  {
    assert (page + tail)[..|page|] == page;
    forall i, j | 0 <= i < j < |page| ensures Older(page[j].ts, page[j].id, page[i].ts, page[i].id) {
      assert page[j] == (page + tail)[j] && page[i] == (page + tail)[i];
    }
  }

  /** A page falls, and every selected row is on it or below its last row. */
  lemma PageSortsOut(rows: set<Entry>, limit: nat)
    requires Keyed(rows) && rows != {} && limit >= 1
    ensures var page := Top(rows, limit);
      && page != [] && Falling(page)
      && (forall e | e in page :: e in rows)
      && (forall e | e in rows :: e in page || e in Below(rows, Last(page)))
  {
    PageSplitsListing(rows, limit);
    var page := Top(rows, limit);
    var rest := Below(rows, Last(page));
    DescendingIsTheSet(rows);
    DescendingIsTheSet(rest);
    FallingPrefix(page, Descending(rest));
  }

  lemma FallingConcat(page: seq<Entry>, rest: seq<Entry>)
    requires page != [] && Falling(page) && Falling(rest)
    requires forall e | e in rest :: Older(e.ts, e.id, Last(page).ts, Last(page).id)
    ensures Falling(page + rest)
  {
  }

  /** The pages fall, show rows of the last table only, and once one is empty have shown every
      row of the first. */
  ghost predicate ShowsAll(tables: seq<set<Entry>>, limit: nat, cursor: (Option<int>, Option<nat>), f: Filter)
    requires tables != [] && forall i | 0 <= i < |tables| :: Keyed(tables[i])
  {
    var pages := Follow(tables, limit, cursor, f);
    var shown := Concat(pages);
    && pages != [] && Falling(shown)
    && (forall e | e in shown :: e in Selected(tables[|tables| - 1], f, cursor.0, cursor.1))
    && (pages[|pages| - 1] == [] ==> forall e | e in Selected(tables[0], f, cursor.0, cursor.1) :: e in shown)
  }

  lemma OnlyPageShows(tables: seq<set<Entry>>, limit: nat, cursor: (Option<int>, Option<nat>), f: Filter)
    requires |tables| == 1 && Keyed(tables[0]) && limit >= 1
    requires Selected(tables[0], f, cursor.0, cursor.1) != {}
    ensures ShowsAll(tables, limit, cursor, f)
  {
    var here := Selected(tables[0], f, cursor.0, cursor.1);
    PageSortsOut(here, limit);
    OnePage(Top(here, limit));
    assert Follow(tables, limit, cursor, f) == [Top(here, limit)];
  }

  /** One page more in front of pages that show all. */
  lemma PageBeforeShows(tables: seq<set<Entry>>, limit: nat, cursor: (Option<int>, Option<nat>), f: Filter)
    requires forall i | 0 <= i < |tables| :: Keyed(tables[i])
    requires |tables| > 1 && limit >= 1 && tables[0] <= tables[1] && tables[0] <= tables[|tables| - 1]
    requires Selected(tables[0], f, cursor.0, cursor.1) != {}
    requires var page := ListRecent(tables[0], limit, cursor.0, cursor.1, f);
      page != [] ==> ShowsAll(tables[1..], limit, Cursor(Last(page)), f)
    ensures ShowsAll(tables, limit, cursor, f)
  {
    var here := Selected(tables[0], f, cursor.0, cursor.1);
    var page := Top(here, limit);
    PageSortsOut(here, limit);
    var last := Last(page);
    var next := Cursor(last);
    var later := Follow(tables[1..], limit, next, f);
    var final := tables[|tables| - 1];
    assert tables[1..][|tables[1..]| - 1] == final && tables[1..][0] == tables[1];
    SelectedBelow(tables[0], f, cursor.0, cursor.1, last);
    LastRowIsAdmitted(here, cursor, final, f, last);
    FallingConcat(page, Concat(later));
    PagesStep(page, later, Concat(later));
    assert Follow(tables, limit, cursor, f) == [page] + later;
    RowsAreShown(here, tables[1], page, Concat(later), f);
  }

  /** What a page leaves out is shown after it, if all below it is. */
  lemma RowsAreShown(here: set<Entry>, second: set<Entry>, page: seq<Entry>, later: seq<Entry>, f: Filter)
    requires page != [] && (forall e | e in here :: e in page || e in Below(here, Last(page)))
    requires Below(here, Last(page)) <= Selected(second, f, Some(Last(page).ts), Some(Last(page).id))
    ensures (forall e | e in Selected(second, f, Some(Last(page).ts), Some(Last(page).id)) :: e in later) ==>
      forall e | e in here :: e in page + later
  {
  }

  /** A row's timestamp is when its transaction began, so a slow transaction can land below the
      cursor after a page was read. The log only grows, and that alone is enough: no row of the
      first table is lost or shown twice, and nothing is out of order. */
  lemma {:induction false} GrowingLogLosesNothing(
    tables: seq<set<Entry>>, limit: nat, cursor: (Option<int>, Option<nat>), f: Filter)
    requires forall i | 0 <= i < |tables| :: Keyed(tables[i])
    requires forall i, j | 0 <= i < j < |tables| :: tables[i] <= tables[j]
    requires tables != [] && limit >= 1
    ensures var pages := Follow(tables, limit, cursor, f);
      var shown := Concat(pages);
      && pages != [] && Falling(shown)
      && (forall e | e in shown :: e in Selected(tables[|tables| - 1], f, cursor.0, cursor.1))
      && (pages[|pages| - 1] == [] ==>
            forall e | e in Selected(tables[0], f, cursor.0, cursor.1) :: e in shown)
    decreases |tables|
  {
    if Selected(tables[0], f, cursor.0, cursor.1) == {} {
      OnePage([]);
    } else {
      if |tables| == 1 {
        OnlyPageShows(tables, limit, cursor, f);
      } else {
        var page := ListRecent(tables[0], limit, cursor.0, cursor.1, f);
        if page != [] {
          GrowingLogLosesNothing(tables[1..], limit, Cursor(Last(page)), f);
        }
        PageBeforeShows(tables, limit, cursor, f);
      }
      assert ShowsAll(tables, limit, cursor, f);
    }
  }

  lemma LastRowIsAdmitted(
    here: set<Entry>, cursor: (Option<int>, Option<nat>), final: set<Entry>, f: Filter, last: Entry)
    requires last in here
    requires forall e | e in here :: Admits(e, cursor.0, cursor.1)
    ensures Selected(final, f, Some(last.ts), Some(last.id)) <= Selected(final, f, cursor.0, cursor.1)
  {
  }

  /** Paging on the timestamp alone continues past the last row shown and exactly its unshown
      ties: it loses rows precisely when a page boundary falls inside one timestamp. */
  lemma TimestampAloneLosesTies(rows: set<Entry>, f: Filter, last: Entry)
    ensures Selected(rows, f, Some(last.ts), Some(last.id)) - Selected(rows, f, Some(last.ts), None)
      == set e | e in rows && Matches(e, f) && e.ts == last.ts && e.id < last.id
    ensures Selected(rows, f, Some(last.ts), None) <= Selected(rows, f, Some(last.ts), Some(last.id))
  {
  }
}
