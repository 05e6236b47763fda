/** The biomarker histories behind the trend-on-hover chart: every period
    table is scraped into one list of dated values per marker, each list is
    sorted by date, and a marker's trend is offered only when it has more
    than one value. */
module Histories {
  import opened Options
  import opened ValueParsing

  /** A `td[data-marker]` cell; `valueText` is the text of the cell after
      it, absent when there is no next sibling. */
  datatype Cell = Cell(marker: string, valueText: Option<string>)

  /** A `.biomarker-period` block: its trimmed `h4` heading, the instant the
      heading parses to (an abstract timestamp), and its marker cells in
      document order. */
  datatype Period = Period(dateText: string, rawDate: int, cells: seq<Cell>)

  /** `{date, value, rawDate}`; the value is kept as the matched number
      text. */
  datatype Entry = Entry(date: string, value: string, rawDate: int)

  type History = map<string, seq<Entry>>

  /** The entry a cell contributes: one exactly when it has a value cell
      whose text holds a number. */
  function CellEntry(p: Period, c: Cell): (r: Option<Entry>)
    ensures r.Some? <==> c.valueText.Some? && ParseValue(c.valueText.value).Some?
    ensures r.Some? ==>
      r.value.date == p.dateText && r.value.rawDate == p.rawDate && IsNumberToken(r.value.value)
    ensures r.Some? ==> r.value.value == ParseValue(c.valueText.value).value
  {
    match c.valueText
    case None => None
    case Some(t) =>
      match ParseValue(t)
      case None => None
      case Some(v) => Some(Entry(p.dateText, v, p.rawDate))
  }

  /** `biomarkerHistory[key] || []`. */
  function Lookup(h: History, key: string): seq<Entry> {
    if key in h then h[key] else []
  }

  /** `biomarkerHistory[key].push(e)`, creating the list when absent. */
  function Push(h: History, key: string, e: Entry): (r: History)
    ensures r.Keys == h.Keys + {key}
    ensures Lookup(r, key) == Lookup(h, key) + [e]
    ensures forall k :: k != key ==> Lookup(r, k) == Lookup(h, k)
  {
    h[key := Lookup(h, key) + [e]]
  }

  /** The inner `rows.forEach` of one period, over its first cells. */
  function ScrapeCells(h: History, p: Period, cells: seq<Cell>): History {
    if |cells| == 0 then h
    else
      var h' := ScrapeCells(h, p, cells[..|cells| - 1]);
      var c := cells[|cells| - 1];
      match CellEntry(p, c)
      case None => h'
      case Some(e) => Push(h', c.marker, e)
  }

  /** The outer `periods.forEach`, starting from `{}`. */
  function Scrape(ps: seq<Period>): History {
    if |ps| == 0 then map[]
    else
      var p := ps[|ps| - 1];
      ScrapeCells(Scrape(ps[..|ps| - 1]), p, p.cells)
  }

  /** Reference definition: the entries the cells of `p` give for `key`, in
      row order. */
  function CellsFor(p: Period, cells: seq<Cell>, key: string): seq<Entry> {
    if |cells| == 0 then []
    else
      var c := cells[|cells| - 1];
      CellsFor(p, cells[..|cells| - 1], key)
        + (if c.marker == key && CellEntry(p, c).Some? then [CellEntry(p, c).value] else [])
  }

  /** Reference definition: the entries for `key` over all periods, in
      document order. */
  function EntriesFor(ps: seq<Period>, key: string): seq<Entry> {
    if |ps| == 0 then []
    else
      var p := ps[|ps| - 1];
      EntriesFor(ps[..|ps| - 1], key) + CellsFor(p, p.cells, key)
  }

  lemma {:induction false} ScrapeCellsAppends(h: History, p: Period, cells: seq<Cell>, key: string)
    ensures Lookup(ScrapeCells(h, p, cells), key) == Lookup(h, key) + CellsFor(p, cells, key)
    ensures key in ScrapeCells(h, p, cells) <==> key in h || CellsFor(p, cells, key) != []
  {
    if |cells| > 0 {
      var prefix := cells[..|cells| - 1];
      ScrapeCellsAppends(h, p, prefix, key);
      ScrapeCellStep(ScrapeCells(h, p, prefix), p, cells[|cells| - 1], key);
    }
  }

  /** One step of the inner pass adds to the `key` list exactly the entry,
      if any, that the cell gives for `key`. */
  lemma ScrapeCellStep(h: History, p: Period, c: Cell, key: string)
    ensures var add := if c.marker == key && CellEntry(p, c).Some? then [CellEntry(p, c).value] else [];
      var h' := match CellEntry(p, c) case None => h case Some(e) => Push(h, c.marker, e);
      && Lookup(h', key) == Lookup(h, key) + add
      && (key in h' <==> key in h || add != [])
  {
  }

  /** The scraped map holds a list for exactly the markers that have at
      least one parsed value, and that list is every such value in document
      order. */
  lemma {:induction false} ScrapeMatches(ps: seq<Period>, key: string)
    ensures key in Scrape(ps) <==> EntriesFor(ps, key) != []
    ensures Lookup(Scrape(ps), key) == EntriesFor(ps, key)
  {
    if |ps| > 0 {
      var p := ps[|ps| - 1];
      ScrapeMatches(ps[..|ps| - 1], key);
      ScrapeCellsAppends(Scrape(ps[..|ps| - 1]), p, p.cells, key);
    }
  }

  /** Every scraped value is a number as the pattern matches it, dated by
      its period. */
  lemma {:induction false} EntriesAreParsed(ps: seq<Period>, key: string, e: Entry)
    requires e in EntriesFor(ps, key)
    ensures IsNumberToken(e.value)
    ensures exists i :: 0 <= i < |ps| && e.date == ps[i].dateText && e.rawDate == ps[i].rawDate
  {
    var p := ps[|ps| - 1];
    if e in EntriesFor(ps[..|ps| - 1], key) {
      EntriesAreParsed(ps[..|ps| - 1], key, e);
      var i :| 0 <= i < |ps| - 1 && e.date == ps[..|ps| - 1][i].dateText && e.rawDate == ps[..|ps| - 1][i].rawDate;
      assert ps[..|ps| - 1][i] == ps[i];
    } else {
      CellsForFromPeriod(p, p.cells, key, e);
    }
  }

  lemma {:induction false} CellsForFromPeriod(p: Period, cells: seq<Cell>, key: string, e: Entry)
    requires e in CellsFor(p, cells, key)
    ensures IsNumberToken(e.value) && e.date == p.dateText && e.rawDate == p.rawDate
  {
    if e in CellsFor(p, cells[..|cells| - 1], key) {
      CellsForFromPeriod(p, cells[..|cells| - 1], key, e);
    }
  }

  // --- sorting by date ---

  predicate SortedByDate(s: seq<Entry>) {
    forall i, j :: 0 <= i < j < |s| ==> s[i].rawDate <= s[j].rawDate
  }

  /** The entries of `s` dated `d`, in order. */
  function WithDate(s: seq<Entry>, d: int): seq<Entry> {
    if |s| == 0 then []
    else WithDate(s[..|s| - 1], d) + (if s[|s| - 1].rawDate == d then [s[|s| - 1]] else [])
  }

  /** Places `e` after every entry dated no later than it. */
  function Insert(s: seq<Entry>, e: Entry): (r: seq<Entry>)
    ensures |r| == |s| + 1
  {
    if |s| == 0 || s[|s| - 1].rawDate <= e.rawDate then s + [e]
    else Insert(s[..|s| - 1], e) + [s[|s| - 1]]
  }

  /** `list.sort((a, b) => a.rawDate - b.rawDate)`; the language's sort is
      stable, which this insertion sort is as well. */
  function SortByDate(s: seq<Entry>): (r: seq<Entry>)
    ensures |r| == |s|
  {
    if |s| == 0 then [] else Insert(SortByDate(s[..|s| - 1]), s[|s| - 1])
  }

  lemma {:induction false} InsertMultiset(s: seq<Entry>, e: Entry)
    ensures multiset(Insert(s, e)) == multiset(s) + multiset{e}
  {
    if !(|s| == 0 || s[|s| - 1].rawDate <= e.rawDate) {
      var s' := s[..|s| - 1];
      InsertMultiset(s', e);
      assert s == s' + [s[|s| - 1]];
    }
  }

  /** Entries dated `d` keep their order, `e` joining them last. */
  lemma {:induction false} InsertWithDate(s: seq<Entry>, e: Entry, d: int)
    ensures WithDate(Insert(s, e), d) == WithDate(s, d) + (if e.rawDate == d then [e] else [])
  {
    if |s| == 0 || s[|s| - 1].rawDate <= e.rawDate {
      var r := s + [e];
      assert r[..|r| - 1] == s;
    } else {
      var x := s[|s| - 1];
      var s' := s[..|s| - 1];
      InsertWithDate(s', e, d);
      var m := Insert(s', e);
      var r := m + [x];
      assert r[..|r| - 1] == m;
    }
  }

  lemma {:induction false} InsertSorted(s: seq<Entry>, e: Entry)
    requires SortedByDate(s)
    ensures SortedByDate(Insert(s, e))
  {
    if !(|s| == 0 || s[|s| - 1].rawDate <= e.rawDate) {
      var x := s[|s| - 1];
      var s' := s[..|s| - 1];
      InsertSorted(s', e);
      InsertMultiset(s', e);
      var m := Insert(s', e);
      var r := m + [x];
      forall i, j | 0 <= i < j < |r|
        ensures r[i].rawDate <= r[j].rawDate
      {
        if j == |r| - 1 {
          assert r[i] == m[i];
          assert m[i] in multiset(m);
          assert m[i] in multiset(s') + multiset{e};
          if m[i] in s' {
            var k :| 0 <= k < |s'| && s'[k] == m[i];
            assert s[k] == m[i];
          }
        } else {
          assert r[i] == m[i] && r[j] == m[j];
        }
      }
    }
  }

  /** The sort is a stable sort: the result is ordered by date, holds the
      same entries, and keeps the input order among entries of one date. */
  lemma {:induction false} SortByDateIsStableSort(s: seq<Entry>)
    ensures SortedByDate(SortByDate(s))
    ensures multiset(SortByDate(s)) == multiset(s)
    ensures forall d :: WithDate(SortByDate(s), d) == WithDate(s, d)
  {
    if |s| > 0 {
      var s' := s[..|s| - 1];
      SortByDateIsStableSort(s');
      InsertSorted(SortByDate(s'), s[|s| - 1]);
      InsertMultiset(SortByDate(s'), s[|s| - 1]);
      forall d
        ensures WithDate(SortByDate(s), d) == WithDate(s, d)
      {
        InsertWithDate(SortByDate(s'), s[|s| - 1], d);
      }
      assert s == s' + [s[|s| - 1]];
    }
  }

  lemma {:induction false} WithDateMember(s: seq<Entry>, d: int, x: Entry)
    ensures x in WithDate(s, d) <==> x in s && x.rawDate == d
  {
    if |s| > 0 {
      WithDateMember(s[..|s| - 1], d, x);
      assert s == s[..|s| - 1] + [s[|s| - 1]];
    }
  }

  lemma LastDateKept(s: seq<Entry>)
    ensures |s| > 0 ==> WithDate(s, s[|s| - 1].rawDate) != []
  {
  }

  /** Ordered by date plus same per-date order pins a sequence down: two
      such sequences are equal. */
  lemma {:induction false} SortedWithSameDatesEqual(t: seq<Entry>, u: seq<Entry>)
    requires SortedByDate(t) && SortedByDate(u)
    requires forall d :: WithDate(t, d) == WithDate(u, d)
    ensures t == u
    decreases |t|
  {
    LastDateKept(t);
    LastDateKept(u);
    if |t| > 0 && |u| > 0 {
      var a, b := t[|t| - 1], u[|u| - 1];
      var t', u' := t[..|t| - 1], u[..|u| - 1];
      WithDateMember(u, a.rawDate, a);
      WithDateMember(t, b.rawDate, b);
      assert a in WithDate(t, a.rawDate);
      assert b in WithDate(u, b.rawDate);
      assert a.rawDate <= b.rawDate;
      assert b.rawDate <= a.rawDate;
      assert a == WithDate(t, a.rawDate)[|WithDate(t, a.rawDate)| - 1];
      assert a == b;
      forall d
        ensures WithDate(t', d) == WithDate(u', d)
      {
        assert WithDate(t, d) == WithDate(t', d) + (if a.rawDate == d then [a] else []);
        assert WithDate(u, d) == WithDate(u', d) + (if a.rawDate == d then [a] else []);
        assert |WithDate(t', d)| == |WithDate(u', d)|;
        assert WithDate(t', d) == WithDate(t, d)[..|WithDate(t', d)|];
        assert WithDate(u', d) == WithDate(u, d)[..|WithDate(u', d)|];
      }
      SortedWithSameDatesEqual(t', u');
      assert t == t' + [a] && u == u' + [b];
    }
  }

  /** Any date-ordered arrangement of `s` that keeps the order of entries
      with equal dates is exactly `SortByDate(s)`: together with
      `SortByDateIsStableSort` this characterises the sort. */
  lemma StableSortIsUnique(s: seq<Entry>, t: seq<Entry>)
    requires SortedByDate(t)
    requires forall d :: WithDate(t, d) == WithDate(s, d)
    ensures t == SortByDate(s)
  {
    SortByDateIsStableSort(s);
    SortedWithSameDatesEqual(t, SortByDate(s));
  }

  /** The `Object.keys(...).forEach(sort)` pass. */
  function SortAll(h: History): (r: History)
    ensures r.Keys == h.Keys
  {
    map k | k in h :: SortByDate(h[k])
  }

  /** Both passes: scrape, then sort each list. */
  function ExtractHistories(ps: seq<Period>): History {
    SortAll(Scrape(ps))
  }

  /** A marker has a history exactly when some cell gives it a value, and
      the history is all of its values in date order, ties in document
      order. */
  lemma ExtractHistoriesMatches(ps: seq<Period>, key: string)
    ensures key in ExtractHistories(ps) <==> EntriesFor(ps, key) != []
    ensures Lookup(ExtractHistories(ps), key) == SortByDate(EntriesFor(ps, key))
    ensures SortedByDate(Lookup(ExtractHistories(ps), key))
    ensures multiset(Lookup(ExtractHistories(ps), key)) == multiset(EntriesFor(ps, key))
  {
    ScrapeMatches(ps, key);
    SortByDateIsStableSort(EntriesFor(ps, key));
  }

  /** The hover handler: the history to chart for `marker`, offered only when
      it exists and has more than one point. */
  function TrendToShow(h: History, marker: string): (r: Option<seq<Entry>>)
    ensures r.Some? <==> marker in h && |h[marker]| > 1
    ensures r.Some? ==> r.value == h[marker]
  {
    if marker in h && |h[marker]| > 1 then Some(h[marker]) else None
  }

  /** A trend appears exactly for markers with at least two parsed values,
      and it shows all of them ordered by date. */
  lemma TrendShownIff(ps: seq<Period>, marker: string)
    ensures TrendToShow(ExtractHistories(ps), marker).Some? <==> |EntriesFor(ps, marker)| >= 2
    ensures TrendToShow(ExtractHistories(ps), marker).Some? ==>
      var t := TrendToShow(ExtractHistories(ps), marker).value;
      SortedByDate(t) && multiset(t) == multiset(EntriesFor(ps, marker))
  {
    ExtractHistoriesMatches(ps, marker);
  }
}
