/** Localization tables and their CSV records (src/snapshot_middleware/csv.rs). The
    text of CSV and JSON is left to libraries; records and entries are modelled. */
module Localization {
  import opened Basics
  import opened Ordering

  datatype Entry = Entry(
    key: Option<string>,
    source: Option<string>,
    context: Option<string>,
    example: Option<string>,
    values: map<string, string>)

  const BLANK := Entry(None, None, None, None, map[])

  const FIXED: seq<string> := ["Key", "Source", "Context", "Example"]

  datatype Sheet = Sheet(headers: seq<string>, records: seq<seq<string>>)

  // ----- from records to entries -----

  /** One cell: empty headers and empty cells say nothing. */
  function WithCell(e: Entry, header: string, value: string): (r: Entry) {
    if header == "" || value == "" then e
    else if header == "Key" then e.(key := Some(value))
    else if header == "Source" then e.(source := Some(value))
    else if header == "Context" then e.(context := Some(value))
    else if header == "Example" then e.(example := Some(value))
    else e.(values := e.values[header := value])
  }

  /** The cells that have a header, from left to right. */
  function WithCells(e: Entry, headers: seq<string>, record: seq<string>): (r: Entry)
    decreases |headers|
  {
    if headers == [] || record == [] then e
    else WithCells(WithCell(e, headers[0], record[0]), headers[1..], record[1..])
  }

  predicate IsUsable(e: Entry) {
    e.key.Some? || e.source.Some?
  }

  function Converted(headers: seq<string>, records: seq<seq<string>>): (r: seq<Entry>)
    decreases |records|
  {
    if records == [] then []
    else
      var e := WithCells(BLANK, headers, records[0]);
      (if IsUsable(e) then [e] else []) + Converted(headers, records[1..])
  }

  method ConvertLocalizationCsv(headers: seq<string>, records: seq<seq<string>>) returns (entries: seq<Entry>)
    ensures entries == Converted(headers, records)
  {
    entries := [];
    var left := records;
    while left != []
      invariant entries + Converted(headers, left) == Converted(headers, records)
      decreases |left|
    {
      var record := left[0];
      var entry := BLANK;
      var names, cells := headers, record;
      while names != [] && cells != []
        invariant WithCells(entry, names, cells) == WithCells(BLANK, headers, record)
        decreases |names|
      {
        var header, value := names[0], cells[0];
        names, cells := names[1..], cells[1..];
        if header == "" || value == "" {
          continue;
        }
        match header
        case "Key" => entry := entry.(key := Some(value));
        case "Source" => entry := entry.(source := Some(value));
        case "Context" => entry := entry.(context := Some(value));
        case "Example" => entry := entry.(example := Some(value));
        case _ => entry := entry.(values := entry.values[header := value]);
      }
      ghost var rest := Converted(headers, left[1..]);
      if entry.key.Some? || entry.source.Some? {
        assert entries + ([entry] + rest) == (entries + [entry]) + rest;
        entries := entries + [entry];
      } else {
        assert [] + rest == rest;
      }
      left := left[1..];
    }
  }

  // ----- sorting by source -----

  /** No source comes first, then sources in order. */
  predicate Before(a: Option<string>, b: Option<string>) {
    b.Some? && (a.None? || Less(a.value, b.value))
  }

  /** Puts an entry in front of those that may come later, so equal ones keep their
      order when inserted from the back. */
  function Put(e: Entry, es: seq<Entry>): (r: seq<Entry>)
    ensures multiset(r) == multiset(es) + multiset{e}
  {
    if es == [] then [e]
    else if Before(es[0].source, e.source) then
      assert es == [es[0]] + es[1..];
      [es[0]] + Put(e, es[1..])
    else [e] + es
  }

  /** The library's stable sort. */
  function SortedBySource(es: seq<Entry>): (r: seq<Entry>)
    ensures multiset(r) == multiset(es) && |r| == |es|
  {
    if es == [] then []
    else
      assert es == [es[0]] + es[1..];
      var r := Put(es[0], SortedBySource(es[1..]));
      assert |multiset(r)| == |multiset(es)|;
      r
  }

  ghost predicate IsSortedBySource(es: seq<Entry>) {
    forall i, j :: 0 <= i < j < |es| ==> !Before(es[j].source, es[i].source)
  }

  /** The entries with one source, in their order. */
  function WithSource(es: seq<Entry>, s: Option<string>): (r: seq<Entry>) {
    if es == [] then [] else (if es[0].source == s then [es[0]] else []) + WithSource(es[1..], s)
  }

  lemma BeforeChain(a: Option<string>, b: Option<string>, c: Option<string>)
    requires Before(a, b) && !Before(c, b)
    ensures Before(a, c)
  {
    LessTotal(b.value, if c.Some? then c.value else "");
    if a.Some? && c.Some? && Less(b.value, c.value) { LessTransitive(a.value, b.value, c.value); }
  }

  lemma BeforeOneWay(a: Option<string>, b: Option<string>)
    requires Before(a, b)
    ensures !Before(b, a) && a != b
  {
    if a.Some? {
      if Less(b.value, a.value) { LessTransitive(a.value, b.value, a.value); }
      LessIrreflexive(a.value);
    }
  }

  lemma {:induction false} PutSorted(e: Entry, es: seq<Entry>)
    requires IsSortedBySource(es)
    ensures IsSortedBySource(Put(e, es))
  {
    if es != [] {
      if Before(es[0].source, e.source) {
        PutSorted(e, es[1..]);
        var rest := Put(e, es[1..]);
        forall j | 0 <= j < |rest| ensures !Before(rest[j].source, es[0].source) {
          assert rest[j] in multiset(rest);
          assert rest[j] == e || rest[j] in es[1..];
          BeforeOneWay(es[0].source, e.source);
        }
      } else {
        forall j | 0 <= j < |es| ensures !Before(es[j].source, e.source) {
          if Before(es[j].source, e.source) && j > 0 {
            assert !Before(es[j].source, es[0].source);
            if !Before(es[0].source, e.source) { NotBeforeChain(es[j].source, e.source, es[0].source); }
          }
        }
      }
    }
  }

  lemma NotBeforeChain(a: Option<string>, b: Option<string>, c: Option<string>)
    requires Before(a, b) && !Before(c, b)
    ensures Before(a, c)
  {
    BeforeChain(a, b, c);
  }

  lemma {:induction false} PutStable(e: Entry, es: seq<Entry>, s: Option<string>)
    ensures WithSource(Put(e, es), s) == (if e.source == s then [e] else []) + WithSource(es, s)
  {
    if es != [] && Before(es[0].source, e.source) {
      BeforeOneWay(es[0].source, e.source);
      var first, more := if es[0].source == s then [es[0]] else [], Put(e, es[1..]);
      PutStable(e, es[1..], s);
      assert ([es[0]] + more)[1..] == more && ([es[0]] + more)[0] == es[0];
      assert WithSource(Put(e, es), s) == first + WithSource(more, s);
      assert WithSource(es, s) == first + WithSource(es[1..], s);
      assert [] + WithSource(es[1..], s) == WithSource(es[1..], s);
    } else {
      assert ([e] + es)[1..] == es;
    }
  }

  /** It sorts, it permutes, and entries with the same source keep their order. */
  lemma {:induction false} SortIsStable(es: seq<Entry>, s: Option<string>)
    ensures IsSortedBySource(SortedBySource(es))
    ensures multiset(SortedBySource(es)) == multiset(es)
    ensures WithSource(SortedBySource(es), s) == WithSource(es, s)
  {
    if es != [] {
      SortIsStable(es[1..], s);
      PutSorted(es[0], SortedBySource(es[1..]));
      PutStable(es[0], SortedBySource(es[1..]), s);
    }
  }

  /** A sorted list is left as it is. */
  lemma {:induction false} SortedStays(es: seq<Entry>)
    requires IsSortedBySource(es)
    ensures SortedBySource(es) == es
  {
    if es != [] {
      SortedStays(es[1..]);
    }
  }

  // ----- from entries to records -----

  function Languages(es: seq<Entry>): (r: set<string>) {
    if es == [] then {} else es[0].values.Keys + Languages(es[1..])
  }

  function OrEmpty(v: Option<string>): (r: string) {
    if v.Some? then v.value else ""
  }

  function ValueCells(e: Entry, languages: seq<string>): (r: seq<string>)
    ensures |r| == |languages|
  {
    if languages == [] then []
    else [if languages[0] in e.values then e.values[languages[0]] else ""] + ValueCells(e, languages[1..])
  }

  function FixedCells(e: Entry): (r: seq<string>) {
    [OrEmpty(e.key), OrEmpty(e.source), OrEmpty(e.context), OrEmpty(e.example)]
  }

  function RecordsOf(es: seq<Entry>, languages: seq<string>): (r: seq<seq<string>>)
    ensures |r| == |es|
  {
    if es == [] then [] else [FixedCells(es[0]) + ValueCells(es[0], languages)] + RecordsOf(es[1..], languages)
  }

  ghost function SheetOf(es: seq<Entry>): (r: Sheet) {
    var sorted := SortedBySource(es);
    var languages := Sorted(Languages(sorted));
    Sheet(FIXED + languages, RecordsOf(sorted, languages))
  }

  method WriteValues(e: Entry, languages: seq<string>, record0: seq<string>) returns (record: seq<string>)
    ensures record == record0 + ValueCells(e, languages)
  {
    record := record0;
    var rest := languages;
    while rest != []
      invariant record + ValueCells(e, rest) == record0 + ValueCells(e, languages)
      decreases |rest|
    {
      var cell := if rest[0] in e.values then e.values[rest[0]] else "";
      assert record + ([cell] + ValueCells(e, rest[1..])) == (record + [cell]) + ValueCells(e, rest[1..]);
      record := record + [cell];
      rest := rest[1..];
    }
  }

  /** A `BTreeSet` filled in a loop: each language once. */
  method CollectLanguages(csv: seq<Entry>) returns (extra: set<string>)
    ensures extra == Languages(csv)
  {
    extra := {};
    var rest := csv;
    while rest != []
      invariant extra + Languages(rest) == Languages(csv)
      decreases |rest|
    {
      extra := extra + rest[0].values.Keys;
      rest := rest[1..];
    }
  }

  method WriteRecords(csv: seq<Entry>, languages: seq<string>) returns (records: seq<seq<string>>)
    ensures records == RecordsOf(csv, languages)
  {
    records := [];
    var rest := csv;
    while rest != []
      invariant records + RecordsOf(rest, languages) == RecordsOf(csv, languages)
      decreases |rest|
    {
      var e := rest[0];
      var record := WriteValues(e, languages,
        [OrEmpty(e.key), OrEmpty(e.source), OrEmpty(e.context), OrEmpty(e.example)]);
      ghost var later := RecordsOf(rest[1..], languages);
      assert records + ([record] + later) == (records + [record]) + later;
      records := records + [record];
      rest := rest[1..];
    }
  }

  method LocalizationToCsv(entries: seq<Entry>) returns (sheet: Sheet)
    ensures sheet == SheetOf(entries)
  {
    var csv := SortedBySource(entries);
    var extra := CollectLanguages(csv);
    var languages := SortNames(extra);
    var records := WriteRecords(csv, languages);
    sheet := Sheet(["Key", "Source", "Context", "Example"] + languages, records);
  }

  // ----- the round trip -----

  predicate NotEmpty(v: Option<string>) {
    v.Some? ==> v.value != ""
  }

  /** Has a key or a source, no empty string, and no language named like a header. */
  predicate IsGood(e: Entry) {
    && IsUsable(e) && NotEmpty(e.key) && NotEmpty(e.source) && NotEmpty(e.context) && NotEmpty(e.example)
    && forall l :: l in e.values ==> l != "" && l !in FIXED && e.values[l] != ""
  }

  predicate IsClean(e: Entry) {
    && NotEmpty(e.key) && NotEmpty(e.source) && NotEmpty(e.context) && NotEmpty(e.example)
    && forall l :: l in e.values ==> l != "" && l !in FIXED && e.values[l] != ""
  }

  lemma {:induction false} CellsAreClean(e: Entry, headers: seq<string>, record: seq<string>)
    requires IsClean(e)
    ensures IsClean(WithCells(e, headers, record))
    decreases |headers|
  {
    if headers != [] && record != [] {
      CellsAreClean(WithCell(e, headers[0], record[0]), headers[1..], record[1..]);
    }
  }

  /** Whatever the sheet, only good entries come out. */
  lemma {:induction false} ConvertedAreGood(headers: seq<string>, records: seq<seq<string>>)
    ensures forall e :: e in Converted(headers, records) ==> IsGood(e)
    decreases |records|
  {
    if records != [] {
      CellsAreClean(BLANK, headers, records[0]);
      ConvertedAreGood(headers, records[1..]);
    }
  }

  /** The value columns put back the values of the languages they are for. */
  lemma {:induction false} ValuesReadBack(e: Entry, languages: seq<string>, so: Entry)
    requires IsGood(e) && forall l :: l in languages ==> l != "" && l !in FIXED
    ensures WithCells(so, languages, ValueCells(e, languages)) == so.(values := so.values + OfLanguages(e, languages))
    decreases |languages|
  {
    if languages == [] {
      assert so.values + map[] == so.values;
    } else {
      var l, rest := languages[0], languages[1..];
      assert forall m :: m in languages <==> m == l || m in rest;
      assert l in languages;
      var next := WithCell(so, l, if l in e.values then e.values[l] else "");
      assert ValueCells(e, languages)[1..] == ValueCells(e, rest);
      ValuesReadBack(e, rest, next);
      OneMoreLanguage(e, l, rest, so);
      assert [l] + rest == languages;
    }
  }

  lemma OneMoreLanguage(e: Entry, l: string, rest: seq<string>, so: Entry)
    requires IsGood(e) && l != "" && l !in FIXED
    ensures var next := WithCell(so, l, if l in e.values then e.values[l] else "");
      next.(values := next.values + OfLanguages(e, rest)) == so.(values := so.values + OfLanguages(e, [l] + rest))
  {
    var next := WithCell(so, l, if l in e.values then e.values[l] else "");
    assert "Key" in FIXED && "Source" in FIXED && "Context" in FIXED && "Example" in FIXED;
    assert next.values + OfLanguages(e, rest) == so.values + OfLanguages(e, [l] + rest);
  }

  function OfLanguages(e: Entry, languages: seq<string>): (r: map<string, string>) {
    map l | l in e.values && l in languages :: e.values[l]
  }

  lemma FixedReadBack(e: Entry, languages: seq<string>)
    requires IsGood(e)
    ensures WithCells(BLANK, FIXED + languages, FixedCells(e) + ValueCells(e, languages))
      == WithCells(e.(values := map[]), languages, ValueCells(e, languages))
  {
    WithMoreCells(BLANK, FIXED, FixedCells(e), languages, ValueCells(e, languages));
    FourCells(e);
  }

  lemma {:induction false} WithMoreCells(e: Entry, headers: seq<string>, cells: seq<string>, more: seq<string>,
      later: seq<string>)
    requires |headers| == |cells|
    ensures WithCells(e, headers + more, cells + later) == WithCells(WithCells(e, headers, cells), more, later)
    decreases |headers|
  {
    if headers == [] {
      assert headers + more == more && cells + later == later;
    } else {
      assert (headers + more)[1..] == headers[1..] + more && (cells + later)[1..] == cells[1..] + later;
      WithMoreCells(WithCell(e, headers[0], cells[0]), headers[1..], cells[1..], more, later);
    }
  }

  lemma FourCells(e: Entry)
    requires IsGood(e)
    ensures WithCells(BLANK, FIXED, FixedCells(e)) == e.(values := map[])
  {
    var k, u, c, x := OrEmpty(e.key), OrEmpty(e.source), OrEmpty(e.context), OrEmpty(e.example);
    var last := WithCell(WithCell(WithCell(BLANK, "Key", k), "Source", u), "Context", c);
    WithMoreCells(BLANK, ["Key", "Source"], [k, u], ["Context", "Example"], [c, x]);
    TwoCells(BLANK, "Key", k, "Source", u);
    TwoCells(WithCell(WithCell(BLANK, "Key", k), "Source", u), "Context", c, "Example", x);
    assert FIXED == ["Key", "Source"] + ["Context", "Example"];
    assert FixedCells(e) == [k, u] + [c, x];
  }

  lemma TwoCells(e: Entry, h: string, v: string, i: string, w: string)
    ensures WithCells(e, [h, i], [v, w]) == WithCell(WithCell(e, h, v), i, w)
  {
    assert [h, i][1..] == [i] && [v, w][1..] == [w];
    assert WithCells(WithCell(e, h, v), [i], [w]) == WithCell(WithCell(e, h, v), i, w);
  }

  lemma EntryReadBack(e: Entry, languages: seq<string>)
    requires IsGood(e) && (forall l :: l in languages ==> l != "" && l !in FIXED)
      && (forall l :: l in e.values ==> l in languages)
    ensures WithCells(BLANK, FIXED + languages, FixedCells(e) + ValueCells(e, languages)) == e
  {
    FixedReadBack(e, languages);
    ValuesReadBack(e, languages, e.(values := map[]));
    assert map[] + OfLanguages(e, languages) == e.values;
  }

  lemma {:induction false} RecordsReadBack(es: seq<Entry>, languages: seq<string>)
    requires forall e :: e in es ==> IsGood(e) && forall l :: l in e.values ==> l in languages
    requires forall l :: l in languages ==> l != "" && l !in FIXED
    ensures Converted(FIXED + languages, RecordsOf(es, languages)) == es
  {
    if es != [] {
      EntryReadBack(es[0], languages);
      RecordsReadBack(es[1..], languages);
      var records := RecordsOf(es, languages);
      assert records[1..] == RecordsOf(es[1..], languages);
    }
  }

  lemma {:induction false} LanguagesOfEach(es: seq<Entry>)
    ensures forall l :: l in Languages(es) <==> exists e :: e in es && l in e.values
  {
    if es != [] {
      LanguagesOfEach(es[1..]);
      assert forall e :: e in es <==> e == es[0] || e in es[1..];
    }
  }

  lemma SortKeepsEntries(es: seq<Entry>)
    ensures forall e :: e in SortedBySource(es) <==> e in es
  {
    var r := SortedBySource(es);
    forall e ensures e in r <==> e in es {
      assert e in r <==> e in multiset(r);
      assert e in es <==> e in multiset(es);
    }
  }

  /** The round trip. Writing a table and converting it back gives the entries stably
      sorted by source exactly when every entry is good. */
  lemma SheetReadBack(es: seq<Entry>)
    ensures var sheet := SheetOf(es);
      Converted(sheet.headers, sheet.records) == SortedBySource(es) <==> forall e :: e in es ==> IsGood(e)
  {
    var sheet, sorted := SheetOf(es), SortedBySource(es);
    ConvertedAreGood(sheet.headers, sheet.records);
    SortKeepsEntries(es);
    if forall e :: e in es ==> IsGood(e) {
      LanguagesOfEach(sorted);
      RecordsReadBack(sorted, Sorted(Languages(sorted)));
    }
  }

  /** Writing what came back gives the same sheet again. */
  lemma SheetIsStable(es: seq<Entry>)
    requires forall e :: e in es ==> IsGood(e)
    ensures var sheet := SheetOf(es); SheetOf(Converted(sheet.headers, sheet.records)) == sheet
  {
    SheetReadBack(es);
    SortIsStable(es, None);
    SortedStays(SortedBySource(es));
  }

  // ----- spelled out -----

  /** The last cell that is not empty and stands under this header. */
  function LastCell(headers: seq<string>, record: seq<string>, name: string): (r: Option<string>)
    decreases |headers|
  {
    if headers == [] || record == [] then None
    else
      var later := LastCell(headers[1..], record[1..], name);
      if later.Some? then later
      else if headers[0] == name && record[0] != "" then Some(record[0])
      else None
  }

  lemma {:induction false} LastCellFound(headers: seq<string>, record: seq<string>, name: string)
    ensures LastCell(headers, record, name).None? <==>
      forall i :: 0 <= i < |headers| && i < |record| && headers[i] == name ==> record[i] == ""
    decreases |headers|
  {
    if headers != [] && record != [] {
      LastCellFound(headers[1..], record[1..], name);
      forall i | 0 <= i < |headers| && i < |record| && i > 0
        ensures headers[i] == headers[1..][i - 1] && record[i] == record[1..][i - 1]
      {
      }
      assert forall i :: 0 <= i < |headers[1..]| && i < |record[1..]| ==>
        headers[1..][i] == headers[i + 1] && record[1..][i] == record[i + 1];
    }
  }

  /** The fields of `r` are these cells where there are any, and those of `e` elsewhere. */
  predicate Over(r: Entry, e: Entry, key: Option<string>, source: Option<string>, context: Option<string>,
                 example: Option<string>) {
    && r.key == (if key.Some? then key else e.key) && r.source == (if source.Some? then source else e.source)
    && r.context == (if context.Some? then context else e.context)
    && r.example == (if example.Some? then example else e.example)
  }

  /** The fields of an entry are the last cells under their headers. */
  lemma {:induction false} CellsSpelledOut(e: Entry, headers: seq<string>, record: seq<string>)
    ensures Over(WithCells(e, headers, record), e, LastCell(headers, record, "Key"),
              LastCell(headers, record, "Source"), LastCell(headers, record, "Context"),
              LastCell(headers, record, "Example"))
    decreases |headers|
  {
    if headers != [] && record != [] {
      CellsSpelledOut(WithCell(e, headers[0], record[0]), headers[1..], record[1..]);
    }
  }

  lemma {:induction false} LanguagesSpelledOut(e: Entry, headers: seq<string>, record: seq<string>, l: string)
    requires l !in {"", "Key", "Source", "Context", "Example"}
    ensures ValueOf(WithCells(e, headers, record), l) ==
      if LastCell(headers, record, l).Some? then LastCell(headers, record, l) else ValueOf(e, l)
    decreases |headers|
  {
    if headers != [] && record != [] {
      LanguagesSpelledOut(WithCell(e, headers[0], record[0]), headers[1..], record[1..], l);
    }
  }

  function ValueOf(e: Entry, l: string): (r: Option<string>) {
    if l in e.values then Some(e.values[l]) else None
  }

  /** The entry a row stands for: each field is the last cell under its header, and
      languages are the headers that are none of the four. */
  ghost predicate EntryOfRow(e: Entry, headers: seq<string>, record: seq<string>) {
    && e.key == LastCell(headers, record, "Key") && e.source == LastCell(headers, record, "Source")
    && e.context == LastCell(headers, record, "Context") && e.example == LastCell(headers, record, "Example")
    && forall l :: ValueOf(e, l) ==
         if l in {"", "Key", "Source", "Context", "Example"} then None else LastCell(headers, record, l)
  }

  /** A row with a cell under Key or under Source becomes one entry, and any other row
      none; entries come in the order of the rows. */
  lemma RowByRow(headers: seq<string>, record: seq<string>, rest: seq<seq<string>>)
    ensures var out := Converted(headers, [record] + rest);
      if LastCell(headers, record, "Key").Some? || LastCell(headers, record, "Source").Some?
      then out != [] && EntryOfRow(out[0], headers, record) && out[1..] == Converted(headers, rest)
      else out == Converted(headers, rest)
  {
    assert ([record] + rest)[0] == record && ([record] + rest)[1..] == rest;
    var e := WithCells(BLANK, headers, record);
    CellsAreClean(BLANK, headers, record);
    forall l ensures ValueOf(e, l) ==
      if l in {"", "Key", "Source", "Context", "Example"} then None else LastCell(headers, record, l)
    {
      if l !in {"", "Key", "Source", "Context", "Example"} { LanguagesSpelledOut(BLANK, headers, record, l); }
    }
    CellsSpelledOut(BLANK, headers, record);
    assert e.key.Some? || e.source.Some? ==> ([e] + Converted(headers, rest))[1..] == Converted(headers, rest);
  }

  /** The rows of a written sheet are in the order of their sources, and its languages in
      the order of their names. */
  lemma SheetIsInOrder(es: seq<Entry>, i: nat, j: nat)
    ensures i < j < |SheetOf(es).records| ==>
      var a, b := SortedBySource(es)[i].source, SortedBySource(es)[j].source;
      a.None? || (b.Some? && (a == b || Precedes(a.value, b.value)))
    ensures 4 <= i < j < |SheetOf(es).headers| ==> Precedes(SheetOf(es).headers[i], SheetOf(es).headers[j])
  {
    var sorted := SortedBySource(es);
    SortIsStable(es, None);
    if i < j < |sorted| { InOrder(sorted[i].source, sorted[j].source); }
    LaterInOrder(FIXED, Sorted(Languages(sorted)), i, j);
  }

  lemma LaterInOrder(first: seq<string>, later: seq<string>, i: nat, j: nat)
    requires Increasing(later)
    ensures |first| <= i < j < |first + later| ==> Precedes((first + later)[i], (first + later)[j])
  {
    if |first| <= i < j < |first + later| { LessSpelledOut(later[i - |first|], later[j - |first|]); }
  }

  lemma InOrder(a: Option<string>, b: Option<string>)
    requires !Before(b, a)
    ensures a.None? || (b.Some? && (a == b || Precedes(a.value, b.value)))
  {
    if a.Some? && b.Some? {
      LessTotal(a.value, b.value);
      LessSpelledOut(a.value, b.value);
    }
  }

  /** The texts of the entry under the headers, empty where there is none. */
  ghost predicate RecordRight(e: Entry, headers: seq<string>, r: seq<string>) {
    && |r| == |headers| >= 4
    && r[0] == TextOrNone(e.key) && r[1] == TextOrNone(e.source)
    && r[2] == TextOrNone(e.context) && r[3] == TextOrNone(e.example)
    && forall j :: 4 <= j < |r| ==> r[j] == TextOrNone(ValueOf(e, headers[j]))
  }

  lemma RecordIsRight(e: Entry, languages: seq<string>)
    ensures RecordRight(e, FIXED + languages, FixedCells(e) + ValueCells(e, languages))
  {
    ValueCellsAt(e, languages);
    var values := ValueCells(e, languages);
    forall j | 4 <= j < 4 + |languages|
      ensures (FixedCells(e) + values)[j] == values[j - 4] && (FIXED + languages)[j] == languages[j - 4]
    {
    }
  }

  /** What a written sheet holds: the four headers and the languages, and for each entry,
      in the order of their sources, its texts under them. */
  lemma SheetSpelledOut(es: seq<Entry>, i: nat)
    ensures var sheet := SheetOf(es);
      && |sheet.headers| >= 4 && sheet.headers[..4] == ["Key", "Source", "Context", "Example"]
      && (forall l :: l in sheet.headers[4..] <==> exists e :: e in es && l in e.values)
    ensures |SheetOf(es).records| == |es|
    ensures i < |es| ==> RecordRight(SortedBySource(es)[i], SheetOf(es).headers, SheetOf(es).records[i])
  {
    var sorted := SortedBySource(es);
    var languages := Sorted(Languages(sorted));
    assert (FIXED + languages)[4..] == languages && (FIXED + languages)[..4] == FIXED;
    LanguagesOfEach(sorted);
    SortKeepsEntries(es);
    if i < |es| {
      RecordAt(sorted, languages, i);
      RecordIsRight(sorted[i], languages);
    }
  }

  function TextOrNone(v: Option<string>): (r: string) {
    match v
    case Some(text) => text
    case None => ""
  }

  lemma {:induction false} RecordAt(es: seq<Entry>, languages: seq<string>, i: nat)
    requires i < |es|
    ensures RecordsOf(es, languages)[i] == FixedCells(es[i]) + ValueCells(es[i], languages)
  {
    if i > 0 { RecordAt(es[1..], languages, i - 1); }
  }

  lemma {:induction false} ValueCellsAt(e: Entry, languages: seq<string>)
    ensures forall j :: 0 <= j < |languages| ==> ValueCells(e, languages)[j] == TextOrNone(ValueOf(e, languages[j]))
  {
    if languages != [] { ValueCellsAt(e, languages[1..]); }
  }
}
