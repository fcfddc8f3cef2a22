/** The ranking part of `export_stats` (integrated_final/cowrie_dashboard.py):
    each ranking of the summary is sorted by count, largest first, and the
    rankings are laid out side by side, three cells per section (name,
    count and an empty gap), one row per entry of the longest section,
    shorter sections padded with `('', '')`. The CSV quoting done by the
    `csv` module is not modelled: rows are lists of cells. */
module Export {
  import opened Wrappers
  import opened Bounds
  import Tallies
  import opened Entries
  import opened Aggregation
  import opened Summaries

  /** A CSV cell: a string, an integer count, or `None`, which the `csv`
      module writes as an empty field. */
  datatype Cell = Str(s: string) | Int(n: int) | Null

  /** The gap cell, and the padding `('', '')` of `zip_longest`. */
  const Gap: Cell := Str("")

  // ----- sorted(data.items(), key=lambda x: x[1], reverse=True) -----

  /** Inserts `x` after every leading entry whose count is at least its own:
      into a list sorted largest first, after all entries with a count at
      least as large, which keeps the sort stable. */
  function Insert<K>(x: (K, int), l: seq<(K, int)>): (r: seq<(K, int)>)
    ensures |r| == |l| + 1
    decreases |l|
  {
    if l == [] then [x]
    else if l[0].1 >= x.1 then [l[0]] + Insert(x, l[1..])
    else [x] + l
  }

  /** Inserting adds `x` and keeps every entry of `l`. */
  lemma {:induction false} InsertPermutes<K>(x: (K, int), l: seq<(K, int)>)
    ensures multiset(Insert(x, l)) == multiset(l) + multiset{x}
    decreases |l|
  {
    if l != [] && l[0].1 >= x.1 {
      InsertPermutes(x, l[1..]);
      assert l == [l[0]] + l[1..];
    }
  }

  /** A stable sort by count, largest first: each entry in turn is inserted
      into the sorted list of the entries before it. */
  function SortByCountDesc<K>(s: seq<(K, int)>): (r: seq<(K, int)>)
    ensures |r| == |s|
    decreases |s|
  {
    if s == [] then [] else Insert(s[|s| - 1], SortByCountDesc(s[..|s| - 1]))
  }

  /** The entries of `s` with count `v`, in their order in `s`. */
  function WithCount<K>(s: seq<(K, int)>, v: int): seq<(K, int)>
    decreases |s|
  {
    if s == [] then [] else (if s[0].1 == v then [s[0]] else []) + WithCount(s[1..], v)
  }

  lemma {:induction false} InsertSorted<K>(x: (K, int), l: seq<(K, int)>)
    requires Tallies.SortedByCountDesc(l)
    ensures Tallies.SortedByCountDesc(Insert(x, l))
    decreases |l|
  {
    if l != [] && l[0].1 >= x.1 {
      InsertSorted(x, l[1..]);
      var r := Insert(x, l[1..]);
      InsertPermutes(x, l[1..]);
      forall i | 0 <= i < |r|
        ensures r[i].1 <= l[0].1
      {
        assert r[i] in multiset(r);
        if r[i] != x {
          assert r[i] in multiset(l[1..]);
          var k :| 0 <= k < |l[1..]| && l[1..][k] == r[i];
          assert l[k + 1] == r[i];
        }
      }
    }
  }

  /** The sort puts the entries in order, largest count first. */
  lemma {:induction false} SortSorted<K>(s: seq<(K, int)>)
    ensures Tallies.SortedByCountDesc(SortByCountDesc(s))
    decreases |s|
  {
    if s != [] {
      SortSorted(s[..|s| - 1]);
      InsertSorted(s[|s| - 1], SortByCountDesc(s[..|s| - 1]));
    }
  }

  /** The sort keeps every entry, each as often as it occurs. */
  lemma {:induction false} SortPermutes<K>(s: seq<(K, int)>)
    ensures multiset(SortByCountDesc(s)) == multiset(s)
    decreases |s|
  {
    if s != [] {
      SortPermutes(s[..|s| - 1]);
      InsertPermutes(s[|s| - 1], SortByCountDesc(s[..|s| - 1]));
      SplitLast(s);
    }
  }

  lemma {:induction false} WithCountAppend<K>(a: seq<(K, int)>, b: seq<(K, int)>, v: int)
    ensures WithCount(a + b, v) == WithCount(a, v) + WithCount(b, v)
    decreases |a|
  {
    if a != [] {
      WithCountAppend(a[1..], b, v);
      assert (a + b)[0] == a[0];
      assert (a + b)[1..] == a[1..] + b;
    } else {
      assert a + b == b;
    }
  }

  lemma {:induction false} WithCountNone<K>(l: seq<(K, int)>, v: int)
    requires forall i :: 0 <= i < |l| ==> l[i].1 != v
    ensures WithCount(l, v) == []
    decreases |l|
  {
    if l != [] {
      WithCountNone(l[1..], v);
    }
  }

  lemma WithCountCons<K>(y: (K, int), rest: seq<(K, int)>, v: int)
    ensures WithCount([y] + rest, v) == (if y.1 == v then [y] else []) + WithCount(rest, v)
  {
    assert ([y] + rest)[1..] == rest;
  }

  /** Inserting `x` into a sorted list puts it after the entries with its
      count and leaves the order of every other count alone. */
  lemma {:induction false} InsertStable<K>(x: (K, int), l: seq<(K, int)>, v: int)
    requires Tallies.SortedByCountDesc(l)
    ensures WithCount(Insert(x, l), v) == WithCount(l, v) + (if x.1 == v then [x] else [])
    decreases |l|
  {
    if l == [] {
      WithCountCons(x, [], v);
    } else if l[0].1 >= x.1 {
      var tail := l[1..];
      SortedSplit(l);
      InsertStable(x, tail, v);
      assert Insert(x, l) == [l[0]] + Insert(x, tail);
      WithCountCons(l[0], Insert(x, tail), v);
      WithCountCons(l[0], tail, v);
      assert l == [l[0]] + tail;
    } else {
      assert Insert(x, l) == [x] + l;
      WithCountCons(x, l, v);
      if x.1 == v {
        SortedSplit(l);
        WithCountNone(l, v);
      }
    }
  }

  /** A list sorted largest first: its first entry counts the most, and the
      rest is sorted too. */
  lemma SortedSplit<K>(l: seq<(K, int)>)
    requires Tallies.SortedByCountDesc(l) && l != []
    ensures Tallies.SortedByCountDesc(l[1..])
    ensures forall i :: 0 <= i < |l| ==> l[i].1 <= l[0].1
  {
    var tail := l[1..];
    forall i, j | 0 <= i < j < |tail| ensures tail[i].1 >= tail[j].1 {
      assert tail[i] == l[i + 1] && tail[j] == l[j + 1];
    }
  }

  /** The sort is stable: the entries with any one count come out in the
      order they went in. */
  lemma {:induction false} SortStable<K>(s: seq<(K, int)>, v: int)
    ensures WithCount(SortByCountDesc(s), v) == WithCount(s, v)
    decreases |s|
  {
    if s != [] {
      var init, last := s[..|s| - 1], s[|s| - 1];
      SplitLast(s);
      SortStable(init, v);
      SortSorted(init);
      InsertStable(last, SortByCountDesc(init), v);
      WithCountAppend(init, [last], v);
    }
  }

  lemma SplitLast<T>(s: seq<T>)
    requires s != []
    ensures s == s[..|s| - 1] + [s[|s| - 1]]
  {
  }

  lemma {:induction false} InsertSmallest<K>(x: (K, int), l: seq<(K, int)>)
    requires forall i :: 0 <= i < |l| ==> l[i].1 >= x.1
    ensures Insert(x, l) == l + [x]
    decreases |l|
  {
    if l != [] {
      InsertSmallest(x, l[1..]);
      assert l == [l[0]] + l[1..];
    }
  }

  /** A list already sorted largest first comes out unchanged. */
  lemma {:induction false} SortKeepsSorted<K>(s: seq<(K, int)>)
    requires Tallies.SortedByCountDesc(s)
    ensures SortByCountDesc(s) == s
    decreases |s|
  {
    if s != [] {
      var init, last := s[..|s| - 1], s[|s| - 1];
      SortedInit(s);
      SortKeepsSorted(init);
      InsertSmallest(last, init);
      SplitLast(s);
    }
  }

  /** All but the last entry of a sorted list are sorted and count at least
      as much as the last. */
  lemma SortedInit<K>(s: seq<(K, int)>)
    requires Tallies.SortedByCountDesc(s) && s != []
    ensures Tallies.SortedByCountDesc(s[..|s| - 1])
    ensures forall i :: 0 <= i < |s| - 1 ==> s[i].1 >= s[|s| - 1].1
  {
    var init := s[..|s| - 1];
    forall i, j | 0 <= i < j < |init| ensures init[i].1 >= init[j].1 {
      assert init[i] == s[i] && init[j] == s[j];
    }
  }

  // ----- the side-by-side layout -----

  /** `row.extend([name, count, ''])` for each pair in turn. */
  function Triples(pairs: seq<(Cell, Cell)>): (r: seq<Cell>)
    ensures |r| == 3 * |pairs|
    decreases |pairs|
  {
    if pairs == [] then [] else [pairs[0].0, pairs[0].1, Gap] + Triples(pairs[1..])
  }

  /** Pair `i` fills cells `3i` and `3i + 1`, and a gap follows it. */
  lemma {:induction false} TriplesAt(pairs: seq<(Cell, Cell)>, i: nat)
    requires i < |pairs|
    ensures var r := Triples(pairs);
      r[3 * i] == pairs[i].0 && r[3 * i + 1] == pairs[i].1 && r[3 * i + 2] == Gap
    decreases i
  {
    if i > 0 {
      TriplesAt(pairs[1..], i - 1);
      assert Triples(pairs) == [pairs[0].0, pairs[0].1, Gap] + Triples(pairs[1..]);
    }
  }

  lemma TriplesLayout(pairs: seq<(Cell, Cell)>)
    ensures forall i :: 0 <= i < |pairs| ==> var r := Triples(pairs);
      r[3 * i] == pairs[i].0 && r[3 * i + 1] == pairs[i].1 && r[3 * i + 2] == Gap
  {
    forall i | 0 <= i < |pairs|
      ensures var r := Triples(pairs); r[3 * i] == pairs[i].0 && r[3 * i + 1] == pairs[i].1 && r[3 * i + 2] == Gap
    {
      TriplesAt(pairs, i);
    }
  }

  /** `lst[:-1]`: all but the last item; nothing of an empty list. */
  function DropLast<T>(s: seq<T>): (r: seq<T>)
    ensures |r| == Max(0, |s| - 1)
    ensures forall i :: 0 <= i < |r| ==> r[i] == s[i]
  {
    if s == [] then [] else s[..|s| - 1]
  }

  /** The header row: label, count label and a gap for each section, the
      trailing gap removed; no row at all without sections. */
  function HeaderRow(labels: seq<(string, string)>): (r: Option<seq<Cell>>)
    ensures r.None? <==> labels == []
    ensures r.Some? ==> |r.value| == 3 * |labels| - 1
    ensures r.Some? ==> forall c :: 0 <= c < |labels| ==>
      && r.value[3 * c] == Str(labels[c].0)
      && r.value[3 * c + 1] == Str(labels[c].1)
      && (c + 1 < |labels| ==> r.value[3 * c + 2] == Gap)
  {
    if labels == [] then None
    else
      var pairs := seq(|labels|, c requires 0 <= c < |labels| => (Str(labels[c].0), Str(labels[c].1)));
      TriplesLayout(pairs);
      Some(DropLast(Triples(pairs)))
  }

  /** The length of the longest column: the number of rows `zip_longest`
      yields. */
  function Longest<T>(columns: seq<seq<T>>): (n: nat)
    ensures forall c :: 0 <= c < |columns| ==> |columns[c]| <= n
    ensures columns == [] ==> n == 0
    ensures columns != [] ==> exists c :: 0 <= c < |columns| && |columns[c]| == n
    decreases |columns|
  {
    if columns == [] then 0
    else
      var rest := Longest(columns[1..]);
      if |columns[0]| >= rest then |columns[0]|
      else
        var c :| 0 <= c < |columns[1..]| && |columns[1..][c]| == rest;
        assert |columns[c + 1]| == rest;
        rest
  }

  /** Row `j` of a column: its entry, the count as a cell, or the padding
      `('', '')` past its end. */
  function CellsAt(column: seq<(Cell, int)>, j: nat): (Cell, Cell) {
    if j < |column| then (column[j].0, Int(column[j].1)) else (Gap, Gap)
  }

  /** The rows of `zip_longest(*columns, fillvalue=('', ''))`, each laid out
      as three cells per section with the trailing gap removed. */
  function DataRows(columns: seq<seq<(Cell, int)>>): (rows: seq<seq<Cell>>)
    ensures |rows| == Longest(columns)
  {
    seq(Longest(columns), j requires 0 <= j =>
      DropLast(Triples(seq(|columns|, c requires 0 <= c < |columns| => CellsAt(columns[c], j)))))
  }

  /** Row `j` holds, for every section `c`, its `j`-th entry at cells `3c`
      and `3c + 1` (or the padding), and a gap between sections. */
  ghost predicate LaidOut(columns: seq<seq<(Cell, int)>>, j: nat, row: seq<Cell>) {
    && |row| == 3 * |columns| - 1
    && forall c :: 0 <= c < |columns| ==>
      && (row[3 * c], row[3 * c + 1]) == CellsAt(columns[c], j)
      && (c + 1 < |columns| ==> row[3 * c + 2] == Gap)
  }

  /** Every data row is laid out as described, and none is padding only:
      each holds an entry of at least one section. */
  lemma DataRowsLayout(columns: seq<seq<(Cell, int)>>)
    ensures var rows := DataRows(columns);
      forall j :: 0 <= j < |rows| ==>
        && LaidOut(columns, j, rows[j])
        && exists c :: 0 <= c < |columns| && j < |columns[c]|
  {
    var rows := DataRows(columns);
    forall j | 0 <= j < |rows|
      ensures LaidOut(columns, j, rows[j])
      ensures exists c :: 0 <= c < |columns| && j < |columns[c]|
    {
      var c0 :| 0 <= c0 < |columns| && |columns[c0]| == Longest(columns);
      assert j < |columns[c0]|;
      TriplesLayout(seq(|columns|, c requires 0 <= c < |columns| => CellsAt(columns[c], j)));
    }
  }

  /** Reading section `c` back from rows `0 .. |columns[c]| - 1` gives its
      entries in order: the layout loses nothing. */
  lemma ColumnReadBack(columns: seq<seq<(Cell, int)>>, c: nat)
    requires c < |columns|
    ensures var rows := DataRows(columns);
      && |columns[c]| <= |rows|
      && forall j :: 0 <= j < |columns[c]| ==>
           rows[j][3 * c] == columns[c][j].0 && rows[j][3 * c + 1] == Int(columns[c][j].1)
  {
    DataRowsLayout(columns);
    var rows := DataRows(columns);
    forall j | 0 <= j < |columns[c]|
      ensures rows[j][3 * c] == columns[c][j].0 && rows[j][3 * c + 1] == Int(columns[c][j].1)
    {
      assert LaidOut(columns, j, rows[j]);
    }
  }

  // ----- the export of a summary -----

  /** The seven sections, in the order of the export. */
  const SectionLabels: seq<(string, string)> := [
    ("IP", "Count"), ("Username", "Count"), ("Password", "Count"),
    ("Command", "Count"), ("Country", "Count"), ("Organization", "Count"),
    ("ASN", "Count")
  ]

  /** An address key: `None` for entries that had no `src_ip`. */
  function IpCells(entries: seq<(Option<string>, int)>): (r: seq<(Cell, int)>)
    ensures |r| == |entries|
    ensures forall i :: 0 <= i < |r| ==>
      r[i].1 == entries[i].1 && r[i].0 == (if entries[i].0.Some? then Str(entries[i].0.value) else Null)
  {
    seq(|entries|, i requires 0 <= i < |entries| =>
      (if entries[i].0.Some? then Str(entries[i].0.value) else Null, entries[i].1))
  }

  function NameCells(entries: seq<(string, int)>): (r: seq<(Cell, int)>)
    ensures |r| == |entries|
    ensures forall i :: 0 <= i < |r| ==> r[i] == (Str(entries[i].0), entries[i].1)
  {
    seq(|entries|, i requires 0 <= i < |entries| => (Str(entries[i].0), entries[i].1))
  }

  /** The sorted ranking of each section. */
  function Columns(r: Summary): (cols: seq<seq<(Cell, int)>>)
    ensures |cols| == |SectionLabels|
  {
    [SortByCountDesc(IpCells(r.topIps)), SortByCountDesc(NameCells(r.topUsers)),
     SortByCountDesc(NameCells(r.topPasswords)), SortByCountDesc(NameCells(r.topCommands)),
     SortByCountDesc(NameCells(r.topCountries)), SortByCountDesc(NameCells(r.topOrganizations)),
     SortByCountDesc(NameCells(r.topAsns))]
  }

  /** The rows of the rankings: the header row when there is a section,
      then the data rows. */
  function Table(labels: seq<(string, string)>, columns: seq<seq<(Cell, int)>>): (rows: seq<seq<Cell>>)
  {
    (if HeaderRow(labels).Some? then [HeaderRow(labels).value] else []) + DataRows(columns)
  }

  /** With `k` sections the header and every data row have `3k - 1` cells,
      and there is one data row per entry of the longest section. */
  lemma TableShape(labels: seq<(string, string)>, columns: seq<seq<(Cell, int)>>)
    requires |labels| == |columns| > 0
    ensures var rows := Table(labels, columns);
      && |rows| == 1 + Longest(columns)
      && rows[0] == HeaderRow(labels).value
      && forall j :: 0 <= j < |rows| ==> |rows[j]| == 3 * |columns| - 1
  {
    var rows := Table(labels, columns);
    var data := DataRows(columns);
    assert rows == [HeaderRow(labels).value] + data;
    forall j | 1 <= j < |rows|
      ensures |rows[j]| == 3 * |columns| - 1
    {
      RowLength(columns, j - 1);
    }
  }

  lemma RowLength(columns: seq<seq<(Cell, int)>>, j: nat)
    requires |columns| > 0 && j < Longest(columns)
    ensures |DataRows(columns)[j]| == 3 * |columns| - 1
  {
  }

  /** The rows of the rankings of a summary. */
  function RankingRows(r: Summary): (rows: seq<seq<Cell>>)
  {
    Table(SectionLabels, Columns(r))
  }

  /** The header and every data row have 20 cells, and there is one data
      row per entry of the longest ranking. */
  lemma RankingRowsShape(r: Summary)
    ensures var rows := RankingRows(r);
      && |rows| == 1 + Longest(Columns(r))
      && rows[0] == HeaderRow(SectionLabels).value
      && forall j :: 0 <= j < |rows| ==> |rows[j]| == 20
  {
    TableShape(SectionLabels, Columns(r));
  }

  /** A ranking sorted largest first is left as it is by the sort. */
  lemma IpColumnKept(t: Tallies.Tally<Option<string>>)
    requires Tallies.WellFormed(t)
    ensures var e := IpCells(Tallies.Top(t, TopShown));
      SortByCountDesc(e) == e
  {
    TopRanked(t);
    SortKeepsSorted(IpCells(Tallies.Top(t, TopShown)));
  }

  lemma NameColumnKept(t: Tallies.Tally<string>)
    requires Tallies.WellFormed(t)
    ensures var e := NameCells(Tallies.Top(t, TopShown));
      SortByCountDesc(e) == e
  {
    TopRanked(t);
    SortKeepsSorted(NameCells(Tallies.Top(t, TopShown)));
  }

  /** The rankings of a summary are sorted already, so the sort of the
      export leaves each one in the order `top(500)` gave it. */
  lemma ExportKeepsRanking(s: Stats, alerts: seq<Alert>)
    requires Valid(s)
    ensures var r := BuildSummary(s, alerts);
      Columns(r) == [IpCells(r.topIps), NameCells(r.topUsers), NameCells(r.topPasswords),
                     NameCells(r.topCommands), NameCells(r.topCountries),
                     NameCells(r.topOrganizations), NameCells(r.topAsns)]
  {
    IpColumnKept(s.topIps);
    NameColumnKept(s.topUsers);
    NameColumnKept(s.topPasswords);
    NameColumnKept(s.topCommands);
    NameColumnKept(s.countries);
    NameColumnKept(s.organizations);
    NameColumnKept(s.asns);
  }
}
