/** `view_all`: the records sorted by their date text, latest first, with the
    total of all amounts. Python's `sorted(data, key=date, reverse=True)` is
    a stable sort, so records with the same date keep their stored order. */
module Listing {
  import opened Records
  import opened Seqs
  import opened Text

  /** Puts `r` in front of the first record whose date is not greater than
      its own, so that it lands after every record with a greater date. */
  function InsertByDate(r: Record, s: seq<Record>): (t: seq<Record>)
    ensures |t| == |s| + 1
    ensures multiset(t) == multiset(s) + multiset{r}
  {
    if s == [] || !LexLess(r.date, s[0].date) then [r] + s
    else
      assert s == [s[0]] + s[1..];
      [s[0]] + InsertByDate(r, s[1..])
  }

  /** The listing order: a stable sort on the date text, descending. */
  function SortByDate(rs: seq<Record>): (t: seq<Record>)
    ensures multiset(t) == multiset(rs)
  {
    if rs == [] then []
    else
      assert rs == [rs[0]] + rs[1..];
      InsertByDate(rs[0], SortByDate(rs[1..]))
  }

  /** No record is listed before one with a greater date text. */
  ghost predicate SortedDesc(s: seq<Record>) {
    forall i, j :: 0 <= i < j < |s| ==> !LexLess(s[i].date, s[j].date)
  }

  function HasDate(d: string): Record -> bool {
    (r: Record) => r.date == d
  }

  /** Records that share a date appear in the same relative order in `a` as
      in `b`. */
  ghost predicate SameOrderPerDate(a: seq<Record>, b: seq<Record>) {
    forall d :: Filter(a, HasDate(d)) == Filter(b, HasDate(d))
  }

  /** When `r` goes past the head, everything after the head stays at or
      below the head's date. */
  lemma InsertBelowHead(r: Record, s: seq<Record>)
    requires SortedDesc(s) && s != [] && LexLess(r.date, s[0].date)
    ensures forall x | x in InsertByDate(r, s[1..]) :: !LexLess(s[0].date, x.date)
  {
    forall x | x in InsertByDate(r, s[1..]) ensures !LexLess(s[0].date, x.date) {
      assert x in multiset(InsertByDate(r, s[1..]));
      if x == r {
        LexAsymmetric(r.date, s[0].date);
      } else {
        assert x in multiset(s[1..]);
        var k :| 0 <= k < |s[1..]| && s[1..][k] == x;
        assert s[k + 1] == x;
      }
    }
  }

  lemma {:induction false} InsertKeepsSorted(r: Record, s: seq<Record>)
    requires SortedDesc(s)
    ensures SortedDesc(InsertByDate(r, s))
  {
    var t := InsertByDate(r, s);
    if s == [] || !LexLess(r.date, s[0].date) {
      assert t == [r] + s;
      forall i, j | 0 <= i < j < |t| ensures !LexLess(t[i].date, t[j].date) {
        if i == 0 && j > 1 {
          assert t[j] == s[j - 1];
          NotLessTransitive(r.date, s[0].date, s[j - 1].date);
        }
      }
    } else {
      var u := InsertByDate(r, s[1..]);
      InsertKeepsSorted(r, s[1..]);
      InsertBelowHead(r, s);
      assert t == [s[0]] + u;
      forall i, j | 0 <= i < j < |t| ensures !LexLess(t[i].date, t[j].date) {
        assert t[j] == u[j - 1];
        if i == 0 {
          assert t[j] in u;
        } else {
          assert t[i] == u[i - 1];
        }
      }
    }
  }

  /** Inserting `r` puts it ahead of every record that has its date, and
      leaves the records of every other date as they were. */
  lemma {:induction false} InsertFilterByDate(r: Record, s: seq<Record>, d: string)
    ensures Filter(InsertByDate(r, s), HasDate(d))
      == if r.date == d then [r] + Filter(s, HasDate(d)) else Filter(s, HasDate(d))
  {
    if s == [] || !LexLess(r.date, s[0].date) {
      assert ([r] + s)[1..] == s;
    } else {
      LexIrreflexive(r.date);
      InsertFilterByDate(r, s[1..], d);
      assert ([s[0]] + InsertByDate(r, s[1..]))[1..] == InsertByDate(r, s[1..]);
    }
  }

  /** The listing order is sorted by date, descending, and keeps the stored
      order among records with the same date. */
  lemma {:induction false} SortByDateCorrect(rs: seq<Record>)
    ensures SortedDesc(SortByDate(rs))
    ensures SameOrderPerDate(SortByDate(rs), rs)
  {
    if rs != [] {
      SortByDateCorrect(rs[1..]);
      InsertKeepsSorted(rs[0], SortByDate(rs[1..]));
      forall d ensures Filter(SortByDate(rs), HasDate(d)) == Filter(rs, HasDate(d)) {
        InsertFilterByDate(rs[0], SortByDate(rs[1..]), d);
      }
    }
  }

  lemma {:induction false} FilterHasDateHead(s: seq<Record>)
    requires s != []
    ensures Filter(s, HasDate(s[0].date)) == [s[0]] + Filter(s[1..], HasDate(s[0].date))
  {
  }

  /** Two descending lists that agree on the order within each date start
      with the same record. */
  lemma SameHead(a: seq<Record>, b: seq<Record>)
    requires a != [] && b != []
    requires SortedDesc(a) && SortedDesc(b) && SameOrderPerDate(a, b)
    ensures a[0] == b[0]
  {
    var x, y := a[0], b[0];
    FilterHasDateHead(a);
    FilterHasDateHead(b);
    FilterMembership(b, HasDate(x.date), x);
    FilterMembership(a, HasDate(y.date), y);
    assert !LexLess(y.date, x.date) by {
      var j :| 0 <= j < |b| && b[j] == x;
      if j == 0 { LexIrreflexive(x.date); }
    }
    assert !LexLess(x.date, y.date) by {
      var j :| 0 <= j < |a| && a[j] == y;
      if j == 0 { LexIrreflexive(y.date); }
    }
    NotLessAntisymmetric(x.date, y.date);
    var fa, fb := Filter(a, HasDate(x.date)), Filter(b, HasDate(y.date));
    assert fa == fb;
    assert fa[0] == x && fb[0] == y;
  }

  /** Dropping a common head keeps the agreement within each date. */
  lemma SameOrderTails(a: seq<Record>, b: seq<Record>)
    requires a != [] && b != [] && a[0] == b[0] && SameOrderPerDate(a, b)
    ensures SameOrderPerDate(a[1..], b[1..])
  {
    var x := a[0];
    forall d ensures Filter(a[1..], HasDate(d)) == Filter(b[1..], HasDate(d)) {
      assert Filter(a, HasDate(d)) == Filter(b, HasDate(d));
      assert Filter(a, HasDate(d)) == (if x.date == d then [x] else []) + Filter(a[1..], HasDate(d));
      assert Filter(b, HasDate(d)) == (if x.date == d then [x] else []) + Filter(b[1..], HasDate(d));
      var k := if x.date == d then 1 else 0;
      assert Filter(a[1..], HasDate(d)) == Filter(a, HasDate(d))[k..];
      assert Filter(b[1..], HasDate(d)) == Filter(b, HasDate(d))[k..];
    }
  }

  /** Sorted by date and same order per date pin a sequence down: there is
      only one stable descending order of a collection, so the listing is
      the one `sorted(..., reverse=True)` produces. */
  lemma {:induction false} StableSortUnique(a: seq<Record>, b: seq<Record>)
    requires SortedDesc(a) && SortedDesc(b) && SameOrderPerDate(a, b)
    ensures a == b
    decreases |a|
  {
    if a == [] && b == [] {
    } else if a == [] {
      FilterHasDateHead(b);
      assert false;
    } else if b == [] {
      FilterHasDateHead(a);
      assert false;
    } else {
      SameHead(a, b);
      SameOrderTails(a, b);
      StableSortUnique(a[1..], b[1..]);
      assert a == [a[0]] + a[1..] && b == [b[0]] + b[1..];
    }
  }

  lemma {:induction false} TotalInsert(r: Record, s: seq<Record>)
    ensures Total(InsertByDate(r, s)) == r.amount + Total(s)
  {
    if s != [] && LexLess(r.date, s[0].date) {
      TotalInsert(r, s[1..]);
      assert ([s[0]] + InsertByDate(r, s[1..]))[1..] == InsertByDate(r, s[1..]);
    } else {
      assert ([r] + s)[1..] == s;
    }
  }

  /** Reordering for the listing does not change the total. */
  lemma {:induction false} TotalSortByDate(rs: seq<Record>)
    ensures Total(SortByDate(rs)) == Total(rs)
  {
    if rs != [] {
      TotalSortByDate(rs[1..]);
      TotalInsert(rs[0], SortByDate(rs[1..]));
    }
  }

  /** What `view_all` reports: "No expenses yet." or the rows in listing
      order with the total spent. */
  datatype ListingReport = NoExpenses | Rows(rows: seq<Record>, total: int)

  /** The running total the listing loop accumulates, one row at a time. */
  method RunningTotal(rows: seq<Record>) returns (total: int)
    ensures total == Total(rows)
  {
    total := 0;
    for i := 0 to |rows|
      invariant total == Total(rows[..i])
    {
      TotalAppend(rows[..i], [rows[i]]);
      assert rows[..i + 1] == rows[..i] + [rows[i]];
      total := total + rows[i].amount;
    }
    assert rows[..|rows|] == rows;
  }

  /** `view_all` on the loaded collection: the rows, sorted by date text
      latest first and stable among equal dates, are exactly the stored
      records, and the total is the sum of all amounts. */
  method ViewAll(records: seq<Record>) returns (v: ListingReport)
    ensures v.NoExpenses? <==> records == []
    ensures v.Rows? ==> v.rows == SortByDate(records)
    ensures v.Rows? ==> SortedDesc(v.rows) && SameOrderPerDate(v.rows, records)
    ensures v.Rows? ==> multiset(v.rows) == multiset(records)
    ensures v.Rows? ==> v.total == Total(records)
  {
    if records == [] {
      return NoExpenses;
    }
    var rows := SortByDate(records);
    var total := RunningTotal(rows);
    SortByDateCorrect(records);
    TotalSortByDate(records);
    return Rows(rows, total);
  }
}
