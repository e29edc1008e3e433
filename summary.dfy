/** `monthly_summary`: the records of one month, their total, and the
    subtotal of each category in the order categories first appear. */
module Summary {
  import opened Wrappers
  import opened Text
  import opened Seqs
  import opened Dates
  import opened Records

  /** The month test of the filter: the stored date reads strictly as a date
      of that year and month. */
  function InMonth(year: int, month: int): Record -> bool {
    (r: Record) =>
      var d := StoredDate(r.date);
      d.Some? && d.value.year == year && d.value.month == month
  }

  /** Every stored date reads strictly; otherwise `fromisoformat` raises
      while the filter runs and the whole summary fails. */
  predicate AllDatesReadable(rs: seq<Record>) {
    forall i :: 0 <= i < |rs| ==> StoredDate(rs[i].date).Some?
  }

  /** The filter keeps, in stored order, exactly the records dated in the
      given year and month. */
  lemma MonthFilterMembership(records: seq<Record>, year: int, month: int, r: Record)
    ensures r in Filter(records, InMonth(year, month)) <==>
      r in records && StoredDate(r.date).Some?
      && StoredDate(r.date).value.year == year && StoredDate(r.date).value.month == month
    ensures IsSubsequence(Filter(records, InMonth(year, month)), records)
  {
    FilterMembership(records, InMonth(year, month), r);
    FilterIsSubsequence(records, InMonth(year, month));
  }

  /** A record of the month is kept as many times as it is stored, and no
      other record is kept. */
  lemma MonthFilterCount(records: seq<Record>, year: int, month: int)
    ensures forall r :: multiset(Filter(records, InMonth(year, month)))[r]
                       == if StoredDate(r.date).Some? && StoredDate(r.date).value.year == year
                             && StoredDate(r.date).value.month == month
                          then multiset(records)[r] else 0
  {
    FilterCount(records, InMonth(year, month));
  }

  function InCategory(c: string): Record -> bool {
    (r: Record) => r.category == c
  }

  /** The sum of the amounts of the records of category `c`. */
  function CategorySum(rs: seq<Record>, c: string): int {
    Total(Filter(rs, InCategory(c)))
  }

  function Categories(rs: seq<Record>): seq<string> {
    seq(|rs|, i requires 0 <= i < |rs| => rs[i].category)
  }

  /** An insertion-ordered dictionary from category to subtotal, as a list
      of entries. */
  type Entries = seq<(string, int)>

  function Keys(e: Entries): seq<string> {
    if e == [] then [] else [e[0].0] + Keys(e[1..])
  }

  /** `by_cat.get(k, 0)`. */
  function Get(e: Entries, k: string): (v: int)
    ensures (forall i :: 0 <= i < |e| ==> e[i].0 != k) ==> v == 0
    ensures forall i :: 0 <= i < |e| && e[i].0 == k && (forall j :: 0 <= j < i ==> e[j].0 != k) ==> v == e[i].1
  {
    if e == [] then 0 else if e[0].0 == k then e[0].1 else Get(e[1..], k)
  }

  function SumValues(e: Entries): int {
    if e == [] then 0 else e[0].1 + SumValues(e[1..])
  }

  /** `by_cat[k] = by_cat.get(k, 0) + a`: an existing key keeps its place
      and gains `a`, a new key is appended with `a`; every other key keeps
      its value, and the values grow by `a` in all. */
  function Bump(e: Entries, k: string, a: int): (r: Entries)
    ensures Keys(r) == if k in Keys(e) then Keys(e) else Keys(e) + [k]
    ensures forall c :: Get(r, c) == Get(e, c) + (if c == k then a else 0)
    ensures SumValues(r) == SumValues(e) + a
  {
    if e == [] then [(k, a)]
    else if e[0].0 == k then [(k, e[0].1 + a)] + e[1..]
    else
      var r := [e[0]] + Bump(e[1..], k, a);
      assert r[1..] == Bump(e[1..], k, a);
      r
  }

  /** Adding one record to the end changes only its own category's sum. */
  lemma CategorySumSnoc(rs: seq<Record>, r: Record, c: string)
    ensures CategorySum(rs + [r], c) == CategorySum(rs, c) + (if r.category == c then r.amount else 0)
  {
    FilterAppend(rs, [r], InCategory(c));
    TotalAppend(Filter(rs, InCategory(c)), Filter([r], InCategory(c)));
    assert [r][1..] == [];
  }

  lemma CategoriesSnoc(rs: seq<Record>, r: Record)
    ensures Categories(rs + [r]) == Categories(rs) + [r.category]
  {
  }

  /** `e` is the category dictionary of `rs`: its keys are the categories
      in first-seen order, each holds its category's sum, and the values add
      up to the total. */
  ghost predicate Tallies(e: Entries, rs: seq<Record>) {
    && Keys(e) == FirstSeen(Categories(rs))
    && (forall c :: Get(e, c) == CategorySum(rs, c))
    && SumValues(e) == Total(rs)
  }

  lemma KeysStep(rs: seq<Record>, r: Record, e: Entries)
    requires Keys(e) == FirstSeen(Categories(rs))
    ensures Keys(Bump(e, r.category, r.amount)) == FirstSeen(Categories(rs + [r]))
  {
    CategoriesSnoc(rs, r);
    FirstSeenSnoc(Categories(rs), r.category);
  }

  lemma GetStep(rs: seq<Record>, r: Record, e: Entries, c: string)
    requires Get(e, c) == CategorySum(rs, c)
    ensures Get(Bump(e, r.category, r.amount), c) == CategorySum(rs + [r], c)
  {
    CategorySumSnoc(rs, r, c);
  }

  /** One turn of the `by_cat` loop keeps the dictionary in step with the
      records seen so far. */
  lemma GroupStep(rs: seq<Record>, r: Record, e: Entries)
    requires Tallies(e, rs)
    ensures Tallies(Bump(e, r.category, r.amount), rs + [r])
  {
    var b := Bump(e, r.category, r.amount);
    KeysStep(rs, r, e);
    forall c ensures Get(b, c) == CategorySum(rs + [r], c) {
      GetStep(rs, r, e, c);
    }
    TotalAppend(rs, [r]);
    assert Total([r]) == r.amount;
  }

  /** The dictionary `by_cat` holds after the loop has seen `rs`. */
  function GroupFold(rs: seq<Record>): Entries {
    if rs == [] then []
    else
      var last := rs[|rs| - 1];
      Bump(GroupFold(rs[..|rs| - 1]), last.category, last.amount)
  }

  /** The folded dictionary is the category dictionary of `rs`. */
  lemma {:induction false} GroupFoldTallies(rs: seq<Record>)
    ensures Tallies(GroupFold(rs), rs)
  {
    if rs != [] {
      var init, last := rs[..|rs| - 1], rs[|rs| - 1];
      assert rs == init + [last];
      assert GroupFold(rs) == Bump(GroupFold(init), last.category, last.amount);
      GroupFoldTallies(init);
      GroupStep(init, last, GroupFold(init));
    }
  }

  /** The loop that fills `by_cat`: one entry per category of `rs`, in the
      order categories first appear, each holding the sum of that category's
      amounts; the entries add up to the total of `rs`. */
  method GroupByCategory(rs: seq<Record>) returns (byCategory: Entries)
    ensures byCategory == GroupFold(rs)
    ensures Keys(byCategory) == FirstSeen(Categories(rs))
    ensures forall c :: Get(byCategory, c) == CategorySum(rs, c)
    ensures SumValues(byCategory) == Total(rs)
  {
    byCategory := [];
    for i := 0 to |rs|
      invariant byCategory == GroupFold(rs[..i])
    {
      assert rs[..i + 1][..i] == rs[..i];
      byCategory := Bump(byCategory, rs[i].category, rs[i].amount);
    }
    assert rs[..|rs|] == rs;
    GroupFoldTallies(rs);
  }

  /** The year or month the summary uses: the current one when the text is
      blank, else `int(text)`; `None` is the `ValueError` of `int`. */
  function NumberOrDefault(text: string, default: int): (r: Option<int>)
    ensures (forall i :: 0 <= i < |text| ==> IsSpace(text[i])) ==> r == Some(default)
    ensures Strip(text) != [] ==> r == ParseInt(Strip(text))
  {
    var t := Strip(text);
    if t == [] then Some(default) else ParseInt(t)
  }

  /** A year or month typed as `str(n)` is read as `n`. */
  lemma NumberOrDefaultReadsNumber(n: int, default: int)
    ensures NumberOrDefault(IntText(n), default) == Some(n)
  {
    var t := IntText(n);
    assert t[|t| - 1] == NatText(if n < 0 then -n else n)[|t| - 1 - (if n < 0 then 1 else 0)];
    StripUnspaced(t);
    IntTextRoundTrip(n);
  }

  /** What `monthly_summary` reports. `InvalidNumber` and `BadStoredDate`
      are the uncaught `ValueError`s of `int` and `fromisoformat`;
      `NoRecords` is "No records.". */
  datatype MonthReport =
    | InvalidNumber
    | BadStoredDate
    | NoRecords
    | Report(year: int, month: int, filtered: seq<Record>, total: int, byCategory: Entries)

  /** `monthly_summary` on the loaded collection: the records of the month
      in stored order, their total, and one entry per category present, in
      first-seen order, holding that category's subtotal; the subtotals add
      up to the total. */
  method MonthlySummary(records: seq<Record>, yearText: string, monthText: string, today: Date)
    returns (s: MonthReport)
    ensures s.InvalidNumber? <==>
      NumberOrDefault(yearText, today.year).None? || NumberOrDefault(monthText, today.month).None?
    ensures s.BadStoredDate? <==> !s.InvalidNumber? && !AllDatesReadable(records)
    ensures s.NoRecords? <==>
      !s.InvalidNumber? && !s.BadStoredDate? &&
      Filter(records, InMonth(NumberOrDefault(yearText, today.year).value, NumberOrDefault(monthText, today.month).value)) == []
    ensures s.Report? ==>
      && s.year == NumberOrDefault(yearText, today.year).value
      && s.month == NumberOrDefault(monthText, today.month).value
      && s.filtered == Filter(records, InMonth(s.year, s.month))
      && s.filtered != []
      && s.total == Total(s.filtered)
      && Keys(s.byCategory) == FirstSeen(Categories(s.filtered))
      && (forall c :: Get(s.byCategory, c) == CategorySum(s.filtered, c))
      && SumValues(s.byCategory) == s.total
  {
    var year := NumberOrDefault(yearText, today.year);
    var month := NumberOrDefault(monthText, today.month);
    if year.None? || month.None? {
      return InvalidNumber;
    }
    if !AllDatesReadable(records) {
      return BadStoredDate;
    }
    var filtered := Filter(records, InMonth(year.value, month.value));
    if filtered == [] {
      return NoRecords;
    }
    var total := Total(filtered);
    var byCategory := GroupByCategory(filtered);
    return Report(year.value, month.value, filtered, total, byCategory);
  }
}
