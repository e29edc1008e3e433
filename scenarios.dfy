/** Worked examples on a small stored collection of three expenses: two
    meals in January 2024 and a bus fare in February 2024. */
module Scenarios {
  import opened Wrappers
  import opened Text
  import opened Seqs
  import opened Dates
  import opened Records
  import opened Listing
  import opened Summary

  const Lunch := Record(1, "2024-01-05", "Lunch", "Food", 1000, "")
  const Dinner := Record(2, "2024-01-20", "Dinner", "Food", 2000, "")
  const Bus := Record(3, "2024-02-01", "Bus", "Transport", 500, "")

  /** The collection in the order it was added. */
  function Stored(): seq<Record> {
    [Lunch, Dinner, Bus]
  }

  /** The later dates come first in Python's ordering of the date texts. */
  lemma StoredDatesOrder()
    ensures LexLess(Lunch.date, Dinner.date)
    ensures LexLess(Dinner.date, Bus.date)
  {
    JanuaryDatesOrder();
    MonthsOrder();
  }

  lemma JanuaryDatesOrder()
    ensures LexLess("2024-01-05", "2024-01-20")
  {
    assert LexLess("05", "20");
    LexCommonPrefix("2024-01-", "05", "20");
    assert "2024-01-05" == "2024-01-" + "05" && "2024-01-20" == "2024-01-" + "20";
  }

  lemma MonthsOrder()
    ensures LexLess("2024-01-20", "2024-02-01")
  {
    assert LexLess("1-20", "2-01");
    LexCommonPrefix("2024-0", "1-20", "2-01");
    assert "2024-01-20" == "2024-0" + "1-20" && "2024-02-01" == "2024-0" + "2-01";
  }

  /** `view_all` lists the bus fare first, then the dinner, then the lunch. */
  lemma ViewAllExample()
    ensures SortByDate(Stored()) == [Bus, Dinner, Lunch]
  {
    StoredDatesOrder();
    SortRising(Lunch, Dinner, Bus);
  }

  /** Three records stored with rising dates are listed in reverse. */
  lemma SortRising(a: Record, b: Record, c: Record)
    requires LexLess(a.date, b.date) && LexLess(b.date, c.date)
    ensures SortByDate([a, b, c]) == [c, b, a]
  {
    var s := [a, b, c];
    assert s[0] == a && s[1..] == [b, c];
    SortTwoRising(b, c);
    LexTransitive(a.date, b.date, c.date);
    InsertBelowTwo(a, c, b);
  }

  lemma SortTwoRising(b: Record, c: Record)
    requires LexLess(b.date, c.date)
    ensures SortByDate([b, c]) == [c, b]
  {
    var s := [b, c];
    assert s[0] == b && s[1..] == [c];
    assert [c][0] == c && [c][1..] == [];
    assert SortByDate([c]) == InsertByDate(c, []) == [c];
    InsertBelowOne(b, c);
  }

  lemma InsertBelowOne(a: Record, c: Record)
    requires LexLess(a.date, c.date)
    ensures InsertByDate(a, [c]) == [c, a]
  {
    assert [c][1..] == [];
    assert InsertByDate(a, []) == [a];
  }

  lemma InsertBelowTwo(a: Record, c: Record, b: Record)
    requires LexLess(a.date, c.date) && LexLess(a.date, b.date)
    ensures InsertByDate(a, [c, b]) == [c, b, a]
  {
    assert [c, b][0] == c && [c, b][1..] == [b];
    InsertBelowOne(a, b);
  }

  /** `view_all` reports 35.00 spent. */
  lemma ViewAllTotalExample()
    ensures Total(Stored()) == 3500
  {
    var s := Stored();
    assert s[1..] == [Dinner, Bus] && s[1..][1..] == [Bus] && s[1..][1..][1..] == [];
  }

  /** The January records, in stored order. */
  lemma JanuaryRecords()
    ensures Filter(Stored(), InMonth(2024, 1)) == [Lunch, Dinner]
  {
    IsoExampleDates();
    KeepFirstTwo(Lunch, Dinner, Bus, InMonth(2024, 1));
  }

  lemma KeepFirstTwo(a: Record, b: Record, c: Record, p: Record -> bool)
    requires p(a) && p(b) && !p(c)
    ensures Filter([a, b, c], p) == [a, b]
  {
    var s := [a, b, c];
    assert s[0] == a && s[1..] == [b, c];
    assert [b, c][0] == b && [b, c][1..] == [c];
    assert [c][0] == c && [c][1..] == [];
    assert Filter([c], p) == [];
    assert Filter([b, c], p) == [b];
  }

  /** The three stored dates read strictly as the dates they name. */
  lemma IsoExampleDates()
    ensures StoredDate(Lunch.date) == Some(Date(2024, 1, 5))
    ensures StoredDate(Dinner.date) == Some(Date(2024, 1, 20))
    ensures StoredDate(Bus.date) == Some(Date(2024, 2, 1))
  {
    LunchDate();
    DinnerDate();
    BusDate();
  }

  lemma LunchDate()
    ensures StoredDate("2024-01-05") == Some(Date(2024, 1, 5))
  {
    StoredDateOfIsoText(Date(2024, 1, 5));
    assert IsoText(Date(2024, 1, 5)) == "2024-01-05";
  }

  lemma DinnerDate()
    ensures StoredDate("2024-01-20") == Some(Date(2024, 1, 20))
  {
    StoredDateOfIsoText(Date(2024, 1, 20));
    assert IsoText(Date(2024, 1, 20)) == "2024-01-20";
  }

  lemma BusDate()
    ensures StoredDate("2024-02-01") == Some(Date(2024, 2, 1))
  {
    StoredDateOfIsoText(Date(2024, 2, 1));
    assert IsoText(Date(2024, 2, 1)) == "2024-02-01";
  }

  /** `monthly_summary` for year "2024" and month "1": the two meals, 30.00
      in all, all of it under Food. */
  lemma MonthlySummaryExample(today: Date)
    ensures NumberOrDefault("2024", today.year) == Some(2024)
    ensures NumberOrDefault("1", today.month) == Some(1)
    ensures AllDatesReadable(Stored())
    ensures Filter(Stored(), InMonth(2024, 1)) == [Lunch, Dinner]
    ensures Total([Lunch, Dinner]) == 3000
    ensures FirstSeen(Categories([Lunch, Dinner])) == ["Food"]
    ensures CategorySum([Lunch, Dinner], "Food") == 3000
    ensures GroupFold([Lunch, Dinner]) == [("Food", 3000)]
  {
    NumberExamples(today);
    StoredDatesReadable();
    JanuaryRecords();
    OneCategory(Lunch, Dinner);
  }

  lemma NumberExamples(today: Date)
    ensures NumberOrDefault("2024", today.year) == Some(2024)
    ensures NumberOrDefault("1", today.month) == Some(1)
  {
    YearText();
    NumberOrDefaultReadsNumber(2024, today.year);
    assert IntText(1) == NatText(1) == "1";
    NumberOrDefaultReadsNumber(1, today.month);
  }

  lemma YearText()
    ensures IntText(2024) == "2024"
  {
    assert NatText(2) == "2";
    assert NatText(20) == NatText(2) + "0";
    assert NatText(202) == NatText(20) + "2";
    assert NatText(2024) == NatText(202) + "4";
  }

  lemma StoredDatesReadable()
    ensures AllDatesReadable(Stored())
  {
    IsoExampleDates();
    assert Stored()[0] == Lunch && Stored()[1] == Dinner && Stored()[2] == Bus;
  }

  /** Two records of one category make one dictionary entry. */
  lemma OneCategory(a: Record, b: Record)
    requires a.category == b.category
    ensures Total([a, b]) == a.amount + b.amount
    ensures FirstSeen(Categories([a, b])) == [a.category]
    ensures CategorySum([a, b], a.category) == a.amount + b.amount
    ensures GroupFold([a, b]) == [(a.category, a.amount + b.amount)]
  {
    TotalTwo(a, b);
    OneCategorySeen(a, b);
    OneCategoryFold(a, b);
  }

  lemma TotalTwo(a: Record, b: Record)
    ensures Total([a, b]) == a.amount + b.amount
  {
    assert [a, b][1..] == [b] && [b][1..] == [];
    assert Total([b]) == b.amount;
  }

  lemma OneCategorySeen(a: Record, b: Record)
    requires a.category == b.category
    ensures FirstSeen(Categories([a, b])) == [a.category]
    ensures CategorySum([a, b], a.category) == a.amount + b.amount
  {
    var s := [a, b];
    assert s[1..] == [b] && [b][1..] == [];
    assert Categories(s) == [a.category, a.category];
    assert [a.category, a.category][..1] == [a.category];
    assert [a.category][..0] == [];
    assert FirstSeen([a.category]) == [a.category];
    assert Filter([b], InCategory(a.category)) == [b];
    assert Filter(s, InCategory(a.category)) == s;
    TotalTwo(a, b);
  }

  lemma OneCategoryFold(a: Record, b: Record)
    requires a.category == b.category
    ensures GroupFold([a, b]) == [(a.category, a.amount + b.amount)]
  {
    var s := [a, b];
    assert [a][..0] == [] && s[..|s| - 1] == [a];
    assert GroupFold([a]) == Bump([], a.category, a.amount) == [(a.category, a.amount)];
    assert Bump([(a.category, a.amount)], b.category, b.amount) == [(a.category, a.amount + b.amount)];
  }
}
