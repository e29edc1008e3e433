/** The expense record the tracker stores, and the sum of amounts its
    listing and summary report. */
module Records {

  /** One stored expense. `date` is the text kept in the store (ISO
      YYYY-MM-DD when the tracker wrote it); `amount` is in hundredths of the
      currency unit. */
  datatype Record = Record(id: int, date: string, title: string, category: string, amount: int, note: string)

  /** The sum of the amounts of `rs`. */
  function Total(rs: seq<Record>): int {
    if rs == [] then 0 else rs[0].amount + Total(rs[1..])
  }

  /** The total of two collections side by side is the sum of their totals. */
  lemma {:induction false} TotalAppend(a: seq<Record>, b: seq<Record>)
    ensures Total(a + b) == Total(a) + Total(b)
  {
    if a == [] {
      assert a + b == b;
    } else {
      assert (a + b)[1..] == a[1..] + b;
      TotalAppend(a[1..], b);
    }
  }
}
