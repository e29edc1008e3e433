/** The two operations that change the store: `add_expense` and `delete`.
    Each loads the collection, computes the new one, and saves it only when
    it succeeds and something changed. The clock reading and the
    timestamp-derived id are parameters. */
module Tracker {
  import opened Wrappers
  import opened Text
  import opened Seqs
  import opened Dates
  import opened Records
  import opened Storage
  import opened Summary

  // ---------- add_expense ----------

  /** The two `ValueError`s `add_expense` reports as "Invalid input". */
  datatype AddError = InvalidDate | InvalidAmount

  /** The date `add_expense` uses: today for a blank text, else what
      `parse_date` reads. */
  function ChosenDate(dateText: string, today: Date): (r: Option<Date>)
    ensures ValidDate(today) && r.Some? ==> ValidDate(r.value)
    ensures Strip(dateText) == [] ==> r == Some(today)
    ensures Strip(dateText) != [] ==> r == FirstFormatMatch(Strip(dateText), Formats)
  {
    var t := Strip(dateText);
    if t == [] then Some(today) else FirstFormatMatch(t, Formats)
  }

  /** The record `add_expense` builds from its inputs, or the error it
      reports. The date is checked before the amount, as the prompts come. */
  function NewRecord(dateText: string, title: string, categoryText: string, amountText: string,
                     note: string, today: Date, id: int): (r: Result<Record, AddError>)
    requires ValidDate(today)
    ensures r == Failure(InvalidDate) <==> ChosenDate(dateText, today).None?
    ensures r == Failure(InvalidAmount) <==>
      ChosenDate(dateText, today).Some? && ParseAmount(Strip(amountText)).None?
    ensures r.Success? ==>
      && r.value.id == id
      && StoredDate(r.value.date) == ChosenDate(dateText, today)
      && (Strip(dateText) == [] ==> StoredDate(r.value.date) == Some(today))
      && r.value.title == Strip(title)
      && r.value.category == (if Strip(categoryText) == [] then "Other" else Strip(categoryText))
      && r.value.category != []
      && Some(r.value.amount) == ParseAmount(Strip(amountText))
      && r.value.note == Strip(note)
  {
    var date := ChosenDate(dateText, today);
    if date.None? then Failure(InvalidDate)
    else
      var amount := ParseAmount(Strip(amountText));
      if amount.None? then Failure(InvalidAmount)
      else
        var category := Strip(categoryText);
        StoredDateIff(IsoText(date.value), date.value);
        Success(Record(id, IsoText(date.value), Strip(title), if category == [] then "Other" else category,
                       amount.value, Strip(note)))
  }

  /** `add_expense`: on an input error nothing is loaded or saved; otherwise
      the new record is appended after every loaded record and the whole
      collection is saved once. */
  method AddExpense(store: Store, dateText: string, title: string, categoryText: string, amountText: string,
                    note: string, today: Date, id: int) returns (result: Result<Record, AddError>)
    requires ValidDate(today)
    modifies store
    ensures result == NewRecord(dateText, title, categoryText, amountText, note, today, id)
    ensures result.Failure? ==> store.backing == old(store.backing) && store.writes == old(store.writes)
    ensures result.Success? ==>
      store.backing == Saved(old(store.Load()) + [result.value]) && store.writes == old(store.writes) + 1
  {
    result := NewRecord(dateText, title, categoryText, amountText, note, today, id);
    if result.Failure? {
      return;
    }
    var data := store.Load();
    data := data + [result.value];
    store.Save(data);
  }

  /** The date text `add_expense` stores never makes the monthly summary
      fail, and `parse_date` reads it back as the date that was entered. */
  lemma ChosenDateReadsBack(dateText: string, today: Date)
    requires ValidDate(today) && ChosenDate(dateText, today).Some?
    ensures StoredDate(IsoText(ChosenDate(dateText, today).value)) == ChosenDate(dateText, today)
    ensures FirstFormatMatch(IsoText(ChosenDate(dateText, today).value), Formats) == ChosenDate(dateText, today)
  {
    var d := ChosenDate(dateText, today).value;
    StoredDateOfIsoText(d);
    ParseDateReadsIsoText(d);
  }

  /** An added record joins the end of its own month's records in the
      monthly summary filter, and no other month's. */
  lemma AddedRecordJoinsItsMonth(records: seq<Record>, rec: Record, year: int, month: int)
    requires StoredDate(rec.date).Some?
    ensures Filter(records + [rec], InMonth(year, month)) ==
      Filter(records, InMonth(year, month))
      + (if StoredDate(rec.date).value.year == year && StoredDate(rec.date).value.month == month then [rec] else [])
  {
    FilterAppend(records, [rec], InMonth(year, month));
    assert [rec][1..] == [];
  }

  // ---------- delete ----------

  function KeepsId(id: int): Record -> bool {
    (r: Record) => r.id != id
  }

  /** `[r for r in data if r["id"] != id_num]`. */
  function RemoveId(rs: seq<Record>, id: int): (kept: seq<Record>)
    ensures |kept| <= |rs|
    ensures forall i :: 0 <= i < |kept| ==> kept[i].id != id
  {
    Filter(rs, KeepsId(id))
  }

  /** How many records carry `id`. */
  function Occurrences(rs: seq<Record>, id: int): nat {
    if rs == [] then 0 else (if rs[0].id == id then 1 else 0) + Occurrences(rs[1..], id)
  }

  /** Removal drops exactly the records carrying `id`, keeping the others in
      their stored order. */
  lemma RemoveIdKeeps(rs: seq<Record>, id: int, r: Record)
    ensures r in RemoveId(rs, id) <==> r in rs && r.id != id
    ensures IsSubsequence(RemoveId(rs, id), rs)
  {
    FilterMembership(rs, KeepsId(id), r);
    FilterIsSubsequence(rs, KeepsId(id));
  }

  /** A record with another id is kept as many times as it is stored, and
      none carrying `id` is kept. */
  lemma RemoveIdCount(rs: seq<Record>, id: int)
    ensures forall r :: multiset(RemoveId(rs, id))[r] == if r.id != id then multiset(rs)[r] else 0
  {
    FilterCount(rs, KeepsId(id));
  }

  /** The collection shrinks by the number of records carrying `id`: by one
      for an id present once, not at all for an absent one. */
  lemma {:induction false} RemoveIdLength(rs: seq<Record>, id: int)
    ensures |RemoveId(rs, id)| == |rs| - Occurrences(rs, id)
    ensures |RemoveId(rs, id)| == |rs| <==> forall i :: 0 <= i < |rs| ==> rs[i].id != id
  {
    if rs != [] {
      RemoveIdLength(rs[1..], id);
    }
    FilterLength(rs, KeepsId(id));
  }

  /** What `delete` reports: "Invalid ID.", "ID not found." or "Deleted
      successfully!". */
  datatype DeleteOutcome = InvalidId | NotFound | Deleted

  /** `delete`: id text that is not an integer changes nothing; otherwise
      the records carrying the id are removed and the rest saved, unless
      none carried it, in which case nothing is written. */
  method Delete(store: Store, idText: string) returns (outcome: DeleteOutcome)
    modifies store
    ensures outcome == InvalidId <==> ParseInt(Strip(idText)).None?
    ensures outcome != Deleted ==> store.backing == old(store.backing) && store.writes == old(store.writes)
    ensures outcome == NotFound ==>
      forall i :: 0 <= i < |old(store.Load())| ==> old(store.Load())[i].id != ParseInt(Strip(idText)).value
    ensures outcome == Deleted ==>
      && store.backing == Saved(RemoveId(old(store.Load()), ParseInt(Strip(idText)).value))
      && Occurrences(old(store.Load()), ParseInt(Strip(idText)).value) > 0
      && store.writes == old(store.writes) + 1
  {
    var id := ParseInt(Strip(idText));
    if id.None? {
      return InvalidId;
    }
    var data := store.Load();
    var newData := RemoveId(data, id.value);
    RemoveIdLength(data, id.value);
    if |newData| == |data| {
      return NotFound;
    }
    store.Save(newData);
    return Deleted;
  }
}
