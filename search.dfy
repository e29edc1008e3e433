/** `search`: the records whose title or category contains the query, case
    ignored, or whose date text contains it, in stored order. */
module Search {
  import opened Records
  import opened Seqs
  import opened Text

  /** The test `search` applies to a record, for a query already stripped
      and lowered: the lowered title, the lowered category or the raw date
      text contains it. */
  predicate MatchesQuery(q: string, r: Record) {
    Contains(Lower(r.title), q) || Contains(Lower(r.category), q) || Contains(r.date, q)
  }

  function Matcher(q: string): Record -> bool {
    (r: Record) => MatchesQuery(q, r)
  }

  /** The query as `search` uses it: stripped, then lowered. */
  function NormalQuery(query: string): (q: string)
    ensures |q| <= |query|
    ensures q == [] <==> forall i :: 0 <= i < |query| ==> IsSpace(query[i])
    ensures q == [] || (!IsSpace(q[0]) && !IsSpace(q[|q| - 1]))
    ensures forall i :: 0 <= i < |q| ==> !IsUpper(q[i])
  {
    var t := Strip(query);
    if t == [] then []
    else
      SpaceLower(t[0]);
      SpaceLower(t[|t| - 1]);
      Lower(t)
  }

  /** `search` on the loaded collection; an empty result is "No match.". */
  function SearchRecords(records: seq<Record>, query: string): (found: seq<Record>)
    ensures |found| <= |records|
    ensures forall i :: 0 <= i < |found| ==> MatchesQuery(NormalQuery(query), found[i])
  {
    Filter(records, Matcher(NormalQuery(query)))
  }

  /** A record is found exactly when it is stored and matches the query. */
  lemma SearchMembership(records: seq<Record>, query: string, r: Record)
    ensures r in SearchRecords(records, query) <==> r in records && MatchesQuery(NormalQuery(query), r)
  {
    FilterMembership(records, Matcher(NormalQuery(query)), r);
  }

  /** A matching record is listed as many times as it is stored, and no
      other record is listed. */
  lemma SearchCount(records: seq<Record>, query: string)
    ensures forall r :: multiset(SearchRecords(records, query))[r]
                       == if MatchesQuery(NormalQuery(query), r) then multiset(records)[r] else 0
  {
    FilterCount(records, Matcher(NormalQuery(query)));
  }

  /** The results come in the order the records are stored, not re-sorted. */
  lemma SearchKeepsOrder(records: seq<Record>, query: string)
    ensures IsSubsequence(SearchRecords(records, query), records)
  {
    FilterIsSubsequence(records, Matcher(NormalQuery(query)));
  }

  /** A blank query is contained in every text, so it finds every record. */
  lemma SearchBlankQuery(records: seq<Record>, query: string)
    requires Strip(query) == ""
    ensures SearchRecords(records, query) == records
  {
    assert NormalQuery(query) == "";
    forall i | 0 <= i < |records| ensures Matcher("")(records[i]) {
      assert IsPrefix("", Lower(records[i].title));
    }
    FilterKeepsAll(records, Matcher(""));
  }

  /** Case does not matter for title and category: a query that differs only
      in the case of its letters finds the same records. */
  lemma SearchIgnoresCase(records: seq<Record>, query: string)
    ensures SearchRecords(records, query) == SearchRecords(records, Lower(query))
  {
    StripLower(query);
    LowerIdempotent(Strip(query));
  }
}
