/**
 * `decide`: one label per traveller record, in input order, from the rules
 * tried in the order of the `decisions` table (Quarantine, then Reject,
 * then Secondary), with Accept when none holds.
 *
 * The loop body in papers.py is empty and the watchlist set is built with a
 * call that raises; `DecideAsWritten` models that code, and `Decide` the
 * dispatch its comments describe and its tests expect.
 */
module Decision {
  import opened Json
  import opened Rules

  datatype Label = Quarantine | Reject | Secondary | Accept

  /** The strings `decide` returns. */
  function LabelText(verdict: Label): string {
    match verdict
    case Quarantine => "Quarantine"
    case Reject => "Reject"
    case Secondary => "Secondary"
    case Accept => "Accept"
  }

  /**
   * Every rule the dispatch reaches for this record can be evaluated
   * without raising: the country lookups always, the visa fields when
   * quarantine does not hold, the watchlist fields when rejection does not.
   */
  predicate Decidable(r: Record, ref: Reference, today: int) {
    && QuarantineDefined(r, ref.countries)
    && (!IsQuarantine(r, ref.countries) ==>
         && RejectionDefined(r)
         && (!IsRejection(r, today) ==> SecondaryDefined(r)))
  }

  /**
   * The first rule of the table that holds decides. Stated in terms of the
   * record: quarantine for an advisory at home or at the origin; otherwise
   * reject an incomplete record or a visitor without a current visa;
   * otherwise secondary for a watched passport or name; otherwise accept.
   */
  function DecideOne(r: Record, ref: Reference, today: int): (verdict: Label)
    requires Decidable(r, ref, today)
    ensures verdict == Quarantine <==>
      || CountryOf(r, "home", ref.countries).medicalAdvisory != ""
      || CountryOf(r, "from", ref.countries).medicalAdvisory != ""
    ensures verdict == Reject <==>
      && !IsQuarantine(r, ref.countries)
      && (!IsComplete(r) || (NeedsVisa(r) && !HasCurrentVisa(r, today)))
    ensures verdict == Secondary <==>
      && !IsQuarantine(r, ref.countries)
      && !IsRejection(r, today)
      && (|| (r["passport"].Str? && r["passport"].s in ref.watchPassports)
          || FullName(r["first_name"].s, r["last_name"].s) in ref.watchNames)
    ensures verdict == Accept <==>
      !IsQuarantine(r, ref.countries) && !IsRejection(r, today) && !IsSecondary(r, ref)
  {
    if IsQuarantine(r, ref.countries) then Quarantine
    else if IsRejection(r, today) then Reject
    else if IsSecondary(r, ref) then Secondary
    else Accept
  }

  /**
   * `decide` with the loop filled in: the reference data is built once
   * from the watchlist and the country table, then each record gets the
   * label of the first rule that holds.
   */
  method Decide(records: seq<Record>, watchlist: seq<WatchEntry>, countries: map<string, Country>, today: int)
    returns (results: seq<string>)
    requires forall i :: 0 <= i < |records| ==> Decidable(records[i], BuildReference(watchlist, countries), today)
    ensures |results| == |records|
    ensures forall i :: 0 <= i < |records| ==>
      results[i] == LabelText(DecideOne(records[i], BuildReference(watchlist, countries), today))
  {
    var ref := BuildReference(watchlist, countries);
    results := [];
    var k := 0;
    while k < |records|
      invariant 0 <= k <= |records|
      invariant |results| == k
      invariant forall i :: 0 <= i < k ==> results[i] == LabelText(DecideOne(records[i], ref, today))
    {
      results := results + [LabelText(DecideOne(records[k], ref, today))];
      k := k + 1;
    }
  }

  /** Distinct labels are reported as distinct strings, so the output determines each decision. */
  lemma LabelTextInjective(a: Label, b: Label)
    requires LabelText(a) == LabelText(b)
    ensures a == b
  {
  }

  /** Quarantine outranks rejection: an incomplete record from a country under advisory is quarantined. */
  lemma QuarantineBeatsReject(r: Record, ref: Reference, today: int)
    requires Decidable(r, ref, today) && IsQuarantine(r, ref.countries) && !IsComplete(r)
    ensures DecideOne(r, ref, today) == Quarantine
  {
  }

  /** Rejection outranks secondary: a watched traveller without a current visa is rejected. */
  lemma RejectBeatsSecondary(r: Record, ref: Reference, today: int)
    requires Decidable(r, ref, today) && !IsQuarantine(r, ref.countries)
    requires IsComplete(r) && NeedsVisa(r) && !HasCurrentVisa(r, today)
    ensures DecideOne(r, ref, today) == Reject
  {
  }

  // ---------------------------------------------------------------- as written

  /** What a call returns or the exception it raises. */
  datatype Outcome<T> = Returned(value: T) | Raised(exception: string)

  /** `" ".join(a, b)` as written: `str.join` takes a single iterable, so two arguments raise `TypeError`. */
  function JoinAsWritten(separator: string, a: string, b: string): Outcome<string> {
    Raised("TypeError")
  }

  /**
   * `decide` as written, once the files are loaded: building `watch_names`
   * calls the two-argument join once per watchlist entry, and the loop over
   * the records appends nothing.
   */
  function DecideAsWritten(records: seq<Record>, watchlist: seq<WatchEntry>): (outcome: Outcome<seq<string>>)
    ensures outcome.Raised? <==> |watchlist| > 0
    ensures outcome.Raised? ==> outcome.exception == "TypeError"
    ensures outcome.Returned? ==> outcome.value == []
  {
    if |watchlist| > 0 then
      match JoinAsWritten(" ", watchlist[0].firstName, watchlist[0].lastName)
      case Raised(e) => Raised(e)
      case Returned(_) => Returned([])
    else
      Returned([])
  }

  /**
   * As written, `decide` never labels a non-empty batch: it raises for any
   * non-empty watchlist and otherwise returns no labels at all.
   */
  lemma AsWrittenNeverLabels(records: seq<Record>, watchlist: seq<WatchEntry>)
    requires |records| > 0
    ensures |watchlist| > 0 ==> DecideAsWritten(records, watchlist) == Raised("TypeError")
    ensures DecideAsWritten(records, watchlist).Returned? ==> |DecideAsWritten(records, watchlist).value| != |records|
  {
  }
}
