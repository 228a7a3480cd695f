/**
 * The rule predicates `is_quarantine`, `is_rejection` and `is_secondary`,
 * the visa-age check `is_valid_visa`, and the reference data they consult.
 * The source keeps the reference data in module globals; here it is an
 * immutable value passed to each rule.
 */
module Rules {
  import opened Json
  import opened Formats
  import opened Calendar
  import opened DateFormat

  /** `REQUIRED_FIELDS` */
  const RequiredFields: seq<string> :=
    ["passport", "first_name", "last_name", "birth_date", "home", "entry_reason", "from"]

  /** One entry of the country table. No rule reads the two visa flags. */
  datatype Country = Country(visitorVisaRequired: bool, transitVisaRequired: bool, medicalAdvisory: string)

  /** One entry of the watchlist. */
  datatype WatchEntry = WatchEntry(firstName: string, lastName: string, passport: string)

  /** The country table and the two watchlist sets `decide` builds. */
  datatype Reference = Reference(countries: map<string, Country>, watchPassports: set<string>, watchNames: set<string>)

  /**
   * The name the watchlist is matched on. The source writes
   * `" ".join(first, last)`, which raises `TypeError` (`str.join` takes one
   * iterable); this is the evident intent, `first + " " + last`.
   */
  function FullName(first: string, last: string): string {
    first + " " + last
  }

  /** `watch_passports` and `watch_names` built from the watchlist, next to the country table. */
  function BuildReference(watchlist: seq<WatchEntry>, countries: map<string, Country>): Reference {
    Reference(
      countries,
      set e | e in watchlist :: e.passport,
      set e | e in watchlist :: FullName(e.firstName, e.lastName))
  }

  /**
   * The watch sets hold exactly the passports and the joined names of the
   * watchlist entries, and the country table is passed through unchanged.
   */
  lemma WatchSetsMatchWatchlist(watchlist: seq<WatchEntry>, countries: map<string, Country>, passport: string, name: string)
    ensures BuildReference(watchlist, countries).countries == countries
    ensures passport in BuildReference(watchlist, countries).watchPassports <==>
      exists i :: 0 <= i < |watchlist| && watchlist[i].passport == passport
    ensures name in BuildReference(watchlist, countries).watchNames <==>
      exists i :: 0 <= i < |watchlist| && FullName(watchlist[i].firstName, watchlist[i].lastName) == name
  {
    var ref := BuildReference(watchlist, countries);
    if passport in ref.watchPassports {
      var e :| e in watchlist && e.passport == passport;
      var i :| 0 <= i < |watchlist| && watchlist[i] == e;
    }
    if name in ref.watchNames {
      var e :| e in watchlist && FullName(e.firstName, e.lastName) == name;
      var i :| 0 <= i < |watchlist| && watchlist[i] == e;
    }
  }

  // ---------------------------------------------------------------- quarantine

  /**
   * `record[key]["country"]` is a string naming a country of the table;
   * otherwise `is_quarantine` raises `KeyError` (or `TypeError`).
   */
  predicate HasKnownCountry(r: Record, key: string, countries: map<string, Country>) {
    && key in r && r[key].Obj?
    && "country" in r[key].fields && r[key].fields["country"].Str?
    && r[key].fields["country"].s in countries
  }

  function CountryOf(r: Record, key: string, countries: map<string, Country>): Country
    requires HasKnownCountry(r, key, countries)
  {
    countries[r[key].fields["country"].s]
  }

  predicate QuarantineDefined(r: Record, countries: map<string, Country>) {
    HasKnownCountry(r, "home", countries) && HasKnownCountry(r, "from", countries)
  }

  /** Python's `any` over a list of advisories: some advisory is non-empty. */
  function AnyAdvisory(advisories: seq<string>): (b: bool)
    ensures b <==> exists i :: 0 <= i < |advisories| && advisories[i] != ""
  {
    if |advisories| == 0 then false
    else advisories[0] != "" || AnyAdvisory(advisories[1..])
  }

  /**
   * `is_quarantine`: the home country or the country travelled from
   * has a medical advisory. No other field is read.
   */
  function IsQuarantine(r: Record, countries: map<string, Country>): (q: bool)
    requires QuarantineDefined(r, countries)
    ensures q <==>
      || CountryOf(r, "home", countries).medicalAdvisory != ""
      || CountryOf(r, "from", countries).medicalAdvisory != ""
  {
    var home, via := r["home"].fields["country"].s, r["from"].fields["country"].s;
    var advisories := [countries[home].medicalAdvisory, countries[via].medicalAdvisory];
    assert advisories[1] == countries[via].medicalAdvisory;
    AnyAdvisory(advisories)
  }

  /** A `via` field, whatever it holds, does not affect quarantine. */
  lemma QuarantineIgnoresVia(r: Record, countries: map<string, Country>, via: Value)
    requires QuarantineDefined(r, countries)
    ensures QuarantineDefined(r["via" := via], countries)
    ensures IsQuarantine(r["via" := via], countries) == IsQuarantine(r, countries)
  {
  }

  // ---------------------------------------------------------------- rejection

  /** Python's `all` over `record.get(field, "")` for the given fields, in order. */
  function AllPresent(r: Record, fields: seq<string>): (ok: bool)
    ensures ok <==> forall i :: 0 <= i < |fields| ==> fields[i] in r && Truthy(r[fields[i]])
  {
    if |fields| == 0 then true
    else Truthy(Get(r, fields[0], Str(""))) && AllPresent(r, fields[1..])
  }

  /** Every required field is present with a truthy value. */
  predicate IsComplete(r: Record) {
    AllPresent(r, RequiredFields)
  }

  /** The entry reason is `visit` or `transit`, the two that need a visa. */
  predicate NeedsVisa(r: Record) {
    var reason := Get(r, "entry_reason", Null);
    reason == Str("visit") || reason == Str("transit")
  }

  /**
   * As far as `is_rejection` reads the visa, it has the types the code
   * assumes: a truthy visa is a dict (else `.get` raises `AttributeError`),
   * its code is a string (else `re.match` raises `TypeError`), and so is
   * its date once the code has passed (else `strptime` raises `TypeError`).
   */
  predicate VisaReadable(visa: Value) {
    Truthy(visa) ==>
      && visa.Obj?
      && Get(visa.fields, "code", Str("")).Str?
      && (ValidVisaFormat(Get(visa.fields, "code", Str("")).s) ==> Get(visa.fields, "date", Str("")).Str?)
  }

  predicate RejectionDefined(r: Record) {
    IsComplete(r) && NeedsVisa(r) ==> VisaReadable(Get(r, "visa", Null))
  }

  /** `365 * 2`: the visa window is a fixed number of days, not two calendar years. */
  const VisaLifetimeDays := 365 * 2

  /** The day number of the day a visa dated `date` was issued. */
  function IssueDay(date: string): int
    requires ValidDateFormat(date)
  {
    DayNumber(ParseDate(date).value)
  }

  /**
   * `is_valid_visa`: fewer than 730 whole days have passed since the issue
   * date. `today` is the day number of the current date. The issue time is
   * midnight and `timedelta.days` rounds down, so the whole days elapsed
   * are `today - IssueDay(date)` at any time of day. Where the calendar
   * reaches that far, the visa is valid on every day before the date 730
   * days after issue.
   */
  function IsValidVisa(date: string, today: int): (valid: bool)
    requires ValidDateFormat(date)
    ensures IssueDay(date) + VisaLifetimeDays <= MaxDayNumber ==>
      (valid <==> today < DayNumber(AddDays(ParseDate(date).value, VisaLifetimeDays)))
  {
    today - IssueDay(date) < VisaLifetimeDays
  }

  /**
   * The record holds a visa that passes all three checks: a non-empty
   * object whose code has the visa format and whose date is a real date
   * issued fewer than 730 days before `today`.
   */
  predicate HasCurrentVisa(r: Record, today: int) {
    && "visa" in r && r["visa"].Obj?
    && "code" in r["visa"].fields && r["visa"].fields["code"].Str?
    && ValidVisaFormat(r["visa"].fields["code"].s)
    && "date" in r["visa"].fields && r["visa"].fields["date"].Str?
    && ParseDate(r["visa"].fields["date"].s).Some?
    && today - DayNumber(ParseDate(r["visa"].fields["date"].s).value) < 730
  }

  /**
   * `is_rejection`: an incomplete record is rejected; a complete one is
   * rejected only when it enters to visit or transit without a current
   * visa. No country data is consulted: there is no per-country visa
   * requirement and no exemption for the home country.
   */
  function IsRejection(r: Record, today: int): (reject: bool)
    requires RejectionDefined(r)
    ensures (exists i :: 0 <= i < |RequiredFields| && (RequiredFields[i] !in r || !Truthy(r[RequiredFields[i]]))) ==> reject
    ensures IsComplete(r) && !NeedsVisa(r) ==> !reject
    ensures IsComplete(r) && NeedsVisa(r) ==> (reject <==> !HasCurrentVisa(r, today))
  {
    if !IsComplete(r) then true
    else if !NeedsVisa(r) then false
    else
      var visa := Get(r, "visa", Null);
      if Truthy(visa) then
        var code, date := Get(visa.fields, "code", Str("")), Get(visa.fields, "date", Str(""));
        !(ValidVisaFormat(code.s) && ValidDateFormat(date.s) && IsValidVisa(date.s, today))
      else
        true
  }

  /** Replacing the home country by any other non-empty value never changes the rejection verdict. */
  lemma RejectionIgnoresHome(r: Record, today: int, home: Value)
    requires RejectionDefined(r) && Truthy(home) && "home" in r && Truthy(r["home"])
    ensures RejectionDefined(r["home" := home])
    ensures IsRejection(r["home" := home], today) == IsRejection(r, today)
  {
    var r' := r["home" := home];
    assert IsComplete(r') == IsComplete(r);
  }

  /** A visa is valid on every day up to its last valid day: validity only runs out. */
  lemma VisaValidityMonotone(date: string, today: int, earlier: int)
    requires ValidDateFormat(date)
    ensures IsValidVisa(date, today) && earlier <= today ==> IsValidVisa(date, earlier)
  {
  }

  /** A visa dated today or later is valid. */
  lemma FutureVisaValid(date: string, today: int)
    requires ValidDateFormat(date) && today <= IssueDay(date)
    ensures IsValidVisa(date, today)
  {
  }

  /** Counted in calendar days from the issue date, a visa is valid on days 0 to 729 and invalid from day 730. */
  lemma VisaValidForDaysAfterIssue(date: string, n: nat)
    requires ValidDateFormat(date)
    ensures IssueDay(date) + n <= MaxDayNumber ==>
      (IsValidVisa(date, DayNumber(AddDays(ParseDate(date).value, n))) <==> n < 730)
  {
  }

  // ---------------------------------------------------------------- secondary

  /**
   * `record["passport"]` can be looked up in a set and the two names are
   * strings that can be joined; otherwise `is_secondary` raises.
   */
  predicate SecondaryDefined(r: Record) {
    && "passport" in r && Hashable(r["passport"])
    && "first_name" in r && r["first_name"].Str?
    && "last_name" in r && r["last_name"].Str?
  }

  /**
   * `is_secondary`: the passport or the full name is on the watchlist.
   * Set membership compares values, so a passport that is not a string
   * never matches a watched passport.
   */
  predicate IsSecondary(r: Record, ref: Reference)
    requires SecondaryDefined(r)
  {
    || (r["passport"].Str? && r["passport"].s in ref.watchPassports)
    || FullName(r["first_name"].s, r["last_name"].s) in ref.watchNames
  }

  /**
   * Against the sets built from a watchlist, a record goes to secondary
   * exactly when some entry has its passport or its joined full name.
   */
  lemma SecondaryMatchesWatchlist(r: Record, watchlist: seq<WatchEntry>, countries: map<string, Country>)
    requires SecondaryDefined(r)
    ensures IsSecondary(r, BuildReference(watchlist, countries)) <==>
      exists i :: 0 <= i < |watchlist| &&
        (|| r["passport"] == Str(watchlist[i].passport)
         || FullName(r["first_name"].s, r["last_name"].s) == FullName(watchlist[i].firstName, watchlist[i].lastName))
  {
    var ref := BuildReference(watchlist, countries);
    if IsSecondary(r, ref) {
      if r["passport"].Str? && r["passport"].s in ref.watchPassports {
        var e :| e in watchlist && e.passport == r["passport"].s;
        var i :| 0 <= i < |watchlist| && watchlist[i] == e;
        assert r["passport"] == Str(watchlist[i].passport);
      } else {
        var name := FullName(r["first_name"].s, r["last_name"].s);
        var e :| e in watchlist && FullName(e.firstName, e.lastName) == name;
        var i :| 0 <= i < |watchlist| && watchlist[i] == e;
        assert name == FullName(watchlist[i].firstName, watchlist[i].lastName);
      }
    }
  }

  /** With no space in the first names, joined names are equal only when both parts are. */
  lemma FullNameInjective(first: string, last: string, first': string, last': string)
    requires ' ' !in first && ' ' !in first'
    requires FullName(first, last) == FullName(first', last')
    ensures first == first' && last == last'
  {
    var n, n' := FullName(first, last), FullName(first', last');
    assert n[|first|] == ' ' && n'[|first'|] == ' ';
    assert forall j :: 0 <= j < |first| ==> n[j] == first[j];
    assert forall j :: 0 <= j < |first'| ==> n'[j] == first'[j];
    assert |first| == |first'|;
    assert first == n[..|first|] == n'[..|first'|] == first';
    assert last == n[|first| + 1..] == n'[|first'| + 1..] == last';
  }

  /**
   * A traveller who shares only the first name with the one watchlist
   * entry, and not its passport, is not sent to secondary.
   */
  lemma FirstNameOnlyNotEnough(r: Record, entry: WatchEntry, countries: map<string, Country>)
    requires SecondaryDefined(r)
    requires r["first_name"] == Str(entry.firstName) && r["last_name"] != Str(entry.lastName)
    requires r["passport"] != Str(entry.passport)
    ensures !IsSecondary(r, BuildReference([entry], countries))
  {
    SecondaryMatchesWatchlist(r, [entry], countries);
    var first, last := entry.firstName, r["last_name"].s;
    var k := |first| + 1;
    assert FullName(first, last)[k..] == last != entry.lastName == FullName(first, entry.lastName)[k..];
  }

  /**
   * A traveller who shares only the last name with the one watchlist
   * entry, and not its passport, is not sent to secondary.
   */
  lemma LastNameOnlyNotEnough(r: Record, entry: WatchEntry, countries: map<string, Country>)
    requires SecondaryDefined(r)
    requires r["last_name"] == Str(entry.lastName) && r["first_name"] != Str(entry.firstName)
    requires r["passport"] != Str(entry.passport)
    ensures !IsSecondary(r, BuildReference([entry], countries))
  {
    SecondaryMatchesWatchlist(r, [entry], countries);
    var first, last := r["first_name"].s, entry.lastName;
    if |first| == |entry.firstName| {
      var k := |first|;
      assert FullName(first, last)[..k] == first != entry.firstName == FullName(entry.firstName, last)[..k];
    }
  }

  /** Matching is on the joined text, so a space can move between the two names. */
  lemma JoinedNamesCanCollide()
    ensures FullName("Mary Ann", "Lee") == FullName("Mary", "Ann Lee")
  {
  }
}
