/**
 * Concrete traveller records in the shape of the repository's tests, each
 * decided by the model: priority conflicts, a via-country that is ignored,
 * and a watchlist match on one name only.
 */
module Scenarios {
  import opened Json
  import opened Rules
  import opened Decision

  const Countries: map<string, Country> := map[
    "KAN" := Country(false, false, ""),
    "LUG" := Country(true, true, "Avian flu"),
    "ELE" := Country(true, false, "")
  ]

  const Watchlist: seq<WatchEntry> := [WatchEntry("Wet", "Zsbar", "QWERT-YUIOP-ASDFG-HJKLZ-XCVBN")]

  function Place(code: string): Value {
    Obj(map["country" := Str(code)])
  }

  function Traveller(passport: string, first: string, last: string, home: string, from: string, reason: string): Record {
    map[
      "passport" := Str(passport),
      "first_name" := Str(first),
      "last_name" := Str(last),
      "birth_date" := Str("1970-01-01"),
      "home" := Place(home),
      "entry_reason" := Str(reason),
      "from" := Place(from)
    ]
  }

  /** A traveller with every field filled in is complete. */
  lemma TravellerComplete(passport: string, first: string, last: string, home: string, from: string, reason: string)
    requires passport != "" && first != "" && last != "" && reason != ""
    ensures IsComplete(Traveller(passport, first, last, home, from, reason))
  {
    var r := Traveller(passport, first, last, home, from, reason);
    forall i | 0 <= i < |RequiredFields|
      ensures RequiredFields[i] in r && Truthy(r[RequiredFields[i]])
    {
    }
  }

  /** What the rules see of a traveller whose countries are in the table. */
  lemma TravellerFacts(passport: string, first: string, last: string, home: string, from: string, reason: string)
    requires passport != "" && first != "" && last != "" && reason != ""
    requires home in Countries && from in Countries
    ensures var r := Traveller(passport, first, last, home, from, reason);
      && QuarantineDefined(r, Countries)
      && (IsQuarantine(r, Countries) <==> Countries[home].medicalAdvisory != "" || Countries[from].medicalAdvisory != "")
      && IsComplete(r)
      && (NeedsVisa(r) <==> reason == "visit" || reason == "transit")
      && "visa" !in r
      && SecondaryDefined(r)
      && r["passport"] == Str(passport)
      && r["first_name"].s == first && r["last_name"].s == last
  {
    var r := Traveller(passport, first, last, home, from, reason);
    assert r["home"] == Place(home) && r["from"] == Place(from);
    assert r["entry_reason"] == Str(reason);
    TravellerComplete(passport, first, last, home, from, reason);
  }

  /** Arriving from a country under advisory, with the birth date missing. */
  const Sick: Record := Traveller("AAAAA-BBBBB-CCCCC-DDDDD-EEEEE", "Ann", "Ray", "ELE", "LUG", "visit") - {"birth_date"}

  /** A visitor from a country without advisory, carrying no visa. */
  const NoVisa: Record := Traveller("QWERT-YUIOP-ASDFG-HJKLZ-XCVBN", "Bo", "Li", "ELE", "KAN", "visit")

  /** A returning citizen whose passport is on the watchlist. */
  const Watched: Record := Traveller("QWERT-YUIOP-ASDFG-HJKLZ-XCVBN", "Cy", "Do", "KAN", "KAN", "returning")

  /** The first name of the watchlist entry with another last name and passport. */
  const NameAlike: Record := Traveller("ZZZZZ-ZZZZZ-ZZZZZ-ZZZZZ-ZZZZZ", "Wet", "Other", "KAN", "KAN", "returning")

  /** A returning citizen who came through a country under advisory. */
  const ViaSick: Record := Traveller("ZZZZZ-ZZZZZ-ZZZZZ-ZZZZZ-ZZZZZ", "Ed", "Fu", "KAN", "KAN", "returning")["via" := Place("LUG")]

  lemma SickTravellerQuarantined(today: int)
    ensures Decidable(Sick, BuildReference(Watchlist, Countries), today)
    ensures DecideOne(Sick, BuildReference(Watchlist, Countries), today) == Quarantine
  {
    assert Sick["from"] == Place("LUG");
  }

  lemma TravellerWithoutVisaRejected(today: int)
    ensures Decidable(NoVisa, BuildReference(Watchlist, Countries), today)
    ensures DecideOne(NoVisa, BuildReference(Watchlist, Countries), today) == Reject
  {
    TravellerFacts("QWERT-YUIOP-ASDFG-HJKLZ-XCVBN", "Bo", "Li", "ELE", "KAN", "visit");
  }

  lemma WatchedTravellerSecondary(today: int)
    ensures Decidable(Watched, BuildReference(Watchlist, Countries), today)
    ensures DecideOne(Watched, BuildReference(Watchlist, Countries), today) == Secondary
  {
    var ref := BuildReference(Watchlist, Countries);
    TravellerFacts("QWERT-YUIOP-ASDFG-HJKLZ-XCVBN", "Cy", "Do", "KAN", "KAN", "returning");
    assert !IsQuarantine(Watched, Countries);
    assert !IsRejection(Watched, today);
    assert Watched["passport"].s in ref.watchPassports by {
      assert Watchlist[0] in Watchlist;
    }
  }

  lemma OneNameOnlyAccepted(today: int)
    ensures Decidable(NameAlike, BuildReference(Watchlist, Countries), today)
    ensures DecideOne(NameAlike, BuildReference(Watchlist, Countries), today) == Accept
  {
    TravellerFacts("ZZZZZ-ZZZZZ-ZZZZZ-ZZZZZ-ZZZZZ", "Wet", "Other", "KAN", "KAN", "returning");
    assert !IsQuarantine(NameAlike, Countries);
    assert !IsRejection(NameAlike, today);
    FirstNameOnlyNotEnough(NameAlike, Watchlist[0], Countries);
  }

  /** `ViaSick` is `Plain` with a via-country added. */
  const Plain: Record := Traveller("ZZZZZ-ZZZZZ-ZZZZZ-ZZZZZ-ZZZZZ", "Ed", "Fu", "KAN", "KAN", "returning")

  /** Neither the home nor the origin of `ViaSick` is under advisory. */
  lemma ViaSickNotQuarantined()
    ensures QuarantineDefined(ViaSick, Countries) && !IsQuarantine(ViaSick, Countries)
  {
    TravellerFacts("ZZZZZ-ZZZZZ-ZZZZZ-ZZZZZ-ZZZZZ", "Ed", "Fu", "KAN", "KAN", "returning");
    assert ViaSick == Plain["via" := Place("LUG")];
    QuarantineIgnoresVia(Plain, Countries, Place("LUG"));
  }

  /** `ViaSick` is a complete record of a returning citizen. */
  lemma ViaSickNotRejected(today: int)
    ensures RejectionDefined(ViaSick) && !IsRejection(ViaSick, today)
  {
    TravellerFacts("ZZZZZ-ZZZZZ-ZZZZZ-ZZZZZ-ZZZZZ", "Ed", "Fu", "KAN", "KAN", "returning");
    assert ViaSick == Plain["via" := Place("LUG")];
    forall i | 0 <= i < |RequiredFields|
      ensures RequiredFields[i] in ViaSick && Truthy(ViaSick[RequiredFields[i]])
    {
      assert RequiredFields[i] in Plain && Truthy(Plain[RequiredFields[i]]);
    }
    assert ViaSick["entry_reason"] == Str("returning");
  }

  /** Neither the passport nor the name of `ViaSick` is watched. */
  lemma ViaSickNotWatched()
    ensures SecondaryDefined(ViaSick) && !IsSecondary(ViaSick, BuildReference(Watchlist, Countries))
  {
    assert ViaSick["passport"] == Str("ZZZZZ-ZZZZZ-ZZZZZ-ZZZZZ-ZZZZZ");
    assert ViaSick["first_name"] == Str("Ed") && ViaSick["last_name"] == Str("Fu");
    WatchSetsMatchWatchlist(Watchlist, Countries, "ZZZZZ-ZZZZZ-ZZZZZ-ZZZZZ-ZZZZZ", "Ed Fu");
    assert Watchlist[0].passport != "ZZZZZ-ZZZZZ-ZZZZZ-ZZZZZ-ZZZZZ";
    assert FullName(Watchlist[0].firstName, Watchlist[0].lastName) != "Ed Fu";
  }

  lemma ViaAdvisoryAccepted(today: int)
    ensures Decidable(ViaSick, BuildReference(Watchlist, Countries), today)
    ensures DecideOne(ViaSick, BuildReference(Watchlist, Countries), today) == Accept
  {
    ViaSickNotQuarantined();
    ViaSickNotRejected(today);
    ViaSickNotWatched();
  }
}
