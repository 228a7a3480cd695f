# Kanadia immigration decisions in Dafny

A functional model of the decision rules of `papers.py`, the "computer-based
immigration office for Kanadia". For each traveller record the office returns
one of `Quarantine`, `Reject`, `Secondary` or `Accept`. The label comes from
three rule predicates tried in a fixed order, which use a country table and a
watchlist:

- `is_quarantine` checks the medical advisories of the home country and of the
  country travelled from.
- `is_rejection` checks that the seven required fields are present and truthy.
  A visitor or transit traveller also needs a visa with a well-formed code and
  date, issued fewer than 730 days ago.
- `is_secondary` checks the passport and the joined full name against the
  watchlist.

The model also covers the three string validators (visa code, passport number,
date) and the visa-age check.

Modules, leaves first:

- `json.dfy` (`Json`): decoded JSON values, Python truthiness, `dict.get`. A
  record is a `map<string, Value>`, so missing and falsy fields behave exactly
  as in the code.
- `formats.dfy` (`Formats`): `valid_visa_format` and `valid_passport_format`.
  Each is a character-level model of `re.match` on the patterns `.{5}-.{5}` and
  `.{5}-.{5}-.{5}-.{5}-.{5}`. These are prefix checks in which `.` is any
  character but a newline.
- `calendar.dfy` (`Calendar`): proleptic Gregorian dates, leap years, and day
  numbers as `date.toordinal()` counts them.
- `dates.dfy` (`DateFormat`): `valid_date_format`, a model of
  `strptime(s, '%Y-%m-%d')`, proved sound and complete against a rendering of
  dates.
- `rules.dfy` (`Rules`): `REQUIRED_FIELDS`, the country and watchlist data, the
  three rule predicates and `is_valid_visa`.
- `decision.dfy` (`Decision`): the dispatch `decide` is meant to perform. It
  also models `decide` as written (see Findings).
- `scenarios.dfy` (`Scenarios`): concrete records in the shape of the test
  suite, decided by the model.

The model follows the code where it departs from the repository's own
docstrings and tests:

- Quarantine reads `home` and `from`, never `via`. `test_quarantine_via`
  (test_papers.py:52-57) expects a traveller coming via a country under
  advisory to be quarantined; the code's quarantine rule ignores the `via`
  country.
- Rejection consults no country data. It has no per-country visa flag and no
  exemption for the home country.
- The code and passport patterns are unanchored `.` patterns. The docstrings
  of `valid_visa_format` and `valid_passport_format` (papers.py:157, 171)
  speak of groups of alphanumeric characters.
- The visa window is a fixed `365 * 2` days. The docstring of
  `is_valid_visa` (papers.py:144) speaks of two years.
- Nothing is lower-cased. `test_case_insensitivity` (test_papers.py:92-97)
  expects mixed-case country codes and passports to match.

"Now" is an integer day number parameter, `today`. Because a visa is issued at
midnight and `timedelta.days` rounds down, the whole days elapsed are
`today - DayNumber(issue date)` at any time of day.

## Model

| member | source | states |
|---|---|---|
| Formats.MatchesAtStartIff | papers.py:161-163 | `re.match` of a pattern of single-character atoms succeeds exactly when the string is at least as long as the pattern and each atom accepts the character at its position |
| Formats.ValidVisaFormat | papers.py:161-166 | a visa code passes iff it has at least 11 characters, a dash at index 5, and no newline among the other ten leading characters; letters are not required |
| Formats.ValidPassportFormat | papers.py:175-180 | a passport number passes iff it has at least 29 characters, dashes at 5, 11, 17 and 23, and no newline among the other leading characters |
| DateFormat.ParseDate | papers.py:190 | whatever `strptime(s, '%Y-%m-%d')` accepts is a real date from 0001-01-01 to 9999-12-31, written in 8 to 10 characters with a dash after the year |
| Formats.ValidVisaFormatExtends | papers.py:161-166 | the visa check is a prefix check: appending text to a passing code never makes it fail |
| Formats.ValidPassportFormatExtends | papers.py:175-180 | the passport check is a prefix check: appending text to a passing number never makes it fail |
| Formats.VisaFormatAcceptsPunctuation | papers.py:161-166 | a code of punctuation around a dash passes, so the check is not alphanumeric |
| Formats.VisaFormatAcceptsTrailingText | papers.py:161-166 | a code followed by more text passes, because the match is not anchored at the end |
| Formats.VisaFormatRejectsShortOrNewline | papers.py:161-166 | a code one character short fails, and so does one with a newline in its first group |
| DateFormat.ValidDateFormat | papers.py:189-193 | the date check is total: it is true exactly for texts that write a real date as a four-digit year, a one- or two-digit month and a one- or two-digit or space-padded day, with nothing after the day |
| DateFormat.ParseDateComplete | papers.py:189-191 | every date from 0001-01-01 to 9999-12-31, written in any style strptime accepts, parses back to that same date |
| DateFormat.ParseDateSound | papers.py:189-193 | whatever parses is a real calendar date, and the text is that date written in one of the accepted styles |
| DateFormat.LeapDayAccepted | papers.py:189-193 | 2012-02-29 passes, since 2012 is a leap year |
| DateFormat.MissingLeapDayRejected | papers.py:189-193 | 2013-02-29 fails, since 2013 is not a leap year |
| DateFormat.ThirtiethOfFebruaryRejected | papers.py:189-193 | 2014-02-30 fails |
| DateFormat.YearZeroRejected | papers.py:189-193 | year 0000 fails, since `datetime` starts at year 1 |
| DateFormat.TrailingTextRejected | papers.py:189-193 | a character after the day fails the check, because strptime demands the whole string |
| DateFormat.UnpaddedFieldsAccepted | papers.py:189-193 | one-digit months and days pass (2014-1-5) |
| DateFormat.SpacePaddedDayAccepted | papers.py:189-193 | a space before a one-digit day passes (2014-01- 5) |
| DateFormat.ThreeDigitMonthRejected | papers.py:189-193 | a three-digit month fails (2014-001-05) |
| Calendar.DayNumber | papers.py:149-152 | the ordinal that date subtraction counts with gives each year its own span: every day of a year is numbered after all days of earlier years and no later than the last day of its own year |
| Calendar.DayNumberOrdered | papers.py:149-152 | day numbers, which date subtraction uses, follow calendar order in both directions: one date is earlier than another iff its day number is smaller |
| Calendar.DayNumberNextDay | papers.py:149-152 | the day after any date but the last is again a date, with day number one higher |
| Calendar.AddDays | papers.py:149-152 | stepping `n` days forward from a date gives a date whose day number is `n` higher |
| Rules.AnyAdvisory | papers.py:85 | Python's `any` over the advisories holds iff some advisory is non-empty |
| Rules.IsQuarantine | papers.py:81-88 | quarantine holds iff the home country or the country travelled from has a non-empty medical advisory |
| Rules.QuarantineIgnoresVia | papers.py:81-88 | adding or changing a `via` field never changes the quarantine verdict |
| Rules.AllPresent | papers.py:102 | Python's `all` over `record.get(field, "")` holds iff every listed field is present with a truthy value |
| Rules.IsRejection | papers.py:102-122 | a record missing a required field, or holding a falsy value for one, is rejected; a complete record with another entry reason is not; a complete visit or transit record is rejected iff it lacks a non-empty visa whose code passes the visa format and whose date is a real date fewer than 730 days before today |
| Rules.RejectionIgnoresHome | papers.py:102-122 | replacing the home country by any other non-empty value never changes the rejection verdict, so there is no home-country exemption |
| Rules.IsValidVisa | papers.py:149-152 | where the calendar reaches that far, a visa is valid exactly on the days before the date 730 days after its issue date |
| Rules.VisaValidityMonotone | papers.py:149-152 | a visa valid on some day is valid on every earlier day |
| Rules.FutureVisaValid | papers.py:149-152 | a visa dated today or later is valid |
| Rules.VisaValidForDaysAfterIssue | papers.py:149-152 | counted in calendar days from the issue date, a visa is valid on days 0 to 729 and invalid from day 730 |
| Rules.WatchSetsMatchWatchlist | papers.py:50-51 | the watched passports are exactly the passports of the watchlist entries, and the watched names exactly their joined names (the join as evidently intended); the country table passes through unchanged |
| Rules.SecondaryMatchesWatchlist | papers.py:136-139 | `IsSecondary` against the sets built from a watchlist holds iff some entry has the record's passport (compared as values, so a non-string passport never matches) or its joined full name |
| Rules.FullNameInjective | papers.py:137 | when neither first name contains a space, two joined names are equal only if both first and last names are equal |
| Rules.FirstNameOnlyNotEnough | test_papers.py:39-44 | sharing only the first name with the single watchlist entry, and not its last name or passport, does not send a traveller to secondary |
| Rules.LastNameOnlyNotEnough | test_papers.py:39-44 | sharing only the last name with the single watchlist entry, and not its first name or passport, does not send a traveller to secondary |
| Rules.JoinedNamesCanCollide | papers.py:137 | names are matched on the joined text, so "Mary Ann" + "Lee" matches "Mary" + "Ann Lee" |
| Decision.DecideOne | papers.py:55-67 | the first rule in the order Quarantine, Reject, Secondary decides, else Accept; each label is characterised by the record's advisories, completeness, visa and watchlist status |
| Decision.Decide | papers.py:61-68 | the batch gets exactly one label per record, in input order, each being the first-match decision for that record |
| Decision.LabelTextInjective | papers.py:40-41 | the four output strings are distinct, so the output list determines each decision |
| Decision.QuarantineBeatsReject | test_papers.py:100-104 | a record that is both under advisory and incomplete is quarantined |
| Decision.RejectBeatsSecondary | test_papers.py:107-115 | a watched traveller without a required current visa is rejected, not sent to secondary |
| Decision.DecideAsWritten | papers.py:50-68 | as written, `decide` raises `TypeError` exactly when the watchlist is non-empty, and otherwise returns the empty list whatever the records |
| Decision.AsWrittenNeverLabels | papers.py:50-68 | as written, `decide` raises `TypeError` for any non-empty watchlist and otherwise returns no labels, so it never labels a non-empty batch |
| Scenarios.SickTravellerQuarantined | test_papers.py:100-104 | an incomplete visitor arriving from a country under advisory is quarantined |
| Scenarios.TravellerWithoutVisaRejected | test_papers.py:68-73 | a complete visitor without a visa is rejected |
| Scenarios.WatchedTravellerSecondary | test_papers.py:29-36 | a returning citizen whose passport is on the watchlist is sent to secondary |
| Scenarios.ViaAdvisoryAccepted | papers.py:81-88 | a returning citizen from and of a country without advisory, travelling via a country under advisory, is accepted, because quarantine never reads `via` |
| Scenarios.OneNameOnlyAccepted | test_papers.py:39-44 | a returning citizen who shares only the first name of a watchlist entry is accepted |

## Left out

- Loading the three JSON files (`json.load(open(f))`, papers.py:48) and the `FileNotFoundError` it raises are I/O. The model starts from decoded values.
- The module-level globals (papers.py:23-26, 44) are not modelled as state. The country table and the two watchlist sets are one immutable `Reference` value passed to the rules.
- `datetime.now()` becomes the `today` parameter. One value serves the whole batch, while the source reads the clock in each visa check.
- The exceptions the code raises on malformed input are preconditions (`QuarantineDefined`, `RejectionDefined`, `SecondaryDefined`, `Decidable`), not modelled outcomes. They cover a missing `home`/`from`/`country` key, an unknown country code, a non-dict visa, a non-string code, date or name, and an unhashable passport.
- DateFormat.ValidDateFormat: digits are ASCII only. Python's `\d` and `int()` also accept other Unicode decimal digits, which this model rejects.
- Numbers in records are exact reals. Floating-point rounding and non-finite values are not modelled.
- `Country.medicalAdvisory` is a string. The source tests the truthiness of whatever the country table holds there.
- The visitor and transit visa flags of the country table are carried in `Country`, but no rule reads them.
- Not in this code, and so not modelled:
  - lower-casing of records, watchlist or country codes;
  - quarantine through a `via` country;
  - per-country visa requirements;
  - a home-country visa exemption;
  - anchored `\w` patterns;
  - a calendar two-year visa rule;
  - a default entry for unknown country codes.
- `WatchEntry` holds the watchlist's passport and names as strings that are always present. The `KeyError` that papers.py:50-51 raises for an entry without one of these keys is not modelled. Neither is matching against a watchlist passport that is not a string.
- `valid_passport_format` is modelled, although no rule in papers.py calls it.

## Findings

| source | as written | input that shows it | evidently intended | confidence | as-written member | corrected member |
|---|---|---|---|---|---|---|
| papers.py:51 | `" ".join(x["first_name"], x["last_name"])` passes two arguments to `str.join`, which takes one iterable, so building `watch_names` raises `TypeError`; papers.py:137 repeats the call in `is_secondary` | any non-empty watchlist, e.g. one entry with first name "Wet" and last name "Zsbar" | the name `first + " " + last` | high; not executed | Decision.DecideAsWritten, Decision.AsWrittenNeverLabels | Rules.WatchSetsMatchWatchlist, Rules.SecondaryMatchesWatchlist |
| papers.py:61-68 | the loop over the records has only a comment for its body, so `decide` returns `[]` | any non-empty batch with an empty watchlist | append the label of the first rule in `decisions` that holds, else "Accept" | high; not executed | Decision.DecideAsWritten, Decision.AsWrittenNeverLabels | Decision.Decide |
