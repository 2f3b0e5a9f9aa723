# WHOIS analysis of domain names: a Dafny model

This project models the WHOIS analysis module of the ACE analysis pipeline
(`lib/saq/modules/whois.py`). For one fully-qualified domain name, the
analyzer takes the outcome of a WHOIS lookup and the time of the analysis. It
then records a condition flag when the lookup or the record falls short. A
record also yields a zone name, even when its creation date is missing or
malformed. A record with a valid creation date yields the zone name, the
creation time and the domain's age in days, and sets no flag. From that result it renders a one-line summary
for the analyst.

Modules:

- `Wrappers` (`wrappers.dfy`): `Option`, standing for Python's `None`.
- `TimeDeltas` (`timedelta.dfy`): naive datetimes as integer microseconds. Subtracting two of them gives Python's normalised `timedelta` (`days`, `seconds`, `microseconds`).
- `Decimal` (`decimal.dfy`): `str()` on a non-negative integer, and a parser that reads it back.
- `WhoisAnalysis` (`whois_analysis.dfy`): the analysis state. It has the `details` dictionary, the five flags and the stray `analysis_datetime` attribute. The module also covers `initialize_details`, the three details properties and `generate_summary`.
- `WhoisAnalyzer` (`whois_analyzer.dfy`): `execute_analysis`. It is a pure function from the query outcome and `now` to the analysis and the returned boolean. The module also holds a corrected variant for the two findings below.

Inputs that are not code in this file:

- The result of `whois.query` is the input datatype `QueryOutcome`. Its cases are `UnknownTld` raised, `FileNotFoundError` raised, `None`, or a record. A record has an optional `name` and a `creation_date` that is absent, not a `datetime`, or a `datetime`.
- The wall clock (`datetime.now()`) is the parameter `now`.

Because everything is a pure function, the same outcome and `now` always give the same analysis.

Where this file and a later revision of this module disagree, the model follows the file:

- The sentinel zone name is `NO_NAME_RETURNED`, not `NO_ZONE_NAME_RETURNED`. An empty `name` is copied as it is.
- There are five flags. There is no `last_updated`, registrar, nameservers, package-missing or command-failed handling.
- The stored age is `str(delta.seconds // 86400)`, not the whole-day floor. See Findings.

In the summary, `whois_not_installed` overrides `creation_datetime_wrong_format`. That flag overrides `creation_datetime_not_found`, which overrides `no_result`, which overrides `tld_not_supported`.

## Model

| member | source | states |
|---|---|---|
| WhoisAnalysis.InitializeDetails | lib/saq/modules/whois.py:37-48 | a fresh analysis has all four details entries `None`, no flag set, and no analysis time written |
| WhoisAnalysis.SetZoneName | lib/saq/modules/whois.py:71-77 | the `zone_name` setter stores its value under its key; the other details entries, the flags and the analysis time are unchanged |
| WhoisAnalysis.SetAgeInDays | lib/saq/modules/whois.py:63-69 | the `age_in_days` setter stores its value under its key and changes nothing else |
| WhoisAnalysis.SetCreationDatetime | lib/saq/modules/whois.py:55-61 | the `creation_datetime` setter stores its value under its key and changes nothing else |
| WhoisAnalysis.GenerateSummary | lib/saq/modules/whois.py:79-113 | every summary starts with "Whois Analysis - " followed by a non-empty text |
| WhoisAnalysis.FirstRaised | lib/saq/modules/whois.py:85-100 | the condition picked from a list is raised and every condition listed before it is not; none is picked only when no listed condition is raised |
| WhoisAnalysis.SummaryFollowsPrecedence | lib/saq/modules/whois.py:82-113 | sequential overriding equals the precedence order not-installed > wrong-format > not-found > no-result > TLD; the strongest raised flag's message wins; the zone-and-age message appears exactly when no flag is set |
| WhoisAnalysis.OnlyRaisedDecides | lib/saq/modules/whois.py:85-100 | when a single flag is set, that flag decides the summary |
| WhoisAnalysis.StatusIsNoReason | lib/saq/modules/whois.py:102-111 | the zone-and-age message never coincides with any condition's message, whatever the zone name and age are |
| WhoisAnalysis.SummaryIdentifiesCondition | lib/saq/modules/whois.py:85-111 | reading a summary back recovers exactly the deciding condition, or none when no flag is set, so each message identifies its kind uniquely |
| WhoisAnalysis.SummaryReportsAgeIffNoFlag | lib/saq/modules/whois.py:102-111 | the summary reports zone name and age if and only if no flag is set |
| TimeDeltas.Subtract | lib/saq/modules/whois.py:175 | datetime subtraction yields a normalised timedelta whose length is exactly the difference |
| TimeDeltas.DaysIsFloor | lib/saq/modules/whois.py:175 | the `days` of a normalised timedelta is its length floored to whole days |
| TimeDeltas.NormalizedUnique | lib/saq/modules/whois.py:175 | a normalised timedelta is determined by its length |
| TimeDeltas.SubtractRoundTrip | lib/saq/modules/whois.py:175 | subtraction inverts the length of a normalised timedelta |
| TimeDeltas.DaysNegativeIffEarlier | lib/saq/modules/whois.py:180-183 | `delta.days < 0` exactly when `now` is earlier than the creation time |
| TimeDeltas.SecondsComponentHasNoWholeDays | lib/saq/modules/whois.py:187-188 | `delta.seconds // 86400` is 0 for every pair of datetimes |
| Decimal.NatToString | lib/saq/modules/whois.py:190 | `str` of a non-negative integer is a non-empty string of decimal digits with no leading zero |
| Decimal.ParseNatToString | lib/saq/modules/whois.py:190 | reading back the digits `str` wrote gives the original number |
| Decimal.NatToStringInjective | lib/saq/modules/whois.py:190 | different ages never render as the same string |
| WhoisAnalyzer.ExecuteAnalysis | lib/saq/modules/whois.py:126-192 | every handled outcome returns True and leaves a finished analysis: exactly one flag and no age or creation time, or no flag and zone name, age and creation time all stored; `datetime_of_analysis` stays `None` |
| WhoisAnalyzer.ExceptionPathsSetOnlyTheirFlag | lib/saq/modules/whois.py:134-147 | `UnknownTld` sets only `tld_not_supported` and `FileNotFoundError` sets only `whois_not_installed`; every details entry stays `None` |
| WhoisAnalyzer.NoneResultSetsOnlyNoResult | lib/saq/modules/whois.py:150-153 | a `None` result sets only `no_result` and leaves zone name, age and creation time `None` |
| WhoisAnalyzer.ZoneNameIndependentOfCreationDate | lib/saq/modules/whois.py:155-159 | a record's zone name is the same whatever its creation date is, so it survives a date failure |
| WhoisAnalyzer.RecordZoneName | lib/saq/modules/whois.py:155-159 | for every creation date, a record's zone name is its `name`, or `NO_NAME_RETURNED` without one |
| WhoisAnalyzer.CreationDateFailures | lib/saq/modules/whois.py:161-172 | an absent date sets only `creation_datetime_not_found`; a non-datetime sets only `creation_datetime_wrong_format`; the two are never set together; neither stores an age or creation time |
| WhoisAnalyzer.FlagsClassifyOutcome | lib/saq/modules/whois.py:139-172 | each of the five flags is set if and only if its kind of outcome occurred; no flag is set exactly for a record with a datetime |
| WhoisAnalyzer.AgeIsAlwaysZero | lib/saq/modules/whois.py:174-190 | the age is stored exactly when the creation time is, which is exactly for a record with a datetime; the stray `analysis_datetime` is written exactly then, with `now`; the age is always "0", clamped for a future date and `seconds // 86400` otherwise |
| WhoisAnalyzer.SummaryOfFailedRun | lib/saq/modules/whois.py:85-100 | after a run on a failing outcome (unknown TLD, missing program, `None`, missing or malformed creation date) the summary is the message of that outcome's condition |
| WhoisAnalyzer.SummaryOfDatedRecord | lib/saq/modules/whois.py:102-111 | after a run on a record with a datetime the summary is "<zone> is 0 days old." |
| WhoisAnalyzer.WholeDaysOld | lib/saq/modules/whois.py:180-188 | the intended age is the whole days from creation to now, floored, and 0 for a future creation time |
| WhoisAnalyzer.ExecuteAnalysisCorrected | lib/saq/modules/whois.py:174-192 | the corrected classifier also returns True and leaves a finished analysis; `datetime_of_analysis` holds `now` exactly for a record with a datetime |
| WhoisAnalyzer.CorrectedAgeIsWholeDays | lib/saq/modules/whois.py:183-190 | the corrected age is `str` of the floored whole days (0 for a future date), and `datetime_of_analysis` holds `now`; zone name, creation time, flags and `analysis_datetime` are those of the run as written; every other path is unchanged |
| WhoisAnalyzer.AgeIgnoresWholeDays | lib/saq/modules/whois.py:187-190 | a domain created ten days before the analysis is stored as "0" days old as written, and "10" when corrected |
| WhoisAnalyzer.AnalysisTimeMissingFromDetails | lib/saq/modules/whois.py:178 | as written, the analysis time lands only in `analysis_datetime` and `datetime_of_analysis` stays `None`; corrected, it holds `now` |

## Left out

- `whois.query` (line 136) is a foreign library call. Only its outcome is modelled, as the input `QueryOutcome`.
- Any exception from `whois.query` other than `UnknownTld` and `FileNotFoundError` is not caught in this file. It propagates out of `execute_analysis`, so it is not a handled outcome.
- A `name` attribute that is present but holds `None` or a non-string is not modelled. A record's `name` is either absent or a string.
- `datetime.now()` (line 174) reads the wall clock. It is the parameter `now`.
- `isoformat(' ')` rendering (lines 177-178): creation and analysis times are stored as instants, not as their text.
- Time zones are not modelled. Subtracting an aware datetime from a naive one raises `TypeError`, and that is not caught. Datetimes are naive microsecond counts.
- The range limits of `datetime` (years 1 to 9999) and of `timedelta` are not modelled. Instants are unbounded integers.
- Logging calls are side effects only.
- Framework plumbing is not modelled: `create_analysis`, `analysis.logs = self.json()`, `jinja_template_path`, `generated_analysis_type` and `valid_observable_types` (lines 51-53 and 118-130). The analysis that `execute_analysis` fills in is taken to be freshly initialised.

## Findings

| source | as written | input that shows it | evidently intended | confidence | as-written member | corrected member |
|---|---|---|---|---|---|---|
| lib/saq/modules/whois.py:188 | `age_in_days = _delta.seconds // 86400`, but `seconds` is always below 86400, so every stored age is "0" | creation date ten days before `now` stores "0" | whole days, `_delta.days`, as the comment "Floor value" suggests | high; not executed | WhoisAnalyzer.AgeIgnoresWholeDays | WhoisAnalyzer.CorrectedAgeIsWholeDays |
| lib/saq/modules/whois.py:178 | `analysis.analysis_datetime = ...` writes an undeclared attribute, so the declared `datetime_of_analysis` details entry is never set | any record with a datetime creation date | store the time under `datetime_of_analysis` | medium; not executed | WhoisAnalyzer.AnalysisTimeMissingFromDetails | WhoisAnalyzer.ExecuteAnalysisCorrected |

