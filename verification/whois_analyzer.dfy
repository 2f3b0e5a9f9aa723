/**
  `WhoisAnalyzer.execute_analysis` in lib/saq/modules/whois.py: it takes the
  outcome of `whois.query` for one FQDN and the time of the analysis, and
  fills in a fresh `WhoisAnalysis`. The query itself and the wall clock are
  inputs here: the outcome is a value of `QueryOutcome` and `now` a
  parameter.
*/
module WhoisAnalyzer {
  import opened Wrappers
  import opened TimeDeltas
  import opened Decimal
  import opened WhoisAnalysis

  /** What the record's `creation_date` attribute holds: nothing, something
      other than a `datetime`, or a `datetime`. */
  datatype CreationDate =
    | CreationAbsent
    | CreationNotDatetime
    | CreationAt(created: Instant)

  /** The outcome of `whois.query(fqdn)`: one of the two exceptions the
      analyzer catches, `None`, or a record with an optional `name`
      attribute and a `creation_date` attribute. */
  datatype QueryOutcome =
    | UnknownTldRaised
    | FileNotFoundRaised
    | NoneReturned
    | Record(name: Option<string>, creationDate: CreationDate)

  /** The analysis `execute_analysis` leaves behind and the value it returns. */
  datatype Execution = Execution(analysis: Analysis, returned: bool)

  /** The zone name recorded when the record has no `name` attribute. */
  const NoNameReturned: string := "NO_NAME_RETURNED"

  /** The shape of every finished analysis: either exactly one condition is
      raised and no age or creation time is stored, or no condition is
      raised and zone name, age and creation time are all stored. */
  predicate Finished(a: Analysis) {
    || (&& Deciding(a).Some?
        && OnlyRaised(a, Deciding(a).value)
        && a.details.ageInDays.None?
        && a.details.datetimeCreated.None?)
    || (&& NoFlagSet(a)
        && a.details.zoneName.Some?
        && a.details.ageInDays.Some?
        && a.details.datetimeCreated.Some?)
  }

  /** The zone name a record yields. */
  function RecordedZoneName(name: Option<string>): string {
    name.GetOr(NoNameReturned)
  }

  /** `execute_analysis`, as written: the age stored on a valid creation date
      is the timedelta's seconds component floor-divided by 86400, and the
      analysis time goes to the `analysis_datetime` attribute, not to the
      details key. */
  function ExecuteAnalysis(outcome: QueryOutcome, now: Instant): (r: Execution)
    ensures r.returned
    ensures Finished(r.analysis)
    ensures r.analysis.details.datetimeOfAnalysis.None?
  {
    var a := InitializeDetails();
    match outcome
    case UnknownTldRaised => Execution(a.(tldNotSupported := true), true)
    case FileNotFoundRaised => Execution(a.(whoisNotInstalled := true), true)
    case NoneReturned => Execution(a.(noResult := true), true)
    case Record(name, creationDate) =>
      var named :=
        if name.None? then SetZoneName(a, NoNameReturned) else SetZoneName(a, name.value);
      match creationDate
      case CreationAbsent => Execution(named.(creationDatetimeNotFound := true), true)
      case CreationNotDatetime => Execution(named.(creationDatetimeWrongFormat := true), true)
      case CreationAt(created) =>
        var delta := Subtract(now, created);
        var stamped := SetCreationDatetime(named, created).(analysisDatetime := Some(now));
        if delta.days < 0 then
          Execution(SetAgeInDays(stamped, "0"), true)
        else
          Execution(SetAgeInDays(stamped, NatToString(delta.seconds / SecondsPerDay)), true)
  }

  /** Both caught exceptions set their own flag and nothing else: every
      details entry stays `None`. */
  lemma ExceptionPathsSetOnlyTheirFlag(outcome: QueryOutcome, now: Instant)
    requires outcome.UnknownTldRaised? || outcome.FileNotFoundRaised?
    ensures var a := ExecuteAnalysis(outcome, now).analysis;
      && DetailsEmpty(a.details)
      && a.analysisDatetime.None?
      && (outcome.UnknownTldRaised? ==> OnlyRaised(a, TldNotSupported))
      && (outcome.FileNotFoundRaised? ==> OnlyRaised(a, WhoisNotInstalled))
  {
  }

  /** A `None` result sets only `no_result`, and stores no zone name, age or
      creation time. */
  lemma NoneResultSetsOnlyNoResult(now: Instant)
    ensures var a := ExecuteAnalysis(NoneReturned, now).analysis;
      && OnlyRaised(a, NoResult)
      && DetailsEmpty(a.details)
  {
  }

  /** A record's zone name is chosen before, hence independently of, the
      creation date: it survives a creation-date failure. */
  lemma ZoneNameIndependentOfCreationDate(name: Option<string>, c1: CreationDate, c2: CreationDate, now1: Instant, now2: Instant)
    ensures ZoneName(ExecuteAnalysis(Record(name, c1), now1).analysis)
         == ZoneName(ExecuteAnalysis(Record(name, c2), now2).analysis)
  {
    RecordZoneName(name, c1, now1);
    RecordZoneName(name, c2, now2);
  }

  /** A record always yields a zone name: its `name` attribute, or else the
      sentinel. */
  lemma RecordZoneName(name: Option<string>, c: CreationDate, now: Instant)
    ensures ZoneName(ExecuteAnalysis(Record(name, c), now).analysis) == Some(RecordedZoneName(name))
  {
    match c
    case CreationAbsent =>
    case CreationNotDatetime =>
    case CreationAt(created) =>
  }

  /** The two creation-date failures: an absent date sets only
      `creation_datetime_not_found`, one that is not a datetime sets only
      `creation_datetime_wrong_format`; either way no age or creation time
      is stored, and the two flags are never set together. */
  lemma CreationDateFailures(outcome: QueryOutcome, now: Instant)
    ensures var a := ExecuteAnalysis(outcome, now).analysis;
      && !(a.creationDatetimeNotFound && a.creationDatetimeWrongFormat)
      && (a.creationDatetimeNotFound <==> outcome.Record? && outcome.creationDate.CreationAbsent?)
      && (a.creationDatetimeWrongFormat <==> outcome.Record? && outcome.creationDate.CreationNotDatetime?)
      && (a.creationDatetimeNotFound ==> OnlyRaised(a, CreationDatetimeNotFound))
      && (a.creationDatetimeWrongFormat ==> OnlyRaised(a, CreationDatetimeWrongFormat))
      && (a.creationDatetimeNotFound || a.creationDatetimeWrongFormat ==>
            AgeInDays(a).None? && CreationDatetime(a).None?)
  {
  }

  /** Each flag is set by exactly one kind of outcome. */
  lemma FlagsClassifyOutcome(outcome: QueryOutcome, now: Instant)
    ensures var a := ExecuteAnalysis(outcome, now).analysis;
      && (forall c: Condition :: Raised(a, c) <==> OutcomeCondition(outcome) == Some(c))
      && (NoFlagSet(a) <==> outcome.Record? && outcome.creationDate.CreationAt?)
  {
    var a := ExecuteAnalysis(outcome, now).analysis;
    match outcome
    case Record(_, CreationAt(_)) =>
      assert NoFlagSet(a);
    case _ =>
      assert Raised(a, OutcomeCondition(outcome).value);
  }

  /** The stored age: present exactly when the creation time is, which is
      exactly when the record carries a datetime; and then always "0",
      whether the creation time lies in the future (clamped) or not (the
      seconds component of the difference is under a day). */
  lemma {:induction false} AgeIsAlwaysZero(outcome: QueryOutcome, now: Instant)
    ensures var a := ExecuteAnalysis(outcome, now).analysis;
      && (AgeInDays(a).Some? <==> CreationDatetime(a).Some?)
      && (AgeInDays(a).Some? <==> outcome.Record? && outcome.creationDate.CreationAt?)
      && (AgeInDays(a).Some? ==> AgeInDays(a) == Some("0"))
      && (a.analysisDatetime.Some? <==> outcome.Record? && outcome.creationDate.CreationAt?)
      && (outcome.Record? && outcome.creationDate.CreationAt? ==>
            CreationDatetime(a) == Some(outcome.creationDate.created) && a.analysisDatetime == Some(now))
  {
    match outcome
    case Record(_, CreationAt(created)) =>
      SecondsComponentHasNoWholeDays(now, created);
      assert NatToString(0) == "0";
    case _ =>
  }

  /** The condition each kind of outcome is expected to raise, if any. */
  function OutcomeCondition(outcome: QueryOutcome): Option<Condition> {
    match outcome
    case UnknownTldRaised => Some(TldNotSupported)
    case FileNotFoundRaised => Some(WhoisNotInstalled)
    case NoneReturned => Some(NoResult)
    case Record(_, CreationAbsent) => Some(CreationDatetimeNotFound)
    case Record(_, CreationNotDatetime) => Some(CreationDatetimeWrongFormat)
    case Record(_, CreationAt(_)) => None
  }

  /** What an analyst reads after a run that raised a condition: that
      condition's message. */
  lemma SummaryOfFailedRun(outcome: QueryOutcome, now: Instant)
    requires OutcomeCondition(outcome).Some?
    ensures GenerateSummary(ExecuteAnalysis(outcome, now).analysis)
         == Prefix + Reason(OutcomeCondition(outcome).value)
  {
    var a := ExecuteAnalysis(outcome, now).analysis;
    var c := OutcomeCondition(outcome).value;
    FlagsClassifyOutcome(outcome, now);
    assert OnlyRaised(a, c);
    OnlyRaisedDecides(a, c);
    SummaryFollowsPrecedence(a);
  }

  /** What an analyst reads after a run on a record with a datetime: the
      zone name and an age of "0" days. */
  lemma SummaryOfDatedRecord(name: Option<string>, created: Instant, now: Instant)
    ensures GenerateSummary(ExecuteAnalysis(Record(name, CreationAt(created)), now).analysis)
         == Prefix + RecordedZoneName(name) + " is " + "0" + " days old."
  {
    var outcome := Record(name, CreationAt(created));
    var a := ExecuteAnalysis(outcome, now).analysis;
    AgeIsAlwaysZero(outcome, now);
    FlagsClassifyOutcome(outcome, now);
    SummaryFollowsPrecedence(a);
  }

  // The age computation and the analysis timestamp, as evidently intended.

  /** The age in whole days from `created` to `now`, clamped at zero. */
  function WholeDaysOld(now: Instant, created: Instant): (days: nat)
    ensures created <= now ==> days * MicrosPerDay <= now - created < (days + 1) * MicrosPerDay
    ensures now < created ==> days == 0
  {
    var delta := Subtract(now, created);
    DaysNegativeIffEarlier(now, created);
    DaysIsFloor(delta);
    if delta.days < 0 then 0 else delta.days
  }

  /** `execute_analysis` with the two corrections: the age is the whole-day
      component of the difference, and the analysis time is stored under
      the `datetime_of_analysis` details key. Every other path is unchanged. */
  function ExecuteAnalysisCorrected(outcome: QueryOutcome, now: Instant): (r: Execution)
    ensures r.returned
    ensures Finished(r.analysis)
    ensures r.analysis.details.datetimeOfAnalysis.Some? <==> outcome.Record? && outcome.creationDate.CreationAt?
    ensures r.analysis.details.datetimeOfAnalysis.Some? ==> r.analysis.details.datetimeOfAnalysis == Some(now)
  {
    match outcome
    case Record(name, CreationAt(created)) =>
      var a := ExecuteAnalysis(outcome, now).analysis;
      var stamped := a.(details := a.details.(datetimeOfAnalysis := Some(now)));
      Execution(SetAgeInDays(stamped, NatToString(WholeDaysOld(now, created))), true)
    case _ => ExecuteAnalysis(outcome, now)
  }

  /** The corrected classifier stores the floored age in whole days, clamped
      at zero, and records the analysis time under its details key; off the
      valid-date path it agrees with the code as written. */
  lemma {:induction false} CorrectedAgeIsWholeDays(outcome: QueryOutcome, now: Instant)
    ensures var a := ExecuteAnalysisCorrected(outcome, now).analysis;
      if outcome.Record? && outcome.creationDate.CreationAt? then
        var created := outcome.creationDate.created;
        && AgeInDays(a).Some? && AllDigits(AgeInDays(a).value)
        && var age := ParseNat(AgeInDays(a).value);
        && (created <= now ==> age * MicrosPerDay <= now - created < (age + 1) * MicrosPerDay)
        && (now < created ==> age == 0)
        && AgeInDays(a) == Some(NatToString(age))
        && a.details.datetimeOfAnalysis == Some(now)
        && var w := ExecuteAnalysis(outcome, now).analysis;
        && ZoneName(a) == ZoneName(w)
        && CreationDatetime(a) == Some(created)
        && SameFlags(a, w)
        && a.analysisDatetime == w.analysisDatetime
      else
        ExecuteAnalysisCorrected(outcome, now) == ExecuteAnalysis(outcome, now)
  {
    if outcome.Record? && outcome.creationDate.CreationAt? {
      ParseNatToString(WholeDaysOld(now, outcome.creationDate.created));
    }
  }

  /** Line 188 as written: a domain created ten days before the analysis is
      reported as 0 days old, where the corrected classifier says 10. */
  lemma AgeIgnoresWholeDays()
    ensures var outcome := Record(Some("EXAMPLE.COM"), CreationAt(0));
      && AgeInDays(ExecuteAnalysis(outcome, 10 * MicrosPerDay).analysis) == Some("0")
      && AgeInDays(ExecuteAnalysisCorrected(outcome, 10 * MicrosPerDay).analysis) == Some("10")
  {
    var outcome := Record(Some("EXAMPLE.COM"), CreationAt(0));
    AgeIsAlwaysZero(outcome, 10 * MicrosPerDay);
    var days := WholeDaysOld(10 * MicrosPerDay, 0);
    assert days == 10;
    assert DigitChar(1) == '1' && DigitChar(0) == '0';
    assert NatToString(10) == NatToString(1) + ['0'] == "10";
  }

  /** Line 178 as written: after a successful run the analysis time is held
      only in the stray `analysis_datetime` attribute, and the declared
      `datetime_of_analysis` details entry is still `None`. */
  lemma AnalysisTimeMissingFromDetails(name: Option<string>, created: Instant, now: Instant)
    ensures var a := ExecuteAnalysis(Record(name, CreationAt(created)), now).analysis;
      && a.analysisDatetime == Some(now)
      && a.details.datetimeOfAnalysis.None?
    ensures ExecuteAnalysisCorrected(Record(name, CreationAt(created)), now).analysis.details.datetimeOfAnalysis
         == Some(now)
  {
  }
}
