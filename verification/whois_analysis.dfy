/**
  The result object of one WHOIS analysis (`WhoisAnalysis` in
  lib/saq/modules/whois.py): the `details` dictionary, the five condition
  flags, and the one-line summary shown to an analyst.
*/
module WhoisAnalysis {
  import opened Wrappers
  import opened TimeDeltas

  /** The `details` dictionary. Each of its four keys holds a value or
      `None`; the creation and analysis timestamps are kept as instants
      rather than as their `isoformat(' ')` text. */
  datatype Details = Details(
    zoneName: Option<string>,
    ageInDays: Option<string>,
    datetimeCreated: Option<Instant>,
    datetimeOfAnalysis: Option<Instant>)

  /** The analysis: its details, its five condition flags, and the
      `analysis_datetime` attribute that the analyzer writes outside the
      details dictionary (`None` while it has not been written). */
  datatype Analysis = Analysis(
    details: Details,
    tldNotSupported: bool,
    creationDatetimeNotFound: bool,
    noResult: bool,
    whoisNotInstalled: bool,
    creationDatetimeWrongFormat: bool,
    analysisDatetime: Option<Instant>)

  /** The five conditions an analysis can record, one per flag. */
  datatype Condition =
    | TldNotSupported
    | NoResult
    | CreationDatetimeNotFound
    | CreationDatetimeWrongFormat
    | WhoisNotInstalled

  /** Whether `a` has the flag of condition `c` set. */
  predicate Raised(a: Analysis, c: Condition) {
    match c
    case TldNotSupported => a.tldNotSupported
    case NoResult => a.noResult
    case CreationDatetimeNotFound => a.creationDatetimeNotFound
    case CreationDatetimeWrongFormat => a.creationDatetimeWrongFormat
    case WhoisNotInstalled => a.whoisNotInstalled
  }

  predicate NoFlagSet(a: Analysis) {
    forall c: Condition :: !Raised(a, c)
  }

  /** Exactly condition `c` is raised. */
  predicate OnlyRaised(a: Analysis, c: Condition) {
    Raised(a, c) && forall c': Condition :: c' != c ==> !Raised(a, c')
  }

  predicate DetailsEmpty(d: Details) {
    d.zoneName.None? && d.ageInDays.None? && d.datetimeCreated.None? && d.datetimeOfAnalysis.None?
  }

  /** Whether `a` and `b` agree on every flag. */
  predicate SameFlags(a: Analysis, b: Analysis) {
    forall c: Condition :: Raised(a, c) == Raised(b, c)
  }

  /** The state `initialize_details` puts a fresh analysis in. */
  function InitializeDetails(): (a: Analysis)
    ensures DetailsEmpty(a.details)
    ensures NoFlagSet(a)
    ensures a.analysisDatetime.None?
  {
    Analysis(Details(None, None, None, None), false, false, false, false, false, None)
  }

  // The three properties over the details dictionary.

  function ZoneName(a: Analysis): Option<string> {
    a.details.zoneName
  }

  function AgeInDays(a: Analysis): Option<string> {
    a.details.ageInDays
  }

  function CreationDatetime(a: Analysis): Option<Instant> {
    a.details.datetimeCreated
  }

  /** The `zone_name` setter: writes its key and nothing else. */
  function SetZoneName(a: Analysis, v: string): (r: Analysis)
    ensures ZoneName(r) == Some(v)
    ensures AgeInDays(r) == AgeInDays(a) && CreationDatetime(r) == CreationDatetime(a)
    ensures r.details.datetimeOfAnalysis == a.details.datetimeOfAnalysis
    ensures SameFlags(r, a) && r.analysisDatetime == a.analysisDatetime
  {
    a.(details := a.details.(zoneName := Some(v)))
  }

  /** The `age_in_days` setter: writes its key and nothing else. */
  function SetAgeInDays(a: Analysis, v: string): (r: Analysis)
    ensures AgeInDays(r) == Some(v)
    ensures ZoneName(r) == ZoneName(a) && CreationDatetime(r) == CreationDatetime(a)
    ensures r.details.datetimeOfAnalysis == a.details.datetimeOfAnalysis
    ensures SameFlags(r, a) && r.analysisDatetime == a.analysisDatetime
  {
    a.(details := a.details.(ageInDays := Some(v)))
  }

  /** The `creation_datetime` setter: writes its key and nothing else. */
  function SetCreationDatetime(a: Analysis, v: Instant): (r: Analysis)
    ensures CreationDatetime(r) == Some(v)
    ensures ZoneName(r) == ZoneName(a) && AgeInDays(r) == AgeInDays(a)
    ensures r.details.datetimeOfAnalysis == a.details.datetimeOfAnalysis
    ensures SameFlags(r, a) && r.analysisDatetime == a.analysisDatetime
  {
    a.(details := a.details.(datetimeCreated := Some(v)))
  }

  // Summary

  const Prefix: string := "Whois Analysis - "

  /** The text that follows `Prefix` when condition `c` decides the summary. */
  function Reason(c: Condition): string {
    match c
    case TldNotSupported => "TLD not supported."
    case NoResult => "FQDN doesn't exist."
    case CreationDatetimeNotFound => "Result does not include creation datetime."
    case CreationDatetimeWrongFormat => "Creation datetime in wrong format."
    case WhoisNotInstalled => "Whois linux program not installed on analysis server"
  }

  /** How an f-string renders a details value: `None` prints as "None". */
  function Show(v: Option<string>): string {
    match v
    case None => "None"
    case Some(s) => s
  }

  /** The summary when no flag is set: zone name and age. */
  function StatusMessage(a: Analysis): string {
    Prefix + Show(ZoneName(a)) + " is " + Show(AgeInDays(a)) + " days old."
  }

  /** `generate_summary`: the flags are checked one after another and each
      set flag overwrites the message chosen so far. */
  function GenerateSummary(a: Analysis): (message: string)
    ensures |message| > |Prefix| && message[..|Prefix|] == Prefix
  {
    var m0: Option<string> := None;
    var m1 := if a.tldNotSupported then Some(Prefix + Reason(TldNotSupported)) else m0;
    var m2 := if a.noResult then Some(Prefix + Reason(NoResult)) else m1;
    var m3 := if a.creationDatetimeNotFound then Some(Prefix + Reason(CreationDatetimeNotFound)) else m2;
    var m4 := if a.creationDatetimeWrongFormat then Some(Prefix + Reason(CreationDatetimeWrongFormat)) else m3;
    var m5 := if a.whoisNotInstalled then Some(Prefix + Reason(WhoisNotInstalled)) else m4;
    match m5
    case Some(m) => m
    case None => StatusMessage(a)
  }

  /** Precedence among the flags, strongest first. */
  const Precedence: seq<Condition> :=
    [WhoisNotInstalled, CreationDatetimeWrongFormat, CreationDatetimeNotFound, NoResult, TldNotSupported]

  /** The first condition of `cs` that `a` raises. */
  function FirstRaised(a: Analysis, cs: seq<Condition>): (r: Option<Condition>)
    ensures r.Some? ==> r.value in cs && Raised(a, r.value)
    ensures r.None? ==> forall i :: 0 <= i < |cs| ==> !Raised(a, cs[i])
    ensures r.Some? ==>
      exists i :: 0 <= i < |cs| && cs[i] == r.value && forall j :: 0 <= j < i ==> !Raised(a, cs[j])
    decreases |cs|
  {
    if |cs| == 0 then None
    else if Raised(a, cs[0]) then Some(cs[0])
    else
      var rest := FirstRaised(a, cs[1..]);
      if rest.Some? then
        var i :| 0 <= i < |cs[1..]| && cs[1..][i] == rest.value
          && forall j :: 0 <= j < i ==> !Raised(a, cs[1..][j]);
        assert cs[i + 1] == rest.value;
        rest
      else rest
  }

  /** The condition the summary reports: the strongest raised one, if any. */
  function Deciding(a: Analysis): Option<Condition> {
    FirstRaised(a, Precedence)
  }

  /** The summary is decided by precedence: the strongest raised condition
      names itself, and only an analysis with no flag set reports an age. */
  lemma {:induction false} SummaryFollowsPrecedence(a: Analysis)
    ensures Deciding(a).Some? ==> GenerateSummary(a) == Prefix + Reason(Deciding(a).value)
    ensures Deciding(a).None? <==> NoFlagSet(a)
    ensures NoFlagSet(a) ==> GenerateSummary(a) == StatusMessage(a)
  {
    var p := Precedence;
    assert FirstRaised(a, p[4..]) == if a.tldNotSupported then Some(TldNotSupported) else None;
    assert FirstRaised(a, p[3..]) == if a.noResult then Some(NoResult) else FirstRaised(a, p[4..]);
    assert FirstRaised(a, p[2..]) == if a.creationDatetimeNotFound then Some(CreationDatetimeNotFound) else FirstRaised(a, p[3..]);
    assert FirstRaised(a, p[1..]) == if a.creationDatetimeWrongFormat then Some(CreationDatetimeWrongFormat) else FirstRaised(a, p[2..]);
    if Deciding(a).None? {
      forall c: Condition ensures !Raised(a, c) {
        var i := match c
          case WhoisNotInstalled => 0
          case CreationDatetimeWrongFormat => 1
          case CreationDatetimeNotFound => 2
          case NoResult => 3
          case TldNotSupported => 4;
        assert Precedence[i] == c;
      }
    }
  }

  /** Indexing into a concatenation past its left operand reads the right. */
  lemma IndexRight(x: string, y: string, j: nat)
    requires j < |y|
    ensures (x + y)[|x| + j] == y[j]
  {
  }

  /** An analysis with a single raised condition is decided by it. */
  lemma OnlyRaisedDecides(a: Analysis, c: Condition)
    requires OnlyRaised(a, c)
    ensures Deciding(a) == Some(c)
  {
    SummaryFollowsPrecedence(a);
  }

  /** A status message never reads as a condition's message: the fourth
      character from its end is the 'o' of "old.", which no reason has. */
  lemma StatusIsNoReason(a: Analysis, c: Condition)
    ensures StatusMessage(a) != Prefix + Reason(c)
  {
    var x := Prefix + Show(ZoneName(a)) + " is " + Show(AgeInDays(a));
    IndexRight(x, " days old.", 6);
    var r := Reason(c);
    IndexRight(Prefix, r, |r| - 4);
    assert r[|r| - 4] != 'o';
  }

  /** Which condition a summary reports, read back from its text. */
  function ReadSummary(message: string): Option<Condition>
  {
    if message == Prefix + Reason(WhoisNotInstalled) then Some(WhoisNotInstalled)
    else if message == Prefix + Reason(CreationDatetimeWrongFormat) then Some(CreationDatetimeWrongFormat)
    else if message == Prefix + Reason(CreationDatetimeNotFound) then Some(CreationDatetimeNotFound)
    else if message == Prefix + Reason(NoResult) then Some(NoResult)
    else if message == Prefix + Reason(TldNotSupported) then Some(TldNotSupported)
    else None
  }

  /** Each condition's message reads back as that condition; the five
      reasons have five different lengths. */
  lemma ReadReason(c: Condition)
    ensures ReadSummary(Prefix + Reason(c)) == Some(c)
  {
    assert |Reason(TldNotSupported)| == 18;
    assert |Reason(NoResult)| == 19;
    assert |Reason(CreationDatetimeNotFound)| == 42;
    assert |Reason(CreationDatetimeWrongFormat)| == 34;
    assert |Reason(WhoisNotInstalled)| == 52;
  }

  /** The summary identifies the deciding condition uniquely: reading it back
      recovers exactly that condition, or none when no flag is set. */
  lemma SummaryIdentifiesCondition(a: Analysis)
    ensures ReadSummary(GenerateSummary(a)) == Deciding(a)
  {
    SummaryFollowsPrecedence(a);
    if Deciding(a).Some? {
      ReadReason(Deciding(a).value);
    } else {
      StatusIsNoReason(a, WhoisNotInstalled);
      StatusIsNoReason(a, CreationDatetimeWrongFormat);
      StatusIsNoReason(a, CreationDatetimeNotFound);
      StatusIsNoReason(a, NoResult);
      StatusIsNoReason(a, TldNotSupported);
    }
  }

  /** The summary reports an age exactly when no flag is set. */
  lemma SummaryReportsAgeIffNoFlag(a: Analysis)
    ensures GenerateSummary(a) == StatusMessage(a) <==> NoFlagSet(a)
  {
    SummaryFollowsPrecedence(a);
    if !NoFlagSet(a) {
      StatusIsNoReason(a, Deciding(a).value);
    }
  }
}
