/**
 * The sensor's threshold policy: which issue reports one evaluation of a
 * reading sends to the control centre. Three independent strict
 * comparisons, checked as pollution, then pH, then turbidity.
 */
module Client {
  import opened Messages

  /** The three kinds of issue a sensor can raise. */
  datatype Issue = Pollution | PhImbalance | Turbulence

  /** The issue type string sent for each kind (the turbidity one spelled as the station sends it). */
  function Text(issue: Issue): string {
    match issue
    case Pollution => "Pollution detected"
    case PhImbalance => "pH imbalance detected"
    case Turbulence => "Turbulance detected"
  }

  /** Distinct kinds are sent as distinct strings. */
  lemma TextInjective(i: Issue, j: Issue)
    ensures Text(i) == Text(j) <==> i == j
  {
  }

  /** Position of an issue in the order the checks run. */
  function CheckRank(issue: Issue): nat {
    match issue
    case Pollution => 0
    case PhImbalance => 1
    case Turbulence => 2
  }

  /** The issues come in check order, so none repeats. */
  predicate InCheckOrder(issues: seq<Issue>) {
    forall i, j :: 0 <= i < j < |issues| ==> CheckRank(issues[i]) < CheckRank(issues[j])
  }

  /** The three issues, each present or not, in check order. */
  function Selected(pollution: bool, ph: bool, turbulence: bool): seq<Issue> {
    (if pollution then [Pollution] else [])
    + (if ph then [PhImbalance] else [])
    + (if turbulence then [Turbulence] else [])
  }

  /** Selected read from the front: the first issue present, then the rest. */
  lemma SelectedCons(ph: bool, turbulence: bool)
    ensures Selected(true, ph, turbulence) == [Pollution] + Selected(false, ph, turbulence)
    ensures Selected(false, true, turbulence) == [PhImbalance] + Selected(false, false, turbulence)
  {

  }

  /** Selected read from the back: the checks append their issues one after the other. */
  lemma SelectedSnoc(pollution: bool, ph: bool)
    ensures Selected(pollution, false, false) + [PhImbalance] == Selected(pollution, true, false)
    ensures Selected(pollution, ph, false) + [Turbulence] == Selected(pollution, ph, true)
  {
  }

  /** The issues one evaluation of `r` raises. */
  function Issues(r: Reading): (issues: seq<Issue>)
    ensures Pollution in issues <==> r.pollutants > 90.0
    ensures PhImbalance in issues <==> r.pH < 6.0 || r.pH > 8.0
    ensures Turbulence in issues <==> r.turbidity > 9.0
    ensures InCheckOrder(issues)
    ensures |issues| <= 3
  {
    Selected(r.pollutants > 90.0, r.pH < 6.0 || r.pH > 8.0, r.turbidity > 9.0)
  }

  /** A list of issue type strings names a kind exactly when the list of kinds it was made from holds it. */
  lemma TextsMember(issues: seq<Issue>, types: seq<string>, issue: Issue)
    requires |types| == |issues|
    requires forall i :: 0 <= i < |types| ==> types[i] == Text(issues[i])
    ensures Text(issue) in types <==> issue in issues
  {

  }

  /** The issue type strings one evaluation of `r` sends, one per issue report. */
  function IssueTypes(r: Reading): (types: seq<string>)
    ensures |types| == |Issues(r)|
    ensures forall i :: 0 <= i < |types| ==> types[i] == Text(Issues(r)[i])
    ensures "Pollution detected" in types <==> r.pollutants > 90.0
    ensures "pH imbalance detected" in types <==> r.pH < 6.0 || r.pH > 8.0
    ensures "Turbulance detected" in types <==> r.turbidity > 9.0
  {
    var issues := Issues(r);
    var types := seq(|issues|, i requires 0 <= i < |issues| => Text(issues[i]));
    TextsMember(issues, types, Pollution);
    TextsMember(issues, types, PhImbalance);
    TextsMember(issues, types, Turbulence);
    types
  }

  /** The tail of a list in check order is in check order, and ranks above its head. */
  lemma CheckOrderTail(s: seq<Issue>)
    requires InCheckOrder(s) && s != []
    ensures InCheckOrder(s[1..])
    ensures forall y :: y in s[1..] ==> CheckRank(s[0]) < CheckRank(y)
  {

  }

  /** Putting an issue in front of a list of later issues gives the list Selected builds. */
  lemma PrependSelected(x: Issue, ph: bool, turbulence: bool)
    requires x == PhImbalance ==> !ph
    requires x == Turbulence ==> !ph && !turbulence
    ensures [x] + Selected(false, ph, turbulence)
      == Selected(x == Pollution, ph || x == PhImbalance, turbulence || x == Turbulence)
  {

  }

  /** A list in check order is fixed by which of the three issues it contains. */
  lemma {:induction false} InCheckOrderIsSelected(s: seq<Issue>)
    requires InCheckOrder(s)
    ensures s == Selected(Pollution in s, PhImbalance in s, Turbulence in s)
    decreases |s|
  {
    if s == [] {
      assert Selected(false, false, false) == [];
    } else {
      var x, rest := s[0], s[1..];
      assert s == [x] + rest;
      CheckOrderTail(s);
      InCheckOrderIsSelected(rest);
      var ph, tu := PhImbalance in rest, Turbulence in rest;
      assert Pollution !in rest;
      assert x == PhImbalance ==> !ph;
      assert x == Turbulence ==> !ph && !tu;
      PrependSelected(x, ph, tu);
      assert (Pollution in s) == (x == Pollution);
      assert (PhImbalance in s) == (ph || x == PhImbalance);
      assert (Turbulence in s) == (tu || x == Turbulence);
    }
  }

  /**
   * The threshold policy pins down the issues exactly: a list in check
   * order that contains each issue iff its threshold is breached is the
   * result of Issues.
   */
  lemma IssuesUnique(r: Reading, issues: seq<Issue>)
    requires InCheckOrder(issues)
    requires Pollution in issues <==> r.pollutants > 90.0
    requires PhImbalance in issues <==> r.pH < 6.0 || r.pH > 8.0
    requires Turbulence in issues <==> r.turbidity > 9.0
    ensures issues == Issues(r)
  {
    InCheckOrderIsSelected(issues);
  }

  /** A pollutant level of exactly 90 is not reported; the comparison is strict. */
  lemma PollutionBoundary(pH: real, turbidity: real)
    ensures Pollution !in Issues(Reading(pH, turbidity, 90.0))
  {
  }

  /** pH of exactly 6 or 8 raises no pH issue. */
  lemma PhBoundary(turbidity: real, pollutants: real)
    ensures PhImbalance !in Issues(Reading(6.0, turbidity, pollutants))
    ensures PhImbalance !in Issues(Reading(8.0, turbidity, pollutants))
  {
  }

  /** Pollutants 95 with pH 7 and turbidity 2 sends the pollution report alone. */
  lemma PollutionOnlyExample()
    ensures IssueTypes(Reading(7.0, 2.0, 95.0)) == ["Pollution detected"]
  {

  }

  /** pH 9 on its own sends the pH report alone. */
  lemma PhOnlyExample()
    ensures IssueTypes(Reading(9.0, 5.0, 50.0)) == ["pH imbalance detected"]
  {

  }

  /** A reading that breaches all three thresholds sends all three reports, in check order. */
  lemma AllBreachedExample()
    ensures IssueTypes(Reading(5.0, 9.5, 95.0)) == ["Pollution detected", "pH imbalance detected", "Turbulance detected"]
  {

  }

  /** The default reading sends nothing. */
  lemma NoneBreachedExample()
    ensures IssueTypes(DefaultReading) == []
  {

  }

  /** `reports` announces `issues` one for one, in order, from `stationId` at time `now`. */
  ghost predicate Announces(reports: seq<IssueReport>, issues: seq<Issue>, stationId: string, now: real) {
    |reports| == |issues|
    && forall i :: 0 <= i < |reports| ==> reports[i] == IssueReport(stationId, Text(issues[i]), now)
  }

  /** Sending one more report for one more issue keeps the two lists in step. */
  lemma AnnouncesAppend(reports: seq<IssueReport>, issues: seq<Issue>, stationId: string, now: real, issue: Issue)
    requires Announces(reports, issues, stationId, now)
    ensures Announces(reports + [IssueReport(stationId, Text(issue), now)], issues + [issue], stationId, now)
  {
  }

  /** A sensor of a station; its fields hold the reading it last took. */
  class Sensor {
    const sensorId: string
    const stationId: string
    var pH: real
    var turbidity: real
    var pollutants: real

    /** The sensor takes a first reading when it is created. */
    constructor (sensorId: string, stationId: string, first: Reading)
      ensures this.sensorId == sensorId && this.stationId == stationId
      ensures pH == first.pH && turbidity == first.turbidity && pollutants == first.pollutants
    {
      this.sensorId := sensorId;
      this.stationId := stationId;
      pH, turbidity, pollutants := first.pH, first.turbidity, first.pollutants;
    }

    /**
     * One evaluation: store `sample` as the sensor's reading, then send one
     * issue report, stamped `now` and naming the sensor's station, for each
     * threshold it breaches.
     */
    method CheckContaminants(sample: Reading, now: real) returns (reports: seq<IssueReport>)
      modifies this
      ensures pH == sample.pH && turbidity == sample.turbidity && pollutants == sample.pollutants
      ensures |reports| == |Issues(sample)|
      ensures forall i :: 0 <= i < |reports| ==>
        reports[i] == IssueReport(stationId, Text(Issues(sample)[i]), now)
    {
      pH, turbidity, pollutants := sample.pH, sample.turbidity, sample.pollutants;
      ghost var p, q := pollutants > 90.0, pH < 6.0 || pH > 8.0;
      SelectedSnoc(p, q);
      ghost var issues: seq<Issue> := [];
      reports := [];
      if pollutants > 90.0 {
        AnnouncesAppend(reports, issues, stationId, now, Pollution);
        reports, issues := reports + [IssueReport(stationId, Text(Pollution), now)], issues + [Pollution];
      }
      assert issues == Selected(p, false, false);
      if pH < 6.0 || pH > 8.0 {
        AnnouncesAppend(reports, issues, stationId, now, PhImbalance);
        reports, issues := reports + [IssueReport(stationId, Text(PhImbalance), now)], issues + [PhImbalance];
      }
      assert issues == Selected(p, q, false);
      if turbidity > 9.0 {
        AnnouncesAppend(reports, issues, stationId, now, Turbulence);
        reports, issues := reports + [IssueReport(stationId, Text(Turbulence), now)], issues + [Turbulence];
      }
      assert issues == Issues(sample);
    }
  }
}
