/**
 * The adherence report: the overview totals over the per-patient records,
 * the tier badges of patients and medications, and the week-over-week
 * trend arrows. Everything here is a pure function of the report data.
 */
module Reports {
  import opened Wrappers

  /** One patient's dose tally for the period; `adherenceRate` is a percentage. */
  datatype AdherenceRecord = AdherenceRecord(patient: string, totalMeds: int, taken: int, missed: int, adherenceRate: int)

  datatype MedicationStat = MedicationStat(medication: string, prescribed: int, adherenceRate: int)

  datatype WeeklyTrend = WeeklyTrend(week: string, adherenceRate: int)

  /** The four overview figures. `averageAdherence` is `None` where JavaScript would show NaN. */
  datatype OverallStats = OverallStats(totalPatients: nat, averageAdherence: Option<int>, totalMedications: int, totalMissed: int)

  const AdherenceData: seq<AdherenceRecord> := [
    AdherenceRecord("John Smith", 60, 55, 5, 92),
    AdherenceRecord("Mary Johnson", 45, 42, 3, 93),
    AdherenceRecord("Robert Davis", 30, 25, 5, 83),
    AdherenceRecord("Sarah Wilson", 40, 38, 2, 95),
    AdherenceRecord("Lisa Brown", 35, 30, 5, 86)
  ]

  const MedicationStats: seq<MedicationStat> := [
    MedicationStat("Lisinopril", 15, 89),
    MedicationStat("Metformin", 12, 94),
    MedicationStat("Atorvastatin", 10, 87),
    MedicationStat("Amlodipine", 8, 91),
    MedicationStat("Levothyroxine", 6, 96)
  ]

  const WeeklyTrends: seq<WeeklyTrend> := [
    WeeklyTrend("Week 1", 88),
    WeeklyTrend("Week 2", 91),
    WeeklyTrend("Week 3", 89),
    WeeklyTrend("Week 4", 93)
  ]

  // ---------------------------------------------------------------------
  // Overview totals

  function Rate(p: AdherenceRecord): int { p.adherenceRate }
  function TotalMeds(p: AdherenceRecord): int { p.totalMeds }
  function Missed(p: AdherenceRecord): int { p.missed }

  /** `records.reduce((sum, p) => sum + field(p), 0)`: a fold from the left. */
  function Sum(records: seq<AdherenceRecord>, field: AdherenceRecord -> int): int {
    if records == [] then 0
    else Sum(records[..|records| - 1], field) + field(records[|records| - 1])
  }

  /** The left fold equals the fold from the right: the order of summing does not matter. */
  lemma {:induction false} SumFromFront(records: seq<AdherenceRecord>, field: AdherenceRecord -> int)
    requires records != []
    ensures Sum(records, field) == field(records[0]) + Sum(records[1..], field)
    decreases |records|
  {
    var n := |records|;
    if n > 1 {
      SumFromFront(records[..n - 1], field);
      assert records[..n - 1][1..] == records[1..][..n - 2];
    }
  }

  /**
   * `Math.round(num / den)`: the nearest integer, halves rounded up. Over the
   * integers this is `(2 * num + den) / (2 * den)` with floor division.
   */
  function RoundHalfUp(num: int, den: int): (r: int)
    requires den > 0
    ensures den * (2 * r - 1) <= 2 * num < den * (2 * r + 1)
  {
    var q := (2 * num + den) / (2 * den);
    var rem := (2 * num + den) % (2 * den);
    assert 2 * num + den == 2 * den * q + rem && 0 <= rem < 2 * den;
    assert den * (2 * q - 1) == 2 * den * q - den;
    assert den * (2 * q + 1) == 2 * den * q + den;
    q
  }

  /** `overallStats`: patient count, rounded mean rate, and the two dose totals. */
  function Summarize(records: seq<AdherenceRecord>): (stats: OverallStats)
    ensures stats.totalPatients == |records|
    ensures stats.averageAdherence.None? <==> records == []
  {
    OverallStats(
      |records|,
      if records == [] then None else Some(RoundHalfUp(Sum(records, Rate), |records|)),
      Sum(records, TotalMeds),
      Sum(records, Missed))
  }

  lemma {:induction false} SumBounds(records: seq<AdherenceRecord>, field: AdherenceRecord -> int, lo: int, hi: int)
    requires forall i :: 0 <= i < |records| ==> lo <= field(records[i]) <= hi
    ensures |records| * lo <= Sum(records, field) <= |records| * hi
  {
    if records != [] {
      var n := |records|;
      SumBounds(records[..n - 1], field, lo, hi);
      assert n * lo == (n - 1) * lo + lo && n * hi == (n - 1) * hi + hi;
    }
  }

  lemma {:induction false} SumMonotone(records: seq<AdherenceRecord>, f: AdherenceRecord -> int, g: AdherenceRecord -> int)
    requires forall i :: 0 <= i < |records| ==> f(records[i]) <= g(records[i])
    ensures Sum(records, f) <= Sum(records, g)
  {
    if records != [] {
      SumMonotone(records[..|records| - 1], f, g);
    }
  }

  /** The average is the mean rate rounded half up: it is within one half of the exact mean. */
  lemma AverageIsRoundedMean(records: seq<AdherenceRecord>)
    requires records != []
    ensures var avg := Summarize(records).averageAdherence.value;
      |records| * (2 * avg - 1) <= 2 * Sum(records, Rate) < |records| * (2 * avg + 1)
  {
  }

  lemma {:induction false} MulLeftCancel(n: int, a: int, b: int)
    requires n > 0 && n * a < n * b
    ensures a < b
  {
    assert n * (b - a) == n * b - n * a;
  }

  /** A quotient sum/n rounded to avg stays in [lo, hi] when sum lies in [n*lo, n*hi]. */
  lemma RoundedMeanWithinBounds(n: int, sum: int, avg: int, lo: int, hi: int)
    requires n > 0 && n * lo <= sum <= n * hi
    requires n * (2 * avg - 1) <= 2 * sum < n * (2 * avg + 1)
    ensures lo <= avg <= hi
  {
    assert n * (2 * lo) == 2 * (n * lo);
    MulLeftCancel(n, 2 * lo, 2 * avg + 1);
    assert n * (2 * hi) == 2 * (n * hi);
    MulLeftCancel(n, 2 * avg - 1, 2 * hi + 1);
  }

  /** When every rate lies in [lo, hi], so does the average. */
  lemma AverageWithinBounds(records: seq<AdherenceRecord>, lo: int, hi: int)
    requires records != []
    requires forall i :: 0 <= i < |records| ==> lo <= records[i].adherenceRate <= hi
    ensures lo <= Summarize(records).averageAdherence.value <= hi
  {
    var n := |records|;
    var sum := Sum(records, Rate);
    var avg := Summarize(records).averageAdherence.value;
    assert n * lo <= sum <= n * hi by {
      SumBounds(records, Rate, lo, hi);
    }
    assert n * (2 * avg - 1) <= 2 * sum < n * (2 * avg + 1) by {
      AverageIsRoundedMean(records);
    }
    RoundedMeanWithinBounds(n, sum, avg, lo, hi);
  }

  /** When no record misses more doses than it schedules, neither do the totals. */
  lemma MissedAtMostScheduled(records: seq<AdherenceRecord>)
    requires forall i :: 0 <= i < |records| ==> records[i].missed <= records[i].totalMeds
    ensures Summarize(records).totalMissed <= Summarize(records).totalMedications
  {
    SumMonotone(records, Missed, TotalMeds);
  }

  lemma SumOfFive(records: seq<AdherenceRecord>, field: AdherenceRecord -> int)
    requires |records| == 5
    ensures Sum(records, field) == field(records[0]) + field(records[1]) + field(records[2]) + field(records[3]) + field(records[4])
  {
    assert records[..1][..0] == [];
    assert Sum(records[..1], field) == field(records[0]);
    assert records[..2][..1] == records[..1];
    assert Sum(records[..2], field) == Sum(records[..1], field) + field(records[1]);
    assert records[..3][..2] == records[..2];
    assert Sum(records[..3], field) == Sum(records[..2], field) + field(records[2]);
    assert records[..4][..3] == records[..3];
    assert Sum(records[..4], field) == Sum(records[..3], field) + field(records[3]);
    assert records[..4] == records[..|records| - 1];
  }

  /** The report's own data: 5 patients, average 90 (from 89.8), 210 doses, 20 missed. */
  lemma SampleOverview()
    ensures Summarize(AdherenceData) == OverallStats(5, Some(90), 210, 20)
  {
    SumOfFive(AdherenceData, Rate);
    SumOfFive(AdherenceData, TotalMeds);
    SumOfFive(AdherenceData, Missed);
  }

  /** Each sample record's rate is its taken share of the scheduled doses, rounded, and taken + missed is the total. */
  lemma SampleTalliesConsistent()
    ensures forall i :: 0 <= i < |AdherenceData| ==>
      var p := AdherenceData[i];
      p.taken + p.missed == p.totalMeds && p.adherenceRate == RoundHalfUp(100 * p.taken, p.totalMeds)
  {
  }

  // ---------------------------------------------------------------------
  // Tier badges

  /** The badge variants the report uses. */
  datatype Variant = Default | Secondary | Destructive

  /** How good a variant is: Destructive < Secondary < Default. */
  function Rank(v: Variant): nat {
    match v
    case Destructive => 0
    case Secondary => 1
    case Default => 2
  }

  /** The badge variant of a patient's rate: three bands split at 90 and 80. */
  function PatientVariant(rate: int): (v: Variant)
    ensures v == Default <==> 90 <= rate
    ensures v == Secondary <==> 80 <= rate < 90
    ensures v == Destructive <==> rate < 80
  {
    if rate >= 90 then Default else if rate >= 80 then Secondary else Destructive
  }

  /** The status label of a patient's rate, on the same bands as the badge. */
  function StatusLabel(rate: int): (status: string)
    ensures status == "Excellent" <==> 90 <= rate
    ensures status == "Good" <==> 80 <= rate < 90
    ensures status == "Needs Attention" <==> rate < 80
  {
    if rate >= 90 then "Excellent" else if rate >= 80 then "Good" else "Needs Attention"
  }

  /** The badge variant of a medication's rate: never destructive, default from 90 up. */
  function MedicationVariant(rate: int): (v: Variant)
    ensures v != Destructive
    ensures v == Default <==> 90 <= rate
  {
    if rate >= 90 then Default else Secondary
  }

  /** The variant and the label always name the same tier. */
  lemma VariantMatchesLabel(rate: int)
    ensures PatientVariant(rate) == Default <==> StatusLabel(rate) == "Excellent"
    ensures PatientVariant(rate) == Secondary <==> StatusLabel(rate) == "Good"
    ensures PatientVariant(rate) == Destructive <==> StatusLabel(rate) == "Needs Attention"
  {
  }

  /** A higher rate never gets a worse tier. */
  lemma TierMonotone(a: int, b: int)
    requires a <= b
    ensures Rank(PatientVariant(a)) <= Rank(PatientVariant(b))
    ensures Rank(MedicationVariant(a)) <= Rank(MedicationVariant(b))
  {
  }

  /** The boundary cases: 90 is Excellent, 89 and 80 are Good, 79 Needs Attention. */
  lemma TierBoundaries()
    ensures StatusLabel(90) == "Excellent" && StatusLabel(89) == "Good"
    ensures StatusLabel(80) == "Good" && StatusLabel(79) == "Needs Attention"
  {
  }

  /** The sample medications at 89, 94, 87, 91 and 96 per cent get secondary, default, secondary, default, default. */
  lemma SampleMedicationBadges()
    ensures seq(|MedicationStats|, i requires 0 <= i < |MedicationStats| => MedicationVariant(MedicationStats[i].adherenceRate))
      == [Secondary, Default, Secondary, Default, Default]
  {
  }

  /** The medication rule agrees with the patient rule exactly from 80 up. */
  lemma MedicationRuleVersusPatientRule(rate: int)
    ensures MedicationVariant(rate) == PatientVariant(rate) <==> rate >= 80
  {
  }

  // ---------------------------------------------------------------------
  // Weekly trend arrows

  datatype Arrow = Up | Down

  /** The arrow under week `index`: none for the first week, Up only on a strict rise. */
  function TrendArrow(trends: seq<WeeklyTrend>, index: nat): (arrow: Option<Arrow>)
    requires index < |trends|
    ensures index == 0 <==> arrow == None
    ensures index > 0 ==> (arrow == Some(Up) <==> trends[index].adherenceRate > trends[index - 1].adherenceRate)
    ensures index > 0 ==> (arrow == Some(Down) <==> trends[index].adherenceRate <= trends[index - 1].adherenceRate)
  {
    if index > 0 then
      if trends[index].adherenceRate > trends[index - 1].adherenceRate then Some(Up) else Some(Down)
    else
      None
  }

  /** The arrows of all weeks, in order: none for the first week, then Up on a strict rise and Down otherwise, a tie included. */
  function TrendArrows(trends: seq<WeeklyTrend>): (arrows: seq<Option<Arrow>>)
    ensures |arrows| == |trends|
    ensures forall i :: 0 <= i < |trends| ==> (i == 0 <==> arrows[i] == None)
    ensures forall i :: 0 < i < |trends| ==>
      (arrows[i] == Some(Up) <==> trends[i].adherenceRate > trends[i - 1].adherenceRate)
    ensures forall i :: 0 < i < |trends| ==>
      (arrows[i] == Some(Down) <==> trends[i].adherenceRate <= trends[i - 1].adherenceRate)
  {
    seq(|trends|, i requires 0 <= i < |trends| => TrendArrow(trends, i))
  }

  predicate StrictlyRising(trends: seq<WeeklyTrend>) {
    forall i, j :: 0 <= i < j < |trends| ==> trends[i].adherenceRate < trends[j].adherenceRate
  }

  lemma {:induction false} RisingStepsRise(trends: seq<WeeklyTrend>)
    requires forall k :: 0 < k < |trends| ==> trends[k - 1].adherenceRate < trends[k].adherenceRate
    ensures StrictlyRising(trends)
    decreases |trends|
  {
    if |trends| > 1 {
      var init := trends[..|trends| - 1];
      RisingStepsRise(init);
      forall i, j | 0 <= i < j < |trends|
        ensures trends[i].adherenceRate < trends[j].adherenceRate
      {
        if j < |trends| - 1 {
          assert init[i] == trends[i] && init[j] == trends[j];
        } else if i < j - 1 {
          assert init[i] == trends[i] && init[j - 1] == trends[j - 1];
        }
      }
    }
  }

  /** Every arrow points up exactly when the weekly rates rise strictly throughout. */
  lemma AllUpIffStrictlyRising(trends: seq<WeeklyTrend>)
    ensures (forall i :: 0 < i < |trends| ==> TrendArrows(trends)[i] == Some(Up)) <==> StrictlyRising(trends)
  {
    if forall i :: 0 < i < |trends| ==> TrendArrows(trends)[i] == Some(Up) {
      forall k | 0 < k < |trends|
        ensures trends[k - 1].adherenceRate < trends[k].adherenceRate
      {
        assert TrendArrows(trends)[k] == Some(Up);
      }
      RisingStepsRise(trends);
    }
  }

  /** Weeks 88, 91, 89, 93 give no arrow, then up, down, up. */
  lemma SampleArrows()
    ensures TrendArrows(WeeklyTrends) == [None, Some(Up), Some(Down), Some(Up)]
  {
  }
}
