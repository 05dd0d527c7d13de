/**
 * The form handler: for every country of the catalogue, read its four weight
 * fields from the submitted form, coerce them to numbers, then score each
 * country and assemble the record the result page draws.
 */
module FormHandling {
  import opened Wrappers
  import opened Catalog
  import opened RiskScoring
  import opened Graph
  import opened WeightParsing

  /** The four weights of one country as read from the form. */
  datatype ThreatWeights = ThreatWeights(ddos: nat, phishing: nat, physicalAttack: nat, cloudSecurity: nat)
  {
    /** The weight dictionary handed to the scorer, keyed by the catalogue's category names. */
    function Entries(): (ws: Weights)
      ensures |ws| == 4 && NonNegative(ws)
      ensures forall i :: 0 <= i < 4 ==> ws[i].threat == Threats[i]
    {
      [WeightEntry("DDoS", ddos), WeightEntry("Phishing", phishing),
       WeightEntry("PhysicalAttack", physicalAttack), WeightEntry("CloudSecurity", cloudSecurity)]
    }

    function Total(): nat
    {
      ddos + phishing + physicalAttack + cloudSecurity
    }
  }

  /** Bar positions for the four categories and for the aggregate score. */
  datatype UiData = UiData(
    ddosY: real, phishingY: real, physicalAttackY: real, cloudSecurityY: real, mainY: real,
    ddosH: real, phishingH: real, physicalAttackH: real, cloudSecurityH: real, mainH: real)

  /** What the result page receives for one country. */
  datatype CountryResult = CountryResult(riskScore: real, threatWeights: ThreatWeights, uiData: UiData)

  /** Why a submission produced no result page. */
  datatype IndexError = MissingField(name: string) | ScoreFailed(error: ScoreError)

  /** The names of a country's weight fields, in the order they are read. */
  function CountryFields(c: string): (fs: seq<string>)
    ensures |fs| == 4
  {
    [c + "_ddos_weight", c + "_phishing_weight", c + "_physical_attack_weight", c + "_cloud_security_weight"]
  }

  /** The names of all weight fields of the countries cs, in the order they are read. */
  function FieldsOf(cs: seq<string>): (fs: seq<string>)
    ensures |fs| == 4 * |cs|
  {
    if cs == [] then [] else FieldsOf(cs[..|cs| - 1]) + CountryFields(cs[|cs| - 1])
  }

  /** The first of the fields that the form lacks, if any. */
  function FirstMissing(form: map<string, string>, fields: seq<string>): (r: Option<string>)
    ensures r.None? <==> forall i :: 0 <= i < |fields| ==> fields[i] in form
    ensures r.Some? ==> exists i :: 0 <= i < |fields| && fields[i] == r.value && r.value !in form &&
                          forall j :: 0 <= j < i ==> fields[j] in form
  {
    if fields == [] then None
    else if fields[0] !in form then Some(fields[0])
    else
      var r := FirstMissing(form, fields[1..]);
      assert forall i :: 0 < i < |fields| ==> fields[i] == fields[1..][i - 1];
      if r.Some? then
        assert exists i :: 0 < i < |fields| && fields[i] == r.value && r.value !in form &&
                 forall j :: 0 <= j < i ==> fields[j] in form by {
          var k :| 0 <= k < |fields[1..]| && fields[1..][k] == r.value && r.value !in form &&
                   forall j :: 0 <= j < k ==> fields[1..][j] in form;
          assert fields[k + 1] == r.value;
        }
        r
      else r
  }

  lemma {:induction false} FirstMissingAppend(form: map<string, string>, a: seq<string>, b: seq<string>)
    ensures FirstMissing(form, a + b) == if FirstMissing(form, a).Some? then FirstMissing(form, a) else FirstMissing(form, b)
  {
    if a != [] {
      assert (a + b)[1..] == a[1..] + b;
      FirstMissingAppend(form, a[1..], b);
    } else {
      assert a + b == b;
    }
  }

  lemma {:induction false} FieldsOfAppend(a: seq<string>, b: seq<string>)
    ensures FieldsOf(a + b) == FieldsOf(a) + FieldsOf(b)
  {
    if b != [] {
      var b' := b[..|b| - 1];
      assert (a + b)[..|a + b| - 1] == a + b';
      FieldsOfAppend(a, b');
    } else {
      assert a + b == a;
    }
  }

  /** The first missing one of four fields, spelled out. */
  lemma FirstMissingOfFour(form: map<string, string>, fs: seq<string>)
    requires |fs| == 4
    ensures FirstMissing(form, fs) ==
      if fs[0] !in form then Some(fs[0])
      else if fs[1] !in form then Some(fs[1])
      else if fs[2] !in form then Some(fs[2])
      else if fs[3] !in form then Some(fs[3])
      else None
  {
    assert fs[1..][1..][1..][1..] == [];
  }

  /** Reading the fields of the i-th country, when every earlier field is present. */
  lemma FirstMissingAt(form: map<string, string>, i: nat)
    requires i < |Countries| && FirstMissing(form, FieldsOf(Countries[..i])) == None
    ensures FirstMissing(form, FieldsOf(Countries[..i + 1])) == FirstMissing(form, CountryFields(Countries[i]))
    ensures FirstMissing(form, CountryFields(Countries[i])).Some? ==>
      FirstMissing(form, FieldsOf(Countries)) == FirstMissing(form, CountryFields(Countries[i]))
  {
    var before, fs := FieldsOf(Countries[..i]), CountryFields(Countries[i]);
    assert Countries[..i + 1][..i] == Countries[..i];
    assert FieldsOf(Countries[..i + 1]) == before + fs;
    FieldsOfAppend(Countries[..i + 1], Countries[i + 1..]);
    assert Countries[..i + 1] + Countries[i + 1..] == Countries;
    FirstMissingAppend(form, before, fs);
    FirstMissingAppend(form, before + fs, FieldsOf(Countries[i + 1..]));
  }

  predicate FieldsPresent(form: map<string, string>, c: string)
  {
    forall i :: 0 <= i < 4 ==> CountryFields(c)[i] in form
  }

  /** Every country of the catalogue has all its fields in the form. */
  predicate AllFieldsPresent(form: map<string, string>)
  {
    forall k :: 0 <= k < |Countries| ==> FieldsPresent(form, Countries[k])
  }

  /** A field value the coercion turns into 0: not a digit string, or zeros only. */
  predicate CoercesToZero(s: string)
  {
    !IsDigits(s) || forall i :: 0 <= i < |s| ==> s[i] == '0'
  }

  /** Each of the country's four fields is empty, non-numeric or made of zeros only. */
  predicate ZeroFields(form: map<string, string>, c: string)
    requires FieldsPresent(form, c)
  {
    forall i :: 0 <= i < 4 ==> CoercesToZero(form[CountryFields(c)[i]])
  }

  /** A country's weights: each field coerced with the digit-string rule. */
  function CoercedWeights(form: map<string, string>, c: string): ThreatWeights
    requires FieldsPresent(form, c)
  {
    var fs := CountryFields(c);
    ThreatWeights(ParseWeight(form[fs[0]]), ParseWeight(form[fs[1]]),
                  ParseWeight(form[fs[2]]), ParseWeight(form[fs[3]]))
  }

  /**
   * A country's coerced weights sum to zero, so that scoring the country
   * divides by zero, exactly when each of its four fields is empty,
   * non-numeric or made of zeros only.
   */
  lemma CoercedTotalZero(form: map<string, string>, c: string)
    requires FieldsPresent(form, c)
    ensures CoercedWeights(form, c).Total() == 0 <==> ZeroFields(form, c)
  {
    var fs := CountryFields(c);
    ZeroWeight(form[fs[0]]);
    ZeroWeight(form[fs[1]]);
    ZeroWeight(form[fs[2]]);
    ZeroWeight(form[fs[3]]);
    assert ZeroFields(form, c) <==>
      CoercesToZero(form[fs[0]]) && CoercesToZero(form[fs[1]]) &&
      CoercesToZero(form[fs[2]]) && CoercesToZero(form[fs[3]]);
  }

  /**
   * Read and coerce a country's four fields in order; the first field the
   * form lacks is reported.
   */
  function ReadCountry(form: map<string, string>, c: string): (r: Result<ThreatWeights, IndexError>)
    ensures r.Err? <==> FirstMissing(form, CountryFields(c)).Some?
    ensures r.Err? ==> r.error.MissingField? && Some(r.error.name) == FirstMissing(form, CountryFields(c))
    ensures r.Ok? ==> FieldsPresent(form, c) && r.value == CoercedWeights(form, c)
  {
    var fs := CountryFields(c);
    FirstMissingOfFour(form, fs);
    if fs[0] !in form then Err(MissingField(fs[0]))
    else if fs[1] !in form then Err(MissingField(fs[1]))
    else if fs[2] !in form then Err(MissingField(fs[2]))
    else if fs[3] !in form then Err(MissingField(fs[3]))
    else
      Ok(CoercedWeights(form, c))
  }

  /**
   * The record of one country for a given score: the score, the weights and the
   * bar positions. A bar is weight/10 of the chart tall, and its offset is the
   * distance of its top from the chart's top edge.
   */
  function BuildResult(riskScore: real, tw: ThreatWeights): (r: CountryResult)
    ensures r.riskScore == riskScore && r.threatWeights == tw
    ensures r.uiData.ddosH == tw.ddos as real / 10.0 * ChartHeight
    ensures r.uiData.phishingH == tw.phishing as real / 10.0 * ChartHeight
    ensures r.uiData.physicalAttackH == tw.physicalAttack as real / 10.0 * ChartHeight
    ensures r.uiData.cloudSecurityH == tw.cloudSecurity as real / 10.0 * ChartHeight
    ensures r.uiData.mainH == Abs(riskScore / 10.0 * ChartHeight)
    ensures r.uiData.ddosY == Abs(ChartHeight - r.uiData.ddosH)
    ensures r.uiData.phishingY == Abs(ChartHeight - r.uiData.phishingH)
    ensures r.uiData.physicalAttackY == Abs(ChartHeight - r.uiData.physicalAttackH)
    ensures r.uiData.cloudSecurityY == Abs(ChartHeight - r.uiData.cloudSecurityH)
    ensures r.uiData.mainY == Abs(ChartHeight - riskScore / 10.0 * ChartHeight)
  {
    CountryResult(riskScore, tw, UiData(
      YPosition(tw.ddos as real), YPosition(tw.phishing as real),
      YPosition(tw.physicalAttack as real), YPosition(tw.cloudSecurity as real), YPosition(riskScore),
      BarHeight(tw.ddos as real), BarHeight(tw.phishing as real),
      BarHeight(tw.physicalAttack as real), BarHeight(tw.cloudSecurity as real), BarHeight(riskScore)))
  }

  /**
   * The bars of a record: the aggregate bar meets the baseline and spans 28.1
   * to 140.5 units for a score in [1, 5]; each category bar meets the baseline
   * exactly when its weight is on the 0-10 scale.
   */
  lemma ResultBars(s: real, tw: ThreatWeights)
    ensures var ui := BuildResult(s, tw).uiData;
      && (1.0 <= s <= 5.0 ==> ui.mainY + ui.mainH == ChartHeight && 28.1 <= ui.mainH <= 140.5)
      && (ui.ddosY + ui.ddosH == ChartHeight <==> tw.ddos <= 10)
      && (ui.phishingY + ui.phishingH == ChartHeight <==> tw.phishing <= 10)
      && (ui.physicalAttackY + ui.physicalAttackH == ChartHeight <==> tw.physicalAttack <= 10)
      && (ui.cloudSecurityY + ui.cloudSecurityH == ChartHeight <==> tw.cloudSecurity <= 10)
  {
    ComplementaryOnlyInRange(s);
    ComplementaryOnlyInRange(tw.ddos as real);
    ComplementaryOnlyInRange(tw.phishing as real);
    ComplementaryOnlyInRange(tw.physicalAttack as real);
    ComplementaryOnlyInRange(tw.cloudSecurity as real);
  }

  /**
   * Score a country's weights and assemble its record from the returned score.
   * It fails as the scorer does: for a catalogue country, with a division by
   * zero exactly when the four weights sum to zero.
   */
  function CountryResultOf(c: string, tw: ThreatWeights): (r: Result<CountryResult, ScoreError>)
    ensures c in ThreatModels ==> (r.Ok? <==> tw.Total() != 0)
    ensures c in ThreatModels && r.Err? ==> r.error == ZeroDivisionError
    ensures r.Ok? ==> r.value.threatWeights == tw
    ensures r.Ok? ==> RiskScore(tw.Entries(), c).Ok? && r.value.riskScore == RiskScore(tw.Entries(), c).value
    ensures r.Ok? ==> r.value == BuildResult(r.value.riskScore, tw)
  {
    CountryScoreDefined(c, tw);
    match RiskScore(tw.Entries(), c)
    case Err(e) => Err(e)
    case Ok(s) => Ok(BuildResult(s, tw))
  }

  /** The total of the dictionary the scorer receives is the sum of the four weights. */
  lemma EntriesTotal(tw: ThreatWeights)
    ensures TotalWeight(tw.Entries()) == tw.Total()
  {
    var ws := tw.Entries();
    var t1, t2, t3 := ws[1..], ws[2..], ws[3..];
    assert t1[1..] == t2 && t2[1..] == t3 && t3[1..] == [];
    assert TotalWeight(t3) == tw.cloudSecurity;
    assert TotalWeight(t2) == tw.physicalAttack + tw.cloudSecurity;
    assert TotalWeight(t1) == tw.phishing + tw.physicalAttack + tw.cloudSecurity;
  }

  /**
   * For a known country, scoring its four form weights fails exactly when all
   * four are zero, and then with a division by zero.
   */
  lemma CountryScoreDefined(c: string, tw: ThreatWeights)
    ensures c in ThreatModels ==> (RiskScore(tw.Entries(), c).Ok? <==> tw.Total() != 0)
    ensures c in ThreatModels && RiskScore(tw.Entries(), c).Err? ==>
      RiskScore(tw.Entries(), c).error == ZeroDivisionError
  {
    if c in ThreatModels {
      CatalogRows();
      EntriesTotal(tw);
      ScoreErrors(tw.Entries(), c);
    }
  }

  /**
   * A country's record carries the weights it was given and a score between
   * the lowest and highest severity of its row, hence in [1, 5].
   */
  lemma CountryResultFacts(c: string, tw: ThreatWeights)
    requires c in ThreatModels && CountryResultOf(c, tw).Ok?
    ensures CountryResultOf(c, tw).value.threatWeights == tw
    ensures LowestSeverity(c) as real <= CountryResultOf(c, tw).value.riskScore <= HighestSeverity(c) as real
    ensures 1.0 <= CountryResultOf(c, tw).value.riskScore <= 5.0
  {
    CatalogRows();
    var ws := tw.Entries();
    assert Covers(ThreatModels[c], ws);
    EntriesTotal(tw);
    CountryScoreDefined(c, tw);
    RiskScoreWithinRowRange(ws, c);
  }

  /**
   * First phase of the handler: read and coerce every country's four fields,
   * in catalogue order, aborting with the name of the first field the form
   * lacks.
   */
  method ReadWeights(form: map<string, string>) returns (r: Result<map<string, ThreatWeights>, IndexError>)
    ensures r.Err? <==> FirstMissing(form, FieldsOf(Countries)).Some?
    ensures r.Err? ==> r.error.MissingField? && FirstMissing(form, FieldsOf(Countries)) == Some(r.error.name)
    ensures r.Ok? <==> AllFieldsPresent(form)
    ensures r.Ok? ==> forall c :: c in r.value <==> c in Countries
    ensures r.Ok? ==> forall c :: c in r.value ==> FieldsPresent(form, c) && r.value[c] == CoercedWeights(form, c)
  {
    var countryWeights: map<string, ThreatWeights> := map[];
    for i := 0 to |Countries|
      invariant forall c :: c in countryWeights <==> c in Countries[..i]
      invariant forall k :: 0 <= k < i ==> FieldsPresent(form, Countries[k])
      invariant forall c :: c in countryWeights ==> FieldsPresent(form, c) && countryWeights[c] == CoercedWeights(form, c)
      invariant FirstMissing(form, FieldsOf(Countries[..i])) == None
    {
      var country := Countries[i];
      FirstMissingAt(form, i);
      var read := ReadCountry(form, country);
      if read.Err? {
        return Err(read.error);
      }
      countryWeights := countryWeights[country := read.value];
    }
    assert Countries[..|Countries|] == Countries;
    r := Ok(countryWeights);
  }

  /** Every record in results is the scored record of its country's weights. */
  predicate RecordsOf(countryWeights: map<string, ThreatWeights>, results: map<string, CountryResult>)
  {
    forall c :: c in results ==> c in countryWeights && Ok(results[c]) == CountryResultOf(c, countryWeights[c])
  }

  lemma RecordsOfUpdate(countryWeights: map<string, ThreatWeights>, results: map<string, CountryResult>,
                        c: string, record: CountryResult)
    requires RecordsOf(countryWeights, results)
    requires c in countryWeights && Ok(record) == CountryResultOf(c, countryWeights[c])
    ensures RecordsOf(countryWeights, results[c := record])
  {
  }

  /**
   * Second phase of the handler: score every country and assemble its
   * record, aborting with the scorer's error for the first country that has
   * none.
   */
  method ScoreCountries(countryWeights: map<string, ThreatWeights>) returns (r: Result<map<string, CountryResult>, IndexError>)
    requires forall c :: c in countryWeights <==> c in Countries
    ensures r.Ok? <==> forall c :: c in countryWeights ==> countryWeights[c].Total() != 0
    ensures r.Err? ==> r.error == ScoreFailed(ZeroDivisionError)
    ensures r.Ok? ==> forall c :: c in r.value <==> c in Countries
    ensures r.Ok? ==> forall c :: c in r.value ==> Ok(r.value[c]) == CountryResultOf(c, countryWeights[c])
  {
    var results: map<string, CountryResult> := map[];
    for i := 0 to |Countries|
      invariant forall c :: c in results <==> c in Countries[..i]
      invariant RecordsOf(countryWeights, results)
      invariant forall k :: 0 <= k < i ==> countryWeights[Countries[k]].Total() != 0
    {
      var country := Countries[i];
      assert country in ThreatModels by { CatalogCountries(); }
      var weights := countryWeights[country];
      var result := CountryResultOf(country, weights);
      if result.Err? {
        return Err(ScoreFailed(result.error));
      }
      RecordsOfUpdate(countryWeights, results, country, result.value);
      results := results[country := result.value];
    }
    assert Countries[..|Countries|] == Countries;
    r := Ok(results);
  }

  /**
   * Handle a submitted form: read every country's weights, then score every
   * country. A missing field is reported before any division by zero.
   */
  method Index(form: map<string, string>) returns (r: Result<map<string, CountryResult>, IndexError>)
    ensures r.Err? && r.error.MissingField? <==> FirstMissing(form, FieldsOf(Countries)).Some?
    ensures r.Err? && r.error.MissingField? ==> FirstMissing(form, FieldsOf(Countries)) == Some(r.error.name)
    ensures r.Err? && r.error.ScoreFailed? ==> r.error.error == ZeroDivisionError
    ensures r.Ok? <==> (AllFieldsPresent(form) &&
      forall k :: 0 <= k < |Countries| ==> CoercedWeights(form, Countries[k]).Total() != 0)
    ensures r.Ok? ==> forall c :: c in r.value <==> c in ThreatModels
    ensures r.Ok? ==> forall c :: c in r.value ==>
      FieldsPresent(form, c) && Ok(r.value[c]) == CountryResultOf(c, CoercedWeights(form, c))
  {
    CatalogCountries();
    var read := ReadWeights(form);
    if read.Err? {
      return Err(read.error);
    }
    var countryWeights := read.value;
    assert forall k :: 0 <= k < |Countries| ==> countryWeights[Countries[k]] == CoercedWeights(form, Countries[k]);
    assert (forall c :: c in countryWeights ==> countryWeights[c].Total() != 0) <==>
           (forall k :: 0 <= k < |Countries| ==> CoercedWeights(form, Countries[k]).Total() != 0);
    r := ScoreCountries(countryWeights);
  }

  /** A submission carrying the fields of Canada and India only. */
  const TwoCountryForm: map<string, string> := map[
    CountryFields("Canada")[0] := "3", CountryFields("Canada")[1] := "4",
    CountryFields("Canada")[2] := "2", CountryFields("Canada")[3] := "3",
    CountryFields("India")[0] := "4", CountryFields("India")[1] := "5",
    CountryFields("India")[2] := "3", CountryFields("India")[3] := "2"]

  lemma TwoCountryFormHasCanadaAndIndia()
    ensures FirstMissing(TwoCountryForm, CountryFields("Canada")) == None
    ensures FirstMissing(TwoCountryForm, CountryFields("India")) == None
  {
  }

  lemma TwoCountryFormLacksChina()
    ensures FirstMissing(TwoCountryForm, CountryFields("China")) == Some("China_ddos_weight")
  {
    var fs := CountryFields("China");
    assert fs[0] == "China_ddos_weight";
    assert forall k :: k in TwoCountryForm ==> k[0] != 'C' || k[1] == 'a';
    FirstMissingOfFour(TwoCountryForm, fs);
  }

  /**
   * The form of Canada and India fields only is rejected: the first field
   * read that it lacks is China's DDoS weight.
   */
  lemma TwoCountryFormRejected()
    ensures FirstMissing(TwoCountryForm, FieldsOf(Countries)) == Some("China_ddos_weight")
  {
    var form := TwoCountryForm;
    assert Countries[..0] == [] && Countries[..1] == ["Canada"] && Countries[..2] == ["Canada", "India"];
    assert FieldsOf(["Canada"]) == CountryFields("Canada") by {
      assert ["Canada"][..0] == [];
    }
    assert FieldsOf(["Canada", "India"]) == CountryFields("Canada") + CountryFields("India") by {
      assert ["Canada", "India"][..1] == ["Canada"];
    }
    TwoCountryFormHasCanadaAndIndia();
    TwoCountryFormLacksChina();
    FirstMissingAt(form, 0);
    FirstMissingAt(form, 1);
    FirstMissingAt(form, 2);
  }
}
