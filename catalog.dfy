/**
 * The fixed threat catalogue: for every country, the base severity of each
 * threat category. It is read-only for the whole lifetime of the process.
 */
module Catalog {

  /** The countries in the catalogue, in the order the form handler visits them. */
  const Countries: seq<string> := ["Canada", "India", "China", "Poland"]

  /** The threat categories of every row, in the order the rows list them. */
  const Threats: seq<string> := ["DDoS", "Phishing", "PhysicalAttack", "CloudSecurity"]

  /** Country -> threat category -> base severity. */
  const ThreatModels: map<string, map<string, int>> := map[
    "Canada" := map["DDoS" := 3, "Phishing" := 4, "PhysicalAttack" := 2, "CloudSecurity" := 3],
    "India"  := map["DDoS" := 4, "Phishing" := 5, "PhysicalAttack" := 3, "CloudSecurity" := 2],
    "China"  := map["DDoS" := 5, "Phishing" := 5, "PhysicalAttack" := 2, "CloudSecurity" := 2],
    "Poland" := map["DDoS" := 2, "Phishing" := 3, "PhysicalAttack" := 1, "CloudSecurity" := 4]
  ]

  /** The catalogue has exactly the listed countries. */
  lemma CatalogCountries()
    ensures forall c :: c in ThreatModels <==> c in Countries
  {
  }

  /** Every row of the catalogue has exactly the listed categories. */
  lemma CatalogRows()
    ensures forall c :: c in ThreatModels ==> forall t :: t in ThreatModels[c] <==> t in Threats
  {
  }

  /** Every base severity lies in 1..5. */
  lemma SeveritiesInRange()
    ensures forall c, t :: c in ThreatModels && t in ThreatModels[c] ==> 1 <= ThreatModels[c][t] <= 5
  {
  }

  /** The smallest severity a row gives to the categories ts. */
  function MinSeverity(row: map<string, int>, ts: seq<string>): (m: int)
    requires |ts| > 0 && forall i :: 0 <= i < |ts| ==> ts[i] in row
    ensures exists i :: 0 <= i < |ts| && row[ts[i]] == m
    ensures forall i :: 0 <= i < |ts| ==> m <= row[ts[i]]
  {
    if |ts| == 1 then row[ts[0]]
    else
      var rest := MinSeverity(row, ts[1..]);
      if row[ts[0]] <= rest then row[ts[0]] else rest
  }

  /** The largest severity a row gives to the categories ts. */
  function MaxSeverity(row: map<string, int>, ts: seq<string>): (m: int)
    requires |ts| > 0 && forall i :: 0 <= i < |ts| ==> ts[i] in row
    ensures exists i :: 0 <= i < |ts| && row[ts[i]] == m
    ensures forall i :: 0 <= i < |ts| ==> row[ts[i]] <= m
  {
    if |ts| == 1 then row[ts[0]]
    else
      var rest := MaxSeverity(row, ts[1..]);
      if row[ts[0]] >= rest then row[ts[0]] else rest
  }

  /** The lowest base severity of a country's row. */
  function LowestSeverity(c: string): (m: int)
    requires c in ThreatModels
    ensures forall t :: t in ThreatModels[c] ==> m <= ThreatModels[c][t]
    ensures exists t :: t in ThreatModels[c] && ThreatModels[c][t] == m
    ensures 1 <= m
  {
    CatalogRows();
    SeveritiesInRange();
    var row := ThreatModels[c];
    var m := MinSeverity(row, Threats);
    assert forall t :: t in row ==> m <= row[t] by {
      forall t | t in row ensures m <= row[t] {
        var i :| 0 <= i < |Threats| && Threats[i] == t;
      }
    }
    m
  }

  /** The highest base severity of a country's row. */
  function HighestSeverity(c: string): (m: int)
    requires c in ThreatModels
    ensures forall t :: t in ThreatModels[c] ==> ThreatModels[c][t] <= m
    ensures exists t :: t in ThreatModels[c] && ThreatModels[c][t] == m
    ensures m <= 5
  {
    CatalogRows();
    SeveritiesInRange();
    var row := ThreatModels[c];
    var m := MaxSeverity(row, Threats);
    assert forall t :: t in row ==> row[t] <= m by {
      forall t | t in row ensures row[t] <= m {
        var i :| 0 <= i < |Threats| && Threats[i] == t;
      }
    }
    m
  }
}
