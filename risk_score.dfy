/**
 * The risk score of one country: the average of the country's base
 * severities weighted by the user's per-threat weights, rounded to two
 * decimal places.
 */
module RiskScoring {
  import opened Wrappers
  import opened Catalog

  /** One key/value pair of a weight dictionary. */
  datatype WeightEntry = WeightEntry(threat: string, weight: int)

  /**
   * A weight dictionary, as its entries in insertion (= iteration) order.
   * Keys need not be distinct here, so this domain is larger than that of
   * Python dicts; every property below holds over all of it, in particular
   * over the sequences whose keys are distinct.
   */
  type Weights = seq<WeightEntry>

  /** The exceptions the score computation can raise. */
  datatype ScoreError = KeyError(key: string) | ZeroDivisionError

  /** The sum of all weights of the dictionary. */
  function TotalWeight(ws: Weights): int
  {
    if ws == [] then 0 else ws[0].weight + TotalWeight(ws[1..])
  }

  predicate NonNegative(ws: Weights)
  {
    forall i :: 0 <= i < |ws| ==> ws[i].weight >= 0
  }

  /** Every threat key of the dictionary has a base severity in row. */
  predicate Covers(row: map<string, int>, ws: Weights)
  {
    forall i :: 0 <= i < |ws| ==> ws[i].threat in row
  }

  /** Reference definition of the numerator: sum of severity times weight. */
  function WeightedSum(row: map<string, int>, ws: Weights): int
    requires Covers(row, ws)
  {
    if ws == [] then 0 else row[ws[0].threat] * ws[0].weight + WeightedSum(row, ws[1..])
  }

  lemma CoversCons(row: map<string, int>, ws: Weights)
    requires ws != []
    ensures Covers(row, ws) <==> ws[0].threat in row && Covers(row, ws[1..])
  {
    assert forall i :: 0 < i < |ws| ==> ws[i] == ws[1..][i - 1];
  }

  lemma AddQuotients(a: real, b: real, t: real)
    requires t != 0.0
    ensures a / t + b / t == (a + b) / t
  {
  }

  /**
   * The generator sum of calculate_risk_score: for each key in iteration order, look up
   * the country's row (KeyError), the threat in it (KeyError), and divide the
   * product by the total (ZeroDivisionError); add up the quotients. It succeeds
   * exactly for an empty dictionary, or a known country whose row has every key
   * and a nonzero total, and then it is Σ severity·weight divided by the total.
   */
  function Terms(models: map<string, map<string, int>>, country: string, ws: Weights, total: int)
    : (r: Result<real, ScoreError>)
    ensures r.Ok? <==> ws == [] || (country in models && Covers(models[country], ws) && total != 0)
    ensures r.Ok? && ws != [] ==> r.value == WeightedSum(models[country], ws) as real / total as real
  {
    if ws == [] then Ok(0.0)
    else if country !in models then Err(KeyError(country))
    else if ws[0].threat !in models[country] then Err(KeyError(ws[0].threat))
    else if total == 0 then Err(ZeroDivisionError)
    else
      var row := models[country];
      CoversCons(row, ws);
      var term := (row[ws[0].threat] * ws[0].weight) as real / total as real;
      match Terms(models, country, ws[1..], total)
      case Err(e) => Err(e)
      case Ok(rest) =>
        AddQuotients((row[ws[0].threat] * ws[0].weight) as real, WeightedSum(row, ws[1..]) as real, total as real);
        Ok(term + rest)
  }

  /**
   * The unrounded score. It is defined exactly for an empty dictionary, or a
   * known country whose row has every key and a nonzero total weight; a defined
   * score of a non-empty dictionary is the weighted average Σ severity·weight / Σ weight.
   */
  function Score(ws: Weights, country: string): (r: Result<real, ScoreError>)
    ensures r.Ok? <==>
      ws == [] || (country in ThreatModels && Covers(ThreatModels[country], ws) && TotalWeight(ws) != 0)
    ensures r.Ok? && ws != [] ==>
      r.value == WeightedSum(ThreatModels[country], ws) as real / TotalWeight(ws) as real
  {
    Terms(ThreatModels, country, ws, TotalWeight(ws))
  }

  /**
   * Rounding to two decimal places, ties to the even hundredth. The result is a
   * whole number of hundredths at most half a hundredth away from x.
   */
  function Round2(x: real): (r: real)
    ensures x - 0.005 <= r <= x + 0.005
    ensures (r * 100.0).Floor as real == r * 100.0
  {
    var scaled := x * 100.0;
    var n := scaled.Floor;
    var frac := scaled - n as real;
    var k := if frac < 0.5 then n
             else if frac > 0.5 then n + 1
             else if n % 2 == 0 then n else n + 1;
    k as real / 100.0
  }

  /**
   * The score as returned to the caller: the unrounded score rounded to two
   * decimals. It fails exactly when, and with the error that, the unrounded score does.
   */
  function RiskScore(ws: Weights, country: string): (r: Result<real, ScoreError>)
    ensures r.Err? <==> Score(ws, country).Err?
    ensures r.Err? ==> r.error == Score(ws, country).error
    ensures r.Ok? ==> Score(ws, country).value - 0.005 <= r.value <= Score(ws, country).value + 0.005
    ensures r.Ok? ==> (r.value * 100.0).Floor as real == r.value * 100.0
    ensures r.Ok? ==> r.value == Round2(Score(ws, country).value)
  {
    match Score(ws, country)
    case Err(e) => Err(e)
    case Ok(x) => Ok(Round2(x))
  }

  // ---------------------------------------------------------------------
  // Which error is raised

  /** An empty dictionary scores 0 whatever the country, since no lookup and no division happens. */
  lemma EmptyWeightsScoreZero(country: string)
    ensures Score([], country) == Ok(0.0) && RiskScore([], country) == Ok(0.0)
  {
  }

  /** Position i holds the first key of ws that row lacks. */
  predicate FirstUnknownAt(row: map<string, int>, ws: Weights, i: int)
  {
    0 <= i < |ws| && ws[i].threat !in row && forall j :: 0 <= j < i ==> ws[j].threat in row
  }

  lemma FirstUnknownShift(row: map<string, int>, ws: Weights, i: int)
    requires ws != [] && ws[0].threat in row
    ensures FirstUnknownAt(row, ws, i) <==> i >= 1 && FirstUnknownAt(row, ws[1..], i - 1)
  {
    if i >= 1 && FirstUnknownAt(row, ws[1..], i - 1) {
      forall j | 0 <= j < i ensures ws[j].threat in row {
        if j > 0 { assert ws[j] == ws[1..][j - 1]; }
      }
    }
    if FirstUnknownAt(row, ws, i) {
      assert i != 0;
      forall j | 0 <= j < i - 1 ensures ws[1..][j].threat in row {
        assert ws[1..][j] == ws[j + 1];
      }
    }
  }

  lemma {:induction false} TermsErrors(models: map<string, map<string, int>>, country: string, ws: Weights, total: int)
    ensures Terms(models, country, ws, total) == Err(ZeroDivisionError) <==>
      ws != [] && country in models && ws[0].threat in models[country] && total == 0
    ensures forall k :: Terms(models, country, ws, total) == Err(KeyError(k)) <==>
      ws != [] &&
      ((country !in models && k == country) ||
       (country in models && exists i :: FirstUnknownAt(models[country], ws, i) && ws[i].threat == k && (i == 0 || total != 0)))
  {
    if ws != [] && country in models {
      var row := models[country];
      if ws[0].threat !in row {
        assert FirstUnknownAt(row, ws, 0);
        forall i | FirstUnknownAt(row, ws, i) ensures i == 0 { }
      } else if total == 0 {
        forall i | FirstUnknownAt(row, ws, i) ensures i != 0 { }
      } else {
        TermsErrors(models, country, ws[1..], total);
        forall i ensures FirstUnknownAt(row, ws, i) <==> i >= 1 && FirstUnknownAt(row, ws[1..], i - 1) {
          FirstUnknownShift(row, ws, i);
        }
        forall k ensures Terms(models, country, ws, total) == Err(KeyError(k)) <==>
          exists i :: FirstUnknownAt(row, ws, i) && ws[i].threat == k
        {
          if exists i :: FirstUnknownAt(row, ws, i) && ws[i].threat == k {
            var i :| FirstUnknownAt(row, ws, i) && ws[i].threat == k;
            assert FirstUnknownAt(row, ws[1..], i - 1) && ws[1..][i - 1].threat == k;
          }
          if Terms(models, country, ws[1..], total) == Err(KeyError(k)) {
            var i :| FirstUnknownAt(row, ws[1..], i) && ws[1..][i].threat == k;
            assert FirstUnknownAt(row, ws, i + 1) && ws[i + 1].threat == k;
          }
        }
      }
    }
  }

  /**
   * The error raised: KeyError for the country when it is unknown, KeyError for
   * the first key in iteration order that the country's row lacks (unless an
   * earlier division by zero happens first), ZeroDivisionError when the first
   * lookups succeed and the total is zero.
   */
  lemma ScoreErrors(ws: Weights, country: string)
    ensures ws != [] && country !in ThreatModels ==> Score(ws, country) == Err(KeyError(country))
    ensures Score(ws, country) == Err(ZeroDivisionError) <==>
      ws != [] && country in ThreatModels && ws[0].threat in ThreatModels[country] && TotalWeight(ws) == 0
    ensures forall k :: Score(ws, country) == Err(KeyError(k)) <==>
      ws != [] &&
      ((country !in ThreatModels && k == country) ||
       (country in ThreatModels &&
        exists i :: FirstUnknownAt(ThreatModels[country], ws, i) && ws[i].threat == k && (i == 0 || TotalWeight(ws) != 0)))
  {
    TermsErrors(ThreatModels, country, ws, TotalWeight(ws));
  }

  // ---------------------------------------------------------------------
  // Bounds: a weighted average lies within the range of what it averages

  lemma ScaleBetween(s: int, w: int, lo: int, hi: int)
    requires w >= 0 && lo <= s <= hi
    ensures lo * w <= s * w <= hi * w
  {
    assert (s - lo) * w >= 0 && (hi - s) * w >= 0;
  }

  lemma {:induction false} WeightedSumBounds(row: map<string, int>, ws: Weights, lo: int, hi: int)
    requires Covers(row, ws) && NonNegative(ws)
    requires forall i :: 0 <= i < |ws| ==> lo <= row[ws[i].threat] <= hi
    ensures lo * TotalWeight(ws) <= WeightedSum(row, ws) <= hi * TotalWeight(ws)
  {
    if ws != [] {
      var tail := ws[1..];
      assert forall i :: 0 <= i < |tail| ==> tail[i] == ws[i + 1];
      WeightedSumBounds(row, tail, lo, hi);
      var s, w, t := row[ws[0].threat], ws[0].weight, TotalWeight(tail);
      ScaleBetween(s, w, lo, hi);
      assert lo * (w + t) == lo * w + lo * t;
      assert hi * (w + t) == hi * w + hi * t;
    }
  }

  lemma QuotientBetween(s: int, t: int, lo: int, hi: int)
    requires t > 0 && lo * t <= s <= hi * t
    ensures lo as real <= s as real / t as real <= hi as real
  {
    var tr := t as real;
    assert (lo * t) as real == lo as real * tr;
    assert (hi * t) as real == hi as real * tr;
    assert (lo as real * tr) / tr == lo as real;
    assert (hi as real * tr) / tr == hi as real;
  }

  lemma {:induction false} NonNegativeTotal(ws: Weights)
    requires NonNegative(ws)
    ensures TotalWeight(ws) >= 0
  {
    if ws != [] {
      assert forall i :: 0 <= i < |ws| - 1 ==> ws[1..][i] == ws[i + 1];
      NonNegativeTotal(ws[1..]);
    }
  }

  /**
   * With non-negative weights and a positive total, the unrounded score lies
   * between any lower and upper bound of the severities it averages.
   */
  lemma ScoreBetween(ws: Weights, country: string, lo: int, hi: int)
    requires country in ThreatModels && Covers(ThreatModels[country], ws)
    requires NonNegative(ws) && TotalWeight(ws) > 0
    requires forall i :: 0 <= i < |ws| ==> lo <= ThreatModels[country][ws[i].threat] <= hi
    ensures Score(ws, country).Ok?
    ensures lo as real <= Score(ws, country).value <= hi as real
  {
    var row := ThreatModels[country];
    WeightedSumBounds(row, ws, lo, hi);
    QuotientBetween(WeightedSum(row, ws), TotalWeight(ws), lo, hi);
  }

  /** A value that already has two decimals is left unchanged. */
  lemma Round2Exact(n: int)
    ensures Round2(n as real / 100.0) == n as real / 100.0
  {
    assert (n as real / 100.0) * 100.0 == n as real;
  }

  /**
   * A value exactly halfway between the hundredths n/100 and (n+1)/100 goes to
   * whichever of the two has an even numerator.
   */
  lemma Round2Ties(n: int)
    ensures Round2((2 * n + 1) as real / 200.0) == (if n % 2 == 0 then n else n + 1) as real / 100.0
  {
    var scaled := (2 * n + 1) as real / 200.0 * 100.0;
    assert scaled == n as real + 0.5;
    assert scaled.Floor == n;
    assert scaled - n as real == 0.5;
  }

  /** Rounding never leaves an interval with integer ends. */
  lemma Round2Between(x: real, lo: int, hi: int)
    requires lo as real <= x <= hi as real
    ensures lo as real <= Round2(x) <= hi as real
  {
    var scaled := x * 100.0;
    var n := scaled.Floor;
    assert 100 * lo <= n <= 100 * hi;
    if n == 100 * hi {
      assert scaled == n as real;
    }
  }

  /**
   * For a known country, non-negative weights and a positive total, the
   * returned score lies between the smallest and the largest base severity of
   * the country's row, hence within 1..5.
   */
  lemma RiskScoreWithinRowRange(ws: Weights, country: string)
    requires country in ThreatModels && Covers(ThreatModels[country], ws)
    requires NonNegative(ws) && TotalWeight(ws) > 0
    ensures RiskScore(ws, country).Ok?
    ensures LowestSeverity(country) as real <= RiskScore(ws, country).value <= HighestSeverity(country) as real
    ensures 1.0 <= RiskScore(ws, country).value <= 5.0
  {
    var lo, hi := LowestSeverity(country), HighestSeverity(country);
    ScoreBetween(ws, country, lo, hi);
    Round2Between(Score(ws, country).value, lo, hi);
  }

  /** Every defined score of a non-empty dictionary of non-negative weights lies in [1, 5]. */
  lemma DefinedScoreInRange(ws: Weights, country: string)
    requires ws != [] && NonNegative(ws) && RiskScore(ws, country).Ok?
    ensures 1.0 <= RiskScore(ws, country).value <= 5.0
  {
    NonNegativeTotal(ws);
    RiskScoreWithinRowRange(ws, country);
  }

  /** Canada weighted DDoS 3, Phishing 4, PhysicalAttack 2, CloudSecurity 3 scores 38/12, returned as 3.17. */
  lemma CanadaReferenceScore()
    ensures Score([WeightEntry("DDoS", 3), WeightEntry("Phishing", 4),
                   WeightEntry("PhysicalAttack", 2), WeightEntry("CloudSecurity", 3)], "Canada")
            == Ok(38.0 / 12.0)
    ensures RiskScore([WeightEntry("DDoS", 3), WeightEntry("Phishing", 4),
                       WeightEntry("PhysicalAttack", 2), WeightEntry("CloudSecurity", 3)], "Canada")
            == Ok(3.17)
  {
    assert (38.0 / 12.0 * 100.0).Floor == 316;
  }
}
