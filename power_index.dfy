/**
 * The power-to-weight index ("indice poids/puissance") of the edge function
 * `get_indice_poids_puissance`: a body-composition sub-score, a benchmark
 * normaliser per strength record, a best-score-per-category aggregation, a
 * weighted and renormalised strength score, and the 40/60 blend of the two.
 *
 * The database rows (profile height, latest body composition, the athlete's
 * records and the reference exercises) are inputs; the HTTP layer is not modelled.
 */
module PowerIndex {
  import opened Wrappers
  import opened JsMath

  /** A row of `exercices_reference`: thresholds are ratios of record to body weight. */
  datatype Exercise = Exercise(
    id: string,
    categorie: string,
    baremeIntermediaire: real,
    baremeAvance: real,
    baremeElite: real)

  /** A row of `records`: the athlete's value for one reference exercise. */
  datatype Record = Record(exerciceId: string, value: real)

  /** Everything the function reads from the database, `None` standing for null or a missing row. */
  datatype Input = Input(
    tailleCm: Option<real>,
    poidsKg: Option<real>,
    masseGrassePct: Option<real>,
    records: seq<Record>,
    exercices: seq<Exercise>)

  /** The JSON body of a successful response. */
  datatype PowerIndexResult = PowerIndexResult(
    indice: int,
    scoreCompo: int,
    scoreForce: int,
    categorieScores: map<string, real>,
    poids: real,
    tailleCm: real,
    masseGrasse: Option<real>)

  // ---------------------------------------------------------------------------
  // Defaults and the body-composition sub-score

  /** JavaScript truthiness of an optional number: null, undefined and 0 are falsy. */
  predicate Truthy(x: Option<real>) {
    x.Some? && x.value != 0.0
  }

  /** `x || fallback` on an optional number. */
  function OrDefault(x: Option<real>, fallback: real): real {
    if Truthy(x) then x.value else fallback
  }

  /** Body weight in kg: 70 when there is no body-composition row or its weight is 0. */
  function Poids(input: Input): (p: real)
    ensures !Truthy(input.poidsKg) ==> p == 70.0
    ensures Truthy(input.poidsKg) ==> p == input.poidsKg.value
    ensures (input.poidsKg.Some? ==> input.poidsKg.value >= 0.0) ==> p > 0.0
  {
    OrDefault(input.poidsKg, 70.0)
  }

  /** Height in metres: 1.80 when the profile has no height or a height of 0. */
  function TailleM(input: Input): (t: real)
    ensures t != 0.0
  {
    OrDefault(input.tailleCm, 180.0) / 100.0
  }

  /** Six-tier body-fat table, decaying by 2 points per percent above 20 down to a floor of 30. */
  function BodyFatScore(masseGrasse: real): (r: real)
    ensures 30.0 <= r <= 100.0
  {
    if masseGrasse <= 10.0 then 100.0
    else if masseGrasse <= 12.0 then 95.0
    else if masseGrasse <= 14.0 then 85.0
    else if masseGrasse <= 16.0 then 75.0
    else if masseGrasse <= 18.0 then 65.0
    else if masseGrasse <= 20.0 then 50.0
    else Max(30.0, 50.0 - (masseGrasse - 20.0) * 2.0)
  }

  /** Body mass index, weight over height squared. */
  function Imc(poids: real, tailleM: real): (imc: real)
    requires tailleM != 0.0
    ensures imc * (tailleM * tailleM) == poids
  {
    poids / (tailleM * tailleM)
  }

  /** Five-tier BMI table, decaying by 5 points per unit above 26 down to a floor of 30. */
  function BmiScore(imc: real): (r: real)
    ensures 30.0 <= r <= 90.0
  {
    if imc < 20.0 then 80.0
    else if imc < 22.0 then 90.0
    else if imc < 24.0 then 75.0
    else if imc < 26.0 then 60.0
    else Max(30.0, 60.0 - (imc - 26.0) * 5.0)
  }

  /** The composition sub-score: body fat when it is truthy, BMI otherwise. */
  function ScoreCompo(input: Input): (r: real)
    ensures 30.0 <= r <= 100.0
  {
    if Truthy(input.masseGrassePct) then BodyFatScore(input.masseGrassePct.value)
    else BmiScore(Imc(Poids(input), TailleM(input)))
  }

  /** The body-fat table is non-increasing: more body fat never scores higher. */
  lemma BodyFatScoreAntitone(m1: real, m2: real)
    requires m1 <= m2
    ensures BodyFatScore(m2) <= BodyFatScore(m1)
  {
  }

  /** The tiers of the body-fat table, at the boundaries the source lists. */
  lemma BodyFatScoreTiers(m: real)
    ensures m <= 10.0 ==> BodyFatScore(m) == 100.0
    ensures 10.0 < m <= 12.0 ==> BodyFatScore(m) == 95.0
    ensures 12.0 < m <= 14.0 ==> BodyFatScore(m) == 85.0
    ensures 14.0 < m <= 16.0 ==> BodyFatScore(m) == 75.0
    ensures 16.0 < m <= 18.0 ==> BodyFatScore(m) == 65.0
    ensures 18.0 < m <= 20.0 ==> BodyFatScore(m) == 50.0
    ensures 30.0 <= m ==> BodyFatScore(m) == 30.0
  {
  }

  /**
   * A truthy body fat decides the composition score alone: weight and height
   * are then never looked at, so BMI is never combined with body fat.
   */
  lemma BodyFatOverridesBmi(a: Input, b: Input)
    requires Truthy(a.masseGrassePct) && a.masseGrassePct == b.masseGrassePct
    ensures ScoreCompo(a) == ScoreCompo(b) == BodyFatScore(a.masseGrassePct.value)
  {
  }

  /** Without a truthy body fat (missing or 0), only weight and height matter, through BMI. */
  lemma BmiFallback(a: Input, b: Input)
    requires !Truthy(a.masseGrassePct) && !Truthy(b.masseGrassePct)
    requires Poids(a) == Poids(b) && TailleM(a) == TailleM(b)
    ensures ScoreCompo(a) == ScoreCompo(b)
    ensures ScoreCompo(a) == BmiScore(Imc(Poids(a), TailleM(a)))
  {
  }

  // ---------------------------------------------------------------------------
  // Benchmark normaliser

  /**
   * Maps the ratio record/weight to 0..100 against the exercise's thresholds.
   * The tests run elite first, then advanced, then intermediate, so each
   * division happens only when its range is positive: whatever the order of
   * the thresholds, no denominator is ever 0 for a non-negative ratio.
   */
  function Normalize(ratio: real, ex: Exercise): (r: real)
    requires ratio >= 0.0
    ensures 0.0 <= r <= 100.0
    ensures r == 100.0 <==> ratio >= ex.baremeElite
    ensures ratio < ex.baremeElite && ratio >= ex.baremeAvance ==> 80.0 <= r < 100.0
    ensures ratio < ex.baremeElite && ratio < ex.baremeAvance && ratio >= ex.baremeIntermediaire ==> 60.0 <= r < 80.0
    ensures ratio < ex.baremeElite && ratio < ex.baremeAvance && ratio < ex.baremeIntermediaire ==> r <= 59.0
  {
    if ratio >= ex.baremeElite then 100.0
    else if ratio >= ex.baremeAvance then
      var range := ex.baremeElite - ex.baremeAvance;
      FractionBelowOne(ratio - ex.baremeAvance, range);
      80.0 + ((ratio - ex.baremeAvance) / range) * 20.0
    else if ratio >= ex.baremeIntermediaire then
      var range := ex.baremeAvance - ex.baremeIntermediaire;
      FractionBelowOne(ratio - ex.baremeIntermediaire, range);
      60.0 + ((ratio - ex.baremeIntermediaire) / range) * 20.0
    else
      FractionBelowOne(ratio, ex.baremeIntermediaire);
      Min((ratio / ex.baremeIntermediaire) * 60.0, 59.0)
  }

  lemma FractionBelowOne(x: real, d: real)
    requires 0.0 <= x < d
    ensures 0.0 <= x / d < 1.0
  {
  }

  predicate OrderedThresholds(ex: Exercise) {
    0.0 <= ex.baremeIntermediaire <= ex.baremeAvance <= ex.baremeElite
  }

  /** With ordered thresholds the three tiers are exactly the ratio bands. */
  lemma NormalizeTiers(ratio: real, ex: Exercise)
    requires ratio >= 0.0 && OrderedThresholds(ex)
    ensures Normalize(ratio, ex) >= 80.0 <==> ratio >= ex.baremeAvance
    ensures Normalize(ratio, ex) >= 60.0 <==> ratio >= ex.baremeIntermediaire
  {
  }

  lemma DivMonotone(x: real, y: real, d: real)
    requires x <= y && d > 0.0
    ensures x / d <= y / d
  {
    assert y / d - x / d == (y - x) / d;
  }

  /** With ordered thresholds, a better ratio never scores lower. */
  lemma NormalizeMonotone(r1: real, r2: real, ex: Exercise)
    requires 0.0 <= r1 <= r2 && OrderedThresholds(ex)
    ensures Normalize(r1, ex) <= Normalize(r2, ex)
  {
    var n1, n2 := Normalize(r1, ex), Normalize(r2, ex);
    if r1 >= ex.baremeAvance && r2 < ex.baremeElite {
      DivMonotone(r1 - ex.baremeAvance, r2 - ex.baremeAvance, ex.baremeElite - ex.baremeAvance);
    } else if r1 >= ex.baremeIntermediaire && r2 < ex.baremeAvance {
      DivMonotone(r1 - ex.baremeIntermediaire, r2 - ex.baremeIntermediaire, ex.baremeAvance - ex.baremeIntermediaire);
    } else if r2 < ex.baremeIntermediaire {
      DivMonotone(r1, r2, ex.baremeIntermediaire);
    } else {
      NormalizeTiers(r1, ex);
      NormalizeTiers(r2, ex);
    }
  }

  // ---------------------------------------------------------------------------
  // Reference table and per-category aggregation

  /** `new Map(exercices.map(e => [e.id, e]))`: a later row with the same id replaces an earlier one. */
  function ExerciseMap(exercices: seq<Exercise>): (m: map<string, Exercise>)
    ensures forall id :: id in m <==> exists k :: 0 <= k < |exercices| && exercices[k].id == id
    ensures forall id :: id in m ==> m[id].id == id && m[id] in exercices
  {
    if exercices == [] then map[]
    else
      var prefix := exercices[..|exercices| - 1];
      var last := exercices[|exercices| - 1];
      var m := ExerciseMap(prefix)[last.id := last];
      assert forall k :: 0 <= k < |prefix| ==> prefix[k] == exercices[k];
      m
  }

  /** Row k is the last row of the table carrying its id. */
  predicate LastWithId(exercices: seq<Exercise>, k: int) {
    0 <= k < |exercices| && forall j :: k < j < |exercices| ==> exercices[j].id != exercices[k].id
  }

  /** Ids are looked up in the last row that carries them: a later duplicate replaces an earlier one. */
  lemma {:induction false} ExerciseMapLastWins(exercices: seq<Exercise>, k: int)
    requires LastWithId(exercices, k)
    ensures exercices[k].id in ExerciseMap(exercices)
    ensures ExerciseMap(exercices)[exercices[k].id] == exercices[k]
  {
    var n := |exercices| - 1;
    if k < n {
      var prefix := exercices[..n];
      assert prefix[k] == exercices[k];
      assert LastWithId(prefix, k) by {
        forall j | k < j < |prefix| ensures prefix[j].id != prefix[k].id {
          assert prefix[j] == exercices[j];
        }
      }
      ExerciseMapLastWins(prefix, k);
      assert exercices[n].id != exercices[k].id;
    }
  }

  /** The score of one record whose exercise is known. */
  function RecordScore(rec: Record, ex: Exercise, poids: real): real
    requires rec.value >= 0.0 && poids > 0.0
  {
    Normalize(rec.value / poids, ex)
  }

  predicate NonNegativeRecords(records: seq<Record>) {
    forall k :: 0 <= k < |records| ==> records[k].value >= 0.0
  }

  /** The update of one category: a missing or zero (falsy) entry, or a lower one, is replaced. */
  function Merge(scores: map<string, real>, cat: string, score: real): (r: map<string, real>)
    ensures r.Keys == scores.Keys + {cat}
    ensures forall c :: c in scores && c != cat ==> r[c] == scores[c]
    ensures cat in scores && scores[cat] != 0.0 ==> r[cat] == Max(scores[cat], score)
    ensures !(cat in scores && scores[cat] != 0.0) ==> r[cat] == score
  {
    if cat !in scores || scores[cat] == 0.0 || score > scores[cat] then scores[cat := score] else scores
  }

  /** The map the aggregation loop builds from the first records, as a left fold. */
  function CategoryScores(records: seq<Record>, exMap: map<string, Exercise>, poids: real): (m: map<string, real>)
    requires NonNegativeRecords(records) && poids > 0.0
    ensures forall c :: c in m ==> 0.0 <= m[c] <= 100.0
  {
    if records == [] then map[]
    else
      var prefix := records[..|records| - 1];
      var rec := records[|records| - 1];
      assert forall k :: 0 <= k < |prefix| ==> prefix[k] == records[k];
      var prev := CategoryScores(prefix, exMap, poids);
      if rec.exerciceId !in exMap then prev
      else Merge(prev, exMap[rec.exerciceId].categorie, RecordScore(rec, exMap[rec.exerciceId], poids))
  }

  /** Record k is known in the reference table and belongs to category `cat`. */
  predicate Contributes(records: seq<Record>, k: int, exMap: map<string, Exercise>, cat: string) {
    0 <= k < |records| && records[k].exerciceId in exMap && exMap[records[k].exerciceId].categorie == cat
  }

  /** Facts shared by the three lemmas below about the last step of the fold. */
  lemma PrefixFacts(records: seq<Record>, exMap: map<string, Exercise>, poids: real)
    requires NonNegativeRecords(records) && poids > 0.0 && records != []
    ensures var n := |records| - 1;
      && NonNegativeRecords(records[..n])
      && (forall k, c :: Contributes(records[..n], k, exMap, c) <==> k < n && Contributes(records, k, exMap, c))
      && (forall k :: 0 <= k < n && records[k].exerciceId in exMap ==>
            ScoreAt(records[..n], k, exMap, poids) == ScoreAt(records, k, exMap, poids))
  {
    var n := |records| - 1;
    assert forall k :: 0 <= k < n ==> records[..n][k] == records[k];
  }

  /**
   * The categories reported are exactly those of the known records: a record
   * whose exercise is not in the reference table is skipped.
   */
  lemma {:induction false} CategoryScoresKeys(records: seq<Record>, exMap: map<string, Exercise>, poids: real)
    requires NonNegativeRecords(records) && poids > 0.0
    ensures forall c :: c in CategoryScores(records, exMap, poids) <==> exists k :: Contributes(records, k, exMap, c)
  {
    if records != [] {
      var n := |records| - 1;
      var prefix := records[..n];
      PrefixFacts(records, exMap, poids);
      CategoryScoresKeys(prefix, exMap, poids);
      var prev := CategoryScores(prefix, exMap, poids);
      var m := CategoryScores(records, exMap, poids);
      forall c
        ensures c in m <==> exists k :: Contributes(records, k, exMap, c)
      {
        if c in m {
          if c in prev {
            var k :| Contributes(prefix, k, exMap, c);
            assert Contributes(records, k, exMap, c);
          } else {
            assert Contributes(records, n, exMap, c);
          }
        }
        if exists k :: Contributes(records, k, exMap, c) {
          var k :| Contributes(records, k, exMap, c);
          if k < n {
            assert Contributes(prefix, k, exMap, c);
          }
        }
      }
    }
  }

  /** Each category holds at least the score of every record in it. */
  lemma {:induction false} CategoryScoresUpperBound(records: seq<Record>, exMap: map<string, Exercise>, poids: real)
    requires NonNegativeRecords(records) && poids > 0.0
    ensures forall k, c :: Contributes(records, k, exMap, c) ==>
      c in CategoryScores(records, exMap, poids) && ScoreAt(records, k, exMap, poids) <= CategoryScores(records, exMap, poids)[c]
  {
    if records != [] {
      var n := |records| - 1;
      var prefix := records[..n];
      PrefixFacts(records, exMap, poids);
      CategoryScoresUpperBound(prefix, exMap, poids);
      var m := CategoryScores(records, exMap, poids);
      forall k, c | Contributes(records, k, exMap, c)
        ensures c in m && ScoreAt(records, k, exMap, poids) <= m[c]
      {
        if k < n {
          assert Contributes(prefix, k, exMap, c);
        }
      }
    }
  }

  /** Each category's value is the score of one of its records: a maximum, never an average. */
  lemma {:induction false} CategoryScoresAttained(records: seq<Record>, exMap: map<string, Exercise>, poids: real)
    requires NonNegativeRecords(records) && poids > 0.0
    ensures forall c :: c in CategoryScores(records, exMap, poids) ==>
      exists k :: Contributes(records, k, exMap, c) && CategoryScores(records, exMap, poids)[c] == ScoreAt(records, k, exMap, poids)
  {
    if records != [] {
      var n := |records| - 1;
      var prefix := records[..n];
      PrefixFacts(records, exMap, poids);
      CategoryScoresAttained(prefix, exMap, poids);
      var prev := CategoryScores(prefix, exMap, poids);
      var m := CategoryScores(records, exMap, poids);
      forall c | c in m
        ensures exists k :: Contributes(records, k, exMap, c) && m[c] == ScoreAt(records, k, exMap, poids)
      {
        if Contributes(records, n, exMap, c) && m[c] == ScoreAt(records, n, exMap, poids) {
        } else {
          assert c in prev && m[c] == prev[c];
          var k :| Contributes(prefix, k, exMap, c) && prev[c] == ScoreAt(prefix, k, exMap, poids);
          assert Contributes(records, k, exMap, c);
        }
      }
    }
  }

  /** The score of record k, whose exercise is known. */
  function ScoreAt(records: seq<Record>, k: int, exMap: map<string, Exercise>, poids: real): (r: real)
    requires NonNegativeRecords(records) && poids > 0.0
    requires 0 <= k < |records| && records[k].exerciceId in exMap
    ensures 0.0 <= r <= 100.0
  {
    RecordScore(records[k], exMap[records[k].exerciceId], poids)
  }

  /** The aggregation loop over the records, updating the category map in place. */
  method AggregateCategories(records: seq<Record>, exMap: map<string, Exercise>, poids: real)
    returns (categorieScores: map<string, real>)
    requires NonNegativeRecords(records) && poids > 0.0
    ensures categorieScores == CategoryScores(records, exMap, poids)
  {
    categorieScores := map[];
    for i := 0 to |records|
      invariant categorieScores == CategoryScores(records[..i], exMap, poids)
    {
      assert records[..i + 1][..i] == records[..i];
      var rec := records[i];
      if rec.exerciceId in exMap {
        var ex := exMap[rec.exerciceId];
        var ratio := rec.value / poids;
        var score := Normalize(ratio, ex);
        if ex.categorie !in categorieScores || categorieScores[ex.categorie] == 0.0 || score > categorieScores[ex.categorie] {
          categorieScores := categorieScores[ex.categorie := score];
        }
      }
    }
    assert records[..|records|] == records;
  }

  // ---------------------------------------------------------------------------
  // Weighted strength score

  /** The weight table, in the order the source iterates it. */
  const Weights: seq<(string, real)> :=
    [("halterophilie", 0.35), ("muscu_bas", 0.35), ("muscu_haut", 0.20), ("unilateral", 0.10)]

  /** A category takes part in the weighting when its score is truthy (present and not 0). */
  predicate Present(scores: map<string, real>, cat: string) {
    cat in scores && scores[cat] != 0.0
  }

  function WeightedSum(scores: map<string, real>, ws: seq<(string, real)>): real {
    if ws == [] then 0.0
    else
      var (cat, w) := ws[|ws| - 1];
      WeightedSum(scores, ws[..|ws| - 1]) + (if Present(scores, cat) then scores[cat] * w else 0.0)
  }

  function TotalWeight(scores: map<string, real>, ws: seq<(string, real)>): real {
    if ws == [] then 0.0
    else
      var (cat, w) := ws[|ws| - 1];
      TotalWeight(scores, ws[..|ws| - 1]) + (if Present(scores, cat) then w else 0.0)
  }

  /** The strength score: weighted mean over the present weighted categories, 0 when none is present. */
  function ScoreForceOf(scores: map<string, real>): real {
    var total := TotalWeight(scores, Weights);
    if total > 0.0 then WeightedSum(scores, Weights) / total else 0.0
  }

  /** The loop over the weight table accumulating `scoreForce` and `totalWeight`. */
  method ScoreForce(categorieScores: map<string, real>) returns (scoreForce: real)
    ensures scoreForce == ScoreForceOf(categorieScores)
  {
    scoreForce := 0.0;
    var totalWeight := 0.0;
    for i := 0 to |Weights|
      invariant scoreForce == WeightedSum(categorieScores, Weights[..i])
      invariant totalWeight == TotalWeight(categorieScores, Weights[..i])
    {
      assert Weights[..i + 1][..i] == Weights[..i];
      var (cat, weight) := Weights[i];
      if cat in categorieScores && categorieScores[cat] != 0.0 {
        scoreForce := scoreForce + categorieScores[cat] * weight;
        totalWeight := totalWeight + weight;
      }
    }
    assert Weights[..|Weights|] == Weights;
    if totalWeight > 0.0 {
      scoreForce := scoreForce / totalWeight;
    } else {
      scoreForce := 0.0;
    }
  }

  predicate WeightedCategory(cat: string) {
    exists k :: 0 <= k < |Weights| && Weights[k].0 == cat
  }

  predicate NonNegativeWeights(ws: seq<(string, real)>) {
    forall k :: 0 <= k < |ws| ==> ws[k].1 >= 0.0
  }

  /** Partial sums of a table lie between lo and hi times the weight taken. */
  lemma {:induction false} WeightedSumBounds(scores: map<string, real>, ws: seq<(string, real)>, lo: real, hi: real)
    requires NonNegativeWeights(ws)
    requires forall c :: Present(scores, c) ==> lo <= scores[c] <= hi
    ensures TotalWeight(scores, ws) >= 0.0
    ensures lo * TotalWeight(scores, ws) <= WeightedSum(scores, ws) <= hi * TotalWeight(scores, ws)
  {
    if ws != [] {
      var prefix := ws[..|ws| - 1];
      var (cat, w) := ws[|ws| - 1];
      assert NonNegativeWeights(prefix) by {
        forall k | 0 <= k < |prefix| ensures prefix[k].1 >= 0.0 {
          assert prefix[k] == ws[k];
        }
      }
      WeightedSumBounds(scores, prefix, lo, hi);
      if Present(scores, cat) {
        assert w == ws[|ws| - 1].1 >= 0.0;
        StepBounds(WeightedSum(scores, prefix), TotalWeight(scores, prefix), scores[cat], w, lo, hi);
      }
    }
  }

  /** Adding one weighted score between lo and hi keeps a weighted sum between lo and hi times its weight. */
  lemma StepBounds(sum: real, total: real, x: real, w: real, lo: real, hi: real)
    requires lo * total <= sum <= hi * total
    requires lo <= x <= hi && w >= 0.0
    ensures lo * (total + w) <= sum + x * w <= hi * (total + w)
  {
    assert lo * w <= x * w <= hi * w;
    assert lo * (total + w) == lo * total + lo * w;
    assert hi * (total + w) == hi * total + hi * w;
  }

  lemma BoundsAfterDivision(sum: real, total: real, lo: real, hi: real)
    requires total > 0.0 && lo * total <= sum <= hi * total
    ensures lo <= sum / total <= hi
  {
    assert sum / total * total == sum;
  }

  /**
   * The strength score is a weighted mean: it lies between the lowest and the
   * highest present weighted score; with none present it is 0.
   */
  lemma ScoreForceBounds(scores: map<string, real>, lo: real, hi: real)
    requires forall c :: Present(scores, c) ==> lo <= scores[c] <= hi
    ensures TotalWeight(scores, Weights) > 0.0 ==> lo <= ScoreForceOf(scores) <= hi
    ensures TotalWeight(scores, Weights) == 0.0 ==> ScoreForceOf(scores) == 0.0
  {
    WeightedSumBounds(scores, Weights, lo, hi);
    var total := TotalWeight(scores, Weights);
    if total > 0.0 {
      BoundsAfterDivision(WeightedSum(scores, Weights), total, lo, hi);
    }
  }

  /** Two maps that agree on the presence and value of the weighted categories. */
  predicate AgreeOn(s1: map<string, real>, s2: map<string, real>, cat: string) {
    Present(s1, cat) == Present(s2, cat) && (Present(s1, cat) ==> s1[cat] == s2[cat])
  }

  lemma {:induction false} SumsDependOnTable(s1: map<string, real>, s2: map<string, real>, ws: seq<(string, real)>)
    requires forall k :: 0 <= k < |ws| ==> AgreeOn(s1, s2, ws[k].0)
    ensures WeightedSum(s1, ws) == WeightedSum(s2, ws)
    ensures TotalWeight(s1, ws) == TotalWeight(s2, ws)
  {
    if ws != [] {
      assert AgreeOn(s1, s2, ws[|ws| - 1].0);
      SumsDependOnTable(s1, s2, ws[..|ws| - 1]);
    }
  }

  /**
   * Only the four weighted categories count, and a score of exactly 0 counts as
   * absent: categories outside the table, and zero entries, never change scoreForce.
   */
  lemma ScoreForceOnlyWeighted(s1: map<string, real>, s2: map<string, real>)
    requires forall c :: WeightedCategory(c) ==> AgreeOn(s1, s2, c)
    ensures ScoreForceOf(s1) == ScoreForceOf(s2)
  {
    forall k | 0 <= k < |Weights|
      ensures AgreeOn(s1, s2, Weights[k].0)
    {
      assert WeightedCategory(Weights[k].0);
    }
    SumsDependOnTable(s1, s2, Weights);
  }

  /** The contribution of one table entry to the weighted sum and to the total weight. */
  function Term(scores: map<string, real>, cat: string, w: real): real {
    if Present(scores, cat) then scores[cat] * w else 0.0
  }

  function WeightIf(scores: map<string, real>, cat: string, w: real): real {
    if Present(scores, cat) then w else 0.0
  }

  /** The four-entry table written out. */
  lemma WeightsUnfolded(m: map<string, real>)
    ensures TotalWeight(m, Weights) == WeightIf(m, "halterophilie", 0.35) + WeightIf(m, "muscu_bas", 0.35)
      + WeightIf(m, "muscu_haut", 0.20) + WeightIf(m, "unilateral", 0.10)
    ensures WeightedSum(m, Weights) == Term(m, "halterophilie", 0.35) + Term(m, "muscu_bas", 0.35)
      + Term(m, "muscu_haut", 0.20) + Term(m, "unilateral", 0.10)
  {
    assert Weights[..1][..0] == [] && Weights[..1][0] == ("halterophilie", 0.35);
    assert TotalWeight(m, Weights[..1]) == WeightIf(m, "halterophilie", 0.35);
    assert WeightedSum(m, Weights[..1]) == Term(m, "halterophilie", 0.35);
    assert Weights[..2][..1] == Weights[..1] && Weights[..2][1] == ("muscu_bas", 0.35);
    assert TotalWeight(m, Weights[..2]) == TotalWeight(m, Weights[..1]) + WeightIf(m, "muscu_bas", 0.35);
    assert WeightedSum(m, Weights[..2]) == WeightedSum(m, Weights[..1]) + Term(m, "muscu_bas", 0.35);
    assert Weights[..3][..2] == Weights[..2] && Weights[..3][2] == ("muscu_haut", 0.20);
    assert TotalWeight(m, Weights[..3]) == TotalWeight(m, Weights[..2]) + WeightIf(m, "muscu_haut", 0.20);
    assert WeightedSum(m, Weights[..3]) == WeightedSum(m, Weights[..2]) + Term(m, "muscu_haut", 0.20);
    assert Weights[..4][..3] == Weights[..3] && Weights[..4][3] == ("unilateral", 0.10);
    assert TotalWeight(m, Weights[..4]) == TotalWeight(m, Weights[..3]) + WeightIf(m, "unilateral", 0.10);
    assert WeightedSum(m, Weights[..4]) == WeightedSum(m, Weights[..3]) + Term(m, "unilateral", 0.10);
    assert Weights[..4] == Weights;
  }

  /** Renormalisation: with only olympic lifts and upper body present, the weights 0.35 and 0.20 are divided by 0.55. */
  lemma ScoreForceRenormalised(a: real, b: real)
    requires a != 0.0 && b != 0.0
    ensures ScoreForceOf(map["halterophilie" := a, "muscu_haut" := b]) == (a * 0.35 + b * 0.20) / 0.55
  {
    var m := map["halterophilie" := a, "muscu_haut" := b];
    WeightsUnfolded(m);
    assert !Present(m, "muscu_bas") && !Present(m, "unilateral");
  }

  // ---------------------------------------------------------------------------
  // The whole computation

  /** `Math.round(scoreCompo * 0.4 + scoreForce * 0.6)`, on the unrounded scores. */
  function Indice(scoreCompo: real, scoreForce: real): (r: int)
    ensures scoreCompo * 0.4 + scoreForce * 0.6 - 0.5 < r as real <= scoreCompo * 0.4 + scoreForce * 0.6 + 0.5
    ensures 30.0 <= scoreCompo <= 100.0 && 0.0 <= scoreForce <= 100.0 ==> 12 <= r <= 100
  {
    Round(scoreCompo * 0.4 + scoreForce * 0.6)
  }

  /** What the source demands of its data: a non-negative stored weight and non-negative record values. */
  predicate WellFormed(input: Input) {
    (input.poidsKg.Some? ==> input.poidsKg.value >= 0.0) && NonNegativeRecords(input.records)
  }

  /** The response body as a function of the fetched rows. */
  function PowerIndexOf(input: Input): (r: PowerIndexResult)
    requires WellFormed(input)
    ensures r.categorieScores == CategoryScores(input.records, ExerciseMap(input.exercices), Poids(input))
    ensures r.indice == Indice(ScoreCompo(input), ScoreForceOf(r.categorieScores))
    ensures r.scoreCompo == Round(ScoreCompo(input)) && r.scoreForce == Round(ScoreForceOf(r.categorieScores))
    ensures r.poids == Poids(input) && r.tailleCm == TailleM(input) * 100.0 && r.masseGrasse == input.masseGrassePct
  {
    var poids := Poids(input);
    var compo := ScoreCompo(input);
    var categories := CategoryScores(input.records, ExerciseMap(input.exercices), poids);
    var force := ScoreForceOf(categories);
    PowerIndexResult(
      Indice(compo, force), Round(compo), Round(force), categories,
      poids, TailleM(input) * 100.0, input.masseGrassePct)
  }

  /** The computation after the queries: composition tiers, aggregation loop, weighting loop, blend. */
  method ComputePowerIndex(input: Input) returns (result: PowerIndexResult)
    requires WellFormed(input)
    ensures result == PowerIndexOf(input)
    ensures 12 <= result.indice <= 100
  {
    var scoreCompo := 50.0;
    var poids := Poids(input);
    var taille := TailleM(input);
    var masseGrasse := input.masseGrassePct;
    if Truthy(masseGrasse) {
      scoreCompo := BodyFatScore(masseGrasse.value);
    } else {
      var imc := Imc(poids, taille);
      scoreCompo := BmiScore(imc);
    }
    assert scoreCompo == ScoreCompo(input);
    var exMap := ExerciseMap(input.exercices);
    var categorieScores := AggregateCategories(input.records, exMap, poids);
    var scoreForce := ScoreForce(categorieScores);
    var indice := Indice(scoreCompo, scoreForce);
    result := PowerIndexResult(
      indice, Round(scoreCompo), Round(scoreForce), categorieScores,
      poids, taille * 100.0, masseGrasse);
    IndiceBounds(input);
  }

  /**
   * The index lies in [12, 100]: the composition score is at least 30 and the
   * strength score at least 0, so the index is never 0.
   */
  lemma IndiceBounds(input: Input)
    requires WellFormed(input)
    ensures 12 <= PowerIndexOf(input).indice <= 100
    ensures 30 <= PowerIndexOf(input).scoreCompo <= 100
    ensures 0 <= PowerIndexOf(input).scoreForce <= 100
  {
    var categories := CategoryScores(input.records, ExerciseMap(input.exercices), Poids(input));
    ScoreForceBounds(categories, 0.0, 100.0);
    var compo, force := ScoreCompo(input), ScoreForceOf(categories);
    assert 12.0 <= compo * 0.4 + force * 0.6 <= 100.0;
    RoundOfInt(12);
    RoundOfInt(100);
    RoundOfInt(30);
    RoundMonotone(12.0, compo * 0.4 + force * 0.6);
    RoundMonotone(compo * 0.4 + force * 0.6, 100.0);
    RoundMonotone(30.0, compo);
    RoundMonotone(compo, 100.0);
    RoundMonotone(0.0, force);
    RoundMonotone(force, 100.0);
    RoundOfInt(0);
  }

  lemma RoundMonotone(x: real, y: real)
    requires x <= y
    ensures Round(x) <= Round(y)
  {
  }

  /**
   * The index blends the unrounded sub-scores: at 20.75% body fat and no
   * records the composition score is 48.5, reported as 49, and the index is
   * 19, where blending the reported 49 would give 20.
   */
  lemma IndiceUsesUnroundedScores()
    ensures var r := PowerIndexOf(Input(None, None, Some(20.75), [], []));
      r.scoreCompo == 49 && r.scoreForce == 0 && r.indice == 19 && r.categorieScores == map[]
    ensures Indice(49.0, 0.0) == 20
  {
    var input := Input(None, None, Some(20.75), [], []);
    assert ScoreCompo(input) == BodyFatScore(20.75) == 48.5;
    var none: map<string, real> := map[];
    WeightsUnfolded(none);
    assert ScoreForceOf(none) == 0.0;
    RoundOfInt(0);
  }

  /** The end-to-end example: 9% body fat and olympic lifts 90, lower body 80 give 91. */
  lemma WorkedExample()
    ensures BodyFatScore(9.0) == 100.0
    ensures ScoreForceOf(map["halterophilie" := 90.0, "muscu_bas" := 80.0]) == 85.0
    ensures Indice(100.0, 85.0) == 91
  {
    var m := map["halterophilie" := 90.0, "muscu_bas" := 80.0];
    WeightsUnfolded(m);
    assert !Present(m, "muscu_haut") && !Present(m, "unilateral");
    RoundOfInt(91);
  }
}
