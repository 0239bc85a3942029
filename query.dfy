/**
 * Resolving one ingredient name and quantity: take the top reranked
 * candidate, apply the acceptance threshold, and build the matched
 * ingredient from the food's row, nutrient rows and portion rows.
 */
module Query {
  import opened Optional
  import opened PyRound
  import opened MealAnalysis
  import opened Helper
  import opened SearchService

  /** A top candidate scoring below this is not accepted. */
  const AcceptanceThreshold: real := 0.6

  /** How many reranked candidates search_food asks for. */
  const RerankTopK: nat := 5

  /** What search_food returns. */
  datatype SearchResult =
    | NoResult                                  // Python's None
    | Sentinel(food: string, similarity: real)  // the low-confidence dict
    | Found(ingredient: AnalysisIngredient)

  /** The dict returned when the top candidate is below the threshold. */
  const LowConfidence := Sentinel("None", 0.0)

  /**
   * The food data can be mapped without a division by zero: a serving size
   * of zero and a first portion of zero grams both raise in the source.
   */
  predicate Divisible(food: Option<FoodRow>, portionRows: seq<PortionRow>) {
    && (food.Some? ==> food.value.fermentedFoodServingSize != Some(0.0))
    && GetPortions(portionRows)[0].gramWeight != 0.0
  }

  /** The top candidate clears the threshold and its food row exists: the only case in which search_food maps the food's data. */
  predicate Accepted(ranked: seq<Scored>, food: Option<FoodRow>) {
    ranked != [] && ranked[0].similarity >= AcceptanceThreshold && food.Some?
  }

  /**
   * search_food's decision logic. `ranked` is the reranked list, `food` the
   * base-table row fetched for the top candidate's id (if any), and
   * `nutrientRows` and `portionRows` the rows fetched for that food.
   */
  function SearchFood(ranked: seq<Scored>, food: Option<FoodRow>, nutrientRows: seq<NutrientRow>,
                      portionRows: seq<PortionRow>, quantity: real): (r: SearchResult)
    requires Accepted(ranked, food) ==> Divisible(food, portionRows)
    ensures r.NoResult? <==> ranked == [] || (ranked[0].similarity >= AcceptanceThreshold && food.None?)
    ensures r.Sentinel? <==> ranked != [] && ranked[0].similarity < AcceptanceThreshold
    ensures r.Sentinel? ==> r == LowConfidence
    ensures r.Found? ==>
      var ing := r.ingredient;
      && ing.fdcId == food.value.fdcId && ing.description == food.value.description
      && ing.portions == MappedPortions(GetPortions(portionRows)) && ing.portions != []
      && ing.selectedPortionId == ing.portions[0].id
      && HasSelectedPortion(ing) && SelectedPortion(ing) == ing.portions[0]
      && ing.amount == Round2(quantity / ing.portions[0].gramWeight)
      && ing.nutrients == MappedNutrients(nutrientRows, food.value)
  {
    if ranked == [] then NoResult
    else
      var best := ranked[0];
      if best.similarity < AcceptanceThreshold then LowConfidence
      else if food.None? then NoResult
      else
        var foodData := food.value;
        var mappedNutrients := MappedNutrients(nutrientRows, foodData);
        var mappedPortions := MappedPortions(GetPortions(portionRows));
        var selectedPortionId, selectedGramWeight :=
          if |mappedPortions| > 0 then mappedPortions[0].id else 1,
          if |mappedPortions| > 0 then mappedPortions[0].gramWeight else 100.0;
        var ing := AnalysisIngredient(foodData.fdcId, foodData.description,
                                      Round2(quantity / selectedGramWeight),
                                      selectedPortionId, mappedPortions, mappedNutrients);
        FirstWithIdAt(ing.portions, selectedPortionId, 0);
        Found(ing)
  }

  /** Only the first ranked candidate is looked at. */
  lemma OnlyTopCandidateMatters(ranked: seq<Scored>, food: Option<FoodRow>, nutrientRows: seq<NutrientRow>,
                                portionRows: seq<PortionRow>, quantity: real)
    requires Accepted(ranked, food) ==> Divisible(food, portionRows)
    requires ranked != []
    ensures SearchFood(ranked, food, nutrientRows, portionRows, quantity)
         == SearchFood([ranked[0]], food, nutrientRows, portionRows, quantity)
  {
  }

  /**
   * Below the threshold the sentinel comes back before any food data is
   * looked at, so even a food whose data would divide by zero gives it.
   */
  lemma LowScoreIgnoresFood(ranked: seq<Scored>, food: Option<FoodRow>, nutrientRows: seq<NutrientRow>,
                            portionRows: seq<PortionRow>, quantity: real)
    requires ranked != [] && ranked[0].similarity < AcceptanceThreshold
    ensures !Accepted(ranked, food)
    ensures SearchFood(ranked, food, nutrientRows, portionRows, quantity) == LowConfidence
  {
  }

  /** The threshold is inclusive: a top score of exactly 0.6 is accepted when the food row exists. */
  lemma ThresholdIsInclusive(best: Scored, food: FoodRow, nutrientRows: seq<NutrientRow>,
                             portionRows: seq<PortionRow>, quantity: real)
    requires Divisible(Some(food), portionRows)
    requires best.similarity == 0.6
    ensures SearchFood([best], Some(food), nutrientRows, portionRows, quantity).Found?
    ensures SearchFood([best.(similarity := 0.59)], Some(food), nutrientRows, portionRows, quantity) == LowConfidence
  {
  }

  /** A food without stored portions is matched against the synthetic 100 g portion. */
  lemma DefaultPortionWhenNoneStored(ranked: seq<Scored>, food: FoodRow, nutrientRows: seq<NutrientRow>, quantity: real)
    requires Divisible(Some(food), [])
    requires ranked != [] && ranked[0].similarity >= AcceptanceThreshold
    ensures var r := SearchFood(ranked, Some(food), nutrientRows, [], quantity);
            && r.Found?
            && r.ingredient.portions == [FoodPortion(1, 100.0, 100.0, "grams")]
            && r.ingredient.selectedPortionId == 1
            && r.ingredient.amount == Round2(quantity / 100.0)
  {
  }

  /** 300 g against a first portion of 150 g is an amount of 2.0 portions. */
  lemma AmountExample(ranked: seq<Scored>, food: FoodRow, nutrientRows: seq<NutrientRow>, portion: PortionRow)
    requires food.fermentedFoodServingSize != Some(0.0)
    requires portion.gramWeight == 150.0
    requires ranked != [] && ranked[0].similarity >= AcceptanceThreshold
    ensures Divisible(Some(food), [portion])
    ensures SearchFood(ranked, Some(food), nutrientRows, [portion], 300.0).Found?
    ensures SearchFood(ranked, Some(food), nutrientRows, [portion], 300.0).ingredient.amount == 2.0
  {
    assert 300.0 / 150.0 == 2.0;
    Round2OfHundredths(2.0);
  }

  /**
   * A candidate whose description holds both words of "greek yogurt" and
   * whose cosine similarity is 0.5 gains 2 * 0.05 from the overlap, which
   * lifts it to the threshold 0.6: it is the only reranked entry and it is
   * accepted, where its cosine alone would not be.
   */
  lemma OverlapLiftsOverThreshold(term: string, c: Candidate, cosines: map<Key, real>)
    requires term == "greek yogurt" && c.description == "yogurt plain greek"
    requires cosines == map[CandidateKey(c) := 0.5]
    ensures Ranked(term, [c], cosines, RerankTopK) == [Score(term, c, 0.5)]
    ensures Score(term, c, 0.5).similarity == AcceptanceThreshold
  {
    OverlapExample(term, c.description);
    var e := Score(term, c, 0.5);
    assert [c][..0] == [];
    assert ScoreAll(term, [c], cosines) == [e];
    assert [e][..0] == [];
    assert SortDesc([e]) == InsertDesc(e, []) == [e];
  }

  /**
   * "greek yogurt" for 100 g, reranked as above and matched to a food with
   * a 100 g portion and 10.0 g of protein per 100 g: an amount of 1.0
   * portion and a protein total of 10.0.
   */
  lemma GreekYogurtExample(term: string, c: Candidate, cosines: map<Key, real>, food: FoodRow, portionId: int)
    requires term == "greek yogurt" && c.description == "yogurt plain greek"
    requires cosines == map[CandidateKey(c) := 0.5]
    requires food.fermentedFoodServingSize == None
    ensures var r := SearchFood(Ranked(term, [c], cosines, RerankTopK), Some(food), [NutrientRow(203, 10.0)],
                                [PortionRow(portionId, 100.0, 1.0, "cup")], 100.0);
            && r.Found?
            && r.ingredient.amount == 1.0
            && AllSelectable([r.ingredient])
            && Round2(TotalContribution([r.ingredient], Protein)) == 10.0
  {
    OverlapLiftsOverThreshold(term, c, cosines);
    var rows := [NutrientRow(203, 10.0)];
    var r := SearchFood(Ranked(term, [c], cosines, RerankTopK), Some(food), rows, [PortionRow(portionId, 100.0, 1.0, "cup")], 100.0);
    Round2OfHundredths(1.0);
    assert r.Found?;
    var ing := r.ingredient;
    assert ing.amount == 1.0;
    FoldRowsField(rows, Protein);
    assert rows[..0] == [];
    assert ing.nutrients.proteinInGrams == 10.0;
    TotalContributionSingle(ing, Protein);
    assert Contribution(ing, Protein) == (100.0 / 100.0) * 1.0 * 10.0;
    Round2OfHundredths(10.0);
  }

  /** The food row fetched for the top candidate's id. */
  function TopFood(ranked: seq<Scored>, catalog: map<int, FoodRow>): Option<FoodRow> {
    if ranked != [] && ranked[0].fdcId in catalog then Some(catalog[ranked[0].fdcId]) else None
  }

  /** The rows stored for a food id, none when the id has no entry. */
  function RowsFor<T>(table: map<int, seq<T>>, food: Option<FoodRow>): seq<T> {
    if food.Some? && food.value.fdcId in table then table[food.value.fdcId] else []
  }

  /**
   * search_food end to end: merge the two search results, rerank the
   * candidates keeping five, then decide on the top one. The database is the
   * three tables `catalog`, `nutrientTable` and `portionTable` keyed by food
   * id; the embedding service is the map `cosines`.
   */
  method ResolveIngredient(term: string, quantity: real,
                           ftsResults: seq<SearchHit>, fuzzyResults: seq<SearchHit>,
                           cosines: map<Key, real>, catalog: map<int, FoodRow>,
                           nutrientTable: map<int, seq<NutrientRow>>, portionTable: map<int, seq<PortionRow>>)
    returns (r: SearchResult)
    requires var ranked := Ranked(term, Dedup(ftsResults + fuzzyResults), cosines, RerankTopK);
             var food := TopFood(ranked, catalog);
             Accepted(ranked, food) ==> Divisible(food, RowsFor(portionTable, food))
    ensures var ranked := Ranked(term, Dedup(ftsResults + fuzzyResults), cosines, RerankTopK);
            var food := TopFood(ranked, catalog);
            r == SearchFood(ranked, food, RowsFor(nutrientTable, food), RowsFor(portionTable, food), quantity)
  {
    var candidates := GetCandidates(ftsResults, fuzzyResults);
    var topCandidates, _ := RerankWithEmbeddings(term, candidates, cosines, RerankTopK);
    var food := TopFood(topCandidates, catalog);
    var nutrientRows := RowsFor(nutrientTable, food);
    var portionRows := RowsFor(portionTable, food);
    r := SearchFood(topCandidates, food, nutrientRows, portionRows, quantity);
  }
}
