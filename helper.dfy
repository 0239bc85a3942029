/**
 * Turning looked-up food data into nutrient numbers: the per-meal nutrient
 * totals, the lookup of an ingredient's selected portion, and the mapping of
 * database rows into portions, nutrient profiles and ingredients.
 */
module Helper {
  import opened Optional
  import opened PyRound
  import opened MealAnalysis

  // ---------------------------------------------------------------------
  // Selected portion
  // ---------------------------------------------------------------------

  /** The first portion whose id is `id`, if any. */
  function FirstWithId(portions: seq<FoodPortion>, id: int): (r: Option<FoodPortion>)
    ensures r.None? <==> forall i :: 0 <= i < |portions| ==> portions[i].id != id
    ensures r.Some? ==> exists i :: 0 <= i < |portions| && portions[i] == r.value && r.value.id == id
                                    && forall j :: 0 <= j < i ==> portions[j].id != id
  {
    if portions == [] then None
    else if portions[0].id == id then Some(portions[0])
    else
      var r := FirstWithId(portions[1..], id);
      assert r.Some? ==> exists i :: 0 <= i < |portions| && portions[i] == r.value && r.value.id == id
                                    && forall j :: 0 <= j < i ==> portions[j].id != id by {
        if r.Some? {
          var k :| 0 <= k < |portions[1..]| && portions[1..][k] == r.value && r.value.id == id
                   && forall j :: 0 <= j < k ==> portions[1..][j].id != id;
          assert forall j :: 0 <= j < k + 1 ==> portions[j].id != id by {
            forall j | 0 <= j < k + 1 ensures portions[j].id != id {
              if j > 0 { assert portions[j] == portions[1..][j - 1]; }
            }
          }
        }
      }
      r
  }

  /**
   * get_selected_portion: scans the portions for the selected id and returns
   * the first match; without one the source returns None.
   */
  method GetSelectedPortion(ing: AnalysisIngredient) returns (r: Option<FoodPortion>)
    ensures r == FirstWithId(ing.portions, ing.selectedPortionId)
    ensures r.Some? <==> HasSelectedPortion(ing)
  {
    for i := 0 to |ing.portions|
      invariant forall j :: 0 <= j < i ==> ing.portions[j].id != ing.selectedPortionId
    {
      if ing.portions[i].id == ing.selectedPortionId {
        assert FirstWithId(ing.portions, ing.selectedPortionId) == Some(ing.portions[i]) by {
          FirstWithIdAt(ing.portions, ing.selectedPortionId, i);
        }
        return Some(ing.portions[i]);
      }
    }
    return None;
  }

  /** The first portion carrying `id` is the answer of `FirstWithId`. */
  lemma {:induction false} FirstWithIdAt(portions: seq<FoodPortion>, id: int, i: nat)
    requires i < |portions| && portions[i].id == id
    requires forall j :: 0 <= j < i ==> portions[j].id != id
    ensures FirstWithId(portions, id) == Some(portions[i])
  {
    if i > 0 {
      assert portions[0].id != id;
      FirstWithIdAt(portions[1..], id, i - 1);
    }
  }

  /** The portion an ingredient's nutrients are scaled by. */
  function SelectedPortion(ing: AnalysisIngredient): (p: FoodPortion)
    requires HasSelectedPortion(ing)
    ensures p in ing.portions && p.id == ing.selectedPortionId
  {
    FirstWithId(ing.portions, ing.selectedPortionId).value
  }

  /** Every ingredient of the list names one of its own portions. */
  predicate AllSelectable(ings: seq<AnalysisIngredient>) {
    forall i :: 0 <= i < |ings| ==> HasSelectedPortion(ings[i])
  }

  // ---------------------------------------------------------------------
  // Nutrient totals (the fourteen calculate_* functions)
  // ---------------------------------------------------------------------

  /** One ingredient's share of nutrient `n`: (gram weight / 100) * amount * per-100 g value. */
  function Contribution(ing: AnalysisIngredient, n: Nutrient): real
    requires HasSelectedPortion(ing)
  {
    (SelectedPortion(ing).gramWeight / 100.0) * ing.amount * ing.nutrients.Get(n)
  }

  /** The unrounded sum of the contributions of all ingredients to nutrient `n`. */
  function TotalContribution(ings: seq<AnalysisIngredient>, n: Nutrient): real
    requires AllSelectable(ings)
  {
    if ings == [] then 0.0
    else TotalContribution(ings[..|ings| - 1], n) + Contribution(ings[|ings| - 1], n)
  }

  /** The unrounded total is additive over concatenation of ingredient lists. */
  lemma {:induction false} TotalContributionAppend(a: seq<AnalysisIngredient>, b: seq<AnalysisIngredient>, n: Nutrient)
    requires AllSelectable(a) && AllSelectable(b)
    ensures AllSelectable(a + b)
    ensures TotalContribution(a + b, n) == TotalContribution(a, n) + TotalContribution(b, n)
  {
    assert AllSelectable(a + b) by {
      forall i | 0 <= i < |a + b| ensures HasSelectedPortion((a + b)[i]) {
        if i < |a| { assert (a + b)[i] == a[i]; } else { assert (a + b)[i] == b[i - |a|]; }
      }
    }
    if b == [] {
      assert a + b == a;
    } else {
      var b' := b[..|b| - 1];
      assert AllSelectable(b');
      TotalContributionAppend(a, b', n);
      assert (a + b)[..|a + b| - 1] == a + b';
      assert (a + b)[|a + b| - 1] == b[|b| - 1];
    }
  }

  /** A list of one ingredient totals to that ingredient's contribution. */
  lemma TotalContributionSingle(ing: AnalysisIngredient, n: Nutrient)
    requires HasSelectedPortion(ing)
    ensures AllSelectable([ing])
    ensures TotalContribution([ing], n) == Contribution(ing, n)
  {
    assert [ing][..0] == [];
  }

  /** Extending a prefix of the list by one ingredient adds that ingredient's contribution. */
  lemma TotalContributionStep(ings: seq<AnalysisIngredient>, i: nat, n: Nutrient)
    requires AllSelectable(ings) && i < |ings|
    ensures AllSelectable(ings[..i]) && AllSelectable(ings[..i + 1])
    ensures TotalContribution(ings[..i + 1], n) == TotalContribution(ings[..i], n) + Contribution(ings[i], n)
  {
    var p := ings[..i + 1];
    assert p[..|p| - 1] == ings[..i];
  }

  /** The body of the calculate_* loops: look up the selected portion and scale the field by it. */
  method IngredientShare(ing: AnalysisIngredient, n: Nutrient) returns (share: real)
    requires HasSelectedPortion(ing)
    ensures share == Contribution(ing, n)
  {
    var portion := GetSelectedPortion(ing);
    var scale := portion.value.gramWeight / 100.0;
    share := scale * ing.amount * ing.nutrients.Get(n);
  }

  /**
   * The loop shared by every calculate_*: accumulate each ingredient's
   * contribution to field `n`, then round the sum to two decimals.
   */
  method NutrientTotal(ings: seq<AnalysisIngredient>, n: Nutrient) returns (r: real)
    requires AllSelectable(ings)
    ensures r == Round2(TotalContribution(ings, n))
    ensures ings == [] ==> r == 0.0
  {
    var total := 0.0;
    for i := 0 to |ings|
      invariant total == TotalContribution(ings[..i], n)
    {
      var share := IngredientShare(ings[i], n);
      TotalContributionStep(ings, i, n);
      total := total + share;
    }
    assert ings[..|ings|] == ings;
    r := Round2(total);
    if ings == [] {
      Round2OfHundredths(0.0);
    }
  }

  method CalculateProtein(ings: seq<AnalysisIngredient>) returns (r: real)
    requires AllSelectable(ings)
    ensures r == Round2(TotalContribution(ings, Protein))
  { r := NutrientTotal(ings, Protein); }

  method CalculateLeucine(ings: seq<AnalysisIngredient>) returns (r: real)
    requires AllSelectable(ings)
    ensures r == Round2(TotalContribution(ings, Leucine))
  { r := NutrientTotal(ings, Leucine); }

  method CalculateCarbohydrates(ings: seq<AnalysisIngredient>) returns (r: real)
    requires AllSelectable(ings)
    ensures r == Round2(TotalContribution(ings, Carbohydrates))
  { r := NutrientTotal(ings, Carbohydrates); }

  method CalculateOmega3s(ings: seq<AnalysisIngredient>) returns (r: real)
    requires AllSelectable(ings)
    ensures r == Round2(TotalContribution(ings, Omega3s))
  { r := NutrientTotal(ings, Omega3s); }

  method CalculateFat(ings: seq<AnalysisIngredient>) returns (r: real)
    requires AllSelectable(ings)
    ensures r == Round2(TotalContribution(ings, Fat))
  { r := NutrientTotal(ings, Fat); }

  method CalculateIron(ings: seq<AnalysisIngredient>) returns (r: real)
    requires AllSelectable(ings)
    ensures r == Round2(TotalContribution(ings, Iron))
  { r := NutrientTotal(ings, Iron); }

  method CalculateZinc(ings: seq<AnalysisIngredient>) returns (r: real)
    requires AllSelectable(ings)
    ensures r == Round2(TotalContribution(ings, Zinc))
  { r := NutrientTotal(ings, Zinc); }

  method CalculateFermentedFoodServings(ings: seq<AnalysisIngredient>) returns (r: real)
    requires AllSelectable(ings)
    ensures r == Round2(TotalContribution(ings, FermentedFoodServings))
  { r := NutrientTotal(ings, FermentedFoodServings); }

  method CalculateFiber(ings: seq<AnalysisIngredient>) returns (r: real)
    requires AllSelectable(ings)
    ensures r == Round2(TotalContribution(ings, Fiber))
  { r := NutrientTotal(ings, Fiber); }

  method CalculateCollagen(ings: seq<AnalysisIngredient>) returns (r: real)
    requires AllSelectable(ings)
    ensures r == Round2(TotalContribution(ings, Collagen))
  { r := NutrientTotal(ings, Collagen); }

  method CalculateVitaminC(ings: seq<AnalysisIngredient>) returns (r: real)
    requires AllSelectable(ings)
    ensures r == Round2(TotalContribution(ings, VitaminC))
  { r := NutrientTotal(ings, VitaminC); }

  method CalculateVitaminA(ings: seq<AnalysisIngredient>) returns (r: real)
    requires AllSelectable(ings)
    ensures r == Round2(TotalContribution(ings, VitaminA))
  { r := NutrientTotal(ings, VitaminA); }

  method CalculateVitaminE(ings: seq<AnalysisIngredient>) returns (r: real)
    requires AllSelectable(ings)
    ensures r == Round2(TotalContribution(ings, VitaminE))
  { r := NutrientTotal(ings, VitaminE); }

  method CalculateSelenium(ings: seq<AnalysisIngredient>) returns (r: real)
    requires AllSelectable(ings)
    ensures r == Round2(TotalContribution(ings, Selenium))
  { r := NutrientTotal(ings, Selenium); }

  /**
   * Scaling: one 150 g portion, a nutrient at 10.0 per 100 g and an amount
   * of 2.0 portions contribute 30.0, and the rounded total is 30.0.
   */
  lemma ScalingExample(ing: AnalysisIngredient)
    requires ing.portions == [FoodPortion(ing.selectedPortionId, 150.0, 1.0, "cup")]
    requires ing.amount == 2.0 && ing.nutrients.proteinInGrams == 10.0
    ensures HasSelectedPortion(ing) && AllSelectable([ing])
    ensures TotalContribution([ing], Protein) == 30.0
    ensures Round2(TotalContribution([ing], Protein)) == 30.0
  {
    assert ing.portions[0].id == ing.selectedPortionId;
    TotalContributionSingle(ing, Protein);
    Round2OfHundredths(30.0);
  }

  // ---------------------------------------------------------------------
  // Portions
  // ---------------------------------------------------------------------

  /** A portion row as read from the database. */
  datatype PortionRow = PortionRow(id: int, gramWeight: real, amount: real, modifier: string)

  /** The synthetic portion a food without stored portions gets. */
  const DefaultPortionRow := PortionRow(1, 100.0, 100.0, "grams")

  /** The default-portion branch of get_portions applied to the fetched rows. */
  function GetPortions(fetched: seq<PortionRow>): (r: seq<PortionRow>)
    ensures r != []
    ensures fetched != [] ==> r == fetched
    ensures fetched == [] ==> r == [DefaultPortionRow]
  {
    if |fetched| < 1 then [DefaultPortionRow] else fetched
  }

  /** One portion row as a `FoodPortion` record. */
  function ToPortion(row: PortionRow): FoodPortion {
    FoodPortion(row.id, row.gramWeight, row.amount, row.modifier)
  }

  /** The rows of `rows`, each as a `FoodPortion`, in order. */
  function MappedPortions(rows: seq<PortionRow>): (ps: seq<FoodPortion>)
    ensures |ps| == |rows|
    ensures forall i :: 0 <= i < |rows| ==> ps[i] == ToPortion(rows[i])
  {
    seq(|rows|, i requires 0 <= i < |rows| => ToPortion(rows[i]))
  }

  /** map_portions: appends one `FoodPortion` per row. */
  method MapPortions(rows: seq<PortionRow>) returns (ps: seq<FoodPortion>)
    ensures |ps| == |rows|
    ensures forall i :: 0 <= i < |rows| ==>
      ps[i].id == rows[i].id && ps[i].gramWeight == rows[i].gramWeight &&
      ps[i].amount == rows[i].amount && ps[i].modifier == rows[i].modifier
    ensures ps == MappedPortions(rows)
  {
    ps := [];
    for i := 0 to |rows|
      invariant ps == MappedPortions(rows[..i])
    {
      ps := ps + [ToPortion(rows[i])];
    }
    assert rows[..|rows|] == rows;
  }

  // ---------------------------------------------------------------------
  // Nutrients
  // ---------------------------------------------------------------------

  /** A nutrient row: the nutrient's number and its amount per 100 g. */
  datatype NutrientRow = NutrientRow(number: int, amount: real)

  /** The base-table row of a food: the two fields the profile takes from it directly. */
  datatype FoodRow = FoodRow(
    fdcId: int,
    dataType: string,
    description: string,
    fermentedFoodServingSize: Option<real>,
    collagen: Option<real>)

  /** The nutrient numbers whose rows add up into the omega-3 field. */
  predicate IsOmega3Code(code: int) {
    code == 851 || code == 629 || code == 621
  }

  /** One step of map_nutrients' loop: the dispatch on the row's nutrient number. */
  function ApplyRow(v: AllNutrients, row: NutrientRow): (r: AllNutrients)
    ensures forall n: Nutrient :: !Feeds(row.number, n) ==> r.Get(n) == v.Get(n)
  {
    var num, amount := row.number, row.amount;
    if num == 203 then v.(proteinInGrams := amount)
    else if num == 504 then v.(leucineInGrams := amount)
    else if num == 205 then v.(carbohydratesInGrams := amount)
    else if num == 851 then v.(omega3sInGrams := v.omega3sInGrams + amount)
    else if num == 629 then v.(omega3sInGrams := v.omega3sInGrams + amount)
    else if num == 621 then v.(omega3sInGrams := v.omega3sInGrams + amount)
    else if num == 204 then v.(fatInGrams := amount)
    else if num == 309 then v.(zincInMilligrams := amount)
    else if num == 303 then v.(ironInMilligrams := amount)
    else if num == 291 then v.(fiberInGrams := amount)
    else if num == 401 then v.(vitaminCInMilligrams := amount)
    else if num == 320 then v.(vitaminAInMicrograms := amount)
    else if num == 323 then v.(vitaminEInMilligrams := amount)
    else if num == 317 then v.(seleniumInMicrograms := amount)
    else v
  }

  /** The profile after folding all rows, in order, into the all-zero profile. */
  function FoldRows(rows: seq<NutrientRow>): (r: AllNutrients)
    ensures r.fermentedFoodServings == 0.0 && r.collagenInGrams == 0.0
  {
    if rows == [] then ZeroNutrients
    else ApplyRow(FoldRows(rows[..|rows| - 1]), rows[|rows| - 1])
  }

  /** The two fields map_nutrients takes from the food row instead of the nutrient rows. */
  function FromFoodRow(v: AllNutrients, food: FoodRow): AllNutrients
    requires food.fermentedFoodServingSize != Some(0.0)
  {
    v.(fermentedFoodServings :=
         if food.fermentedFoodServingSize.None? then 0.0
         else Round2(100.0 / food.fermentedFoodServingSize.value),
       collagenInGrams := food.collagen.GetOr(0.0))
  }

  /** What map_nutrients returns for these rows and this food row. */
  function MappedNutrients(rows: seq<NutrientRow>, food: FoodRow): AllNutrients
    requires food.fermentedFoodServingSize != Some(0.0)
  {
    FromFoodRow(FoldRows(rows), food)
  }

  /**
   * map_nutrients: starts from all zeros, updates the profile row by row,
   * then sets the two fields that come from the food row. A serving size of
   * zero raises a division error in the source.
   */
  method MapNutrients(rows: seq<NutrientRow>, food: FoodRow) returns (r: AllNutrients)
    requires food.fermentedFoodServingSize != Some(0.0)
    ensures r == MappedNutrients(rows, food)
  {
    r := ZeroNutrients;
    for i := 0 to |rows|
      invariant r == FoldRows(rows[..i])
    {
      r := ApplyRow(r, rows[i]);
      assert rows[..i + 1][..i] == rows[..i];
    }
    assert rows[..|rows|] == rows;
    r := r.(fermentedFoodServings :=
              if food.fermentedFoodServingSize.None? then 0.0
              else Round2(100.0 / food.fermentedFoodServingSize.value));
    r := r.(collagenInGrams := food.collagen.GetOr(0.0));
  }

  /**
   * The reference table: the nutrient number whose row overwrites field `n`,
   * for the eleven fields set that way.
   */
  function OverwriteCode(n: Nutrient): Option<int> {
    match n
    case Protein => Some(203)
    case Leucine => Some(504)
    case Carbohydrates => Some(205)
    case Fat => Some(204)
    case Iron => Some(303)
    case Zinc => Some(309)
    case Fiber => Some(291)
    case VitaminC => Some(401)
    case VitaminA => Some(320)
    case VitaminE => Some(323)
    case Selenium => Some(317)
    case Omega3s => None
    case FermentedFoodServings => None
    case Collagen => None
  }

  /** A row with number `code` changes field `n`. */
  predicate Feeds(code: int, n: Nutrient) {
    OverwriteCode(n) == Some(code) || (n == Omega3s && IsOmega3Code(code))
  }

  /** The amount of the last row numbered `code`, or 0 when there is none. */
  function LastAmount(rows: seq<NutrientRow>, code: int): real {
    if rows == [] then 0.0
    else if rows[|rows| - 1].number == code then rows[|rows| - 1].amount
    else LastAmount(rows[..|rows| - 1], code)
  }

  /** The sum of the amounts of all rows with an omega-3 number. */
  function Omega3Sum(rows: seq<NutrientRow>): real {
    if rows == [] then 0.0
    else Omega3Sum(rows[..|rows| - 1]) + (if IsOmega3Code(rows[|rows| - 1].number) then rows[|rows| - 1].amount else 0.0)
  }

  /** The value the reference table predicts for field `n` after folding `rows`. */
  function ExpectedField(rows: seq<NutrientRow>, n: Nutrient): real {
    if n == Omega3s then Omega3Sum(rows)
    else if OverwriteCode(n).Some? then LastAmount(rows, OverwriteCode(n).value)
    else 0.0
  }

  /** One row changes exactly the field its number feeds, and the way the table says. */
  lemma ApplyRowField(v: AllNutrients, row: NutrientRow, n: Nutrient)
    ensures ApplyRow(v, row).Get(n) ==
      if OverwriteCode(n) == Some(row.number) then row.amount
      else if n == Omega3s && IsOmega3Code(row.number) then v.Get(n) + row.amount
      else v.Get(n)
  {
  }

  /** A row whose number is in no table entry leaves the profile unchanged. */
  lemma UnmappedRowIgnored(v: AllNutrients, row: NutrientRow)
    requires forall n: Nutrient :: !Feeds(row.number, n)
    ensures ApplyRow(v, row) == v
  {
    forall n: Nutrient ensures ApplyRow(v, row).Get(n) == v.Get(n) {
      assert !Feeds(row.number, n);
      ApplyRowField(v, row, n);
    }
    FieldsDetermineProfile(ApplyRow(v, row), v);
  }

  /**
   * The fold agrees with the reference table on every field: the omega-3
   * field sums its three numbers, every other mapped field holds the last
   * row with its number, and the rest stay 0.
   */
  lemma {:induction false} FoldRowsField(rows: seq<NutrientRow>, n: Nutrient)
    ensures FoldRows(rows).Get(n) == ExpectedField(rows, n)
  {
    if rows != [] {
      var init, last := rows[..|rows| - 1], rows[|rows| - 1];
      FoldRowsField(init, n);
      ApplyRowField(FoldRows(init), last, n);
    }
  }

  /** A field none of whose numbers occurs in the rows stays 0. */
  lemma {:induction false} AbsentFieldStaysZero(rows: seq<NutrientRow>, n: Nutrient)
    requires forall i :: 0 <= i < |rows| ==> !Feeds(rows[i].number, n)
    ensures FoldRows(rows).Get(n) == 0.0
  {
    if rows != [] {
      var init := rows[..|rows| - 1];
      AbsentFieldStaysZero(init, n);
      ApplyRowField(FoldRows(init), rows[|rows| - 1], n);
    }
  }

  /** The three omega-3 rows 0.1, 0.2 and 0.05 add up to 0.35. */
  lemma Omega3Example()
    ensures FoldRows([NutrientRow(851, 0.1), NutrientRow(629, 0.2), NutrientRow(621, 0.05)]).omega3sInGrams == 0.35
  {
    var rows := [NutrientRow(851, 0.1), NutrientRow(629, 0.2), NutrientRow(621, 0.05)];
    assert rows[..2] == [NutrientRow(851, 0.1), NutrientRow(629, 0.2)];
    assert rows[..2][..1] == [NutrientRow(851, 0.1)];
    assert rows[..2][..1][..0] == [];
    assert FoldRows(rows[..2][..1]).omega3sInGrams == 0.1;
    assert FoldRows(rows[..2]).omega3sInGrams == 0.1 + 0.2;
  }

  /**
   * Every field of map_nutrients' result: the table's value for the fields
   * read from nutrient rows, 100 / serving size rounded (or 0 without a
   * size) for fermented-food servings, and the food's collagen (or 0).
   */
  lemma MappedNutrientsField(rows: seq<NutrientRow>, food: FoodRow, n: Nutrient)
    requires food.fermentedFoodServingSize != Some(0.0)
    ensures MappedNutrients(rows, food).Get(n) ==
      if n == FermentedFoodServings then
        (if food.fermentedFoodServingSize.None? then 0.0 else Round2(100.0 / food.fermentedFoodServingSize.value))
      else if n == Collagen then
        (if food.collagen.None? then 0.0 else food.collagen.value)
      else ExpectedField(rows, n)
  {
    FoldRowsField(rows, n);
  }

  // ---------------------------------------------------------------------
  // Ingredients
  // ---------------------------------------------------------------------

  /** The looked-up data of one food, as map_ingredients receives it. */
  datatype FoodDetail = FoodDetail(
    fdcId: int,
    description: string,
    food: FoodRow,
    nutrients: seq<NutrientRow>,
    portions: seq<PortionRow>)

  /** One entry of map_ingredients' input: a food's data and the requested amount. */
  datatype IngredientInput = IngredientInput(foodDetail: FoodDetail, amount: real)

  /** The food rows of all entries can be mapped without a division by zero. */
  predicate Mappable(items: seq<IngredientInput>) {
    forall i :: 0 <= i < |items| ==> items[i].foodDetail.food.fermentedFoodServingSize != Some(0.0)
  }

  /** The ingredient map_ingredients builds from one entry. */
  function ToIngredient(item: IngredientInput): AnalysisIngredient
    requires item.foodDetail.food.fermentedFoodServingSize != Some(0.0)
  {
    var d := item.foodDetail;
    var portions := MappedPortions(d.portions);
    AnalysisIngredient(
      d.fdcId, d.description, item.amount,
      if |portions| > 0 then portions[0].id else 0,
      portions, MappedNutrients(d.nutrients, d.food))
  }

  /**
   * The selected id of a mapped ingredient names one of its portions exactly
   * when the food has portion rows; the selected portion is then the first.
   */
  lemma ToIngredientSelectable(item: IngredientInput)
    requires item.foodDetail.food.fermentedFoodServingSize != Some(0.0)
    ensures HasSelectedPortion(ToIngredient(item)) <==> item.foodDetail.portions != []
    ensures item.foodDetail.portions != [] ==>
      SelectedPortion(ToIngredient(item)) == ToPortion(item.foodDetail.portions[0])
  {
    var ing := ToIngredient(item);
    if item.foodDetail.portions != [] {
      assert ing.portions[0].id == ing.selectedPortionId;
      FirstWithIdAt(ing.portions, ing.selectedPortionId, 0);
    }
  }

  /** map_ingredients: one ingredient per entry, in order. */
  method MapIngredients(items: seq<IngredientInput>) returns (ings: seq<AnalysisIngredient>)
    requires Mappable(items)
    ensures |ings| == |items|
    ensures forall i :: 0 <= i < |items| ==> ings[i] == ToIngredient(items[i])
    ensures forall i :: 0 <= i < |items| ==>
      ings[i].amount == items[i].amount &&
      ings[i].selectedPortionId == (if items[i].foodDetail.portions == [] then 0 else items[i].foodDetail.portions[0].id)
    ensures forall i :: 0 <= i < |items| ==> (HasSelectedPortion(ings[i]) <==> items[i].foodDetail.portions != [])
  {
    ings := [];
    for i := 0 to |items|
      invariant |ings| == i
      invariant forall k :: 0 <= k < i ==> ings[k] == ToIngredient(items[k])
    {
      var d := items[i].foodDetail;
      var portions := MapPortions(d.portions);
      var selectedPortionId := 0;
      if |portions| > 0 {
        selectedPortionId := portions[0].id;
      }
      var nutrients := MapNutrients(d.nutrients, d.food);
      ings := ings + [AnalysisIngredient(d.fdcId, d.description, items[i].amount, selectedPortionId, portions, nutrients)];
    }
    forall i | 0 <= i < |items| ensures HasSelectedPortion(ings[i]) <==> items[i].foodDetail.portions != [] {
      ToIngredientSelectable(items[i]);
    }
  }
}
