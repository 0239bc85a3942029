/**
 * The records exchanged by the nutrient engine: a serving-size portion, the
 * fourteen-field nutrient profile, a matched ingredient and a meal.
 * Every numeric field of the source is a float; here it is a `real`.
 */
module MealAnalysis {

  /** A named serving size of a food and its weight in grams. */
  datatype FoodPortion = FoodPortion(id: int, gramWeight: real, amount: real, modifier: string)

  /** The names of the fourteen fields of `AllNutrients`, in declaration order. */
  datatype Nutrient =
    | Protein | Leucine | Carbohydrates | Omega3s | Fat | Iron | Zinc
    | FermentedFoodServings | Fiber | Collagen | VitaminC | VitaminA | VitaminE | Selenium

  /** A nutrient profile, each quantity per 100 g of the food. */
  datatype AllNutrients = AllNutrients(
    proteinInGrams: real,
    leucineInGrams: real,
    carbohydratesInGrams: real,
    omega3sInGrams: real,
    fatInGrams: real,
    ironInMilligrams: real,
    zincInMilligrams: real,
    fermentedFoodServings: real,
    fiberInGrams: real,
    collagenInGrams: real,
    vitaminCInMilligrams: real,
    vitaminAInMicrograms: real,
    vitaminEInMilligrams: real,
    seleniumInMicrograms: real)
  {
    /** The field named by `n`. */
    function Get(n: Nutrient): real {
      match n
      case Protein => proteinInGrams
      case Leucine => leucineInGrams
      case Carbohydrates => carbohydratesInGrams
      case Omega3s => omega3sInGrams
      case Fat => fatInGrams
      case Iron => ironInMilligrams
      case Zinc => zincInMilligrams
      case FermentedFoodServings => fermentedFoodServings
      case Fiber => fiberInGrams
      case Collagen => collagenInGrams
      case VitaminC => vitaminCInMilligrams
      case VitaminA => vitaminAInMicrograms
      case VitaminE => vitaminEInMilligrams
      case Selenium => seleniumInMicrograms
    }
  }

  /** The profile with every field at zero. */
  const ZeroNutrients := AllNutrients(0.0, 0.0, 0.0, 0.0, 0.0, 0.0, 0.0, 0.0, 0.0, 0.0, 0.0, 0.0, 0.0, 0.0)

  /** Two profiles are equal exactly when they agree on every one of the fourteen fields. */
  lemma FieldsDetermineProfile(a: AllNutrients, b: AllNutrients)
    requires forall n: Nutrient :: a.Get(n) == b.Get(n)
    ensures a == b
  {
    assert a.Get(Protein) == b.Get(Protein) && a.Get(Leucine) == b.Get(Leucine);
    assert a.Get(Carbohydrates) == b.Get(Carbohydrates) && a.Get(Omega3s) == b.Get(Omega3s);
    assert a.Get(Fat) == b.Get(Fat) && a.Get(Iron) == b.Get(Iron) && a.Get(Zinc) == b.Get(Zinc);
    assert a.Get(FermentedFoodServings) == b.Get(FermentedFoodServings) && a.Get(Fiber) == b.Get(Fiber);
    assert a.Get(Collagen) == b.Get(Collagen) && a.Get(VitaminC) == b.Get(VitaminC);
    assert a.Get(VitaminA) == b.Get(VitaminA) && a.Get(VitaminE) == b.Get(VitaminE);
    assert a.Get(Selenium) == b.Get(Selenium);
  }

  /**
   * A matched food: the requested quantity as a multiple of the selected
   * portion, the selected portion by id, every portion of the food and its
   * nutrient profile. Nothing in the record forces the id to name one of
   * the portions; `HasSelectedPortion` says when it does.
   */
  datatype AnalysisIngredient = AnalysisIngredient(
    fdcId: int,
    description: string,
    amount: real,
    selectedPortionId: int,
    portions: seq<FoodPortion>,
    nutrients: AllNutrients)

  /** The selected portion id names one of the ingredient's portions. */
  predicate HasSelectedPortion(ing: AnalysisIngredient) {
    exists i :: 0 <= i < |ing.portions| && ing.portions[i].id == ing.selectedPortionId
  }

  /** A meal: its ingredients and one total per nutrient field. */
  datatype AnalysisMeal = AnalysisMeal(
    name: string,
    ingredients: seq<AnalysisIngredient>,
    proteinFloat: real,
    leucineFloat: real,
    carbohydratesFloat: real,
    omega3sFloat: real,
    fatFloat: real,
    ironFloat: real,
    zincFloat: real,
    fermentedFoodServingsFloat: real,
    fiberFloat: real,
    collagenFloat: real,
    vitaminCFloat: real,
    vitaminAFloat: real,
    vitaminEFloat: real,
    seleniumFloat: real)
  {
    /** The meal total kept for nutrient field `n`. */
    function Total(n: Nutrient): real {
      match n
      case Protein => proteinFloat
      case Leucine => leucineFloat
      case Carbohydrates => carbohydratesFloat
      case Omega3s => omega3sFloat
      case Fat => fatFloat
      case Iron => ironFloat
      case Zinc => zincFloat
      case FermentedFoodServings => fermentedFoodServingsFloat
      case Fiber => fiberFloat
      case Collagen => collagenFloat
      case VitaminC => vitaminCFloat
      case VitaminA => vitaminAFloat
      case VitaminE => vitaminEFloat
      case Selenium => seleniumFloat
    }
  }
}
