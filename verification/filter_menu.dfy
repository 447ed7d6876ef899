/**
 The filter panel (`FilterMenu.js`): the active-filter counter behind the
 clear button, the static price and rating tables, and which inputs are
 checked. The criteria themselves are owned and changed by the page that
 renders the panel.
 */
module FilterMenu {
  import opened Wrappers

  /** The sentinel id meaning "no restriction", for cuisine and for price. */
  const All: string := "all"

  /** Bounds of a price bucket in đồng; a missing upper bound is `Infinity`. */
  datatype PriceBounds = PriceBounds(min: int, max: Option<int>)

  /** One price radio; the "all" entry has no bounds. */
  datatype PriceOption = PriceOption(id: string, title: string, bounds: Option<PriceBounds>)

  const PriceRanges: seq<PriceOption> := [
    PriceOption(All, "Tất cả", None),
    PriceOption("cheap", "Dưới 50,000đ", Some(PriceBounds(0, Some(50000)))),
    PriceOption("medium", "50,000đ - 100,000đ", Some(PriceBounds(50000, Some(100000)))),
    PriceOption("expensive", "Trên 100,000đ", Some(PriceBounds(100000, None)))
  ]

  /** One rating radio. */
  datatype RatingOption = RatingOption(value: real, title: string)

  const RatingOptions: seq<RatingOption> := [
    RatingOption(0.0, "Tất cả"),
    RatingOption(3.0, "Trên 3 sao"),
    RatingOption(4.0, "Trên 4 sao"),
    RatingOption(4.5, "Trên 4.5 sao")
  ]

  /** `getActiveFiltersCount`: each selected cuisine counts unless "all" is
      among them, a price bucket other than "all" counts one, and a positive
      minimum rating counts one. */
  function ActiveFiltersCount(selectedTypes: seq<string>, priceRange: string, minRating: real): (count: nat)
    ensures count <= |selectedTypes| + 2
    ensures All in selectedTypes ==> count <= 2
    ensures count == 0 <==> (All in selectedTypes || selectedTypes == []) && priceRange == All && minRating <= 0.0
  {
    (if All !in selectedTypes then |selectedTypes| else 0)
    + (if priceRange != All then 1 else 0)
    + (if minRating > 0.0 then 1 else 0)
  }

  /** The clear button with its count is rendered. */
  predicate ClearButtonShown(selectedTypes: seq<string>, priceRange: string, minRating: real) {
    ActiveFiltersCount(selectedTypes, priceRange, minRating) > 0
  }

  /** At the defaults nothing is active and the clear button is hidden. */
  lemma DefaultsInactive()
    ensures ActiveFiltersCount([All], All, 0.0) == 0
    ensures !ClearButtonShown([All], All, 0.0)
  {
  }

  /** The clear button appears exactly when some criterion restricts: a
      specific cuisine without "all", a price bucket, or a positive rating. */
  lemma ClearButtonWhenRestricted(selectedTypes: seq<string>, priceRange: string, minRating: real)
    ensures ClearButtonShown(selectedTypes, priceRange, minRating) <==>
      (All !in selectedTypes && |selectedTypes| > 0) || priceRange != All || minRating > 0.0
  {
  }

  /** The three criteria contribute independently: choosing a price bucket or
      a positive rating adds exactly one to the count with the other criteria
      at their defaults. */
  lemma CriteriaIndependent(selectedTypes: seq<string>, priceRange: string, minRating: real)
    ensures ActiveFiltersCount(selectedTypes, priceRange, minRating) ==
      ActiveFiltersCount(selectedTypes, All, 0.0) + ActiveFiltersCount([All], priceRange, 0.0)
      + ActiveFiltersCount([All], All, minRating)
    ensures ActiveFiltersCount(selectedTypes, priceRange, minRating) ==
      ActiveFiltersCount(selectedTypes, All, minRating) + (if priceRange != All then 1 else 0)
    ensures ActiveFiltersCount(selectedTypes, priceRange, minRating) ==
      ActiveFiltersCount(selectedTypes, priceRange, 0.0) + (if minRating > 0.0 then 1 else 0)
  {
  }

  /** The bucket bounds tile the prices with no gap: cheap ends where medium
      starts, medium ends where expensive starts, and expensive is unbounded. */
  lemma PriceBucketsContiguous()
    ensures |PriceRanges| == 4 && PriceRanges[0].bounds.None?
    ensures forall i :: 1 <= i < |PriceRanges| ==> PriceRanges[i].bounds.Some?
    ensures PriceRanges[1].bounds.value.min == 0
    ensures forall i :: 1 <= i < |PriceRanges| - 1 ==>
      PriceRanges[i].bounds.value.max == Some(PriceRanges[i + 1].bounds.value.min)
    ensures PriceRanges[|PriceRanges| - 1].bounds.value.max.None?
    ensures PriceRanges[1].bounds.value.max == Some(50000) && PriceRanges[2].bounds.value.max == Some(100000)
  {
  }

  /** The rating thresholds are strictly increasing. */
  lemma RatingsIncreasing()
    ensures forall i, j :: 0 <= i < j < |RatingOptions| ==> RatingOptions[i].value < RatingOptions[j].value
  {
  }

  /** `"★".repeat(n)`. */
  function Stars(n: nat): (s: string)
    ensures |s| == n && forall i :: 0 <= i < n ==> s[i] == '★'
  {
    seq(n, i => '★')
  }

  /** The glyphs after a rating label: one star per whole point, none for "all". */
  function StarGlyphs(value: real): (s: string)
    ensures value > 0.0 ==> |s| == value.Floor && (value.Floor as real) <= value < (value.Floor as real) + 1.0
    ensures value <= 0.0 ==> s == []
    ensures forall i :: 0 <= i < |s| ==> s[i] == '★'
  {
    if value > 0.0 then Stars(value.Floor) else []
  }

  /** The table's labels carry no, three, four and four stars; 4.5 rounds down. */
  lemma TableStars()
    ensures |StarGlyphs(RatingOptions[0].value)| == 0
    ensures |StarGlyphs(RatingOptions[1].value)| == 3
    ensures |StarGlyphs(RatingOptions[2].value)| == 4
    ensures |StarGlyphs(RatingOptions[3].value)| == 4
  {
  }

  /** A cuisine checkbox is ticked. */
  predicate CuisineChecked(selectedTypes: seq<string>, id: string) {
    id in selectedTypes
  }

  /** While the "all" cuisine box is ticked the other ticked boxes add nothing
      to the count; otherwise each ticked entry adds one. */
  lemma AllBoxNeutralizesCuisines(selectedTypes: seq<string>, priceRange: string, minRating: real)
    ensures CuisineChecked(selectedTypes, All) ==>
      ActiveFiltersCount(selectedTypes, priceRange, minRating) == ActiveFiltersCount([All], priceRange, minRating)
    ensures !CuisineChecked(selectedTypes, All) ==>
      ActiveFiltersCount(selectedTypes, priceRange, minRating) == |selectedTypes| + ActiveFiltersCount([All], priceRange, minRating)
  {
  }

  /** A price radio is selected. */
  predicate PriceChecked(priceRange: string, id: string) {
    priceRange == id
  }

  /** A rating radio is selected. */
  predicate RatingChecked(minRating: real, value: real) {
    minRating == value
  }

  /** Some price radio is selected exactly when the criterion is one of the
      table's ids, and never more than one. */
  lemma OnePriceChecked(priceRange: string)
    ensures (exists i :: 0 <= i < |PriceRanges| && PriceChecked(priceRange, PriceRanges[i].id))
      <==> priceRange in {"all", "cheap", "medium", "expensive"}
    ensures forall i, j ::
      (0 <= i < |PriceRanges| && 0 <= j < |PriceRanges| &&
       PriceChecked(priceRange, PriceRanges[i].id) && PriceChecked(priceRange, PriceRanges[j].id)) ==> i == j
  {
    if priceRange == "all" {
      assert PriceChecked(priceRange, PriceRanges[0].id);
    } else if priceRange == "cheap" {
      assert PriceChecked(priceRange, PriceRanges[1].id);
    } else if priceRange == "medium" {
      assert PriceChecked(priceRange, PriceRanges[2].id);
    } else if priceRange == "expensive" {
      assert PriceChecked(priceRange, PriceRanges[3].id);
    }
  }

  /** Likewise for the rating radios. */
  lemma OneRatingChecked(minRating: real)
    ensures (exists i :: 0 <= i < |RatingOptions| && RatingChecked(minRating, RatingOptions[i].value))
      <==> minRating in {0.0, 3.0, 4.0, 4.5}
    ensures forall i, j ::
      (0 <= i < |RatingOptions| && 0 <= j < |RatingOptions| &&
       RatingChecked(minRating, RatingOptions[i].value) && RatingChecked(minRating, RatingOptions[j].value)) ==> i == j
  {
    RatingsIncreasing();
    if minRating == 0.0 {
      assert RatingChecked(minRating, RatingOptions[0].value);
    } else if minRating == 3.0 {
      assert RatingChecked(minRating, RatingOptions[1].value);
    } else if minRating == 4.0 {
      assert RatingChecked(minRating, RatingOptions[2].value);
    } else if minRating == 4.5 {
      assert RatingChecked(minRating, RatingOptions[3].value);
    }
  }
}
