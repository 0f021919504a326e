/**
 The prediction server's input schema and its column selection: the
 request body must carry every model feature, or the request is refused.
 */
module Features {
  import opened Json

  const CategoricalCols: seq<string> := [
    "City Tax Rate Area", "Roll Year", "Property Use Type", "Zip Code.1", "Year Built", "Effective Year"
  ]

  const NumericalCols: seq<string> := [
    "Number of Buildings", "Square Footage", "Number of Bedrooms", "Number of Bathrooms",
    "Number of Units", "num_nearby_arts_and_rec", "num_nearby_fire_stations", "num_nearby_hospitals",
    "num_nearby_physical_features", "num_nearby_transportation", "num_nearby_schools"
  ]

  /** The model's input columns, categorical first. */
  const AllFeatures: seq<string> := CategoricalCols + NumericalCols

  predicate Distinct<T(==)>(s: seq<T>) {
    forall i, j :: 0 <= i < j < |s| ==> s[i] != s[j]
  }

  /** The schema has 17 different column names: 6 categorical and 11 numerical. */
  lemma AllFeaturesShape()
    ensures |CategoricalCols| == 6 && |NumericalCols| == 11 && |AllFeatures| == 17
    ensures Distinct(AllFeatures)
  {
  }

  /** The outcome of `pd.DataFrame([data])[all_features]`. */
  datatype Selection = Row(values: seq<Value>) | MissingColumns(missing: seq<string>)

  /** The features of `cols` that the request body lacks, in schema order. */
  function Missing(data: Object, cols: seq<string>): (r: seq<string>)
    ensures forall f :: f in r <==> f in cols && f !in data
  {
    if |cols| == 0 then []
    else (if cols[0] in data then [] else [cols[0]]) + Missing(data, cols[1..])
  }

  /** Selects the schema's columns from the request body: one value per
      feature, in schema order, when every feature is present; otherwise
      the list of absent features (pandas raises a `KeyError`). Extra
      properties of the body are ignored. */
  function SelectColumns(data: Object): (r: Selection)
    ensures r.Row? <==> forall f :: f in AllFeatures ==> f in data
    ensures r.Row? ==>
              && |r.values| == |AllFeatures|
              && forall i :: 0 <= i < |AllFeatures| ==> r.values[i] == data[AllFeatures[i]]
    ensures r.MissingColumns? ==>
              && |r.missing| > 0
              && forall f :: f in r.missing <==> f in AllFeatures && f !in data
  {
    var missing := Missing(data, AllFeatures);
    if |missing| == 0 then
      Row(seq(|AllFeatures|, i requires 0 <= i < |AllFeatures| => data[AllFeatures[i]]))
    else
      assert missing[0] in missing;
      MissingColumns(missing)
  }
}
