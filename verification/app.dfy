/**
 The page's two buttons as state transitions: the search button selects a
 house and the amenities shown around it, the what-if button turns the
 selection and the five inputs into a request body, or alerts.

 Map markers, popups and the home-features box are not modelled; the
 amenities the map shows are, per category.
 */
module App {
  import opened Json
  import opened Locator
  import opened Amenities
  import opened Scenario

  /** What the page holds between clicks. */
  datatype State = State(
    houses: seq<House>,
    amenities: map<Category, seq<Amenity>>,
    selected: Option<House>,
    error: string,
    shown: map<Category, seq<Amenity>>)

  const NotFound: string := "Address not found."
  const NoSelection: string := "Please select a house first."

  /** The page once its data has loaded: nothing selected, no error, and
      every amenity layer empty. */
  function Initial(houses: seq<House>, amenities: map<Category, seq<Amenity>>): (s: State)
    ensures s.selected.None? && s.error == ""
    ensures Loaded(s.shown) && forall c: Category :: s.shown[c] == []
    ensures s.houses == houses && s.amenities == amenities
  {
    State(houses, amenities, None, "", Cleared())
  }

  /** Whether `house.total_value.toLocaleString()` succeeds: it throws a
      `TypeError` when the property is absent or `null`. */
  predicate HasTotalValue(h: House) {
    "total_value" in h.fields && h.fields["total_value"] != Null
  }

  /** The search button, which is enabled only once every category has
      loaded. No match sets the error text and leaves the rest of the
      page as it was, earlier selection included. A match clears the
      error, empties every amenity layer and selects the house; then, if
      the house has a total value, each category shows the amenities near
      it, each as often and in the order loaded. Without a total value the
      popup text throws before any amenity is added, so every layer stays
      empty. */
  function Search(s: State, query: string, dist: Distance): (r: State)
    requires Loaded(s.amenities)
    ensures r.houses == s.houses && r.amenities == s.amenities
    ensures r.error == NotFound <==> Lookup(s.houses, query).None?
    ensures Lookup(s.houses, query).None? ==> r == s.(error := NotFound)
    ensures Lookup(s.houses, query).Some? ==>
              var h := Lookup(s.houses, query).value;
              && r.error == ""
              && r.selected == Some(h)
              && Loaded(r.shown)
              && (HasTotalValue(h) ==>
                    && r.shown == NearbyAll(dist, h.latitude, h.longitude, s.amenities)
                    && forall c: Category :: forall a :: a in r.shown[c] <==>
                         a in s.amenities[c] && IsNearby(dist, h.latitude, h.longitude, a))
              && (!HasTotalValue(h) ==> forall c: Category :: r.shown[c] == [])
  {
    match Lookup(s.houses, query)
    case None => s.(error := NotFound)
    case Some(h) =>
      var shown := if HasTotalValue(h) then NearbyAll(dist, h.latitude, h.longitude, s.amenities) else Cleared();
      s.(error := "", selected := Some(h), shown := shown)
  }

  /** Repeating a search changes nothing. */
  lemma SearchIdempotent(s: State, query: string, dist: Distance)
    requires Loaded(s.amenities)
    ensures Search(Search(s, query, dist), query, dist) == Search(s, query, dist)
  {
  }

  /** A search whose query differs only in padding and letter case leads
      to the same page. */
  lemma SearchIgnoresPaddingAndCase(s: State, query: string, dist: Distance)
    requires Loaded(s.amenities)
    ensures Search(s, query, dist) == Search(s, NormalizeQuery(query), dist)
  {
    LookupIgnoresPaddingAndCase(s.houses, query);
  }

  /** What the what-if button does: alert, or send a JSON body. */
  datatype Action = Alert(message: string) | Send(body: Object)

  /** The what-if button: without a selection it alerts; otherwise it
      sends the request built from the selected house and the inputs,
      with the properties that are still `undefined` left out. */
  function WhatIf(s: State, inputs: Inputs): (a: Action)
    ensures a.Alert? <==> s.selected.None?
    ensures a.Alert? ==> a.message == NoSelection
    ensures a.Send? ==>
              && (forall k :: k in a.body ==> exists i :: 0 <= i < |RequestFields| && RequestFields[i].0 == k)
              && forall i :: 0 <= i < |RequestFields| ==>
                   var v := Resolve(s.selected.value, inputs, RequestFields[i].1);
                   (RequestFields[i].0 in a.body <==> v.Some?) && (v.Some? ==> a.body[RequestFields[i].0] == v.value)
  {
    match s.selected
    case None => Alert(NoSelection)
    case Some(h) => Send(Serialize(BuildRequest(h, inputs)))
  }

  /** Before any successful search the what-if button only alerts,
      whatever was typed, and a failed search does not change that. */
  lemma WhatIfNeedsSelection(houses: seq<House>, amenities: map<Category, seq<Amenity>>, query: string, dist: Distance, inputs: Inputs)
    requires Loaded(amenities)
    requires Lookup(houses, query).None?
    ensures WhatIf(Initial(houses, amenities), inputs) == Alert(NoSelection)
    ensures WhatIf(Search(Initial(houses, amenities), query, dist), inputs) == Alert(NoSelection)
  {
  }

  /** After a successful search the what-if request is built from the
      house found, and a later failed search keeps it. */
  lemma WhatIfUsesLastMatch(s: State, found: string, missed: string, dist: Distance, inputs: Inputs)
    requires Loaded(s.amenities)
    requires Lookup(s.houses, found).Some? && Lookup(s.houses, missed).None?
    ensures var t := Search(Search(s, found, dist), missed, dist);
            && t.error == NotFound
            && WhatIf(t, inputs) == Send(Serialize(BuildRequest(Lookup(s.houses, found).value, inputs)))
  {
  }
}
