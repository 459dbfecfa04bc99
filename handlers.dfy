/** The six route handlers' shared vocabulary (responses, the create form,
    the api key) and the three that only read the table: list-all,
    random pick and location search. */
module Handlers {
  import opened Wrappers
  import opened Text
  import opened Cafes
  import opened Tables

  const ADDED := "New cafe added successfully."
  const PRICE_UPDATED := "Coffee price successfully updated."
  const DELETED := "Cafe successfully deleted from database."
  const NO_CAFE_AT_LOCATION := "No cafe at that location."
  const NO_CAFE_WITH_ID := "No cafe with that ID found."
  const NOT_AUTHORIZED := "You are not authorized to delete anything in the database, fuck off."
  const API_KEY := "TopSecretAPIKey"

  /** Why a request ended in an exception the handler does not catch
      instead of a JSON body. */
  datatype Fault =
    | EmptyChoice       // `random.choice` of an empty list
    | MissingFormField  // `request.form[key]` on a key the form lacks
    | DuplicateName     // the commit breaks the unique `name` column

  /** The body of a response, by its single top-level key. */
  datatype Payload =
    | CafeItem(cafe: Row)                    // {"cafe": {...}}
    | AllCafes(allCafes: map<int, Row>)      // {"all_cafes": {id: {...}}}
    | CafesFound(cafesFound: map<int, Row>)  // {"cafes_found": {id: {...}}}
    | Success(success: string)               // {"response": {"success": ...}}
    | NotFound(notFound: string)             // {"error": {"Not found": ...}}
    | Refused(error: string)                 // {"error": "..."}
    | Aborted(fault: Fault)                  // the framework's error page

  datatype Response = Response(payload: Payload, status: int)

  /** Decoded form fields of a create request. */
  type Form = map<string, string>

  /** The keys `add` reads from the form; `coffee_price` is among them. */
  const FORM_FIELDS: set<string> := {
    "name", "map_url", "img_url", "location", "seats",
    "has_toilet", "has_wifi", "has_sockets", "can_take_calls", "coffee_price"
  }

  /** The form fields `add` stores as text, under the same column names. */
  const TEXT_FIELDS: set<string> := {"name", "map_url", "img_url", "location", "seats", "coffee_price"}

  predicate HasFormFields(form: Form)
  {
    FORM_FIELDS <= form.Keys
  }

  /** The row `add` builds from a complete form, to be stored under `id`. */
  function NewCafe(id: int, form: Form): (c: Cafe)
    requires HasFormFields(form)
    ensures var row := ToDictionary(c);
      && row["id"] == Int(id)
      && forall f :: f in TEXT_FIELDS ==> row[f] == Str(form[f])
  {
    Cafe(
      id,
      form["name"], form["map_url"], form["img_url"], form["location"], form["seats"],
      IsYes(form["has_toilet"]), IsYes(form["has_wifi"]),
      IsYes(form["has_sockets"]), IsYes(form["can_take_calls"]),
      Some(form["coffee_price"]))
  }

  /** The new row keeps the five required strings and the price verbatim,
      and each amenity flag is true exactly for a case variant of "yes". */
  lemma NewCafeFromForm(id: int, form: Form)
    requires HasFormFields(form)
    ensures var c := NewCafe(id, form);
      && c.id == id
      && c.name == form["name"] && c.mapUrl == form["map_url"]
      && c.imgUrl == form["img_url"] && c.location == form["location"]
      && c.seats == form["seats"]
      && c.coffeePrice == Some(form["coffee_price"])
      && (c.hasToilet <==> IsYesSpelling(form["has_toilet"]))
      && (c.hasWifi <==> IsYesSpelling(form["has_wifi"]))
      && (c.hasSockets <==> IsYesSpelling(form["has_sockets"]))
      && (c.canTakeCalls <==> IsYesSpelling(form["can_take_calls"]))
  {
  }

  /** The shared-secret check that gates deletion. */
  predicate Authorized(apiKey: Option<string>): (b: bool)
    ensures apiKey.None? ==> !b
    ensures b <==> apiKey.Some? && apiKey.value == "TopSecretAPIKey"
  {
    apiKey == Some(API_KEY)
  }

  /** Every row of `t` in its dictionary form, keyed by id. */
  function Rows(t: Table): (rows: map<int, Row>)
    ensures forall k :: k in rows <==> k in t
    ensures forall k :: k in t ==> FromDictionary(rows[k]) == Some(t[k])
  {
    var rows := map k | k in t :: ToDictionary(t[k]);
    assert forall k :: k in t ==> FromDictionary(rows[k]) == Some(t[k]) by {
      forall k | k in t
        ensures FromDictionary(rows[k]) == Some(t[k])
      {
        DictionaryRoundTrip(t[k]);
      }
    }
    rows
  }

  /** `all`: every row of the table, in full, under its id. */
  function All(t: Table): (r: Response)
    ensures r.status == 200 && r.payload.AllCafes?
    ensures forall k :: k in r.payload.allCafes <==> k in t
    ensures forall k :: k in t ==> FromDictionary(r.payload.allCafes[k]) == Some(t[k])
  {
    Response(AllCafes(Rows(t)), 200)
  }

  /** `search`: the rows whose location is exactly `loc`, or the not-found
      error when there are none; either way the status stays 200. */
  function Search(t: Table, loc: Option<string>): (r: Response)
    ensures r.status == 200
    ensures r.payload.NotFound? || r.payload.CafesFound?
    ensures r.payload.NotFound? <==> !exists k :: k in t && loc == Some(t[k].location)
    ensures r.payload.NotFound? ==> r.payload.notFound == NO_CAFE_AT_LOCATION
    ensures loc.None? ==> r.payload.NotFound?
    ensures r.payload.CafesFound? ==>
      && (forall k :: k in r.payload.cafesFound <==> k in t && loc == Some(t[k].location))
      && (forall k :: k in r.payload.cafesFound ==> FromDictionary(r.payload.cafesFound[k]) == Some(t[k]))
  {
    var found := FilterByLocation(t, loc);
    // `len(cafes_found) == 0`: the filtered rows have no key
    if exists k :: k in found then Response(CafesFound(Rows(found)), 200)
    else Response(NotFound(NO_CAFE_AT_LOCATION), 200)
  }

  /** `random_one`: some row of the table, in full; choosing from an empty
      table raises. Which row is left open. */
  method RandomOne(t: Table) returns (r: Response)
    ensures (exists k :: k in t) ==>
      && r.status == 200 && r.payload.CafeItem?
      && exists k :: k in t && FromDictionary(r.payload.cafe) == Some(t[k])
    ensures (forall k :: k !in t) ==> r == Response(Aborted(EmptyChoice), 500)
  {
    if k :| k in t {
      DictionaryRoundTrip(t[k]);
      r := Response(CafeItem(ToDictionary(t[k])), 200);
    } else {
      r := Response(Aborted(EmptyChoice), 500);
    }
  }

  /** A search result is a part of the full listing: same ids, same rows. */
  lemma SearchWithinAll(t: Table, loc: Option<string>)
    requires Search(t, loc).payload.CafesFound?
    ensures forall k :: k in Search(t, loc).payload.cafesFound ==>
      k in All(t).payload.allCafes &&
      Search(t, loc).payload.cafesFound[k] == All(t).payload.allCafes[k]
  {
    var found := Search(t, loc).payload.cafesFound;
    var all := All(t).payload.allCafes;
    forall k | k in found
      ensures k in all && found[k] == all[k]
    {
      DictionaryUnique(found[k], t[k]);
      DictionaryUnique(all[k], t[k]);
    }
  }

  /** After `add` stores a new row, `all` lists it with the submitted fields
      and still lists every earlier row unchanged. */
  lemma AddedCafeListed(t: Table, form: Form)
    requires TableValid(t) && HasFormFields(form) && !NameTaken(t, form["name"])
    ensures var id := NextRowId(t);
      var listing := All(t[id := NewCafe(id, form)]).payload.allCafes;
      && id in listing && id !in t
      && FromDictionary(listing[id]) == Some(NewCafe(id, form))
      && forall k :: k in t ==> k in listing && FromDictionary(listing[k]) == Some(t[k])
  {
  }

  /** After a row is removed, `all` no longer lists it and lists the rest
      unchanged. */
  lemma RemovedCafeNotListed(t: Table, id: int)
    ensures var listing := All(t - {id}).payload.allCafes;
      && id !in listing
      && forall k :: k in t && k != id ==> k in listing && FromDictionary(listing[k]) == Some(t[k])
  {
  }
}
