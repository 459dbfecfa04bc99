/** The one entity of the service: a row of the `cafe` table, and the flat
    column-name dictionary that every response embeds for it. */
module Cafes {
  import opened Wrappers

  /** One row of the `cafe` table; `coffeePrice` is the only nullable column. */
  datatype Cafe = Cafe(
    id: int,
    name: string,
    mapUrl: string,
    imgUrl: string,
    location: string,
    seats: string,
    hasToilet: bool,
    hasWifi: bool,
    hasSockets: bool,
    canTakeCalls: bool,
    coffeePrice: Option<string>)

  /** A column value as it appears in the response body. */
  datatype Value = Int(i: int) | Str(s: string) | Bool(b: bool) | Null

  /** A record representation: column name to value. */
  type Row = map<string, Value>

  const COLUMNS: set<string> := {
    "id", "name", "map_url", "img_url", "location", "seats",
    "has_toilet", "has_wifi", "has_sockets", "can_take_calls", "coffee_price"
  }

  function PriceValue(price: Option<string>): Value
  {
    match price
    case Some(p) => Str(p)
    case None => Null
  }

  /** `Cafe.to_dictionary`: every column of the table, by its column name. */
  function ToDictionary(c: Cafe): (row: Row)
    ensures row.Keys == COLUMNS
    ensures row["id"] == Int(c.id) && row["name"] == Str(c.name)
    ensures row["location"] == Str(c.location)
    ensures row["coffee_price"].Null? <==> c.coffeePrice.None?
  {
    map[
      "id" := Int(c.id),
      "name" := Str(c.name),
      "map_url" := Str(c.mapUrl),
      "img_url" := Str(c.imgUrl),
      "location" := Str(c.location),
      "seats" := Str(c.seats),
      "has_toilet" := Bool(c.hasToilet),
      "has_wifi" := Bool(c.hasWifi),
      "has_sockets" := Bool(c.hasSockets),
      "can_take_calls" := Bool(c.canTakeCalls),
      "coffee_price" := PriceValue(c.coffeePrice)]
  }

  /** Each column holds a value of its column's type. */
  predicate WellTyped(row: Row)
    requires row.Keys == COLUMNS
  {
    && row["id"].Int?
    && row["name"].Str? && row["map_url"].Str? && row["img_url"].Str?
    && row["location"].Str? && row["seats"].Str?
    && row["has_toilet"].Bool? && row["has_wifi"].Bool?
    && row["has_sockets"].Bool? && row["can_take_calls"].Bool?
    && (row["coffee_price"].Str? || row["coffee_price"].Null?)
  }

  /** How a client reads a record representation back: exactly the columns,
      each with a value of its column's type. */
  function FromDictionary(row: Row): (c: Option<Cafe>)
    ensures c.Some? ==> row.Keys == COLUMNS
  {
    if row.Keys == COLUMNS && WellTyped(row) then
      Some(Cafe(
        row["id"].i, row["name"].s, row["map_url"].s, row["img_url"].s,
        row["location"].s, row["seats"].s,
        row["has_toilet"].b, row["has_wifi"].b, row["has_sockets"].b,
        row["can_take_calls"].b,
        if row["coffee_price"].Str? then Some(row["coffee_price"].s) else None))
    else None
  }

  /** The representation loses no field: reading it back gives the record. */
  lemma DictionaryRoundTrip(c: Cafe)
    ensures FromDictionary(ToDictionary(c)) == Some(c)
  {
  }

  /** And it is the only representation of that record. */
  lemma DictionaryUnique(row: Row, c: Cafe)
    requires FromDictionary(row) == Some(c)
    ensures ToDictionary(c) == row
  {
    assert row.Keys == COLUMNS && WellTyped(row);
    var d := ToDictionary(c);
    assert d["id"] == row["id"] && d["name"] == row["name"];
    assert d["map_url"] == row["map_url"] && d["img_url"] == row["img_url"];
    assert d["location"] == row["location"] && d["seats"] == row["seats"];
    assert d["has_toilet"] == row["has_toilet"] && d["has_wifi"] == row["has_wifi"];
    assert d["has_sockets"] == row["has_sockets"] && d["can_take_calls"] == row["can_take_calls"];
    assert d["coffee_price"] == row["coffee_price"];
  }

  /** Distinct records have distinct representations. */
  lemma DictionaryInjective(c: Cafe, c': Cafe)
    requires ToDictionary(c) == ToDictionary(c')
    ensures c == c'
  {
    DictionaryRoundTrip(c);
    DictionaryRoundTrip(c');
  }
}
