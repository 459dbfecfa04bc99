/** The three route handlers that change the `cafe` table: create,
    patch-price and delete, as methods of the one shared table. */
module Store {
  import opened Wrappers
  import opened Cafes
  import opened Tables
  import opened Handlers

  class CafeStore {
    /** The rows of the `cafe` table by primary key. */
    var table: Table

    ghost predicate Valid()
      reads this
    {
      TableValid(table)
    }

    constructor ()
      ensures Valid() && table == map[]
    {
      table := map[];
    }

    /** `add`: a complete form whose name is new becomes one new row under
        the next row id, and only the fixed success message comes back; a
        missing field or a taken name leaves the table as it was. */
    method Add(form: Form) returns (r: Response)
      requires Valid()
      modifies this
      ensures Valid()
      ensures !HasFormFields(form) ==>
        r == Response(Aborted(MissingFormField), 400) && table == old(table)
      ensures HasFormFields(form) && NameTaken(old(table), form["name"]) ==>
        r == Response(Aborted(DuplicateName), 500) && table == old(table)
      ensures HasFormFields(form) && !NameTaken(old(table), form["name"]) ==>
        var id := NextRowId(old(table));
        && r == Response(Success(ADDED), 200)
        && id !in old(table)
        && table == old(table)[id := NewCafe(id, form)]
        && |table| == |old(table)| + 1
    {
      if !HasFormFields(form) {
        return Response(Aborted(MissingFormField), 400);
      }
      var id := NextRowId(table);
      var cafe := NewCafe(id, form);
      if NameTaken(table, cafe.name) {
        return Response(Aborted(DuplicateName), 500);
      }
      InsertKeepsValid(table, cafe);
      table := table[id := cafe];
      r := Response(Success(ADDED), 200);
    }

    /** `patch`: on a known id only that row's `coffee_price` changes, to
        the given value or to null; an unknown id changes nothing. */
    method Patch(cafeId: int, newPrice: Option<string>) returns (r: Response)
      requires Valid()
      modifies this
      ensures Valid()
      ensures cafeId in old(table) ==>
        && r == Response(Success(PRICE_UPDATED), 200)
        && table == old(table)[cafeId := old(table)[cafeId].(coffeePrice := newPrice)]
      ensures cafeId !in old(table) ==>
        r == Response(NotFound(NO_CAFE_WITH_ID), 404) && table == old(table)
    {
      if cafeId in table {
        var updated := table[cafeId].(coffeePrice := newPrice);
        ReplaceKeepsValid(table, updated);
        table := table[cafeId := updated];
        r := Response(Success(PRICE_UPDATED), 200);
      } else {
        r := Response(NotFound(NO_CAFE_WITH_ID), 404);
      }
    }

    /** `delete`: the api key is checked before the id is looked up, so a
        wrong or absent key gives the same 403 whether or not the id exists;
        with the right key a known id loses exactly its row. */
    method Delete(cafeId: int, apiKey: Option<string>) returns (r: Response)
      requires Valid()
      modifies this
      ensures Valid()
      ensures !Authorized(apiKey) ==>
        r == Response(Refused(NOT_AUTHORIZED), 403) && table == old(table)
      ensures Authorized(apiKey) && cafeId in old(table) ==>
        && r == Response(Success(DELETED), 200)
        && table == old(table) - {cafeId}
        && |table| == |old(table)| - 1
      ensures Authorized(apiKey) && cafeId !in old(table) ==>
        r == Response(NotFound(NO_CAFE_WITH_ID), 404) && table == old(table)
    {
      if Authorized(apiKey) {
        if cafeId in table {
          RemoveKeepsValid(table, cafeId);
          table := table - {cafeId};
          r := Response(Success(DELETED), 200);
        } else {
          r := Response(NotFound(NO_CAFE_WITH_ID), 404);
        }
      } else {
        r := Response(Refused(NOT_AUTHORIZED), 403);
      }
    }
  }
}
