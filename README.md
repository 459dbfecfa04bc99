# Cafe record service

A Dafny model of the cafe API in `day-66-cafe-api-start/main.py`: one table of
cafe rows keyed by an integer id, a unique `name` column, and six route
handlers that read or change it. With the web framework and the ORM taken away,
each handler is an operation on an in-memory `map<int, Cafe>` that returns a
response: the payload's top-level key and message, and the HTTP status.

Modules, leaves first:

- `Wrappers` (`wrappers.dfy`): `Option`, for request parameters that may be
  absent and for the nullable `coffee_price` column.
- `Text` (`text.dfy`): ASCII lower-casing and `IsYes`, the
  `text.lower() == "yes"` coercion of the four amenity flags.
- `Cafes` (`cafe.dfy`): the `Cafe` row, `ToDictionary` (the model's
  `to_dictionary`), and `FromDictionary`, which reads a record representation
  back the way a client would. It serves as the inverse against which
  `ToDictionary` is proved lossless.
- `Tables` (`table.dfy`): the table as a map and its invariant `TableValid`.
  The invariant says each row is stored under its own positive id and no two
  rows share a name. The module also holds the storage engine's id assignment
  (`NextRowId`) and the exact-match location filter.
- `Handlers` (`handlers.dfy`): the response datatype, the create form, the
  api-key check, and the handlers that only read the table. `All` and `Search`
  are functions of the table. `RandomOne` is a method, because the pick is a
  nondeterministic choice.
- `Store` (`store.dfy`): class `CafeStore`, whose field `table` is the shared
  table. The handlers `add`, `patch` and `delete` are its methods `Add`,
  `Patch` and `Delete`. Each keeps `Valid()` and states the whole new table and
  the response for every branch.

Choices where the code, run by the framework, decides what happens:

- A handler that raises an exception it does not catch gets an `Aborted`
  payload that names the cause, with the status Flask sends outside debug mode.
  `random.choice` on an empty table is `EmptyChoice`, with status 500.
  `request.form[key]` on a missing key is `MissingFormField`, with status 400.
  A commit that breaks the unique `name` column is `DuplicateName`, with
  status 500. In each case the table is unchanged.
- `add` reads `coffee_price` with `request.form["coffee_price"]`, the same as
  the other nine fields. So the model requires all ten keys, even though the
  column is nullable. The model follows the code.
- `search` with no match, or with no `loc`, returns the not-found error with
  the default status 200. The code never sets another status.
- An absent `loc` reaches the database as `filter_by(location=None)`, which
  compares with NULL. `location` is never NULL, so nothing matches.
  `FilterByLocation` compares `Some(row.location)` with the optional `loc`,
  and so gives the same result.
- New ids follow SQLite's rule for an `INTEGER PRIMARY KEY` column without
  AUTOINCREMENT: one more than the largest id present, or 1 in an empty table.
  An id freed by deleting the largest row can therefore be given out again.

## Model

| member | source | states |
|---|---|---|
| `Text.LowerChar` | day-66-cafe-api-start/main.py:76-79 | the lowered character is never a capital; a capital A–Z becomes its lower-case letter; any other character is kept |
| `Text.Lower` | day-66-cafe-api-start/main.py:76-79 | `.lower()` keeps the length and lowers each character in place |
| `Text.IsYes` | day-66-cafe-api-start/main.py:76-79 | the coercion `x.lower() == "yes"` is true exactly for a case spelling of "yes" (`yes`, `Yes`, `YES`, …) and false for every other text |
| `Text.YesIffSpelling` | day-66-cafe-api-start/main.py:76-79 | a text lowers to `"yes"` exactly when it is one of the eight case spellings of "yes" |
| `Cafes.ToDictionary` | day-66-cafe-api-start/main.py:28-29 | the representation has exactly the eleven column names as keys; id, name and location appear as-is; `coffee_price` is null exactly when the price is absent |
| `Cafes.FromDictionary` | day-66-cafe-api-start/main.py:28-29 | a representation is accepted only if its keys are exactly the columns |
| `Cafes.DictionaryRoundTrip` | day-66-cafe-api-start/main.py:28-29 | reading a row's representation back gives the same row: no field is lost or altered |
| `Cafes.DictionaryUnique` | day-66-cafe-api-start/main.py:28-29 | a representation that reads back as a row is exactly that row's representation |
| `Cafes.DictionaryInjective` | day-66-cafe-api-start/main.py:28-29 | two rows with equal representations are equal |
| `Tables.TableValid` | day-66-cafe-api-start/main.py:16-17 | the primary-key and unique constraints: each row is stored under its own positive id, and no other row has a row's name |
| `Tables.NameTaken` | day-66-cafe-api-start/main.py:17 | the probe of the unique `name` column: when it is false no row has that name, and it can be true only for a non-empty table |
| `Tables.MaxExists` | day-66-cafe-api-start/main.py:16 | a non-empty set of ids has a largest id |
| `Tables.MaxKey` | day-66-cafe-api-start/main.py:16 | the largest id is in the set and is at least every id in it |
| `Tables.NextRowId` | day-66-cafe-api-start/main.py:16 | the id given to an inserted row is not in the table and is above every id present; it is 1 for an empty table and positive when all ids are |
| `Tables.FilterByLocation` | day-66-cafe-api-start/main.py:56 | `filter_by(location=loc)` keeps exactly the rows whose location equals `loc`, with no change to them; an absent `loc` keeps none |
| `Tables.InsertKeepsValid` | day-66-cafe-api-start/main.py:16-17 | a row stored under the next id, whose name no row has, keeps ids and names unique and adds one row |
| `Tables.ReplaceKeepsValid` | day-66-cafe-api-start/main.py:97 | changing a row without touching its id or name keeps the table valid and its size |
| `Tables.RemoveKeepsValid` | day-66-cafe-api-start/main.py:117 | removing a row keeps the table valid and removes exactly one row |
| `Handlers.NewCafe` | day-66-cafe-api-start/main.py:70-82 | the `Cafe(...)` built from the form has the given id, and its representation shows name, map_url, img_url, location, seats and coffee_price as the submitted text |
| `Handlers.Authorized` | day-66-cafe-api-start/main.py:114 | only the exact text `TopSecretAPIKey` is accepted; an absent key is refused |
| `Handlers.NewCafeFromForm` | day-66-cafe-api-start/main.py:70-81 | the row built by `add` stores name, map_url, img_url, location, seats and coffee_price verbatim; each of has_toilet, has_wifi, has_sockets and can_take_calls is true exactly when its text is a case spelling of "yes" |
| `Handlers.Rows` | day-66-cafe-api-start/main.py:49 | `{cafe.id: cafe.to_dictionary()}` has exactly the table's ids as keys, and each reads back as that id's row |
| `Handlers.All` | day-66-cafe-api-start/main.py:46-50 | `all` returns 200 with `all_cafes`; its keys are exactly the ids in the table, and each entry carries that row's full field set |
| `Handlers.Search` | day-66-cafe-api-start/main.py:53-64 | `search` returns the not-found error ("No cafe at that location.") exactly when no row's location equals `loc`, in particular when `loc` is absent; otherwise `cafes_found` holds exactly the matching rows by id; the status is 200 either way |
| `Handlers.RandomOne` | day-66-cafe-api-start/main.py:37-43 | on a table with a row, `random_one` returns 200 and a `cafe` that reads back as a row present in the table; on an empty table the choice raises (500) |
| `Handlers.SearchWithinAll` | day-66-cafe-api-start/main.py:48-63 | every row `search` finds is listed by `all` under the same id with the same representation |
| `Handlers.AddedCafeListed` | day-66-cafe-api-start/main.py:70-84 | after a new row is stored, `all` lists it under its fresh id with the submitted fields, and still lists every earlier row unchanged |
| `Handlers.RemovedCafeNotListed` | day-66-cafe-api-start/main.py:115-118 | after a row is deleted, `all` no longer lists its id and lists every other row unchanged |
| `Store.CafeStore.Add` | day-66-cafe-api-start/main.py:67-89 | a missing form field gives 400 and no change; a taken name gives 500 and no change; otherwise exactly one row is added under a fresh id, nothing else changes, and the response is only "New cafe added successfully." with 200 (never the id) |
| `Store.CafeStore.Patch` | day-66-cafe-api-start/main.py:92-109 | on a known id only that row's `coffee_price` becomes `new_price` (null when absent), every other field and row is unchanged, and the status is 200; on an unknown id it gives 404 "No cafe with that ID found." and the table is unchanged |
| `Store.CafeStore.Delete` | day-66-cafe-api-start/main.py:112-133 | a key other than "TopSecretAPIKey", or no key, gives the same 403 and no change, whatever the id; with the key, a known id loses exactly its row and the response is 200, and an unknown id gives 404 and no change |

## Left out

- Flask routing, `request` decoding, `jsonify` serialization and the `/` page rendered by `render_template` are transport and UI. Responses are the abstract `Response` datatype. The model keeps the integer keys that JSON would turn into strings.
- The bodies of the framework's error pages for a 400 or a 500 are not modelled. `Aborted` names only the cause.
- The SQLAlchemy and sqlite configuration, and the session's add, commit and delete mechanics, are a persistence layer outside the core. Each handler updates the in-memory table in one step.
- The session's state after a failed commit is not modelled. The model assumes that every request starts with a clean session.
- `cafe_id` is taken as an already decoded integer. How the database compares a non-numeric path segment with the integer key is not modelled.
- `if request.method == "POST"` in `add` is always true, because the route accepts only POST. It has no branch in the model.
- The statuses given for uncaught exceptions are those of a deployment without debug mode. Under the file's own entry point, `app.run(debug=True)`, Flask traps the `BadRequestKeyError` from a missing form key, so the debugger answers 500 where the model says 400. The table is unchanged in both cases.
- The declared `String(n)` lengths are not checked: SQLite does not enforce them, so strings of any length are stored, as they are in the model.
- `app.run` and concurrent dispatch of requests are process startup and concurrency.
- SQLite's fallback to a random unused id once the largest id reaches 2^63 − 1 is left out, because the model's integers are unbounded.
- RandomOne: says only that some row of the table is returned. It does not say that every row can be chosen, or with what probability, because the distribution of `random.choice` is not modelled.
- Lower: lowers only the ASCII capitals, while Python's `str.lower` also lowers other letters. No other letter lowers to `y`, `e` or `s`, so `IsYes` agrees with the source's comparison.
