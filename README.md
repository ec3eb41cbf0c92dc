# Product store of the CRUD products service

This project models the in-memory product catalogue of a small Express service (`app.js`). The service keeps a module-level array `products` of `{id, name, price}` records, seeded with three records. Six routes act on it:

- `GET /products` lists the array.
- `GET /products/:id` finds a record by id.
- `POST /products` validates and appends a record.
- `PUT /products/:id` validates and overwrites a record in place.
- `PATCH /products/:id` validates and writes the fields that are present.
- `DELETE /products/:id` splices a record out.

Files:

- `js.dfy` (module `Js`): the JSON values a request body can carry. Absent stands for `undefined`; the other values are null, booleans, numbers, strings, arrays with their items and objects with their members. The module also defines JavaScript truthiness and `String.prototype.trim`.
- `catalog.dfy` (module `Catalog`): records, bodies and outcomes. It also holds the pure operations on the ordered collection, which are first-match `findIndex`/`find`, `splice` and the validation rules, with lemmas about ids.
- `store.dfy` (module `Store`): the class `ProductStore`. Its field `products: seq<Product>` is reassigned by one method per route handler. The module ends with client methods that run scenarios on the seed collection against the method contracts.

Each handler becomes an `Outcome`: `Ok(payload)`, `NotFound` (the 404) or `Invalid(reason)` (the 400). There is one reason per distinct error message.

Three behaviours of the handlers are easy to misread:

- Create and replace test the name only with `!name`. A whitespace-only string or a truthy non-string (a number, `true`, an array, an object) is accepted and stored as given. `Product.name` is therefore a `Js.Value`, and only the partial update insists on a non-blank string.
- A partial update is not atomic. It writes a valid `name` before it checks `price`, so a 400 for the price can leave the new name in the record. `Patch` and the client `PatchIsNotAtomic` state this.
- Create takes its id from `Date.now()` and does not check it against the collection. The id is a parameter of `Create`, and `Create` ensures that ids stay unique exactly when that id was new. Lemmas that need unique ids take uniqueness as a hypothesis.

## Model

| member | source | states |
|---|---|---|
| `Js.Truthy` | app.js:31 | `!name` is true exactly for `undefined`, `null`, `false`, `0` and the empty string; every array, object, non-empty string and non-zero number is truthy |
| `Js.TrimStart` | app.js:94 | the result is the longest suffix of the input that does not start with ECMAScript white space, and everything dropped is white space |
| `Js.TrimEnd` | app.js:94 | the result is the longest prefix that does not end with white space, and everything dropped is white space |
| `Js.Trim` | app.js:94 | `s.trim()` neither starts nor ends with white space, and it is empty exactly when every character of `s` is white space |
| `Catalog.Seed` | app.js:7-11 | the collection starts with three records whose ids are 1, 2 and 3; they are well formed and their ids are distinct |
| `Catalog.FindIndex` | app.js:56 | `findIndex`: the result is -1 exactly when no record has the id; otherwise it is the first index whose record has the id |
| `Catalog.Lookup` | app.js:19-23 | `find` plus the 404 check: NotFound exactly when no record has the id; otherwise a record of the collection with that id, and no earlier record has it |
| `Catalog.LookupUnique` | app.js:19 | with unique ids, a lookup of the id at position k finds position k |
| `Catalog.RemoveAt` | app.js:118 | `splice(i, 1)`: one shorter, records before i unchanged, records after i shifted down by one in the same order, and exactly the record at i removed (as multisets) |
| `Catalog.IsPositiveNumber` | app.js:37 | a price that passes `typeof price === 'number' && price > 0` is present and truthy, so it also passes the presence check before it |
| `Catalog.IsNonBlankString` | app.js:94 | a name passes the partial update's check exactly when it is a string with a character that is not white space; such a name is truthy, so create and replace would accept it too |
| `Catalog.NameRefusedCases` | app.js:93-96 | a partial update refuses a name exactly when it is present and either not a string or made only of white space |
| `Catalog.PriceRefused` | app.js:100-101 | a partial update refuses a price exactly when it is present and either not a number (a numeric string included) or not above zero |
| `Catalog.PatchRecord` | app.js:93-105 | the id is never changed; an absent or refused name leaves the name as it was, and otherwise the name is written; the price is written only if the name was not refused and the price is present and accepted; a refused name answers the name error; an accepted name with a refused price answers the price error but keeps the new name; otherwise the answer is the updated record; a well-formed record stays well formed |
| `Catalog.ValidateFull` | app.js:31-41 | create's checks in order: refused as "name and price required" exactly when the name is falsy or the price is missing; otherwise refused as "price must be positive" exactly when the price is not a number above zero; accepted exactly when the name is truthy and the price is a positive number |
| `Catalog.Build` | app.js:43-47 | the record built from an accepted body carries the given id, name and price and is well formed |
| `Catalog.NameRulesDiffer` | app.js:31 | create and replace accept a whitespace-only name, an object name and a number name, and the partial update refuses all three |
| `Catalog.AppendUnique` | app.js:44-49 | appending a record keeps ids unique exactly when the collection had unique ids and the new id was not present |
| `Catalog.LookupAppended` | app.js:49 | after appending a record whose id is new, a lookup of that id returns that record |
| `Catalog.SameIdsAgree` | app.js:74-78 | two collections with the same ids at the same positions give the same `findIndex` answer, contain the same ids, and are both unique or both not |
| `Catalog.RemoveAtLookup` | app.js:112-118 | with unique ids, splicing out position i keeps ids unique, the removed id is no longer found, and every other id is found exactly as before |
| `Store.ProductStore.constructor` | app.js:7-11 | the store starts with the three seed records, which satisfy the store invariant and have unique ids |
| `Store.ProductStore.List` | app.js:13-15 | returns the whole collection in order |
| `Store.ProductStore.Get` | app.js:17-26 | returns the lookup outcome: NotFound exactly when no record has the id, otherwise a record of the collection with that id; the collection cannot change (no modifies clause) |
| `Store.ProductStore.Create` | app.js:28-51 | a refused body leaves the collection unchanged and returns the first failed check's reason; an accepted body appends exactly `{freshId, name, price}` at the end; ids stay unique exactly when freshId was new, and then a lookup of freshId finds the new record; every record stays well formed |
| `Store.ProductStore.Replace` | app.js:53-81 | an unknown id is NotFound whatever the body and changes nothing; a refused body changes nothing; an accepted body overwrites only the found position with a record with the same id; ids stay in place; afterwards a lookup of the id returns the new record |
| `Store.ProductStore.Patch` | app.js:84-108 | an unknown id is NotFound and changes nothing; otherwise only the found position changes, to the record `PatchRecord` gives, and the answer is `PatchRecord`'s; ids stay at their positions; after a success a lookup of the id returns the updated record |
| `Store.ProductStore.PatchAt` | app.js:93-107 | on the found position, the checks and writes leave exactly `PatchRecord`'s record there and return its answer; the store invariant is kept |
| `Store.ProductStore.PatchName` | app.js:93-98 | the name step: it refuses exactly the names the partial update refuses and then changes nothing; otherwise it writes a present name into the record at one position and changes nothing else; ids and the store invariant are kept |
| `Store.ProductStore.PatchPrice` | app.js:100-105 | the price step: it refuses exactly the prices the partial update refuses and then changes nothing; otherwise it writes a present price into the record at one position and changes nothing else; ids and the store invariant are kept |
| `Store.ProductStore.Delete` | app.js:110-120 | an unknown id is NotFound and changes nothing; otherwise the first record with the id is spliced out; with unique ids the id is no longer found, ids stay unique, and every other id is found as before |
| `Store.DeleteThenGet` | app.js:110-120 | on the seed, deleting id 2 is confirmed and a later get of id 2 is NotFound |
| `Store.CreateScenarios` | app.js:28-51 | on the seed, creating a name with price 12000 returns the new record with the given fields, and a create with price -5 is refused for the price |
| `Store.PatchPriceOnly` | app.js:100-107 | patching only the price of record 1 keeps its name and sets the new price |
| `Store.PatchIsNotAtomic` | app.js:93-105 | a patch with a valid name and price 0 returns the price error, yet a later get shows the new name with the old price |
| `Store.ReplaceUnknownFirst` | app.js:56-66 | a full replace of an unknown id with an empty body is NotFound, not a validation error |

## Left out

- The Express wiring is not modelled. This covers the application object, the JSON body parser, `listen` and the start-up log line. It is framework and I/O plumbing.
- The HTML help page at `/` and the catch-all 404 route are not modelled. They are fixed responses with no logic.
- HTTP status codes and message strings are not modelled. Each outcome maps to one status (`Ok` to 200 or 201, `NotFound` to 404, `Invalid` to 400), and each `Reason` names one message.
- `Date.now()` is not modelled as a clock. The new id is a parameter of `Create`, so the model cannot say whether two creates collide.
- `parseInt` on the path is not modelled; the id is an `int`. A non-numeric path gives NaN, which matches no record, so it is the NotFound case.
- Prices are reals, not IEEE doubles. Only "is a number" and "greater than zero" matter. JSON parsing never produces NaN.
- An overflowing number literal such as `1e400` parses to `Infinity` or `-Infinity`. A real of the same sign stands for it. `typeof`, `> 0` and truthiness treat it exactly as they treat that real, so `Infinity` passes the price checks and is stored.
- Strings are sequences of Unicode scalar values, not UTF-16 code units. `trim` uses the ECMAScript white-space and line-terminator set.
- A body is modelled by its `name` and `price` fields only. Other keys are ignored by the handlers. The model covers bodies that are JSON objects, and arrays, which leave both fields absent.
- A body that is a JSON primitive is refused by the JSON middleware before any handler runs. A request without a JSON body makes `req.body` undefined under Express 5, so the destructuring throws a 500 before the 404 check in PUT and PATCH. Neither case is modelled.
- The partial update writes fields of the record object found by `find`. The model replaces the value at that record's index instead. No other reference to the record outlives the request, so no reader can see a difference.
- Concurrency is not modelled. Handlers run to completion one at a time.
