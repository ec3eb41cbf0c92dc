/** The product records, the request bodies and outcomes of the product
    routes, and the pure facts about the ordered collection they act on:
    first-match lookup (`find`, `findIndex`), removal (`splice`), the
    validation rules, and the id invariants. */
module Catalog {
  import opened Js

  /** One product record `{id, name, price}`. `name` holds whatever truthy
      value a full create or replace accepted, not only strings. */
  datatype Product = Product(id: int, name: Js.Value, price: real)

  /** The two fields the handlers destructure from `req.body`. */
  datatype Body = Body(name: Js.Value, price: Js.Value)

  /** Why a request body was refused (each maps to one 400 message). */
  datatype Reason =
    | NameAndPriceRequired    // name falsy or price missing (create, replace)
    | PriceNotPositive        // price not a number or not above zero
    | NameNotNonEmptyString   // partial update: name not a non-blank string

  datatype Option<+T> = None | Some(value: T)

  /** The outcome of a route: the payload, a 404, or a 400 with its reason. */
  datatype Outcome<+T> = Ok(value: T) | NotFound | Invalid(reason: Reason)

  /** The collection as the process starts: three well-formed records
      with the distinct ids 1, 2 and 3. */
  function Seed(): (ps: seq<Product>)
    ensures |ps| == 3 && forall k :: 0 <= k < 3 ==> ps[k].id == k + 1
    ensures AllWellFormed(ps) && IdsUnique(ps)
  {
    [ Product(1, Str("Ноутбук"), 75000.0),
      Product(2, Str("Смартфон"), 45000.0),
      Product(3, Str("Наушники"), 5000.0) ]
  }

  ghost predicate HasId(ps: seq<Product>, id: int) {
    exists k :: 0 <= k < |ps| && ps[k].id == id
  }

  /** The collection's intended invariant: no id occurs twice. */
  ghost predicate IdsUnique(ps: seq<Product>) {
    forall j, k :: 0 <= j < k < |ps| ==> ps[j].id != ps[k].id
  }

  /** Every record has a truthy name and a price above zero. */
  ghost predicate WellFormed(p: Product) {
    Truthy(p.name) && p.price > 0.0
  }

  ghost predicate AllWellFormed(ps: seq<Product>) {
    forall k :: 0 <= k < |ps| ==> WellFormed(ps[k])
  }

  /** `products.findIndex(p => p.id === id)`: the first index holding `id`,
      or -1 when no record has it. */
  function FindIndex(ps: seq<Product>, id: int): (i: int)
    ensures -1 <= i < |ps|
    ensures i == -1 <==> !HasId(ps, id)
    ensures i >= 0 ==> ps[i].id == id && forall k :: 0 <= k < i ==> ps[k].id != id
  {
    if ps == [] then -1
    else if ps[0].id == id then 0
    else
      var j := FindIndex(ps[1..], id);
      if j == -1 then -1 else j + 1
  }

  /** `products.find(p => p.id === id)` followed by the 404 check. */
  function Lookup(ps: seq<Product>, id: int): (r: Outcome<Product>)
    ensures r.NotFound? <==> !HasId(ps, id)
    ensures r.Ok? <==> HasId(ps, id)
    ensures r.Ok? ==> r.value.id == id && r.value in ps
    ensures r.Ok? ==> exists i :: 0 <= i < |ps| && r.value == ps[i] && forall k :: 0 <= k < i ==> ps[k].id != id
  {
    var i := FindIndex(ps, id);
    if i == -1 then NotFound else Ok(ps[i])
  }

  /** With unique ids, the record a lookup finds is the one at any index holding that id. */
  lemma LookupUnique(ps: seq<Product>, k: int)
    requires IdsUnique(ps) && 0 <= k < |ps|
    ensures FindIndex(ps, ps[k].id) == k
    ensures Lookup(ps, ps[k].id) == Ok(ps[k])
  {
  }

  /** `products.splice(i, 1)`: drops position `i` and shifts the rest down. */
  function RemoveAt(ps: seq<Product>, i: int): (r: seq<Product>)
    requires 0 <= i < |ps|
    ensures |r| == |ps| - 1
    ensures forall k :: 0 <= k < i ==> r[k] == ps[k]
    ensures forall k :: i <= k < |r| ==> r[k] == ps[k + 1]
    ensures multiset(r) + multiset{ps[i]} == multiset(ps)
  {
    assert ps == ps[..i] + [ps[i]] + ps[i + 1..];
    ps[..i] + ps[i + 1..]
  }

  /** `typeof v === 'number' && v > 0`. Such a value is also present and
      truthy, so it passes the presence check that create runs first. */
  predicate IsPositiveNumber(v: Js.Value)
    ensures IsPositiveNumber(v) ==> !v.Absent? && Truthy(v)
  {
    v.Num? && v.x > 0.0
  }

  /** `typeof v === 'string' && v.trim() !== ''`: a string with a
      character that is not white space. Such a value is truthy, so it
      would also pass the name check of create and replace. */
  predicate IsNonBlankString(v: Js.Value)
    ensures IsNonBlankString(v) <==> v.Str? && exists k :: 0 <= k < |v.s| && !IsWhiteSpace(v.s[k])
    ensures IsNonBlankString(v) ==> Truthy(v)
  {
    v.Str? && Trim(v.s) != []
  }

  /** A partial update refuses the name it was given. */
  predicate NameRefused(body: Body) {
    !body.name.Absent? && !IsNonBlankString(body.name)
  }

  /** The names a partial update refuses: a present name that is not a
      string (null, a boolean, a number, an array, an object), or a string
      made only of white space. */
  lemma NameRefusedCases(body: Body)
    ensures NameRefused(body) <==>
              !body.name.Absent? &&
              (!body.name.Str? || forall k :: 0 <= k < |body.name.s| ==> IsWhiteSpace(body.name.s[k]))
  {
  }

  /** A partial update refuses the price it was given: a present price
      that is not a number (null, a boolean, a string even when numeric,
      an array, an object), or a number not above zero. */
  predicate PriceRefused(body: Body)
    ensures PriceRefused(body) <==>
              !body.price.Absent? && (!body.price.Num? || body.price.x <= 0.0)
  {
    !body.price.Absent? && !IsPositiveNumber(body.price)
  }

  /** A partial update of the record `p`: a present name is checked and
      written, and only then a present price is checked and written. The
      result is the record as the handler leaves it and its answer. */
  function PatchRecord(p: Product, body: Body): (r: (Product, Outcome<Product>))
    ensures r.0.id == p.id
    ensures body.name.Absent? || NameRefused(body) ==> r.0.name == p.name
    ensures !NameRefused(body) && !body.name.Absent? ==> r.0.name == body.name
    ensures body.price.Absent? || NameRefused(body) || PriceRefused(body) ==> r.0.price == p.price
    ensures !NameRefused(body) && !PriceRefused(body) && !body.price.Absent? ==> r.0.price == body.price.x
    ensures NameRefused(body) ==> r.1 == Invalid(NameNotNonEmptyString)
    ensures !NameRefused(body) && PriceRefused(body) ==> r.1 == Invalid(PriceNotPositive)
    ensures !NameRefused(body) && !PriceRefused(body) ==> r.1 == Ok(r.0)
    ensures WellFormed(p) ==> WellFormed(r.0)
  {
    if NameRefused(body) then (p, Invalid(NameNotNonEmptyString))
    else
      var named := Named(p, body);
      if PriceRefused(body) then (named, Invalid(PriceNotPositive))
      else
        var priced := Priced(named, body);
        (priced, Ok(priced))
  }

  /** `p` with the body's name written, when one is present. */
  function Named(p: Product, body: Body): Product {
    if body.name.Absent? then p else p.(name := body.name)
  }

  /** `p` with the body's price written, when it is a number. */
  function Priced(p: Product, body: Body): Product {
    if body.price.Num? then p.(price := body.price.x) else p
  }

  /** The checks shared by create and full replace: first that `name` is
      truthy and `price` is present, then that `price` is a positive number.
      `None` means the body is accepted. */
  function ValidateFull(body: Body): (r: Option<Reason>)
    ensures r == None <==> Truthy(body.name) && IsPositiveNumber(body.price)
    ensures r == Some(NameAndPriceRequired) <==> !Truthy(body.name) || body.price.Absent?
    ensures r == Some(PriceNotPositive) <==>
              Truthy(body.name) && !body.price.Absent? && !IsPositiveNumber(body.price)
  {
    if !Truthy(body.name) || body.price.Absent? then Some(NameAndPriceRequired)
    else if !IsPositiveNumber(body.price) then Some(PriceNotPositive)
    else None
  }

  /** The record a full create or replace builds from an accepted body. */
  function Build(id: int, body: Body): (p: Product)
    requires ValidateFull(body) == None
    ensures p.id == id && p.name == body.name && p.price == body.price.x
    ensures WellFormed(p)
  {
    Product(id, body.name, body.price.x)
  }

  /** The rules differ: create and replace take a whitespace-only name and a
      truthy non-string name, both of which a partial update refuses. */
  lemma NameRulesDiffer()
    ensures Truthy(Str(" ")) && !IsNonBlankString(Str(" "))
    ensures Truthy(Obj([])) && !IsNonBlankString(Obj([]))
    ensures Truthy(Num(1.0)) && !IsNonBlankString(Num(1.0))
  {
  }

  /** Appending a record keeps the ids unique exactly when its id is new. */
  lemma AppendUnique(ps: seq<Product>, p: Product)
    ensures IdsUnique(ps + [p]) <==> IdsUnique(ps) && !HasId(ps, p.id)
  {
    var qs := ps + [p];
    if IdsUnique(qs) {
      forall j, k | 0 <= j < k < |ps| ensures ps[j].id != ps[k].id {
        assert qs[j] == ps[j] && qs[k] == ps[k];
      }
      forall k | 0 <= k < |ps| ensures ps[k].id != p.id {
        assert qs[k] == ps[k] && qs[|ps|] == p;
      }
    }
  }

  /** After appending a record with a new id, looking that id up finds it. */
  lemma LookupAppended(ps: seq<Product>, p: Product)
    requires !HasId(ps, p.id)
    ensures Lookup(ps + [p], p.id) == Ok(p)
  {
    var qs := ps + [p];
    var i := FindIndex(qs, p.id);
    assert qs[|ps|].id == p.id;
  }

  /** Two collections hold the same ids at the same positions, as after
      a write that changes a record's name or price but not its id. */
  ghost predicate SameIds(ps: seq<Product>, qs: seq<Product>) {
    |ps| == |qs| && forall k :: 0 <= k < |ps| ==> ps[k].id == qs[k].id
  }

  /** Collections with the same ids answer every id query alike. */
  lemma SameIdsAgree(ps: seq<Product>, qs: seq<Product>, id: int)
    requires SameIds(ps, qs)
    ensures FindIndex(ps, id) == FindIndex(qs, id)
    ensures HasId(ps, id) <==> HasId(qs, id)
    ensures IdsUnique(ps) <==> IdsUnique(qs)
  {
  }

  /** Removing a record keeps the ids unique, and with unique ids the
      removed id is gone while every other id is found as before. */
  lemma RemoveAtLookup(ps: seq<Product>, i: int)
    requires 0 <= i < |ps| && IdsUnique(ps)
    ensures IdsUnique(RemoveAt(ps, i))
    ensures Lookup(RemoveAt(ps, i), ps[i].id) == NotFound
    ensures forall id :: id != ps[i].id ==> Lookup(RemoveAt(ps, i), id) == Lookup(ps, id)
  {
    var qs := RemoveAt(ps, i);
    // position k of qs came from position Orig(k) of ps
    forall j, k | 0 <= j < k < |qs| ensures qs[j].id != qs[k].id {
      var oj, ok := if j < i then j else j + 1, if k < i then k else k + 1;
      assert qs[j] == ps[oj] && qs[k] == ps[ok] && oj < ok;
    }
    forall id | id != ps[i].id ensures Lookup(qs, id) == Lookup(ps, id) {
      if HasId(ps, id) {
        var k :| 0 <= k < |ps| && ps[k].id == id;
        LookupUnique(ps, k);
        var kq := if k < i then k else k - 1;
        assert qs[kq] == ps[k];
        LookupUnique(qs, kq);
      }
    }
  }
}
