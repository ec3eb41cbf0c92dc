/** The module-level `products` array and the six `/products` route
    handlers that read and change it, one method per handler. */
module Store {
  import opened Js
  import opened Catalog

  class ProductStore {
    /** The collection, in insertion order. */
    var products: seq<Product>

    /** Every record has a truthy name and a positive price; each write
        validates what it stores, so this holds after every request. */
    ghost predicate Valid()
      reads this
    {
      AllWellFormed(products)
    }

    /** The collection a fresh process starts with. */
    constructor ()
      ensures Valid() && products == Seed()
      ensures IdsUnique(products)
    {
      products := Seed();
    }

    /** GET /products: the whole collection, in order. */
    method List() returns (r: seq<Product>)
      ensures r == products
    {
      r := products;
    }

    /** GET /products/:id: the first record with that id, or a 404 when
        there is none. The collection is not changed. */
    method Get(id: int) returns (r: Outcome<Product>)
      ensures r == Lookup(products, id)
      ensures r.NotFound? <==> !HasId(products, id)
      ensures r.Ok? ==> r.value.id == id && r.value in products
    {
      var i := FindIndex(products, id);
      if i == -1 {
        return NotFound;
      }
      r := Ok(products[i]);
    }

    /** POST /products with `freshId` standing for `Date.now()`. A falsy name
        or a missing price is refused first; then a price that is not a
        positive number. An accepted record is appended at the end. Nothing
        checks that `freshId` is new: the ids stay unique only if it is. */
    method Create(body: Body, freshId: int) returns (r: Outcome<Product>)
      requires Valid()
      modifies this
      ensures Valid()
      ensures ValidateFull(body).Some? ==>
                r == Invalid(ValidateFull(body).value) && products == old(products)
      ensures ValidateFull(body).None? ==>
                r == Ok(Build(freshId, body)) && products == old(products) + [r.value]
      ensures r.Ok? ==> (IdsUnique(products) <==> IdsUnique(old(products)) && !HasId(old(products), freshId))
      ensures r.Ok? && !HasId(old(products), freshId) ==> Lookup(products, freshId) == r
    {
      if !Truthy(body.name) || body.price.Absent? {
        return Invalid(NameAndPriceRequired);
      }
      if !(body.price.Num? && body.price.x > 0.0) {
        return Invalid(PriceNotPositive);
      }
      var p := Product(freshId, body.name, body.price.x);
      AppendUnique(products, p);
      if !HasId(products, freshId) {
        LookupAppended(products, p);
      }
      products := products + [p];
      r := Ok(p);
    }

    /** PUT /products/:id. An unknown id is a 404 whatever the body; then the
        body is checked as for a create; an accepted body overwrites the
        record at the found position with the same id. */
    method Replace(id: int, body: Body) returns (r: Outcome<Product>)
      requires Valid()
      modifies this
      ensures Valid()
      ensures SameIds(old(products), products)
      ensures !HasId(old(products), id) ==> r == NotFound && products == old(products)
      ensures HasId(old(products), id) && ValidateFull(body).Some? ==>
                r == Invalid(ValidateFull(body).value) && products == old(products)
      ensures HasId(old(products), id) && ValidateFull(body).None? ==>
                r == Ok(Build(id, body)) &&
                products == old(products)[FindIndex(old(products), id) := r.value]
      ensures r.Ok? ==> Lookup(products, id) == r
    {
      var i := FindIndex(products, id);
      if i == -1 {
        return NotFound;
      }
      if !Truthy(body.name) || body.price.Absent? {
        return Invalid(NameAndPriceRequired);
      }
      if !(body.price.Num? && body.price.x > 0.0) {
        return Invalid(PriceNotPositive);
      }
      ghost var before := products;
      products := products[i := Product(id, body.name, body.price.x)];
      SameIdsAgree(before, products, id);
      r := Ok(products[i]);
    }

    /** PATCH /products/:id. An unknown id is a 404; otherwise the found
        record is updated field by field as `PatchRecord` describes, and
        nothing else changes. */
    method Patch(id: int, body: Body) returns (r: Outcome<Product>)
      requires Valid()
      modifies this
      ensures Valid()
      ensures SameIds(old(products), products)
      ensures !HasId(old(products), id) ==> r == NotFound && products == old(products)
      ensures HasId(old(products), id) ==>
                var i := FindIndex(old(products), id);
                products == old(products)[i := PatchRecord(old(products)[i], body).0] &&
                r == PatchRecord(old(products)[i], body).1
      ensures r.Ok? ==> Lookup(products, id) == r
    {
      var i := FindIndex(products, id);
      if i == -1 {
        return NotFound;
      }
      ghost var before := products;
      r := PatchAt(i, body);
      assert SameIds(before, products) by {
        assert products == before[i := products[i]] && products[i].id == before[i].id;
      }
      SameIdsAgree(before, products, id);
    }

    /** The checks and writes of a partial update on the record at position
        `i`: a present name is checked and written before a present price
        is checked and written. */
    method PatchAt(i: int, body: Body) returns (r: Outcome<Product>)
      requires Valid() && 0 <= i < |products|
      modifies this
      ensures Valid()
      ensures products == old(products)[i := PatchRecord(old(products)[i], body).0]
      ensures r == PatchRecord(old(products)[i], body).1
    {
      var refused := PatchName(i, body);
      if refused {
        return Invalid(NameNotNonEmptyString);
      }
      refused := PatchPrice(i, body);
      if refused {
        return Invalid(PriceNotPositive);
      }
      r := Ok(products[i]);
    }

    /** The name step of a partial update: a present name that is not a
        non-blank string is refused; otherwise it is written to the record
        at position `i`. An absent name changes nothing. */
    method PatchName(i: int, body: Body) returns (refused: bool)
      requires Valid() && 0 <= i < |products|
      modifies this
      ensures Valid() && SameIds(old(products), products)
      ensures refused == NameRefused(body)
      ensures refused ==> products == old(products)
      ensures !refused ==> products == old(products)[i := Named(old(products)[i], body)]
    {
      refused := false;
      if !body.name.Absent? {
        if !IsNonBlankString(body.name) {
          return true;
        }
        products := products[i := products[i].(name := body.name)];
      }
    }

    /** The price step of a partial update: a present price that is not a
        positive number is refused; otherwise it is written to the record at
        position `i`. An absent price changes nothing. */
    method PatchPrice(i: int, body: Body) returns (refused: bool)
      requires Valid() && 0 <= i < |products|
      modifies this
      ensures Valid() && SameIds(old(products), products)
      ensures refused == PriceRefused(body)
      ensures refused ==> products == old(products)
      ensures !refused ==> products == old(products)[i := Priced(old(products)[i], body)]
    {
      refused := false;
      if !body.price.Absent? {
        if !IsPositiveNumber(body.price) {
          return true;
        }
        products := products[i := products[i].(price := body.price.x)];
      }
    }

    /** DELETE /products/:id. An unknown id is a 404; otherwise the first
        record with that id is spliced out and the rest keep their order. */
    method Delete(id: int) returns (r: Outcome<()>)
      requires Valid()
      modifies this
      ensures Valid()
      ensures !HasId(old(products), id) ==> r == NotFound && products == old(products)
      ensures HasId(old(products), id) ==>
                r == Ok(()) && products == RemoveAt(old(products), FindIndex(old(products), id))
      ensures IdsUnique(old(products)) ==> IdsUnique(products) && Lookup(products, id) == NotFound
      ensures IdsUnique(old(products)) ==>
                forall other :: other != id ==> Lookup(products, other) == Lookup(old(products), other)
    {
      var i := FindIndex(products, id);
      if i == -1 {
        return NotFound;
      }
      if IdsUnique(products) {
        RemoveAtLookup(products, i);
      }
      products := RemoveAt(products, i);
      r := Ok(());
    }
  }

  /** DELETE /products/2 on the seed answers with a confirmation, and a
      following GET /products/2 with a 404. */
  method DeleteThenGet() returns (deleted: Outcome<()>, got: Outcome<Product>)
    ensures deleted == Ok(()) && got == NotFound
  {
    var s := new ProductStore();
    assert s.products[1].id == 2;
    deleted := s.Delete(2);
    got := s.Get(2);
  }

  /** POST with a name and a positive price creates a record with the given
      fields; POST with a negative price is refused for the price. */
  method CreateScenarios(freshId: int) returns (created: Outcome<Product>, refused: Outcome<Product>)
    ensures created == Ok(Product(freshId, Str("Монитор"), 12000.0))
    ensures refused == Invalid(PriceNotPositive)
  {
    var s := new ProductStore();
    created := s.Create(Body(Str("Монитор"), Num(12000.0)), freshId);
    refused := s.Create(Body(Str("X"), Num(-5.0)), freshId + 1);
  }

  /** PATCH /products/1 with only a price keeps the name and sets the price. */
  method PatchPriceOnly() returns (r: Outcome<Product>)
    ensures r == Ok(Product(1, Str("Ноутбук"), 80000.0))
  {
    var s := new ProductStore();
    assert s.products[0].id == 1;
    r := s.Patch(1, Body(Absent, Num(80000.0)));
  }

  /** A partial update whose name is accepted and whose price is refused
      answers 400 and still leaves the new name in the record. */
  method PatchIsNotAtomic() returns (r: Outcome<Product>, after: Outcome<Product>)
    ensures r == Invalid(PriceNotPositive)
    ensures after == Ok(Product(1, Str("Планшет"), 75000.0))
  {
    var s := new ProductStore();
    var body := Body(Str("Планшет"), Num(0.0));
    assert !NameRefused(body) by {
      assert !IsWhiteSpace("Планшет"[0]);
    }
    assert PriceRefused(body);
    assert FindIndex(s.products, 1) == 0;
    r := s.Patch(1, body);
    assert s.products[0] == Product(1, Str("Планшет"), 75000.0);
    assert FindIndex(s.products, 1) == 0;
    after := s.Get(1);
  }

  /** An unknown id is a 404 on a full replace even when the body is invalid. */
  method ReplaceUnknownFirst() returns (r: Outcome<Product>)
    ensures r == NotFound
  {
    var s := new ProductStore();
    r := s.Replace(999, Body(Absent, Absent));
  }
}
