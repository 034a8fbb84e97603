/** The brand data service the workflow steps call into. Its implementation
    is generated by the host framework and lives outside this repository,
    so it is specified abstractly: the table of brands is a map from id to
    name, and each call is given by a function on that map. */
module BrandStore {
  import opened Outcomes

  datatype Brand = Brand(id: string, name: string)

  /** Brand id to brand name. */
  type BrandTable = map<string, string>

  /** `retrieveBrand(id)`: the record, or NotFound. */
  function Retrieve(t: BrandTable, id: string): (r: Result<Brand>)
    ensures r.Ok? <==> id in t
    ensures r.Ok? ==> r.value.id == id && r.value.name == t[id]
    ensures r.Err? ==> r.error == NotFound
  {
    if id in t then Ok(Brand(id, t[id])) else Err(NotFound)
  }

  /** `updateBrands({id, name})`: a full overwrite of the name of an existing brand. */
  function Update(t: BrandTable, b: Brand): (o: Outcome<BrandTable, Brand>)
    ensures o.result.Ok? <==> b.id in t
    ensures o.result.Err? ==> o.state == t && o.result.error == NotFound
    ensures o.result.Ok? ==> o.result.value == b && o.state.Keys == t.Keys && o.state[b.id] == b.name
    ensures forall k :: k in t && k != b.id ==> k in o.state && o.state[k] == t[k]
  {
    if b.id in t then Outcome(t[b.id := b.name], Ok(b)) else Outcome(t, Err(NotFound))
  }

  /** `deleteBrands(id)`: removes the record; an absent id is left alone. */
  function Delete(t: BrandTable, id: string): (r: BrandTable)
    ensures r.Keys == t.Keys - {id}
    ensures forall k :: k in r ==> r[k] == t[k]
  {
    t - {id}
  }

  /** `createBrands({id, name})`: inserts a record under a caller-chosen id that is not in use. */
  function Create(t: BrandTable, b: Brand): (o: Outcome<BrandTable, Brand>)
    ensures o.result.Ok? <==> b.id !in t
    ensures o.result.Err? ==> o.state == t && o.result.error == AlreadyExists
    ensures o.result.Ok? ==> o.result.value == b && o.state.Keys == t.Keys + {b.id} && o.state[b.id] == b.name
    ensures forall k :: k in t && k != b.id ==> k in o.state && o.state[k] == t[k]
  {
    if b.id in t then Outcome(t, Err(AlreadyExists)) else Outcome(t[b.id := b.name], Ok(b))
  }

  /** After a retrieve succeeds, an update of the same id cannot fail and
      writes exactly that one entry. */
  lemma RetrieveThenUpdate(t: BrandTable, id: string, name: string)
    requires Retrieve(t, id).Ok?
    ensures Update(t, Brand(id, name)) == Outcome(t[id := name], Ok(Brand(id, name)))
    ensures Retrieve(Update(t, Brand(id, name)).state, id) == Ok(Brand(id, name))
  {
  }

  /** An id a retrieve found is free again after a delete, so re-creating it succeeds. */
  lemma DeleteThenCreate(t: BrandTable, id: string)
    requires Retrieve(t, id).Ok?
    ensures Retrieve(Delete(t, id), id) == Err(NotFound)
    ensures Create(Delete(t, id), Retrieve(t, id).value) == Outcome(t, Ok(Brand(id, t[id])))
  {
    assert Delete(t, id)[id := t[id]] == t;
  }

  class BrandModuleService {
    var brands: BrandTable

    constructor (initial: BrandTable)
      ensures brands == initial
    {
      brands := initial;
    }

    method RetrieveBrand(id: string) returns (r: Result<Brand>)
      ensures r.Ok? <==> id in brands
      ensures r.Ok? ==> r.value == Brand(id, brands[id])
      ensures r.Err? ==> r.error == NotFound
    {
      r := Retrieve(brands, id);
    }

    method UpdateBrands(b: Brand) returns (r: Result<Brand>)
      modifies this
      ensures Outcome(brands, r) == Update(old(brands), b)
    {
      var o := Update(brands, b);
      brands, r := o.state, o.result;
    }

    method DeleteBrands(id: string)
      modifies this
      ensures brands == Delete(old(brands), id)
    {
      brands := Delete(brands, id);
    }

    method CreateBrands(b: Brand) returns (r: Result<Brand>)
      modifies this
      ensures Outcome(brands, r) == Create(old(brands), b)
    {
      var o := Create(brands, b);
      brands, r := o.state, o.result;
    }
  }
}
