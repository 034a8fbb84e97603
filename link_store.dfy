/** The link service the product-brand step calls into. Its implementation
    belongs to the host framework, so it is specified abstractly: the link
    table is a sequence of link records, and `create` takes fresh ids from a
    counter. A record names the product it hangs off and, when it is a brand
    link, the brand. */
module LinkStore {
  import opened Outcomes

  type LinkId = nat

  /** A stored link: `id` assigned by the store, the product side, and the brand side if any. */
  datatype Link = Link(id: LinkId, productId: string, brandId: Option<string>)

  /** What `create` is given: a link without an id. */
  datatype LinkDefinition = LinkDefinition(productId: string, brandId: Option<string>)

  datatype LinkTable = LinkTable(links: seq<Link>, nextId: nat)

  ghost predicate UniqueIds(ls: seq<Link>) {
    forall i, j :: 0 <= i < j < |ls| ==> ls[i].id != ls[j].id
  }

  /** The store's own invariant: ids are distinct and all below the counter. */
  ghost predicate ValidTable(t: LinkTable) {
    && UniqueIds(t.links)
    && forall i :: 0 <= i < |t.links| ==> t.links[i].id < t.nextId
  }

  /** `list`: the links whose product side is `productId`, in table order. */
  function ForProduct(ls: seq<Link>, productId: string): (r: seq<Link>)
    ensures forall l :: l in r <==> l in ls && l.productId == productId
    ensures |r| <= |ls|
  {
    if ls == [] then []
    else (if ls[0].productId == productId then [ls[0]] else []) + ForProduct(ls[1..], productId)
  }

  /** What `dismiss(ids)` leaves: every link whose id is not listed. */
  function WithoutIds(ls: seq<Link>, ids: seq<LinkId>): (r: seq<Link>)
    ensures forall l :: l in r <==> l in ls && l.id !in ids
    ensures |r| <= |ls|
  {
    if ls == [] then []
    else (if ls[0].id in ids then [] else [ls[0]]) + WithoutIds(ls[1..], ids)
  }

  /** The links `create(defs)` makes when the counter stands at `first`:
      one per definition, in order, with consecutive fresh ids. */
  function Mint(defs: seq<LinkDefinition>, first: nat): (r: seq<Link>)
    ensures |r| == |defs|
    ensures forall k :: 0 <= k < |r| ==> r[k] == Link(first + k, defs[k].productId, defs[k].brandId)
  {
    if defs == [] then [] else [Link(first, defs[0].productId, defs[0].brandId)] + Mint(defs[1..], first + 1)
  }

  /** A link with its id forgotten. */
  function Definitions(ls: seq<Link>): (r: seq<LinkDefinition>)
    ensures |r| == |ls|
  {
    if ls == [] then [] else [LinkDefinition(ls[0].productId, ls[0].brandId)] + Definitions(ls[1..])
  }

  /** The table after `dismiss(ids)`. */
  function Dismissed(t: LinkTable, ids: seq<LinkId>): (r: LinkTable)
    ensures r.nextId == t.nextId
    ensures forall l :: l in r.links <==> l in t.links && l.id !in ids
  {
    LinkTable(WithoutIds(t.links, ids), t.nextId)
  }

  /** The table after `create(defs)`: the old links first, then the new ones. */
  function Appended(t: LinkTable, defs: seq<LinkDefinition>): (r: LinkTable)
    ensures |r.links| == |t.links| + |defs| && r.links[..|t.links|] == t.links
    ensures forall k :: 0 <= k < |defs| ==>
      r.links[|t.links| + k] == Link(t.nextId + k, defs[k].productId, defs[k].brandId)
    ensures r.nextId == t.nextId + |defs|
  {
    LinkTable(t.links + Mint(defs, t.nextId), t.nextId + |defs|)
  }

  /** `create` round trip: the minted links carry exactly the requested definitions. */
  lemma {:induction false} MintDefinitions(defs: seq<LinkDefinition>, first: nat)
    ensures Definitions(Mint(defs, first)) == defs
  {
    if defs != [] {
      MintDefinitions(defs[1..], first + 1);
    }
  }

  lemma {:induction false} DefinitionsConcat(a: seq<Link>, b: seq<Link>)
    ensures Definitions(a + b) == Definitions(a) + Definitions(b)
  {
    if a == [] {
      assert a + b == b;
    } else {
      assert (a + b)[1..] == a[1..] + b;
      DefinitionsConcat(a[1..], b);
    }
  }

  /** Listing distributes over concatenation, keeping order. */
  lemma {:induction false} ForProductConcat(a: seq<Link>, b: seq<Link>, productId: string)
    ensures ForProduct(a + b, productId) == ForProduct(a, productId) + ForProduct(b, productId)
  {
    if a == [] {
      assert a + b == b;
    } else {
      assert (a + b)[1..] == a[1..] + b;
      ForProductConcat(a[1..], b, productId);
    }
  }

  /** Listing a table whose links all belong to the product returns the whole table. */
  lemma {:induction false} ForProductAll(ls: seq<Link>, productId: string)
    requires forall k :: 0 <= k < |ls| ==> ls[k].productId == productId
    ensures ForProduct(ls, productId) == ls
  {
    if ls != [] {
      ForProductAll(ls[1..], productId);
    }
  }

  /** Listing for one product and dismissing by id commute. */
  lemma {:induction false} ForProductWithoutIds(ls: seq<Link>, ids: seq<LinkId>, productId: string)
    ensures ForProduct(WithoutIds(ls, ids), productId) == WithoutIds(ForProduct(ls, productId), ids)
  {
    if ls != [] {
      ForProductWithoutIds(ls[1..], ids, productId);
      var head := if ls[0].id in ids then [] else [ls[0]];
      ForProductConcat(head, WithoutIds(ls[1..], ids), productId);
      var listed := if ls[0].productId == productId then [ls[0]] else [];
      WithoutIdsConcat(listed, ForProduct(ls[1..], productId), ids);
    }
  }

  lemma {:induction false} WithoutIdsConcat(a: seq<Link>, b: seq<Link>, ids: seq<LinkId>)
    ensures WithoutIds(a + b, ids) == WithoutIds(a, ids) + WithoutIds(b, ids)
  {
    if a == [] {
      assert a + b == b;
    } else {
      assert (a + b)[1..] == a[1..] + b;
      WithoutIdsConcat(a[1..], b, ids);
    }
  }

  /** Dismissing ids that no link carries changes nothing. */
  lemma {:induction false} WithoutAbsentIds(ls: seq<Link>, ids: seq<LinkId>)
    requires forall k :: 0 <= k < |ls| ==> ls[k].id !in ids
    ensures WithoutIds(ls, ids) == ls
  {
    if ls != [] {
      WithoutAbsentIds(ls[1..], ids);
    }
  }

  /** With distinct ids, a link is determined by its id. */
  lemma SameIdSameLink(ls: seq<Link>, x: Link, y: Link)
    requires UniqueIds(ls) && x in ls && y in ls && x.id == y.id
    ensures x == y
  {
    var i :| 0 <= i < |ls| && ls[i] == x;
    var j :| 0 <= j < |ls| && ls[j] == y;
  }

  lemma UniqueTail(ls: seq<Link>)
    requires UniqueIds(ls) && ls != []
    ensures UniqueIds(ls[1..])
    ensures forall l :: l in ls[1..] ==> l.id != ls[0].id
  {
    forall l | l in ls[1..] ensures l.id != ls[0].id {
      var m :| 0 <= m < |ls[1..]| && ls[1..][m] == l;
      assert ls[m + 1] == l;
    }
  }

  lemma UniqueCons(x: Link, r: seq<Link>)
    requires UniqueIds(r)
    requires forall l :: l in r ==> l.id != x.id
    ensures UniqueIds([x] + r)
  {
    var ls := [x] + r;
    forall i, j | 0 <= i < j < |ls| ensures ls[i].id != ls[j].id {
      assert ls[j] == r[j - 1];
      if i > 0 {
        assert ls[i] == r[i - 1];
      } else {
        assert r[j - 1] in r;
      }
    }
  }

  /** Dismissal keeps ids distinct. */
  lemma {:induction false} WithoutIdsUnique(ls: seq<Link>, ids: seq<LinkId>)
    requires UniqueIds(ls)
    ensures UniqueIds(WithoutIds(ls, ids))
  {
    if ls != [] {
      UniqueTail(ls);
      WithoutIdsUnique(ls[1..], ids);
      if ls[0].id !in ids {
        UniqueCons(ls[0], WithoutIds(ls[1..], ids));
      }
    }
  }

  lemma DismissedValid(t: LinkTable, ids: seq<LinkId>)
    requires ValidTable(t)
    ensures ValidTable(Dismissed(t, ids))
  {
    var r := WithoutIds(t.links, ids);
    forall k | 0 <= k < |r| ensures r[k].id < t.nextId {
      assert r[k] in r;
      var i :| 0 <= i < |t.links| && t.links[i] == r[k];
    }
    WithoutIdsUnique(t.links, ids);
  }

  lemma AppendedValid(t: LinkTable, defs: seq<LinkDefinition>)
    requires ValidTable(t)
    ensures ValidTable(Appended(t, defs))
    ensures forall l :: l in Mint(defs, t.nextId) ==> l.id >= t.nextId
  {
    var m := Mint(defs, t.nextId);
    var ls := t.links + m;
    var n := |t.links|;
    forall k | 0 <= k < |ls| ensures ls[k].id < t.nextId + |defs| {
      if k >= n {
        assert ls[k] == m[k - n];
      }
    }
    forall i, j | 0 <= i < j < |ls| ensures ls[i].id != ls[j].id {
      if j >= n {
        assert ls[j] == m[j - n];
        if i >= n {
          assert ls[i] == m[i - n];
        }
      }
    }
  }

  class LinkService {
    var links: seq<Link>
    var nextId: nat

    function Table(): LinkTable
      reads this
    {
      LinkTable(links, nextId)
    }

    ghost predicate Valid()
      reads this
    {
      ValidTable(Table())
    }

    constructor ()
      ensures Valid() && Table() == LinkTable([], 0)
    {
      links, nextId := [], 0;
    }

    /** `link.list`: the links of one product. */
    method List(productId: string) returns (r: seq<Link>)
      ensures forall l :: l in r <==> l in links && l.productId == productId
      ensures r == ForProduct(links, productId)
    {
      r := ForProduct(links, productId);
    }

    /** `link.dismiss`: removes the links with the given ids. */
    method Dismiss(ids: seq<LinkId>)
      requires Valid()
      modifies this
      ensures Valid()
      ensures Table() == Dismissed(old(Table()), ids)
    {
      DismissedValid(Table(), ids);
      links := WithoutIds(links, ids);
    }

    /** `link.create`: stores one new link per definition and returns them. */
    method Create(defs: seq<LinkDefinition>) returns (created: seq<Link>)
      requires Valid()
      modifies this
      ensures Valid()
      ensures created == Mint(defs, old(nextId)) && Definitions(created) == defs
      ensures Table() == Appended(old(Table()), defs)
    {
      AppendedValid(Table(), defs);
      MintDefinitions(defs, nextId);
      created := Mint(defs, nextId);
      links, nextId := links + created, nextId + |defs|;
    }
  }
}
