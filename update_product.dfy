/** The update-product-brand workflow: one step whose forward action lists
    the product's links, dismisses those that carry a brand, and, when a
    brand id is given, checks that the brand exists and creates one new
    link; its compensation re-creates one link per dismissed link and leaves
    the new link in place. */
module UpdateProductBrand {
  import opened Outcomes
  import opened BrandStore
  import opened LinkStore

  datatype UpdateProductBrandStepInput = UpdateProductBrandStepInput(productId: string, brandId: Option<string>)
  /** `{success, link}`: `link` is the created link, or absent (null) when none was created. */
  datatype UpdateProductBrandOutput = UpdateProductBrandOutput(success: bool, link: Option<Link>)
  /** `{product_id, previous_links}`: the product and the brand links the forward action dismissed. */
  datatype UpdateProductBrandCompensation = UpdateProductBrandCompensation(productId: string, previousLinks: seq<Link>)

  type UpdateProductBrandResponse = StepResponse<UpdateProductBrandOutput, UpdateProductBrandCompensation>

  /** A link counts as a brand link when its brand side holds a truthy brand id. */
  predicate IsBrandLink(l: Link) {
    Truthy(l.brandId)
  }

  /** The filter of the listed links down to brand links, in order. */
  function BrandLinks(ls: seq<Link>): (r: seq<Link>)
    ensures forall l :: l in r <==> l in ls && IsBrandLink(l)
    ensures |r| <= |ls|
  {
    if ls == [] then []
    else (if IsBrandLink(ls[0]) then [ls[0]] else []) + BrandLinks(ls[1..])
  }

  /** The ids of the given links, as handed to `dismiss`. */
  function LinkIds(ls: seq<Link>): (r: seq<LinkId>)
    ensures |r| == |ls|
    ensures forall l :: l in ls ==> l.id in r
    ensures forall i :: i in r ==> exists l :: l in ls && l.id == i
  {
    if ls == [] then [] else [ls[0].id] + LinkIds(ls[1..])
  }

  /** The definitions the compensation hands to `create`: the product id of
      the payload with the brand side of each dismissed link. */
  function RestoreDefinitions(productId: string, previous: seq<Link>): (r: seq<LinkDefinition>)
    ensures |r| == |previous|
    ensures forall k :: 0 <= k < |r| ==> r[k].productId == productId && r[k].brandId == previous[k].brandId
  {
    if previous == [] then []
    else [LinkDefinition(productId, previous[0].brandId)] + RestoreDefinitions(productId, previous[1..])
  }

  /** The product's brand links before the step. */
  function PreviousBrandLinks(t: LinkTable, productId: string): (r: seq<Link>)
    ensures forall l :: l in r <==> l in t.links && l.productId == productId && IsBrandLink(l)
  {
    BrandLinks(ForProduct(t.links, productId))
  }

  /** The table after the dismissal, which the step skips when there is nothing to dismiss. */
  function AfterDismissal(t: LinkTable, productId: string): (r: LinkTable)
    ensures r.nextId == t.nextId
    ensures forall l :: l in r.links ==> l in t.links
    ensures forall l :: l in t.links && l.productId == productId && IsBrandLink(l) ==> l !in r.links
  {
    var previous := PreviousBrandLinks(t, productId);
    if |previous| > 0 then Dismissed(t, LinkIds(previous)) else t
  }

  /** The forward action on the link table. The brand is checked only after
      the dismissal, so an unknown brand fails on the dismissed table. */
  function Forward(t: LinkTable, brands: BrandTable, input: UpdateProductBrandStepInput)
    : (o: Outcome<LinkTable, UpdateProductBrandResponse>)
    ensures o.result.Err? <==> Truthy(input.brandId) && input.brandId.value !in brands
    ensures o.result.Err? ==> o.result.error == NotFound && o.state == AfterDismissal(t, input.productId)
    ensures o.result.Ok? ==> o.result.value.output.success
    ensures o.result.Ok? ==> (o.result.value.output.link.Some? <==> Truthy(input.brandId))
    ensures o.result.Ok? ==>
      o.result.value.compensateInput == UpdateProductBrandCompensation(input.productId, PreviousBrandLinks(t, input.productId))
  {
    var dismissed := AfterDismissal(t, input.productId);
    var payload := UpdateProductBrandCompensation(input.productId, PreviousBrandLinks(t, input.productId));
    if !Truthy(input.brandId) then
      Outcome(dismissed, Ok(StepResponse(UpdateProductBrandOutput(true, None), payload)))
    else
      match Retrieve(brands, input.brandId.value)
      case Err(e) => Outcome(dismissed, Err(e))
      case Ok(_) =>
        var defs := [LinkDefinition(input.productId, input.brandId)];
        var created := Mint(defs, dismissed.nextId);
        Outcome(Appended(dismissed, defs), Ok(StepResponse(UpdateProductBrandOutput(true, Some(created[0])), payload)))
  }

  /** The compensation on the link table; absent data or an empty list does nothing. */
  function Compensation(t: LinkTable, data: Option<UpdateProductBrandCompensation>): (r: LinkTable)
    ensures |r.links| == |t.links| + (if data.Some? then |data.value.previousLinks| else 0)
    ensures r.links[..|t.links|] == t.links
  {
    match data
    case None => t
    case Some(c) =>
      if |c.previousLinks| > 0 then Appended(t, RestoreDefinitions(c.productId, c.previousLinks)) else t
  }

  // ---------------------------------------------------------------------------
  // Facts about the filters

  lemma {:induction false} BrandLinksConcat(a: seq<Link>, b: seq<Link>)
    ensures BrandLinks(a + b) == BrandLinks(a) + BrandLinks(b)
  {
    if a == [] {
      assert a + b == b;
    } else {
      assert (a + b)[1..] == a[1..] + b;
      BrandLinksConcat(a[1..], b);
    }
  }

  lemma {:induction false} BrandLinksAll(ls: seq<Link>)
    requires forall k :: 0 <= k < |ls| ==> IsBrandLink(ls[k])
    ensures BrandLinks(ls) == ls
  {
    if ls != [] {
      BrandLinksAll(ls[1..]);
    }
  }

  lemma {:induction false} BrandLinksNone(ls: seq<Link>)
    requires forall l :: l in ls ==> !IsBrandLink(l)
    ensures BrandLinks(ls) == []
  {
    if ls != [] {
      assert ls[0] in ls;
      BrandLinksNone(ls[1..]);
    }
  }

  lemma {:induction false} ForProductNone(ls: seq<Link>, productId: string)
    requires forall k :: 0 <= k < |ls| ==> ls[k].productId != productId
    ensures ForProduct(ls, productId) == []
  {
    if ls != [] {
      ForProductNone(ls[1..], productId);
    }
  }

  /** Re-creating a product's own links under its id gives back their definitions. */
  lemma {:induction false} RestoreOwnLinks(productId: string, previous: seq<Link>)
    requires forall k :: 0 <= k < |previous| ==> previous[k].productId == productId
    ensures RestoreDefinitions(productId, previous) == Definitions(previous)
  {
    if previous != [] {
      RestoreOwnLinks(productId, previous[1..]);
    }
  }

  /** With distinct ids, a link's id is among the dismissed ids exactly when
      the link is one of the product's brand links. */
  lemma IdsOfPrevious(t: LinkTable, productId: string)
    requires ValidTable(t)
    ensures forall x :: x in t.links ==>
      (x.id in LinkIds(PreviousBrandLinks(t, productId)) <==> x in PreviousBrandLinks(t, productId))
  {
    var previous := PreviousBrandLinks(t, productId);
    forall x | x in t.links ensures x.id in LinkIds(previous) <==> x in previous {
      if x.id in LinkIds(previous) {
        var y :| y in previous && y.id == x.id;
        SameIdSameLink(t.links, x, y);
      }
    }
  }

  // ---------------------------------------------------------------------------
  // The forward action

  /** The dismissal removes exactly the product's brand links: links of other
      products and the product's other link kinds survive. */
  lemma DismissalRemovesExactlyBrandLinks(t: LinkTable, productId: string)
    requires ValidTable(t)
    ensures ValidTable(AfterDismissal(t, productId)) && AfterDismissal(t, productId).nextId == t.nextId
    ensures forall x :: x in AfterDismissal(t, productId).links <==>
      x in t.links && !(x.productId == productId && IsBrandLink(x))
  {
    var previous := PreviousBrandLinks(t, productId);
    assert forall x :: x in t.links && x.productId == productId && IsBrandLink(x) ==> x in previous;
    IdsOfPrevious(t, productId);
    if |previous| > 0 {
      DismissedValid(t, LinkIds(previous));
    }
  }

  /** After the dismissal the product has no brand link. */
  lemma NoBrandLinksAfterDismissal(t: LinkTable, productId: string)
    requires ValidTable(t)
    ensures BrandLinks(ForProduct(AfterDismissal(t, productId).links, productId)) == []
  {
    DismissalRemovesExactlyBrandLinks(t, productId);
    BrandLinksNone(ForProduct(AfterDismissal(t, productId).links, productId));
  }

  /** Whatever the outcome, an old link survives the forward action exactly
      when it is not one of the product's brand links. */
  lemma ForwardKeepsUnrelatedLinks(t: LinkTable, brands: BrandTable, input: UpdateProductBrandStepInput)
    requires ValidTable(t)
    ensures var o := Forward(t, brands, input);
      forall x :: x in t.links ==> (x in o.state.links <==> !(x.productId == input.productId && IsBrandLink(x)))
  {
    var d := AfterDismissal(t, input.productId);
    DismissalRemovesExactlyBrandLinks(t, input.productId);
    var defs := [LinkDefinition(input.productId, input.brandId)];
    AppendedValid(d, defs);
    forall x | x in t.links ensures x !in Mint(defs, d.nextId) {
      var i :| 0 <= i < |t.links| && t.links[i] == x;
    }
  }

  /** The dismissal leaves the listing of every other product as it was. */
  lemma DismissalKeepsOtherProducts(t: LinkTable, productId: string, other: string)
    requires ValidTable(t) && other != productId
    ensures ForProduct(AfterDismissal(t, productId).links, other) == ForProduct(t.links, other)
  {
    var previous := PreviousBrandLinks(t, productId);
    if |previous| > 0 {
      var ids := LinkIds(previous);
      IdsOfPrevious(t, productId);
      ForProductWithoutIds(t.links, ids, other);
      var listed := ForProduct(t.links, other);
      forall k | 0 <= k < |listed| ensures listed[k].id !in ids {
        assert listed[k] in listed;
      }
      WithoutAbsentIds(listed, ids);
    }
  }

  /** The table after the forward action: the dismissed table, with the new
      link appended when one is created. */
  lemma ForwardState(t: LinkTable, brands: BrandTable, input: UpdateProductBrandStepInput)
    ensures var d := AfterDismissal(t, input.productId);
      Forward(t, brands, input).state
      == if Truthy(input.brandId) && input.brandId.value in brands
         then Appended(d, [LinkDefinition(input.productId, input.brandId)])
         else d
  {
  }

  /** The links of every other product are unchanged, in content and order. */
  lemma OtherProductsUnchanged(t: LinkTable, brands: BrandTable, input: UpdateProductBrandStepInput, other: string)
    requires ValidTable(t) && other != input.productId
    ensures ForProduct(Forward(t, brands, input).state.links, other) == ForProduct(t.links, other)
  {
    var d := AfterDismissal(t, input.productId);
    DismissalKeepsOtherProducts(t, input.productId, other);
    ForwardState(t, brands, input);
    if Truthy(input.brandId) && input.brandId.value in brands {
      var m := Mint([LinkDefinition(input.productId, input.brandId)], d.nextId);
      ForProductConcat(d.links, m, other);
      ForProductNone(m, other);
    }
  }

  /** With a brand id naming an existing brand, the step succeeds and the
      product ends with exactly one brand link: the new one, fresh, carrying
      that brand id. */
  lemma ForwardWithKnownBrand(t: LinkTable, brands: BrandTable, input: UpdateProductBrandStepInput)
    requires ValidTable(t) && Truthy(input.brandId) && input.brandId.value in brands
    ensures var o := Forward(t, brands, input);
      && o.result.Ok?
      && ValidTable(o.state)
      && o.result.value.output.success
      && o.result.value.output.link == Some(Link(t.nextId, input.productId, input.brandId))
      && (forall x :: x in t.links ==> x.id != t.nextId)
      && BrandLinks(ForProduct(o.state.links, input.productId)) == [Link(t.nextId, input.productId, input.brandId)]
  {
    var p := input.productId;
    var d := AfterDismissal(t, p);
    DismissalRemovesExactlyBrandLinks(t, p);
    NoBrandLinksAfterDismissal(t, p);
    var defs := [LinkDefinition(p, input.brandId)];
    var m := Mint(defs, d.nextId);
    AppendedValid(d, defs);
    ForProductConcat(d.links, m, p);
    ForProductAll(m, p);
    BrandLinksConcat(ForProduct(d.links, p), m);
    BrandLinksAll(m);
    forall x | x in t.links ensures x.id != t.nextId {
      var i :| 0 <= i < |t.links| && t.links[i] == x;
    }
  }

  /** With the brand id absent or empty, nothing is created, the product
      ends with no brand link and the output is `{success: true, link: null}`. */
  lemma ForwardWithoutBrand(t: LinkTable, brands: BrandTable, input: UpdateProductBrandStepInput)
    requires ValidTable(t) && !Truthy(input.brandId)
    ensures var o := Forward(t, brands, input);
      && o.result == Ok(StepResponse(UpdateProductBrandOutput(true, None),
                                     UpdateProductBrandCompensation(input.productId, PreviousBrandLinks(t, input.productId))))
      && ValidTable(o.state)
      && o.state == AfterDismissal(t, input.productId)
      && o.state.nextId == t.nextId
      && (forall x :: x in o.state.links ==> x in t.links)
      && BrandLinks(ForProduct(o.state.links, input.productId)) == []
  {
    DismissalRemovesExactlyBrandLinks(t, input.productId);
    NoBrandLinksAfterDismissal(t, input.productId);
  }

  /** An unknown brand fails with NotFound only after the dismissal: the
      product's previous brand links are already gone. */
  lemma ForwardWithUnknownBrand(t: LinkTable, brands: BrandTable, input: UpdateProductBrandStepInput)
    requires ValidTable(t) && Truthy(input.brandId) && input.brandId.value !in brands
    ensures var o := Forward(t, brands, input);
      && o.result == Err(NotFound)
      && o.state == AfterDismissal(t, input.productId)
      && BrandLinks(ForProduct(o.state.links, input.productId)) == []
      && (forall x :: x in PreviousBrandLinks(t, input.productId) ==> x !in o.state.links)
      && (PreviousBrandLinks(t, input.productId) != [] ==> o.state != t)
  {
    var previous := PreviousBrandLinks(t, input.productId);
    DismissalRemovesExactlyBrandLinks(t, input.productId);
    NoBrandLinksAfterDismissal(t, input.productId);
    if previous != [] {
      assert previous[0] in previous;
    }
  }

  /** The payload is the product id with exactly the links the step dismissed. */
  lemma PayloadIsDismissedLinks(t: LinkTable, brands: BrandTable, input: UpdateProductBrandStepInput)
    requires ValidTable(t)
    ensures var o := Forward(t, brands, input);
      o.result.Ok? ==>
        && o.result.value.compensateInput.productId == input.productId
        && (forall x :: x in o.result.value.compensateInput.previousLinks ==> x in t.links)
        && (forall x :: x in t.links ==> (x in o.result.value.compensateInput.previousLinks <==> x !in o.state.links))
  {
    ForwardKeepsUnrelatedLinks(t, brands, input);
  }

  /** Two successive updates of one product leave exactly one brand link, to the second brand. */
  lemma SecondUpdateReplacesFirst(t: LinkTable, brands: BrandTable, productId: string, first: string, second: string)
    requires ValidTable(t) && first != "" && second != "" && first in brands && second in brands
    ensures var o1 := Forward(t, brands, UpdateProductBrandStepInput(productId, Some(first)));
      var o2 := Forward(o1.state, brands, UpdateProductBrandStepInput(productId, Some(second)));
      && o2.result.Ok?
      && |BrandLinks(ForProduct(o2.state.links, productId))| == 1
      && BrandLinks(ForProduct(o2.state.links, productId))[0].brandId == Some(second)
  {
    ForwardWithKnownBrand(t, brands, UpdateProductBrandStepInput(productId, Some(first)));
    var o1 := Forward(t, brands, UpdateProductBrandStepInput(productId, Some(first)));
    ForwardWithKnownBrand(o1.state, brands, UpdateProductBrandStepInput(productId, Some(second)));
  }

  // ---------------------------------------------------------------------------
  // The compensation

  /** Compensation without data, or with no dismissed links, changes nothing. */
  lemma CompensationNoop(t: LinkTable, productId: string)
    ensures Compensation(t, None) == t
    ensures Compensation(t, Some(UpdateProductBrandCompensation(productId, []))) == t
  {
  }

  /** Compensation appends one re-created link per dismissed brand link, all
      brand links of the payload's product, and removes nothing. */
  lemma CompensationAppendsRestored(s: LinkTable, productId: string, previous: seq<Link>)
    requires ValidTable(s)
    requires forall l :: l in previous ==> IsBrandLink(l)
    ensures var c := Compensation(s, Some(UpdateProductBrandCompensation(productId, previous)));
      && ValidTable(c)
      && (forall x :: x in s.links ==> x in c.links)
      && Definitions(BrandLinks(ForProduct(c.links, productId)))
         == Definitions(BrandLinks(ForProduct(s.links, productId))) + RestoreDefinitions(productId, previous)
  {
    var defs := RestoreDefinitions(productId, previous);
    if |previous| > 0 {
      var m := Mint(defs, s.nextId);
      assert Compensation(s, Some(UpdateProductBrandCompensation(productId, previous))).links == s.links + m;
      AppendedValid(s, defs);
      ForProductConcat(s.links, m, productId);
      ForProductAll(m, productId);
      forall k | 0 <= k < |m| ensures IsBrandLink(m[k]) {
        assert previous[k] in previous;
      }
      BrandLinksAll(m);
      BrandLinksConcat(ForProduct(s.links, productId), m);
      DefinitionsConcat(BrandLinks(ForProduct(s.links, productId)), m);
      MintDefinitions(defs, s.nextId);
    } else {
      assert Definitions(BrandLinks(ForProduct(s.links, productId))) + defs
          == Definitions(BrandLinks(ForProduct(s.links, productId)));
    }
  }

  /** Forward then compensate: the product's brand links are the new link
      (if any) followed by re-creations of the dismissed ones, with the same
      product and brand ids. The new link is not retracted. */
  lemma ForwardThenCompensate(t: LinkTable, brands: BrandTable, input: UpdateProductBrandStepInput)
    requires ValidTable(t) && Forward(t, brands, input).result.Ok?
    ensures var o := Forward(t, brands, input);
      var c := Compensation(o.state, Some(o.result.value.compensateInput));
      && ValidTable(c)
      && (o.result.value.output.link.Some? ==> o.result.value.output.link.value in c.links)
      && Definitions(BrandLinks(ForProduct(c.links, input.productId)))
         == (if Truthy(input.brandId) then [LinkDefinition(input.productId, input.brandId)] else [])
            + Definitions(PreviousBrandLinks(t, input.productId))
  {
    var p := input.productId;
    var o := Forward(t, brands, input);
    var previous := PreviousBrandLinks(t, p);
    var newDefs: seq<LinkDefinition> := if Truthy(input.brandId) then [LinkDefinition(p, input.brandId)] else [];
    assert o.result.value.compensateInput == UpdateProductBrandCompensation(p, previous);
    assert Definitions(BrandLinks(ForProduct(o.state.links, p))) == newDefs by {
      if Truthy(input.brandId) {
        ForwardWithKnownBrand(t, brands, input);
      } else {
        ForwardWithoutBrand(t, brands, input);
      }
    }
    assert o.result.value.output.link.Some? ==> o.result.value.output.link.value in o.state.links by {
      if Truthy(input.brandId) {
        ForwardWithKnownBrand(t, brands, input);
        var l := Link(t.nextId, p, input.brandId);
        assert l in BrandLinks(ForProduct(o.state.links, p));
      }
    }
    assert ValidTable(o.state) by {
      if Truthy(input.brandId) {
        ForwardWithKnownBrand(t, brands, input);
      } else {
        ForwardWithoutBrand(t, brands, input);
      }
    }
    CompensationAppendsRestored(o.state, p, previous);
    forall k | 0 <= k < |previous| ensures previous[k].productId == p {
      assert previous[k] in previous;
    }
    RestoreOwnLinks(p, previous);
  }

  /** The asymmetry of the rollback: when the product had a brand link and a
      new one was created, after compensation it has at least two, the new
      one among them. */
  lemma RollbackKeepsNewLink(t: LinkTable, brands: BrandTable, input: UpdateProductBrandStepInput)
    requires ValidTable(t) && Truthy(input.brandId) && input.brandId.value in brands
    requires PreviousBrandLinks(t, input.productId) != []
    ensures var o := Forward(t, brands, input);
      var c := Compensation(o.state, Some(o.result.value.compensateInput));
      && |BrandLinks(ForProduct(c.links, input.productId))| >= 2
      && Link(t.nextId, input.productId, input.brandId) in c.links
  {
    ForwardWithKnownBrand(t, brands, input);
    ForwardThenCompensate(t, brands, input);
  }

  // ---------------------------------------------------------------------------
  // The step and the workflow over the services

  /** `updateProductBrandStep`'s forward action. */
  method UpdateProductBrandStep(link: LinkService, brandService: BrandModuleService, input: UpdateProductBrandStepInput)
    returns (r: Result<UpdateProductBrandResponse>)
    requires link.Valid()
    modifies link
    ensures link.Valid()
    ensures Outcome(link.Table(), r) == Forward(old(link.Table()), brandService.brands, input)
  {
    var existingLinks := link.List(input.productId);
    var brandLinks := BrandLinks(existingLinks);
    if |brandLinks| > 0 {
      link.Dismiss(LinkIds(brandLinks));
    }
    var newLink: Option<Link> := None;
    if Truthy(input.brandId) {
      var brand := brandService.RetrieveBrand(input.brandId.value);
      if brand.Err? {
        return Err(brand.error);
      }
      var linkDefinition := LinkDefinition(input.productId, input.brandId);
      var createdLinks := link.Create([linkDefinition]);
      newLink := Some(createdLinks[0]);
    }
    r := Ok(StepResponse(UpdateProductBrandOutput(true, newLink),
                         UpdateProductBrandCompensation(input.productId, brandLinks)));
  }

  /** `updateProductBrandStep`'s compensation. */
  method CompensateUpdateProductBrand(link: LinkService, compensateData: Option<UpdateProductBrandCompensation>)
    requires link.Valid()
    modifies link
    ensures link.Valid()
    ensures link.Table() == Compensation(old(link.Table()), compensateData)
  {
    if compensateData.None? {
      return;
    }
    if |compensateData.value.previousLinks| > 0 {
      var linkDefinitions := RestoreDefinitions(compensateData.value.productId, compensateData.value.previousLinks);
      var created := link.Create(linkDefinitions);
    }
  }

  /** `updateProductBrandWorkflow`: runs the step and returns its output. */
  method UpdateProductBrandWorkflow(link: LinkService, brandService: BrandModuleService, input: UpdateProductBrandStepInput)
    returns (r: Result<UpdateProductBrandOutput>)
    requires link.Valid()
    modifies link
    ensures link.Valid()
    ensures link.Table() == Forward(old(link.Table()), brandService.brands, input).state
    ensures r == OutputOf(Forward(old(link.Table()), brandService.brands, input).result)
  {
    var step := UpdateProductBrandStep(link, brandService, input);
    r := OutputOf(step);
  }
}
