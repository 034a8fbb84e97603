# Brand plugin workflows, modelled in Dafny

This project models the three mutation workflows of a brand plugin for an
e-commerce framework. The plugin adds a brand entity and links products to
brands. Each workflow is a single step. A step has a forward action and a
compensating action that the framework's workflow runner calls on rollback:

- **delete brand**: retrieve the brand (NotFound if absent), delete it.
  The compensation re-creates the brand with the captured id and name.
- **update brand**: retrieve the original brand (NotFound if absent), then
  overwrite its name. The compensation writes the original name back.
- **update product brand**: list the product's links and keep those that
  carry a truthy `brand_id`. Dismiss them by id. If a truthy `brand_id` was
  given, check that the brand exists, then create exactly one new link.
  The compensation re-creates one link per dismissed link. It never
  retracts the new link.

The two stores the steps call are foreign. Each is specified abstractly:

- `BrandStore`: a map from brand id to name, with the class
  `BrandModuleService` holding it.
  - A retrieve of an absent id fails with NotFound.
  - An update of an absent id fails with NotFound.
  - A delete of an absent id does nothing.
  - A create of an id already in use fails with AlreadyExists.
- `LinkStore`: a sequence of `{id, product_id, brand_id?}` records and an
  id counter, held by the class `LinkService`.
  - `create` takes consecutive ids from the counter.
  - The store keeps ids distinct and below the counter (`ValidTable`).
  - Nothing is claimed about the format of ids.

Each step appears twice:
- as a pure specification, the functions `Forward` and `Compensation` over
  the store's value;
- as methods on the service objects that make the same calls in the same
  order as the TypeScript code, proved equal to the specification.

The properties are lemmas about the specification functions.

"Truthy" follows JavaScript: an optional string is truthy when it is present
and not `""`. The plugin's `linkItem[BRAND_MODULE]?.brand_id` and
`input.brand_id` tests are both this test.

Files:
- `outcomes.dfy`: shared result types.
- `brand_store.dfy` and `link_store.dfy`: the two stores.
- `delete_brand.dfy`, `update_brand.dfy` and `update_product.dfy`: the three workflows.

## Model

| member | source | states |
|---|---|---|
| BrandStore.Retrieve | src/workflows/update-brand.ts:22 | retrieve succeeds iff the id is present, returning that id with its stored name; otherwise NotFound |
| BrandStore.Update | src/workflows/update-brand.ts:24-27 | succeeds iff the id is present; on success the key set is unchanged, the id has the new name and the result is the written record; on failure NotFound and no change; other ids keep their names |
| BrandStore.Delete | src/workflows/delete-brand.ts:23 | the key set loses exactly the id and every remaining id keeps its name |
| BrandStore.Create | src/workflows/delete-brand.ts:35-38 | succeeds iff the id is free; on success the key set gains exactly the id with the given name; on failure AlreadyExists and no change; other ids keep their names |
| BrandStore.BrandModuleService.RetrieveBrand | src/workflows/update-brand.ts:22 | retrieve returns the stored record for a present id and NotFound for an absent one |
| BrandStore.BrandModuleService.UpdateBrands | src/workflows/update-brand.ts:24-27 | overwrite of the name of an existing id; an absent id fails with NotFound |
| BrandStore.BrandModuleService.DeleteBrands | src/workflows/delete-brand.ts:23 | the id is removed from the brand table and nothing else changes |
| BrandStore.BrandModuleService.CreateBrands | src/workflows/delete-brand.ts:35-38 | insert under the caller's id; fails with AlreadyExists when the id is in use |
| BrandStore.RetrieveThenUpdate | src/workflows/update-brand.ts:22-27 | after a successful retrieve, the update cannot fail, writes exactly that entry and is seen by a later retrieve |
| BrandStore.DeleteThenCreate | src/workflows/delete-brand.ts:21-38 | after delete the id is NotFound; re-creating the retrieved record restores the table exactly |
| DeleteBrand.Forward | src/workflows/delete-brand.ts:16-29 | forward succeeds iff the id is present; a failure leaves the table unchanged; a success removes exactly that key and captures the pre-delete id and name as payload |
| DeleteBrand.Compensation | src/workflows/delete-brand.ts:30-39 | re-creation succeeds iff the captured id is free, then adds exactly that id with the captured name; other brands keep their names |
| DeleteBrand.ForwardFailsIffAbsent | src/workflows/delete-brand.ts:21-23 | forward fails exactly for an absent id, with NotFound, and deletes nothing |
| DeleteBrand.ForwardRemovesOnlyThatBrand | src/workflows/delete-brand.ts:23 | after success the id is absent and every other brand keeps its entry |
| DeleteBrand.ForwardResponse | src/workflows/delete-brand.ts:21-28 | the output is `{id: input.id}` and the compensation payload is the pre-delete record |
| DeleteBrand.ForwardThenCompensateRestores | src/workflows/delete-brand.ts:30-39 | compensating a successful delete succeeds and restores the prior brand table exactly |
| DeleteBrand.DeleteBrandStep | src/workflows/delete-brand.ts:16-29 | the step's calls produce the specified table and response; it succeeds iff the id was present, and afterwards the id is absent |
| DeleteBrand.CompensateDeleteBrand | src/workflows/delete-brand.ts:30-39 | the compensation re-creates the captured id and name, as specified |
| DeleteBrand.DeleteBrandWorkflow | src/workflows/delete-brand.ts:42-48 | the workflow returns the step's output `{id}` or its error |
| UpdateBrand.Forward | src/workflows/update-brand.ts:17-30 | forward succeeds iff the id is present; a failure leaves the table unchanged; a success gives `t[id := name]` and captures the pre-update id and name as payload |
| UpdateBrand.Respond | src/workflows/update-brand.ts:24-29 | the step response succeeds iff the overwrite did; its output is the updated record and its payload the original record; a failure passes the store's error through |
| UpdateBrand.Compensation | src/workflows/update-brand.ts:31-40 | the restore succeeds iff the original id is present, giving `t[id := original name]`; a failure leaves the table unchanged |
| UpdateBrand.ForwardFailsIffAbsent | src/workflows/update-brand.ts:22-24 | forward fails exactly for an absent id, with NotFound, before any write |
| UpdateBrand.ForwardWritesOnlyThatBrand | src/workflows/update-brand.ts:24-27 | after success the id maps to the new name, the key set is unchanged and other brands are unchanged |
| UpdateBrand.ForwardResponse | src/workflows/update-brand.ts:22-29 | the output is the updated brand with the same id; the payload is the brand before the update |
| UpdateBrand.ForwardThenCompensateRestores | src/workflows/update-brand.ts:31-40 | compensating a successful update succeeds and restores the prior brand table exactly |
| UpdateBrand.RenameAcmeScenario | src/workflows/update-brand.ts:17-40 | "b1"/"Acme" renamed to "Acme Inc" returns the renamed brand, and rollback restores "Acme" |
| UpdateBrand.UpdateBrandStep | src/workflows/update-brand.ts:17-30 | the step's calls produce the specified table and response; success iff the id was present, with the table then `old[id := name]` |
| UpdateBrand.CompensateUpdateBrand | src/workflows/update-brand.ts:31-40 | the compensation overwrites the original id with the original name, as specified |
| UpdateBrand.UpdateBrandWorkflow | src/workflows/update-brand.ts:43-49 | the workflow returns the step's output, the updated brand `{id, name}`, or its error |
| LinkStore.ForProduct | src/workflows/hooks/update-product.ts:108-112 | listing returns exactly the links whose product is the given one |
| LinkStore.WithoutIds | src/workflows/hooks/update-product.ts:119 | dismissal keeps exactly the links whose id is not listed |
| LinkStore.Mint | src/workflows/hooks/update-product.ts:141 | create makes one link per definition, in order, with consecutive ids from the counter |
| LinkStore.Dismissed | src/workflows/hooks/update-product.ts:119 | after `dismiss`, a link is stored iff it was stored before and its id is not listed; the counter is unchanged |
| LinkStore.Appended | src/workflows/hooks/update-product.ts:141 | after `create`, the old links come first, unchanged, then one link per definition with ids counting up from the counter, which advances by the number created |
| LinkStore.MintDefinitions | src/workflows/hooks/update-product.ts:141 | the created links carry exactly the requested definitions |
| LinkStore.ForProductWithoutIds | src/workflows/hooks/update-product.ts:108-119 | listing for a product and dismissing by id commute |
| LinkStore.DismissedValid | src/workflows/hooks/update-product.ts:119 | dismissal keeps link ids distinct and below the counter |
| LinkStore.AppendedValid | src/workflows/hooks/update-product.ts:141 | create keeps link ids distinct, and the new ids are at least the counter |
| LinkStore.LinkService.List | src/workflows/hooks/update-product.ts:108-112 | `list` returns the product's links |
| LinkStore.LinkService.Dismiss | src/workflows/hooks/update-product.ts:119 | `dismiss` removes the listed ids and keeps the store invariant |
| LinkStore.LinkService.Create | src/workflows/hooks/update-product.ts:141 | `create` appends and returns links carrying the given definitions with fresh ids |
| UpdateProductBrand.BrandLinks | src/workflows/hooks/update-product.ts:114-116 | the filter keeps exactly the links with a truthy brand id |
| UpdateProductBrand.LinkIds | src/workflows/hooks/update-product.ts:119 | the dismissed ids are exactly the ids of the given links |
| UpdateProductBrand.RestoreDefinitions | src/workflows/hooks/update-product.ts:167-175 | one definition per dismissed link, with the payload's product id and that link's brand id |
| UpdateProductBrand.PreviousBrandLinks | src/workflows/hooks/update-product.ts:108-116 | a link is listed iff it is stored, belongs to the product and has a truthy brand id |
| UpdateProductBrand.AfterDismissal | src/workflows/hooks/update-product.ts:114-120 | the dismissal adds no link, removes every brand link of the product and keeps the counter |
| UpdateProductBrand.Forward | src/workflows/hooks/update-product.ts:101-155 | the step fails iff the brand id is truthy and unknown, then with NotFound on the dismissed table; on success the output has `success: true`, a link iff the brand id is truthy, and the payload is the product id with its previous brand links |
| UpdateProductBrand.Compensation | src/workflows/hooks/update-product.ts:156-179 | the compensation keeps every existing link in place, as a prefix, and adds exactly one link per payload link (none without data) |
| UpdateProductBrand.RestoreOwnLinks | src/workflows/hooks/update-product.ts:167-175 | for links of the payload's product, the re-created definitions equal the links' own definitions |
| UpdateProductBrand.DismissalRemovesExactlyBrandLinks | src/workflows/hooks/update-product.ts:108-120 | a link survives the dismissal iff it is not a brand link of the product |
| UpdateProductBrand.NoBrandLinksAfterDismissal | src/workflows/hooks/update-product.ts:114-120 | after the dismissal the product has no brand link |
| UpdateProductBrand.DismissalKeepsOtherProducts | src/workflows/hooks/update-product.ts:108-120 | the dismissal leaves another product's listing identical, order included |
| UpdateProductBrand.ForwardKeepsUnrelatedLinks | src/workflows/hooks/update-product.ts:108-142 | whatever the outcome, an old link is still stored iff it is not a brand link of the product |
| UpdateProductBrand.OtherProductsUnchanged | src/workflows/hooks/update-product.ts:108-142 | the forward step leaves every other product's links unchanged, in content and in order |
| UpdateProductBrand.ForwardWithKnownBrand | src/workflows/hooks/update-product.ts:118-142 | with an existing brand the step succeeds; the product's only brand link is the new, fresh link, carrying the input brand id |
| UpdateProductBrand.ForwardWithoutBrand | src/workflows/hooks/update-product.ts:118-154 | with brand id absent or empty the result is `{success: true, link: null}`; the table is the dismissed table, every stored link is an old one and the counter is unchanged; no brand link remains |
| UpdateProductBrand.ForwardWithUnknownBrand | src/workflows/hooks/update-product.ts:118-130 | with an unknown brand the step fails with NotFound after the product's brand links are already dismissed |
| UpdateProductBrand.PayloadIsDismissedLinks | src/workflows/hooks/update-product.ts:114-153 | the payload holds the product id and exactly the old links the step removed |
| UpdateProductBrand.SecondUpdateReplacesFirst | src/workflows/hooks/update-product.ts:118-142 | linking to one brand and then another leaves exactly one brand link, to the second brand |
| UpdateProductBrand.CompensationNoop | src/workflows/hooks/update-product.ts:160-165 | compensation with no data or with an empty list leaves the table unchanged |
| UpdateProductBrand.CompensationAppendsRestored | src/workflows/hooks/update-product.ts:165-177 | compensation removes nothing and appends one brand link per dismissed link, with the same product and brand ids |
| UpdateProductBrand.ForwardThenCompensate | src/workflows/hooks/update-product.ts:101-179 | after forward then compensate, the product's brand links are the new link (if any) plus re-creations of the old ones; the new link remains |
| UpdateProductBrand.RollbackKeepsNewLink | src/workflows/hooks/update-product.ts:165-177 | rollback after relinking a product that had a brand link leaves at least two brand links, the new one among them |
| UpdateProductBrand.UpdateProductBrandStep | src/workflows/hooks/update-product.ts:101-155 | the step's list, dismiss, retrieve and create calls produce the specified table and response, and keep the store invariant |
| UpdateProductBrand.CompensateUpdateProductBrand | src/workflows/hooks/update-product.ts:156-179 | the compensation's calls produce the specified table, and keep the store invariant |
| UpdateProductBrand.UpdateProductBrandWorkflow | src/workflows/hooks/update-product.ts:182-188 | the workflow returns the step's output or its error |

## Left out

- The workflow runner (`createStep`, `createWorkflow`, `StepResponse`,
  `WorkflowResponse`) is part of the host framework. Forward and
  compensation are separate members, and the rollback is stated in
  forward-then-compensate lemmas. No multi-step executor is modelled, since
  every workflow in the plugin has a single step.
- `container.resolve` becomes explicit service parameters. `logger.info`
  calls are dropped, since they only log.
- Async execution and concurrent invocations are not modelled. Each step is
  a sequential run of store calls.
- Store failures other than NotFound and AlreadyExists are not modelled
  (for example, a failing `dismiss` or `create`). Compensation failures are
  not modelled either.
- `Array.isArray(createdLinks) ? createdLinks[0] : createdLinks`: the
  modelled `create` always returns a sequence, so only the first branch
  exists.
- Body validation (a non-empty brand name, an optional string `brand_id`)
  happens in the HTTP middleware. The steps accept any name.
- The HTTP routes, the admin UI and the commented-out product hook at the
  top of the product-brand workflow file are not part of this model.
- Deleting a brand does not touch the product links that name it. The
  model reproduces this: links to a deleted brand stay in the link table.
- An unknown `brand_id` does not leave the product's links untouched. The
  code dismisses them before it checks the brand
  (`src/workflows/hooks/update-product.ts:118-130`). The model follows the
  code, and `UpdateProductBrand.ForwardWithUnknownBrand` states the behaviour
  as written.
- The HTTP delete handler adds `deleted: true` to its response. The step's
  own output is only `{id}`, and that is what `DeleteBrand.DeleteBrandWorkflow`
  returns.
