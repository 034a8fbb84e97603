/** The delete-brand workflow: one step whose forward action retrieves the
    brand (failing if it is absent) and deletes it, and whose compensation
    re-creates a brand with the captured id and name. */
module DeleteBrand {
  import opened Outcomes
  import opened BrandStore

  datatype DeleteBrandStepInput = DeleteBrandStepInput(id: string)
  datatype DeleteBrandOutput = DeleteBrandOutput(id: string)
  /** The brand as it was before the delete. */
  datatype DeleteBrandCompensation = DeleteBrandCompensation(brand: Brand)

  type DeleteBrandResponse = StepResponse<DeleteBrandOutput, DeleteBrandCompensation>

  /** The forward action on the brand table. */
  function Forward(t: BrandTable, input: DeleteBrandStepInput): (o: Outcome<BrandTable, DeleteBrandResponse>)
    ensures o.result.Ok? <==> input.id in t
    ensures o.result.Err? ==> o.state == t
    ensures o.result.Ok? ==> o.state.Keys == t.Keys - {input.id}
    ensures o.result.Ok? ==> o.result.value.compensateInput.brand == Brand(input.id, t[input.id])
  {
    match Retrieve(t, input.id)
    case Err(e) => Outcome(t, Err(e))
    case Ok(brand) =>
      Outcome(Delete(t, input.id),
              Ok(StepResponse(DeleteBrandOutput(input.id), DeleteBrandCompensation(brand))))
  }

  /** The compensation on the brand table. */
  function Compensation(t: BrandTable, c: DeleteBrandCompensation): (o: Outcome<BrandTable, Brand>)
    ensures o.result.Ok? <==> c.brand.id !in t
    ensures o.result.Ok? ==> o.state.Keys == t.Keys + {c.brand.id} && o.state[c.brand.id] == c.brand.name
    ensures forall k :: k in t && k != c.brand.id ==> k in o.state && o.state[k] == t[k]
  {
    Create(t, Brand(c.brand.id, c.brand.name))
  }

  /** The forward action fails exactly when the id is absent, with NotFound
      and before anything is deleted. */
  lemma ForwardFailsIffAbsent(t: BrandTable, input: DeleteBrandStepInput)
    ensures Forward(t, input).result.Err? <==> input.id !in t
    ensures input.id !in t ==> Forward(t, input) == Outcome(t, Err(NotFound))
  {
  }

  /** A successful delete removes the id and leaves every other brand as it was. */
  lemma ForwardRemovesOnlyThatBrand(t: BrandTable, input: DeleteBrandStepInput)
    requires input.id in t
    ensures var o := Forward(t, input);
      && o.result.Ok?
      && input.id !in o.state
      && o.state.Keys == t.Keys - {input.id}
      && forall k :: k in o.state ==> o.state[k] == t[k]
  {
  }

  /** The output is the deleted id; the payload is the record before the delete. */
  lemma ForwardResponse(t: BrandTable, input: DeleteBrandStepInput)
    requires input.id in t
    ensures Forward(t, input).result
         == Ok(StepResponse(DeleteBrandOutput(input.id), DeleteBrandCompensation(Brand(input.id, t[input.id]))))
  {
  }

  /** The rollback round trip: compensating a successful delete succeeds and
      gives back exactly the table before the delete. */
  lemma ForwardThenCompensateRestores(t: BrandTable, input: DeleteBrandStepInput)
    requires input.id in t
    ensures var o := Forward(t, input);
      o.result.Ok? && Compensation(o.state, o.result.value.compensateInput) == Outcome(t, Ok(Brand(input.id, t[input.id])))
  {
    DeleteThenCreate(t, input.id);
  }

  /** `deleteBrandStep`'s forward action. */
  method DeleteBrandStep(service: BrandModuleService, input: DeleteBrandStepInput)
    returns (r: Result<DeleteBrandResponse>)
    modifies service
    ensures Outcome(service.brands, r) == Forward(old(service.brands), input)
    ensures r.Ok? <==> input.id in old(service.brands)
    ensures r.Ok? ==> input.id !in service.brands
  {
    var brand := service.RetrieveBrand(input.id);
    if brand.Err? {
      return Err(brand.error);
    }
    service.DeleteBrands(input.id);
    r := Ok(StepResponse(DeleteBrandOutput(input.id), DeleteBrandCompensation(brand.value)));
  }

  /** `deleteBrandStep`'s compensation. */
  method CompensateDeleteBrand(service: BrandModuleService, c: DeleteBrandCompensation)
    returns (r: Result<Brand>)
    modifies service
    ensures Outcome(service.brands, r) == Compensation(old(service.brands), c)
  {
    r := service.CreateBrands(Brand(c.brand.id, c.brand.name));
  }

  /** `deleteBrandWorkflow`: runs the step and returns its output. */
  method DeleteBrandWorkflow(service: BrandModuleService, input: DeleteBrandStepInput)
    returns (r: Result<DeleteBrandOutput>)
    modifies service
    ensures service.brands == Forward(old(service.brands), input).state
    ensures r == OutputOf(Forward(old(service.brands), input).result)
    ensures r.Ok? ==> r.value == DeleteBrandOutput(input.id)
  {
    var step := DeleteBrandStep(service, input);
    r := OutputOf(step);
  }
}
