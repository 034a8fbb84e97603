/** The update-brand workflow: one step whose forward action retrieves the
    original brand (failing if it is absent) and overwrites its name, and
    whose compensation writes the original name back under the original id. */
module UpdateBrand {
  import opened Outcomes
  import opened BrandStore

  datatype UpdateBrandStepInput = UpdateBrandStepInput(id: string, name: string)
  /** The brand as it was before the update. */
  datatype UpdateBrandCompensation = UpdateBrandCompensation(originalBrand: Brand)

  type UpdateBrandResponse = StepResponse<Brand, UpdateBrandCompensation>

  /** The forward action on the brand table. */
  function Forward(t: BrandTable, input: UpdateBrandStepInput): (o: Outcome<BrandTable, UpdateBrandResponse>)
    ensures o.result.Ok? <==> input.id in t
    ensures o.result.Err? ==> o.state == t
    ensures o.result.Ok? ==> o.state == t[input.id := input.name]
    ensures o.result.Ok? ==> o.result.value.compensateInput.originalBrand == Brand(input.id, t[input.id])
  {
    match Retrieve(t, input.id)
    case Err(e) => Outcome(t, Err(e))
    case Ok(originalBrand) =>
      var u := Update(t, Brand(input.id, input.name));
      Outcome(u.state, Respond(u.result, originalBrand))
  }

  /** The step's response from the store's answer to the overwrite: the
      updated brand as output, the original record as payload. */
  function Respond(updated: Result<Brand>, originalBrand: Brand): (r: Result<UpdateBrandResponse>)
    ensures r.Ok? <==> updated.Ok?
    ensures r.Ok? ==> r.value.output == updated.value && r.value.compensateInput.originalBrand == originalBrand
    ensures r.Err? ==> r.error == updated.error
  {
    match updated
    case Err(e) => Err(e)
    case Ok(updatedBrand) => Ok(StepResponse(updatedBrand, UpdateBrandCompensation(originalBrand)))
  }

  /** The compensation on the brand table. */
  function Compensation(t: BrandTable, c: UpdateBrandCompensation): (o: Outcome<BrandTable, Brand>)
    ensures o.result.Ok? <==> c.originalBrand.id in t
    ensures o.result.Err? ==> o.state == t
    ensures o.result.Ok? ==> o.state == t[c.originalBrand.id := c.originalBrand.name]
  {
    Update(t, Brand(c.originalBrand.id, c.originalBrand.name))
  }

  /** The forward action fails exactly when the id is absent, with NotFound
      and before any write. */
  lemma ForwardFailsIffAbsent(t: BrandTable, input: UpdateBrandStepInput)
    ensures Forward(t, input).result.Err? <==> input.id !in t
    ensures input.id !in t ==> Forward(t, input) == Outcome(t, Err(NotFound))
  {
  }

  /** A successful update maps the id to the new name and changes no other brand. */
  lemma ForwardWritesOnlyThatBrand(t: BrandTable, input: UpdateBrandStepInput)
    requires input.id in t
    ensures var o := Forward(t, input);
      && o.result.Ok?
      && o.state.Keys == t.Keys
      && o.state[input.id] == input.name
      && forall k :: k in t && k != input.id ==> o.state[k] == t[k]
  {
    RetrieveThenUpdate(t, input.id, input.name);
  }

  /** The output is the updated brand, with the id unchanged; the payload is
      the record before the update. */
  lemma ForwardResponse(t: BrandTable, input: UpdateBrandStepInput)
    requires input.id in t
    ensures Forward(t, input).result
         == Ok(StepResponse(Brand(input.id, input.name), UpdateBrandCompensation(Brand(input.id, t[input.id]))))
  {
    RetrieveThenUpdate(t, input.id, input.name);
  }

  /** The rollback round trip: compensating a successful update succeeds and
      gives back exactly the table before the update. */
  lemma ForwardThenCompensateRestores(t: BrandTable, input: UpdateBrandStepInput)
    requires input.id in t
    ensures var o := Forward(t, input);
      o.result.Ok? && Compensation(o.state, o.result.value.compensateInput) == Outcome(t, Ok(Brand(input.id, t[input.id])))
  {
    RetrieveThenUpdate(t, input.id, input.name);
    assert t[input.id := input.name][input.id := t[input.id]] == t;
  }

  /** The worked example: brand "b1" named "Acme" is renamed "Acme Inc", and
      rolling back restores "Acme". */
  lemma RenameAcmeScenario()
    ensures var t := map["b1" := "Acme"];
      var o := Forward(t, UpdateBrandStepInput("b1", "Acme Inc"));
      && o.result.Ok?
      && o.result.value.output == Brand("b1", "Acme Inc")
      && o.state == map["b1" := "Acme Inc"]
      && Compensation(o.state, o.result.value.compensateInput).state == t
  {
    var t := map["b1" := "Acme"];
    ForwardThenCompensateRestores(t, UpdateBrandStepInput("b1", "Acme Inc"));
    ForwardResponse(t, UpdateBrandStepInput("b1", "Acme Inc"));
  }

  /** `updateBrandStep`'s forward action. */
  method UpdateBrandStep(service: BrandModuleService, input: UpdateBrandStepInput)
    returns (r: Result<UpdateBrandResponse>)
    modifies service
    ensures Outcome(service.brands, r) == Forward(old(service.brands), input)
    ensures r.Ok? <==> input.id in old(service.brands)
    ensures r.Ok? ==> service.brands == old(service.brands)[input.id := input.name]
  {
    var originalBrand := service.RetrieveBrand(input.id);
    if originalBrand.Err? {
      return Err(originalBrand.error);
    }
    var updatedBrand := service.UpdateBrands(Brand(input.id, input.name));
    r := Respond(updatedBrand, originalBrand.value);
  }

  /** `updateBrandStep`'s compensation. */
  method CompensateUpdateBrand(service: BrandModuleService, c: UpdateBrandCompensation)
    returns (r: Result<Brand>)
    modifies service
    ensures Outcome(service.brands, r) == Compensation(old(service.brands), c)
  {
    r := service.UpdateBrands(Brand(c.originalBrand.id, c.originalBrand.name));
  }

  /** `updateBrandWorkflow`: runs the step and returns its output, the updated brand. */
  method UpdateBrandWorkflow(service: BrandModuleService, input: UpdateBrandStepInput)
    returns (r: Result<Brand>)
    modifies service
    ensures service.brands == Forward(old(service.brands), input).state
    ensures r == OutputOf(Forward(old(service.brands), input).result)
    ensures r.Ok? ==> r.value == Brand(input.id, input.name)
  {
    var step := UpdateBrandStep(service, input);
    r := OutputOf(step);
  }
}
