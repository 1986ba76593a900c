/** The bodies of `post '/currencies/new'` and `post '/currencies/update'` over the table of
    stored currencies. The outcome of ActiveRecord's `save` / `update` (the model's own
    validations) is a parameter, together with the messages it would report. */
module CurrencyAdmin {
  import opened Wrappers
  import opened CurrencyParams

  datatype Body =
    | CurrencyEntity(currency: Attrs)
    | ValidationErrors(errors: seq<Error>)
    | ModelErrors(messages: seq<string>)

  datatype Response = Response(status: int, body: Body)

  /** Stored currencies by code (the primary key), each as its attribute map. */
  type Records = map<Value, Attrs>

  /** `post '/currencies/new'`: validate, build the currency from the declared parameters
      without `subunits`, assign `subunits` from the parameters, then save. `save` inserts a
      new row, so it fails when the code is already stored, whatever `saveOk` says. */
  function CreateStep(records: Records, p: Params, blockchainKeys: set<string>, saveOk: bool, modelErrors: seq<string>): (Records, Response) {
    match ValidateCreate(p, blockchainKeys)
    case Failure(errors) => (records, Response(422, ValidationErrors(errors)))
    case Success(attrs) =>
      CreateDeclaresCode(p, blockchainKeys);
      CreateSubunitsInRange(p, blockchainKeys);
      // params[:subunits] holds the same coerced or defaulted value that declared(params) does.
      var currency := (attrs - {"subunits"})["subunits" := attrs["subunits"]];
      if saveOk && p["code"] !in records then (records[p["code"] := currency], Response(201, CurrencyEntity(currency)))
      else (records, Response(422, ModelErrors(modelErrors)))
  }

  /** `post '/currencies/update'`: validate, find the currency, assign `subunits` when it was
      supplied, then update it with the other supplied parameters. Grape answers a POST with
      201 unless the endpoint sets another status. */
  function UpdateStep(records: Records, p: Params, blockchainKeys: set<string>, updateOk: bool, modelErrors: seq<string>): (Records, Response) {
    match ValidateUpdate(p, records.Keys, blockchainKeys)
    case Failure(errors) => (records, Response(422, ValidationErrors(errors)))
    case Success(attrs) =>
      UpdateRequiresExistingCode(p, records.Keys, blockchainKeys);
      var code := p["code"];
      var withSubunits := if "subunits" in attrs then records[code]["subunits" := attrs["subunits"]] else records[code];
      var updated := withSubunits + (attrs - {"subunits"});
      if updateOk then (records[code := updated], Response(201, CurrencyEntity(updated)))
      else (records, Response(422, ModelErrors(modelErrors)))
  }

  /** Create answers 201 with the new currency exactly when the parameters are valid and the
      save succeeds for a code not yet stored, and stores it under that code with every declared
      attribute; otherwise 422 with the errors, and nothing is stored. */
  lemma CreateResponds(records: Records, p: Params, blockchainKeys: set<string>, saveOk: bool, modelErrors: seq<string>)
    ensures var (after, resp) := CreateStep(records, p, blockchainKeys, saveOk, modelErrors);
      && (resp.status == 201 <==>
            ValidateCreate(p, blockchainKeys).Success? && saveOk && "code" in p && p["code"] !in records)
      && (resp.status != 201 ==> resp.status == 422 && after == records)
      && (ValidateCreate(p, blockchainKeys).Failure? ==>
            resp.body == ValidationErrors(ValidateCreate(p, blockchainKeys).error))
      && (ValidateCreate(p, blockchainKeys).Success? && !(saveOk && "code" in p && p["code"] !in records) ==>
            resp.body == ModelErrors(modelErrors))
      && (resp.status == 201 ==>
            && "code" in p
            && p["code"] !in records
            && after == records[p["code"] := resp.body.currency]
            && resp.body.currency == ValidateCreate(p, blockchainKeys).value)
  {
    if ValidateCreate(p, blockchainKeys).Success? {
      var attrs := ValidateCreate(p, blockchainKeys).value;
      CreateDeclaresCode(p, blockchainKeys);
      CreateSubunitsInRange(p, blockchainKeys);
      assert (attrs - {"subunits"})["subunits" := attrs["subunits"]] == attrs;
    }
  }

  /** Create never replaces or drops a stored currency: it only adds one under a new code. */
  lemma CreateKeepsStoredCurrencies(records: Records, p: Params, blockchainKeys: set<string>, saveOk: bool, modelErrors: seq<string>)
    ensures var (after, resp) := CreateStep(records, p, blockchainKeys, saveOk, modelErrors);
      && (forall c :: c in records ==> c in after && after[c] == records[c])
      && |after.Keys| <= |records.Keys| + 1
      && (|after.Keys| == |records.Keys| + 1 <==> resp.status == 201)
  {
    var (after, resp) := CreateStep(records, p, blockchainKeys, saveOk, modelErrors);
    CreateResponds(records, p, blockchainKeys, saveOk, modelErrors);
    if resp.status == 201 {
      assert after.Keys == records.Keys + {p["code"]};
    }
  }

  /** The created currency's `subunits` is the supplied integer, or 0 when none was supplied,
      and always lies in 0..18. */
  lemma CreateAssignsSubunits(records: Records, p: Params, blockchainKeys: set<string>, saveOk: bool, modelErrors: seq<string>)
    requires ValidateCreate(p, blockchainKeys).Success? && saveOk && "code" in p && p["code"] !in records
    ensures CreateStep(records, p, blockchainKeys, saveOk, modelErrors).1.status == 201
    ensures var c := CreateStep(records, p, blockchainKeys, saveOk, modelErrors).1.body.currency;
      && "subunits" in c
      && c["subunits"] == (if "subunits" in p then Some(p["subunits"]) else Some(Integer(0)))
      && c["subunits"].value.Integer? && 0 <= c["subunits"].value.i <= 18
  {
    CreateResponds(records, p, blockchainKeys, saveOk, modelErrors);
    CreateSubunitsInRange(p, blockchainKeys);
    CreateDefaultValues(p, blockchainKeys);
    CreateAppliesDefaults(p, blockchainKeys, 11);
    assert OptionalCurrencyParams[11] == Subunits;
    if "subunits" in p {
      SubunitsAccepted(p["subunits"]);
    }
  }

  /** Update answers 201 with the currency exactly when the parameters are valid and the update
      succeeds. The stored currency then takes every supplied parameter and keeps every
      attribute that was not supplied; otherwise the answer is 422 and nothing changes. */
  lemma UpdateResponds(records: Records, p: Params, blockchainKeys: set<string>, updateOk: bool, modelErrors: seq<string>)
    ensures var (after, resp) := UpdateStep(records, p, blockchainKeys, updateOk, modelErrors);
      && (resp.status == 201 <==> ValidateUpdate(p, records.Keys, blockchainKeys).Success? && updateOk)
      && (resp.status != 201 ==> resp.status == 422 && after == records)
      && (ValidateUpdate(p, records.Keys, blockchainKeys).Failure? ==>
            resp.body == ValidationErrors(ValidateUpdate(p, records.Keys, blockchainKeys).error))
      && (resp.status == 201 ==> "code" in p)
      && (resp.status == 201 && "code" in p ==>
            var attrs, code, u := ValidateUpdate(p, records.Keys, blockchainKeys).value, p["code"], resp.body.currency;
            && code in records
            && after == records[code := u]
            && u.Keys == records[code].Keys + attrs.Keys
            && (forall k :: k in attrs ==> u[k] == attrs[k])
            && (forall k :: k in records[code] && k !in p ==> u[k] == records[code][k]))
  {
    var codes := records.Keys;
    UpdateRequiresExistingCode(p, codes, blockchainKeys);
    if ValidateUpdate(p, codes, blockchainKeys).Success? {
      UpdateAppliesNoDefaults(p, codes, blockchainKeys);
    }
  }

  /** Update changes `subunits` only when it was supplied, and then to the supplied integer. */
  lemma UpdateAssignsSubunits(records: Records, p: Params, blockchainKeys: set<string>, updateOk: bool, modelErrors: seq<string>)
    requires UpdateStep(records, p, blockchainKeys, updateOk, modelErrors).1.status == 201
    ensures "code" in p
    ensures var code, u := p["code"], UpdateStep(records, p, blockchainKeys, updateOk, modelErrors).1.body.currency;
      && code in records
      && ("subunits" in p ==> "subunits" in u && u["subunits"] == Some(p["subunits"]))
      && ("subunits" !in p && "subunits" in records[code] ==> "subunits" in u && u["subunits"] == records[code]["subunits"])
  {
    UpdateResponds(records, p, blockchainKeys, updateOk, modelErrors);
    var codes := records.Keys;
    UpdateAppliesNoDefaults(p, codes, blockchainKeys);
    if "subunits" in p {
      assert OptionalCurrencyParams[11] == Subunits;
      SubunitsAccepted(p["subunits"]);
    }
  }

  /** An update naming no stored currency is answered 422 and changes nothing. */
  lemma UpdateOfUnknownCodeRejected(records: Records, p: Params, blockchainKeys: set<string>, updateOk: bool, modelErrors: seq<string>)
    requires "code" !in p || p["code"] !in records
    ensures var (after, resp) := UpdateStep(records, p, blockchainKeys, updateOk, modelErrors);
      && after == records
      && resp.status == 422
      && resp.body.ValidationErrors?
      && ("code" !in p ==> Missing("code") in resp.body.errors)
      && ("code" in p ==> Invalid("code", "admin.currency.doesnt_exist") in resp.body.errors)
  {
    UpdateRequiresExistingCode(p, records.Keys, blockchainKeys);
  }

  /** The stored currencies, changed in place by the two endpoints. */
  class CurrencyTable {
    var records: Records

    constructor (records: Records)
      ensures this.records == records
    {
      this.records := records;
    }

    /** `post '/currencies/new'`; `saveOk` is what `currency.save` returns. */
    method Create(p: Params, blockchainKeys: set<string>, saveOk: bool, modelErrors: seq<string>) returns (resp: Response)
      modifies this
      ensures (records, resp) == CreateStep(old(records), p, blockchainKeys, saveOk, modelErrors)
    {
      var validated := ValidateCreate(p, blockchainKeys);
      if validated.Failure? {
        resp := Response(422, ValidationErrors(validated.error));
        return;
      }
      var attrs := validated.value;
      CreateDeclaresCode(p, blockchainKeys);
      CreateSubunitsInRange(p, blockchainKeys);
      var currency := attrs - {"subunits"};
      currency := currency["subunits" := attrs["subunits"]];
      if saveOk && p["code"] !in records {
        records := records[p["code"] := currency];
        resp := Response(201, CurrencyEntity(currency));
      } else {
        resp := Response(422, ModelErrors(modelErrors));
      }
    }

    /** `post '/currencies/update'`; `updateOk` is what `currency.update(...)` returns. */
    method Update(p: Params, blockchainKeys: set<string>, updateOk: bool, modelErrors: seq<string>) returns (resp: Response)
      modifies this
      ensures (records, resp) == UpdateStep(old(records), p, blockchainKeys, updateOk, modelErrors)
    {
      var validated := ValidateUpdate(p, records.Keys, blockchainKeys);
      if validated.Failure? {
        resp := Response(422, ValidationErrors(validated.error));
        return;
      }
      var attrs := validated.value;
      UpdateRequiresExistingCode(p, records.Keys, blockchainKeys);
      var code := p["code"];
      var currency := records[code];
      if "subunits" in attrs {
        currency := currency["subunits" := attrs["subunits"]];
      }
      currency := currency + (attrs - {"subunits"});
      if updateOk {
        records := records[code := currency];
        resp := Response(201, CurrencyEntity(currency));
      } else {
        resp := Response(422, ModelErrors(modelErrors));
      }
    }
  }
}
