/** Parameter validation of the admin currency endpoints (`API::V2::Admin::Currencies`):
    the `OPTIONAL_CURRENCY_PARAMS` rule table, the parameter blocks of `post '/currencies/new'`
    and `post '/currencies/update'`, and what Grape makes of them: a list of validation
    errors, or the `declared(params)` map the endpoint body receives. */
module CurrencyParams {
  import opened Wrappers

  /** A request parameter as received. Decimal amounts are exact (BigDecimal), so `real`. */
  datatype Value = Decimal(d: real) | Integer(i: int) | Boolean(b: bool) | Text(s: string) | Json(doc: string)

  /** The request's parameters by name. */
  type Params = map<string, Value>

  /** `declared(params)`: values of declared parameters, `None` standing for nil. */
  type Attrs = map<string, Option<Value>>

  datatype ParamType = BigDecimalType | IntegerType | BooleanType | JsonType

  /** The `type:` option of a parameter, with the message of its coercion failure. */
  datatype Coercion = Untyped | Typed(ty: ParamType, message: string)

  /** The `values:` option of a parameter, with the message of its failure. */
  datatype Check =
    | NoCheck
    | NonNegative(message: string)
    | InRange(lo: int, hi: int, message: string)
    | OneOf(allowed: set<Value>, message: string)

  /** One declared parameter: `requires` or `optional`, its options and its `default:`. */
  datatype Rule = Rule(name: string, required: bool, coercion: Coercion, check: Check, default: Option<Value>)

  datatype Error = Invalid(param: string, message: string) | Missing(param: string)

  // ---------------------------------------------------------------------------
  // The rule table

  /** An optional, non-negative BigDecimal amount that defaults to 0.0. */
  function Amount(name: string, typeMessage: string, valuesMessage: string): Rule {
    Rule(name, false, Typed(BigDecimalType, typeMessage), NonNegative(valuesMessage), Some(Decimal(0.0)))
  }

  const Name := Rule("name", false, Untyped, NoCheck, None)
  const DepositFee := Amount("deposit_fee",
    "admin.currency.non_decimal_deposit_fee", "admin.currency.invalid_deposit_fee")
  const MinDepositAmount := Amount("min_deposit_amount",
    "admin.currency.min_deposit_amount", "admin.currency.min_deposit_amount")
  const MinCollectionAmount := Amount("min_collection_amount",
    "admin.currency.non_decimal_min_collection_amount", "admin.currency.invalid_min_collection_amount")
  const WithdrawFee := Amount("withdraw_fee",
    "admin.currency.non_decimal_withdraw_fee", "admin.currency.ivalid_withdraw_fee")
  const MinWithdrawAmount := Amount("min_withdraw_amount",
    "admin.currency.non_decimal_min_withdraw_amount", "admin.currency.invalid_min_withdraw_amount")
  const WithdrawLimit24h := Amount("withdraw_limit_24h",
    "admin.currency.non_decimal_withdraw_limit_24h", "admin.currency.invalid_withdraw_limit_24h")
  const WithdrawLimit72h := Amount("withdraw_limit_72h",
    "admin.currency.non_decimal_withdraw_limit_72h", "admin.currency.invalid_withdraw_limit_72h")
  const Position := Rule("position", false,
    Typed(IntegerType, "admin.currency.non_integer_position"), NoCheck, Some(Integer(0)))
  /** The JSON `options` parameter; its default is the number 0.0, as the table has it. */
  const Options := Rule("options", false,
    Typed(JsonType, "admin.currency.non_json_options"), NoCheck, Some(Decimal(0.0)))
  const Enabled := Rule("enabled", false,
    Typed(BooleanType, "admin.currency.non_boolean_enabled"), NoCheck, Some(Boolean(true)))
  const Subunits := Rule("subunits", false,
    Typed(IntegerType, "admin.currency.non_integer_subunits"),
    InRange(0, 18, "admin.currency.invalid_subunits"), Some(Integer(0)))
  const Precision := Rule("precision", false,
    Typed(IntegerType, "admin.currency.non_integer_base_precision"), NoCheck, Some(Integer(8)))
  const IconUrl := Rule("icon_url", false, Untyped, NoCheck, None)

  /** `OPTIONAL_CURRENCY_PARAMS`, in declaration order. */
  const OptionalCurrencyParams: seq<Rule> := [
    Name, DepositFee, MinDepositAmount, MinCollectionAmount, WithdrawFee, MinWithdrawAmount,
    WithdrawLimit24h, WithdrawLimit72h, Position, Options, Enabled, Subunits, Precision, IconUrl]

  /** The seven amounts that must not be negative. */
  const AmountParams: seq<Rule> := [
    DepositFee, MinDepositAmount, MinCollectionAmount, WithdrawFee, MinWithdrawAmount,
    WithdrawLimit24h, WithdrawLimit72h]

  /** `Currency.types`. */
  const CurrencyTypes: set<Value> := {Text("fiat"), Text("coin")}

  /** `params.except(:default)` applied to every rule: the update block's table. */
  function StripDefaults(rules: seq<Rule>): (r: seq<Rule>)
    ensures |r| == |rules|
    ensures forall i :: 0 <= i < |rules| ==> r[i] == rules[i].(default := None)
  {
    seq(|rules|, i requires 0 <= i < |rules| => rules[i].(default := None))
  }

  function KeyValues(keys: set<string>): set<Value> {
    set k | k in keys :: Text(k)
  }

  const TypeParam := Rule("type", false, Untyped, OneOf(CurrencyTypes, "admin.currency.invalid_type"), Some(Text("coin")))

  function BlockchainKeyParam(blockchainKeys: set<string>, required: bool): Rule {
    Rule("blockchain_key", required, Untyped,
      OneOf(KeyValues(blockchainKeys), "admin.currency.blockchain_key_doesnt_exist"), None)
  }

  /** `blockchain_key` when the `given` condition fails: Grape skips its validators, but
      `declared(params)` still holds it, with its raw value or nil. */
  const UncheckedBlockchainKey := Rule("blockchain_key", false, Untyped, NoCheck, None)

  /** `given type: ->(val) { val == 'coin' }`, on the type after its default. */
  predicate TypeIsCoin(p: Params) {
    "type" !in p || p["type"] == Text("coin")
  }

  /** The parameter block of `post '/currencies/new'`. */
  function CreateRules(p: Params, blockchainKeys: set<string>): seq<Rule> {
    OptionalCurrencyParams
      + [Rule("code", true, Untyped, NoCheck, None), Rule("symbol", true, Untyped, NoCheck, None), TypeParam]
      + [if TypeIsCoin(p) then BlockchainKeyParam(blockchainKeys, true) else UncheckedBlockchainKey]
  }

  /** The parameter block of `post '/currencies/update'`; `codes` are the stored currency codes. */
  function UpdateRules(codes: set<Value>, blockchainKeys: set<string>): seq<Rule> {
    StripDefaults(OptionalCurrencyParams)
      + [Rule("code", true, Untyped, OneOf(codes, "admin.currency.doesnt_exist"), None),
         Rule("symbol", false, Untyped, NoCheck, None),
         BlockchainKeyParam(blockchainKeys, false)]
  }

  // ---------------------------------------------------------------------------
  // Validation of one parameter

  /** A value that already has type `ty`. */
  predicate HasType(ty: ParamType, v: Value) {
    match ty
    case BigDecimalType => v.Decimal?
    case IntegerType => v.Integer?
    case BooleanType => v.Boolean?
    case JsonType => v.Json?
  }

  /** Grape's coercion to the declared type; an Integer is accepted as a BigDecimal. A
      coerced value has the type, and a value that has it already is left as it is. */
  function Coerce(ty: ParamType, v: Value): (r: Option<Value>)
    ensures r.Some? ==> HasType(ty, r.value)
    ensures HasType(ty, v) ==> r == Some(v)
    ensures r.None? <==> !HasType(ty, v) && !(ty == BigDecimalType && v.Integer?)
  {
    match (ty, v)
    case (BigDecimalType, Decimal(d)) => Some(Decimal(d))
    case (BigDecimalType, Integer(i)) => Some(Decimal(i as real))
    case (IntegerType, Integer(i)) => Some(Integer(i))
    case (BooleanType, Boolean(b)) => Some(Boolean(b))
    case (JsonType, Json(j)) => Some(Json(j))
    case _ => None
  }

  predicate Satisfies(c: Check, v: Value) {
    match c
    case NoCheck => true
    case NonNegative(_) => (v.Decimal? && v.d >= 0.0) || (v.Integer? && v.i >= 0)
    case InRange(lo, hi, _) => v.Integer? && lo <= v.i <= hi
    case OneOf(allowed, _) => v in allowed
  }

  /** A supplied value: coerced, then checked. A failed coercion is the parameter's only error. */
  function Accept(r: Rule, v: Value): (res: Result<Value, Error>)
    ensures res.Failure? ==> res.error.param == r.name
    ensures res.Success? ==> Satisfies(r.check, res.value)
    ensures res.Success? && r.coercion.Typed? ==> HasType(r.coercion.ty, res.value)
    ensures r.coercion.Untyped? ==> (res.Success? <==> Satisfies(r.check, v))
    ensures r.coercion.Untyped? && res.Success? ==> res.value == v
  {
    var coerced := match r.coercion
      case Untyped => Some(v)
      case Typed(ty, _) => Coerce(ty, v);
    if coerced.None? then Failure(Invalid(r.name, r.coercion.message))
    else if Satisfies(r.check, coerced.value) then Success(coerced.value)
    else Failure(Invalid(r.name, r.check.message))
  }

  /** The errors one rule draws from the request: at most one, about that parameter, and none
      exactly when a supplied value is accepted or a missing parameter is optional. */
  function ErrorsOf(r: Rule, p: Params): (es: seq<Error>)
    ensures |es| <= 1
    ensures forall i :: 0 <= i < |es| ==> es[i].param == r.name
    ensures es == [] <==> if r.name in p then Accept(r, p[r.name]).Success? else !r.required
  {
    if r.name in p then
      (match Accept(r, p[r.name]) case Failure(e) => [e] case Success(_) => [])
    else if r.required then [Missing(r.name)]
    else []
  }

  /** All validation errors, in declaration order: at most one per rule, each about a
      declared parameter. */
  function Errors(rules: seq<Rule>, p: Params): (es: seq<Error>)
    ensures |es| <= |rules|
    ensures forall i :: 0 <= i < |es| ==> exists j :: 0 <= j < |rules| && rules[j].name == es[i].param
  {
    if rules == [] then []
    else
      var head, rest := ErrorsOf(rules[0], p), Errors(rules[1..], p);
      assert forall j :: 0 <= j < |rules[1..]| ==> rules[1..][j] == rules[j + 1];
      assert forall i :: 0 <= i < |rest| ==> (head + rest)[|head| + i] == rest[i];
      head + rest
  }

  /** `declared(params)`; with `includeMissing` false, `declared(params, include_missing: false)`. */
  function Declared(rules: seq<Rule>, p: Params, includeMissing: bool): (d: Attrs)
    ensures forall k :: k in d ==> exists j :: 0 <= j < |rules| && rules[j].name == k
    ensures !includeMissing ==> d.Keys <= p.Keys
  {
    if rules == [] then map[]
    else
      var rest := Declared(rules[1..], p, includeMissing);
      var r := rules[0];
      assert forall j :: 0 <= j < |rules[1..]| ==> rules[1..][j] == rules[j + 1];
      if r.name in p then
        match Accept(r, p[r.name])
        case Success(v) => rest[r.name := Some(v)]
        case Failure(_) => rest
      else if includeMissing then rest[r.name := r.default]
      else rest
  }

  /** The request of `post '/currencies/new'`: its errors, or its declared parameters. */
  function ValidateCreate(p: Params, blockchainKeys: set<string>): Result<Attrs, seq<Error>> {
    var rules := CreateRules(p, blockchainKeys);
    var errors := Errors(rules, p);
    if errors != [] then Failure(errors) else Success(Declared(rules, p, true))
  }

  /** The request of `post '/currencies/update'`: its errors, or its supplied parameters. */
  function ValidateUpdate(p: Params, codes: set<Value>, blockchainKeys: set<string>): Result<Attrs, seq<Error>> {
    var rules := UpdateRules(codes, blockchainKeys);
    var errors := Errors(rules, p);
    if errors != [] then Failure(errors) else Success(Declared(rules, p, false))
  }

  // ---------------------------------------------------------------------------
  // General facts about the validator

  predicate DistinctNames(rules: seq<Rule>) {
    forall i, j :: 0 <= i < j < |rules| ==> rules[i].name != rules[j].name
  }

  /** An error is reported exactly when some rule draws it. */
  lemma {:induction false} ErrorsCollected(rules: seq<Rule>, p: Params, e: Error)
    ensures e in Errors(rules, p) <==> exists i :: 0 <= i < |rules| && e in ErrorsOf(rules[i], p)
    decreases |rules|
  {
    if rules != [] {
      ErrorsCollected(rules[1..], p, e);
      if e in Errors(rules[1..], p) {
        var i :| 0 <= i < |rules[1..]| && e in ErrorsOf(rules[1..][i], p);
        assert rules[i + 1] == rules[1..][i];
      }
      if exists i :: 0 <= i < |rules| && e in ErrorsOf(rules[i], p) {
        var i :| 0 <= i < |rules| && e in ErrorsOf(rules[i], p);
        if i > 0 {
          assert rules[1..][i - 1] == rules[i];
        }
      }
    }
  }

  /** A request is accepted only when no rule draws an error. */
  lemma ErrorsEmpty(rules: seq<Rule>, p: Params, i: nat)
    requires i < |rules| && Errors(rules, p) == []
    ensures ErrorsOf(rules[i], p) == []
  {
    if ErrorsOf(rules[i], p) != [] {
      ErrorsCollected(rules, p, ErrorsOf(rules[i], p)[0]);
    }
  }

  /** What `declared` holds for each declared parameter: the coerced value when it was supplied
      and valid, otherwise its default when missing ones are included, otherwise nothing; and no
      name that is not declared. */
  lemma {:induction false} DeclaredHolds(rules: seq<Rule>, p: Params, includeMissing: bool, i: nat)
    requires DistinctNames(rules) && i < |rules|
    ensures var d, r := Declared(rules, p, includeMissing), rules[i];
      && (r.name in d <==> (r.name in p && Accept(r, p[r.name]).Success?) || (r.name !in p && includeMissing))
      && (r.name in d && r.name in p ==> d[r.name].Some? && Accept(r, p[r.name]) == Success(d[r.name].value))
      && (r.name in d && r.name !in p ==> d[r.name] == r.default)
    decreases |rules|
  {
    var rest := Declared(rules[1..], p, includeMissing);
    assert DistinctNames(rules[1..]) by {
      forall a, b | 0 <= a < b < |rules[1..]| ensures rules[1..][a].name != rules[1..][b].name {
        assert rules[1..][a] == rules[a + 1] && rules[1..][b] == rules[b + 1];
      }
    }
    if i > 0 {
      assert rules[1..][i - 1] == rules[i];
      assert rules[0].name != rules[i].name;
      DeclaredHolds(rules[1..], p, includeMissing, i - 1);
    } else {
      assert forall j :: 0 <= j < |rules[1..]| ==> rules[1..][j].name != rules[0].name by {
        forall j | 0 <= j < |rules[1..]| ensures rules[1..][j].name != rules[0].name {
          assert rules[1..][j] == rules[j + 1];
        }
      }
      UndeclaredName(rules[1..], p, includeMissing, rules[0].name);
    }
  }

  /** A name that no rule declares is absent from `declared`. */
  lemma {:induction false} UndeclaredName(rules: seq<Rule>, p: Params, includeMissing: bool, k: string)
    requires forall i :: 0 <= i < |rules| ==> rules[i].name != k
    ensures k !in Declared(rules, p, includeMissing)
    decreases |rules|
  {
    if rules != [] {
      assert forall i :: 0 <= i < |rules[1..]| ==> rules[1..][i] == rules[i + 1];
      UndeclaredName(rules[1..], p, includeMissing, k);
    }
  }

  lemma {:induction false} DeclaredOnlySupplied(rules: seq<Rule>, p: Params, k: string)
    requires k in Declared(rules, p, false)
    ensures k in p && Declared(rules, p, false)[k].Some?
    decreases |rules|
  {
    if !(rules[0].name == k && k in p && Accept(rules[0], p[k]).Success?) {
      DeclaredOnlySupplied(rules[1..], p, k);
    }
  }

  lemma DistinctAppend(a: seq<Rule>, b: seq<Rule>)
    requires DistinctNames(a) && DistinctNames(b)
    requires forall i, j :: 0 <= i < |a| && 0 <= j < |b| ==> a[i].name != b[j].name
    ensures DistinctNames(a + b)
  {
    forall i, j | 0 <= i < j < |a + b| ensures (a + b)[i].name != (a + b)[j].name {
      if j < |a| {
        assert (a + b)[i] == a[i] && (a + b)[j] == a[j];
      } else if i < |a| {
        assert (a + b)[i] == a[i] && (a + b)[j] == b[j - |a|];
      } else {
        assert (a + b)[i] == b[i - |a|] && (a + b)[j] == b[j - |a|];
      }
    }
  }

  /** The names that the endpoints declare besides the table's. */
  const EndpointNames: set<string> := {"code", "symbol", "type", "blockchain_key"}

  lemma TableNames()
    ensures DistinctNames(OptionalCurrencyParams)
    ensures forall i :: 0 <= i < |OptionalCurrencyParams| ==> OptionalCurrencyParams[i].name !in EndpointNames
  {
  }

  lemma CreateRulesDistinct(p: Params, blockchainKeys: set<string>)
    ensures DistinctNames(CreateRules(p, blockchainKeys))
  {
    TableNames();
    var extra := [Rule("code", true, Untyped, NoCheck, None), Rule("symbol", true, Untyped, NoCheck, None), TypeParam]
      + [if TypeIsCoin(p) then BlockchainKeyParam(blockchainKeys, true) else UncheckedBlockchainKey];
    assert forall j :: 0 <= j < |extra| ==> extra[j].name in EndpointNames;
    assert CreateRules(p, blockchainKeys) == OptionalCurrencyParams + extra;
    DistinctAppend(OptionalCurrencyParams, extra);
  }

  lemma UpdateRulesDistinct(codes: set<Value>, blockchainKeys: set<string>)
    ensures DistinctNames(UpdateRules(codes, blockchainKeys))
  {
    TableNames();
    var stripped := StripDefaults(OptionalCurrencyParams);
    var extra := [Rule("code", true, Untyped, OneOf(codes, "admin.currency.doesnt_exist"), None),
                  Rule("symbol", false, Untyped, NoCheck, None),
                  BlockchainKeyParam(blockchainKeys, false)];
    assert forall i :: 0 <= i < |stripped| ==> stripped[i].name == OptionalCurrencyParams[i].name;
    assert forall j :: 0 <= j < |extra| ==> extra[j].name in EndpointNames;
    DistinctAppend(stripped, extra);
  }

  // ---------------------------------------------------------------------------
  // The rules of the two endpoints

  /** An amount is accepted exactly when it is a number that is not negative; it is declared
      as that BigDecimal. A non-number draws the type message, a negative number the values one. */
  lemma AmountAccepted(r: Rule, v: Value)
    requires r in AmountParams
    ensures Accept(r, v).Success? <==> (v.Decimal? && v.d >= 0.0) || (v.Integer? && v.i >= 0)
    ensures v.Decimal? && v.d >= 0.0 ==> Accept(r, v) == Success(v)
    ensures v.Integer? && v.i >= 0 ==> Accept(r, v) == Success(Decimal(v.i as real))
    ensures (v.Decimal? && v.d < 0.0) || (v.Integer? && v.i < 0) ==> Accept(r, v) == Failure(Invalid(r.name, r.check.message))
    ensures !v.Decimal? && !v.Integer? ==> Accept(r, v) == Failure(Invalid(r.name, r.coercion.message))
  {
  }

  /** `subunits` is accepted exactly as an integer in 0..18. */
  lemma SubunitsAccepted(v: Value)
    ensures Accept(Subunits, v).Success? <==> v.Integer? && 0 <= v.i <= 18
    ensures Accept(Subunits, v).Success? ==> Accept(Subunits, v).value == v
  {
  }

  lemma OptionalInCreate(p: Params, blockchainKeys: set<string>, i: nat)
    requires i < |OptionalCurrencyParams|
    ensures CreateRules(p, blockchainKeys)[i] == OptionalCurrencyParams[i]
  {
  }

  lemma OptionalInUpdate(codes: set<Value>, blockchainKeys: set<string>, i: nat)
    requires i < |OptionalCurrencyParams|
    ensures UpdateRules(codes, blockchainKeys)[i] == OptionalCurrencyParams[i].(default := None)
  {
  }

  /** Where each amount sits in the table. */
  lemma AmountIndex(r: Rule) returns (i: nat)
    requires r in AmountParams
    ensures 1 <= i <= 7 && OptionalCurrencyParams[i] == r
  {
    assert AmountParams == OptionalCurrencyParams[1..8];
    var j :| 0 <= j < 7 && AmountParams[j] == r;
    i := j + 1;
  }

  /** A negative amount fails both requests with the amount's own message. */
  lemma NegativeAmountRejected(p: Params, blockchainKeys: set<string>, codes: set<Value>, r: Rule)
    requires r in AmountParams && r.name in p
    requires (p[r.name].Decimal? && p[r.name].d < 0.0) || (p[r.name].Integer? && p[r.name].i < 0)
    ensures ValidateCreate(p, blockchainKeys).Failure?
    ensures Invalid(r.name, r.check.message) in ValidateCreate(p, blockchainKeys).error
    ensures ValidateUpdate(p, codes, blockchainKeys).Failure?
    ensures Invalid(r.name, r.check.message) in ValidateUpdate(p, codes, blockchainKeys).error
  {
    var e := Invalid(r.name, r.check.message);
    AmountAccepted(r, p[r.name]);
    var i := AmountIndex(r);
    OptionalInCreate(p, blockchainKeys, i);
    assert e in ErrorsOf(CreateRules(p, blockchainKeys)[i], p);
    ErrorsCollected(CreateRules(p, blockchainKeys), p, e);
    OptionalInUpdate(codes, blockchainKeys, i);
    assert Accept(r.(default := None), p[r.name]) == Accept(r, p[r.name]);
    assert e in ErrorsOf(UpdateRules(codes, blockchainKeys)[i], p);
    ErrorsCollected(UpdateRules(codes, blockchainKeys), p, e);
  }

  /** A `subunits` outside 0..18, or not an integer, fails both requests: an integer out of
      range with `invalid_subunits`, anything else with `non_integer_subunits`. */
  lemma BadSubunitsRejected(p: Params, blockchainKeys: set<string>, codes: set<Value>)
    requires "subunits" in p && !(p["subunits"].Integer? && 0 <= p["subunits"].i <= 18)
    ensures ValidateCreate(p, blockchainKeys).Failure?
    ensures ValidateUpdate(p, codes, blockchainKeys).Failure?
    ensures var e := if p["subunits"].Integer? then Invalid("subunits", "admin.currency.invalid_subunits")
                     else Invalid("subunits", "admin.currency.non_integer_subunits");
      e in ValidateCreate(p, blockchainKeys).error && e in ValidateUpdate(p, codes, blockchainKeys).error
  {
    var v := p["subunits"];
    var e := if v.Integer? then Invalid("subunits", "admin.currency.invalid_subunits")
             else Invalid("subunits", "admin.currency.non_integer_subunits");
    assert Accept(Subunits, v) == Failure(e);
    assert Accept(Subunits.(default := None), v) == Failure(e);
    var create, update := CreateRules(p, blockchainKeys), UpdateRules(codes, blockchainKeys);
    OptionalInCreate(p, blockchainKeys, 11);
    assert e in ErrorsOf(create[11], p);
    ErrorsCollected(create, p, e);
    OptionalInUpdate(codes, blockchainKeys, 11);
    assert e in ErrorsOf(update[11], p);
    ErrorsCollected(update, p, e);
  }

  /** Removing a rule's default leaves what it draws and declares without missing ones. */
  lemma StripOneDefault(r: Rule, p: Params)
    ensures ErrorsOf(r.(default := None), p) == ErrorsOf(r, p)
    ensures r.name in p ==> Accept(r.(default := None), p[r.name]) == Accept(r, p[r.name])
  {
  }

  lemma {:induction false} StripDefaultsKeepsErrors(rules: seq<Rule>, p: Params)
    ensures Errors(StripDefaults(rules), p) == Errors(rules, p)
    decreases |rules|
  {
    if rules != [] {
      var stripped := StripDefaults(rules);
      assert stripped[1..] == StripDefaults(rules[1..]);
      StripOneDefault(rules[0], p);
      StripDefaultsKeepsErrors(rules[1..], p);
      assert Errors(stripped, p) == ErrorsOf(stripped[0], p) + Errors(stripped[1..], p);
    }
  }

  lemma {:induction false} StripDefaultsKeepsDeclared(rules: seq<Rule>, p: Params)
    ensures Declared(StripDefaults(rules), p, false) == Declared(rules, p, false)
    decreases |rules|
  {
    if rules != [] {
      var stripped := StripDefaults(rules);
      assert stripped[1..] == StripDefaults(rules[1..]);
      StripOneDefault(rules[0], p);
      StripDefaultsKeepsDeclared(rules[1..], p);
    }
  }

  /** The update table validates as the create table does: removing the defaults changes
      neither the errors of a request nor what `declared(params, include_missing: false)` holds. */
  lemma StripDefaultsKeepsValidation(rules: seq<Rule>, p: Params)
    ensures Errors(StripDefaults(rules), p) == Errors(rules, p)
    ensures Declared(StripDefaults(rules), p, false) == Declared(rules, p, false)
  {
    StripDefaultsKeepsErrors(rules, p);
    StripDefaultsKeepsDeclared(rules, p);
  }

  /** When the type is not `coin`, `blockchain_key` draws no error, yet an accepted create
      still declares it: the supplied value, or nil. */
  lemma NonCoinBlockchainKeyUnchecked(p: Params, blockchainKeys: set<string>)
    requires !TypeIsCoin(p)
    ensures forall e :: e in Errors(CreateRules(p, blockchainKeys), p) ==> e.param != "blockchain_key"
    ensures ValidateCreate(p, blockchainKeys).Success? ==>
      var attrs := ValidateCreate(p, blockchainKeys).value;
      && "blockchain_key" in attrs
      && attrs["blockchain_key"] == (if "blockchain_key" in p then Some(p["blockchain_key"]) else None)
  {
    var rules := CreateRules(p, blockchainKeys);
    CreateRulesDistinct(p, blockchainKeys);
    assert rules[17] == UncheckedBlockchainKey;
    forall e | e in Errors(rules, p) ensures e.param != "blockchain_key" {
      ErrorsCollected(rules, p, e);
      var i :| 0 <= i < |rules| && e in ErrorsOf(rules[i], p);
      if i != 17 {
        assert rules[i].name != rules[17].name;
      }
    }
    if ValidateCreate(p, blockchainKeys).Success? {
      DeclaredHolds(rules, p, true, 17);
    }
  }

  /** On create every optional parameter is declared: its coerced value when supplied, its
      default otherwise. */
  lemma CreateAppliesDefaults(p: Params, blockchainKeys: set<string>, i: nat)
    requires i < |OptionalCurrencyParams|
    requires ValidateCreate(p, blockchainKeys).Success?
    ensures var attrs, r := ValidateCreate(p, blockchainKeys).value, OptionalCurrencyParams[i];
      && r.name in attrs
      && (r.name in p ==> attrs[r.name].Some? && Accept(r, p[r.name]) == Success(attrs[r.name].value))
      && (r.name !in p ==> attrs[r.name] == r.default)
  {
    var rules := CreateRules(p, blockchainKeys);
    CreateRulesDistinct(p, blockchainKeys);
    OptionalInCreate(p, blockchainKeys, i);
    ErrorsEmpty(rules, p, i);
    DeclaredHolds(rules, p, true, i);
  }

  /** The defaults themselves: amounts 0, position 0, options 0.0, enabled, subunits 0,
      precision 8, and nil for name and icon_url. */
  lemma CreateDefaultValues(p: Params, blockchainKeys: set<string>)
    requires ValidateCreate(p, blockchainKeys).Success?
    ensures var attrs := ValidateCreate(p, blockchainKeys).value;
      && (forall r :: r in AmountParams && r.name !in p ==> r.name in attrs && attrs[r.name] == Some(Decimal(0.0)))
      && ("position" !in p ==> "position" in attrs && attrs["position"] == Some(Integer(0)))
      && ("options" !in p ==> "options" in attrs && attrs["options"] == Some(Decimal(0.0)))
      && ("enabled" !in p ==> "enabled" in attrs && attrs["enabled"] == Some(Boolean(true)))
      && ("subunits" !in p ==> "subunits" in attrs && attrs["subunits"] == Some(Integer(0)))
      && ("precision" !in p ==> "precision" in attrs && attrs["precision"] == Some(Integer(8)))
      && ("name" !in p ==> "name" in attrs && attrs["name"] == None)
      && ("icon_url" !in p ==> "icon_url" in attrs && attrs["icon_url"] == None)
  {
    CreateAppliesDefaults(p, blockchainKeys, 0);
    CreateAppliesDefaults(p, blockchainKeys, 8);
    CreateAppliesDefaults(p, blockchainKeys, 9);
    CreateAppliesDefaults(p, blockchainKeys, 10);
    CreateAppliesDefaults(p, blockchainKeys, 11);
    CreateAppliesDefaults(p, blockchainKeys, 12);
    CreateAppliesDefaults(p, blockchainKeys, 13);
    forall r | r in AmountParams && r.name !in p
      ensures r.name in ValidateCreate(p, blockchainKeys).value
      ensures ValidateCreate(p, blockchainKeys).value[r.name] == Some(Decimal(0.0))
    {
      var i := AmountIndex(r);
      CreateAppliesDefaults(p, blockchainKeys, i);
    }
  }

  /** An accepted create declares `subunits` as an integer in 0..18. */
  lemma CreateSubunitsInRange(p: Params, blockchainKeys: set<string>)
    requires ValidateCreate(p, blockchainKeys).Success?
    ensures var attrs := ValidateCreate(p, blockchainKeys).value;
      "subunits" in attrs && attrs["subunits"].Some? && attrs["subunits"].value.Integer?
      && 0 <= attrs["subunits"].value.i <= 18
  {
    CreateAppliesDefaults(p, blockchainKeys, 11);
    assert OptionalCurrencyParams[11] == Subunits;
    if "subunits" in p {
      SubunitsAccepted(p["subunits"]);
    }
  }

  /** On update only supplied parameters are declared, each with its coerced value, so a
      parameter left out cannot overwrite anything. */
  lemma UpdateAppliesNoDefaults(p: Params, codes: set<Value>, blockchainKeys: set<string>)
    requires ValidateUpdate(p, codes, blockchainKeys).Success?
    ensures var attrs := ValidateUpdate(p, codes, blockchainKeys).value;
      && attrs.Keys <= p.Keys
      && (forall k :: k in attrs ==> attrs[k].Some?)
      && (forall i :: 0 <= i < |OptionalCurrencyParams| && OptionalCurrencyParams[i].name in p ==>
            var r := OptionalCurrencyParams[i];
            r.name in attrs && attrs[r.name].Some? && Accept(r, p[r.name]) == Success(attrs[r.name].value))
  {
    var rules := UpdateRules(codes, blockchainKeys);
    var attrs := Declared(rules, p, false);
    forall k | k in attrs ensures k in p && attrs[k].Some? {
      DeclaredOnlySupplied(rules, p, k);
    }
    UpdateRulesDistinct(codes, blockchainKeys);
    forall i | 0 <= i < |OptionalCurrencyParams| && OptionalCurrencyParams[i].name in p
      ensures OptionalCurrencyParams[i].name in attrs
      ensures attrs[OptionalCurrencyParams[i].name].Some?
      ensures Accept(OptionalCurrencyParams[i], p[OptionalCurrencyParams[i].name]) == Success(attrs[OptionalCurrencyParams[i].name].value)
    {
      var r := OptionalCurrencyParams[i];
      OptionalInUpdate(codes, blockchainKeys, i);
      assert Accept(r.(default := None), p[r.name]) == Accept(r, p[r.name]);
      ErrorsEmpty(rules, p, i);
      DeclaredHolds(rules, p, false, i);
    }
  }

  /** On create a missing `type` is declared as `coin`, and `blockchain_key` must then be
      supplied and name an existing blockchain. */
  lemma CreateTypeDefaultsToCoin(p: Params, blockchainKeys: set<string>)
    requires ValidateCreate(p, blockchainKeys).Success? && "type" !in p
    ensures var attrs := ValidateCreate(p, blockchainKeys).value;
      && "type" in attrs && attrs["type"] == Some(Text("coin"))
      && "blockchain_key" in p && p["blockchain_key"] in KeyValues(blockchainKeys)
  {
    var rules := CreateRules(p, blockchainKeys);
    CreateRulesDistinct(p, blockchainKeys);
    assert rules[16] == TypeParam;
    DeclaredHolds(rules, p, true, 16);
    assert rules[17] == BlockchainKeyParam(blockchainKeys, true);
    ErrorsEmpty(rules, p, 17);
  }

  /** A `coin` create without a `blockchain_key`, or with an unknown one, is rejected. */
  lemma CoinRequiresBlockchainKey(p: Params, blockchainKeys: set<string>)
    requires TypeIsCoin(p)
    requires "blockchain_key" !in p || p["blockchain_key"] !in KeyValues(blockchainKeys)
    ensures ValidateCreate(p, blockchainKeys).Failure?
    ensures "blockchain_key" !in p ==> Missing("blockchain_key") in ValidateCreate(p, blockchainKeys).error
    ensures "blockchain_key" in p ==>
      Invalid("blockchain_key", "admin.currency.blockchain_key_doesnt_exist") in ValidateCreate(p, blockchainKeys).error
  {
    var rules := CreateRules(p, blockchainKeys);
    assert rules[17] == BlockchainKeyParam(blockchainKeys, true);
    ErrorsCollected(rules, p, ErrorsOf(rules[17], p)[0]);
  }

  /** A create whose `type` is not a currency type is rejected. */
  lemma CreateTypeMustBeKnown(p: Params, blockchainKeys: set<string>)
    requires "type" in p && p["type"] !in CurrencyTypes
    ensures ValidateCreate(p, blockchainKeys).Failure?
    ensures Invalid("type", "admin.currency.invalid_type") in ValidateCreate(p, blockchainKeys).error
  {
    var rules := CreateRules(p, blockchainKeys);
    assert rules[16] == TypeParam;
    ErrorsCollected(rules, p, Invalid("type", "admin.currency.invalid_type"));
  }

  /** A create without `code` or `symbol` is rejected. */
  lemma CreateRequiresCodeAndSymbol(p: Params, blockchainKeys: set<string>)
    requires "code" !in p || "symbol" !in p
    ensures ValidateCreate(p, blockchainKeys).Failure?
    ensures "code" !in p ==> Missing("code") in ValidateCreate(p, blockchainKeys).error
    ensures "symbol" !in p ==> Missing("symbol") in ValidateCreate(p, blockchainKeys).error
  {
    var rules := CreateRules(p, blockchainKeys);
    assert rules[14].name == "code" && rules[15].name == "symbol";
    if "code" !in p {
      ErrorsCollected(rules, p, Missing("code"));
    }
    if "symbol" !in p {
      ErrorsCollected(rules, p, Missing("symbol"));
    }
  }

  /** An accepted create declares the supplied `code`. */
  lemma CreateDeclaresCode(p: Params, blockchainKeys: set<string>)
    requires ValidateCreate(p, blockchainKeys).Success?
    ensures "code" in p
    ensures var attrs := ValidateCreate(p, blockchainKeys).value; "code" in attrs && attrs["code"] == Some(p["code"])
  {
    var rules := CreateRules(p, blockchainKeys);
    if "code" !in p {
      CreateRequiresCodeAndSymbol(p, blockchainKeys);
    }
    CreateRulesDistinct(p, blockchainKeys);
    assert rules[14] == Rule("code", true, Untyped, NoCheck, None);
    DeclaredHolds(rules, p, true, 14);
  }

  /** An update must name a stored currency: a missing or unknown `code` is rejected, and an
      accepted update declares the supplied, stored code. */
  lemma UpdateRequiresExistingCode(p: Params, codes: set<Value>, blockchainKeys: set<string>)
    ensures ValidateUpdate(p, codes, blockchainKeys).Success? ==>
      "code" in p && p["code"] in codes
      && "code" in ValidateUpdate(p, codes, blockchainKeys).value
      && ValidateUpdate(p, codes, blockchainKeys).value["code"] == Some(p["code"])
    ensures "code" !in p ==> Missing("code") in ValidateUpdate(p, codes, blockchainKeys).error
    ensures "code" in p && p["code"] !in codes ==>
      Invalid("code", "admin.currency.doesnt_exist") in ValidateUpdate(p, codes, blockchainKeys).error
  {
    var rules := UpdateRules(codes, blockchainKeys);
    assert rules[14] == Rule("code", true, Untyped, OneOf(codes, "admin.currency.doesnt_exist"), None);
    if "code" !in p || p["code"] !in codes {
      ErrorsCollected(rules, p, ErrorsOf(rules[14], p)[0]);
    } else if ValidateUpdate(p, codes, blockchainKeys).Success? {
      UpdateRulesDistinct(codes, blockchainKeys);
      DeclaredHolds(rules, p, false, 14);
    }
  }
}
