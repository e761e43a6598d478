/**
 * Which disclosure circuits a query needs, planned twice: by `build_proof_plan` in Rust and by
 * `buildDisclosurePlans` in JavaScript.
 */
module Planning {
  import opened Wrappers
  import opened Text
  import opened Json
  import opened Picking

  const DISCLOSE_BYTES := "disclose_bytes_evm"
  const COMPARE_AGE := "compare_age_evm"
  const IN_NATIONALITY := "inclusion_check_nationality_evm"
  const OUT_NATIONALITY := "exclusion_check_nationality_evm"
  const IN_ISSUING_COUNTRY := "inclusion_check_issuing_country_evm"
  const OUT_ISSUING_COUNTRY := "exclusion_check_issuing_country_evm"

  /** The six disclosure circuits, in the order both planners use. */
  const CIRCUITS := [DISCLOSE_BYTES, COMPARE_AGE, IN_NATIONALITY, OUT_NATIONALITY, IN_ISSUING_COUNTRY, OUT_ISSUING_COUNTRY]

  const SUPPORTED_QUERY_KEYS := [
    "age", "nationality", "issuing_country", "firstname", "lastname", "fullname", "birthdate",
    "expiry_date", "document_number", "document_type", "gender"]

  const MAX_DISCLOSURE_PROOFS := 10

  const DEFAULT_QUERY: map<string, Json> := map["nationality" := Object(map["disclose" := Bool(true)])]

  /** `resolved_circuits` by name, and the name of the outer circuit. */
  datatype ProofPlan = ProofPlan(disclosureCount: nat, outerCircuit: string, resolvedCircuits: seq<string>)

  // ----- the Rust planner

  function NormalizeQuery(query: Json): Result<map<string, Json>> {
    match query
    case Null => Ok(DEFAULT_QUERY)
    case Object(fields) =>
      if fields == map[] then Ok(DEFAULT_QUERY)
      else if forall key :: key in fields ==> key in SUPPORTED_QUERY_KEYS then Ok(fields)
      else Err
    case _ => Err
  }

  predicate DisclosesOrEquates(cfg: Json) {
    cfg.Object? && (cfg.Get("disclose") == Some(Bool(true)) || cfg.Has("eq"))
  }

  predicate HasDiscloseBytesRequirement(query: map<string, Json>) {
    exists key :: key in query && DisclosesOrEquates(query[key])
  }

  predicate HasAgeRequirement(query: map<string, Json>) {
    && "age" in query
    && exists key :: key in ["gte", "gt", "lte", "lt", "range", "eq", "disclose"] && query["age"].Has(key)
  }

  predicate HasNestedKey(query: map<string, Json>, field: string, key: string) {
    field in query && query[field].Has(key)
  }

  function Requirements(query: map<string, Json>): (flags: seq<bool>)
    ensures |flags| == |CIRCUITS|
  {
    [HasDiscloseBytesRequirement(query), HasAgeRequirement(query),
     HasNestedKey(query, "nationality", "in"), HasNestedKey(query, "nationality", "out"),
     HasNestedKey(query, "issuing_country", "in"), HasNestedKey(query, "issuing_country", "out")]
  }

  function OuterCircuit(disclosures: nat): string {
    "outer_evm_count_" + Decimal(3 + disclosures)
  }

  lemma OuterNames(disclosures: nat)
    requires 1 <= disclosures <= 6
    ensures OuterCircuit(disclosures)
         == ["outer_evm_count_4", "outer_evm_count_5", "outer_evm_count_6",
             "outer_evm_count_7", "outer_evm_count_8", "outer_evm_count_9"][disclosures - 1]
  {
    var d := '3' + disclosures as char;
    assert Decimal(3 + disclosures) == [d];
    assert OuterCircuit(disclosures) == "outer_evm_count_" + [d];
  }

  /** The disclosure circuits of a query, or an error. */
  function RustDisclosures(query: Json): Result<seq<string>> {
    var normalized :- NormalizeQuery(query);
    var names := Pick(CIRCUITS, Requirements(normalized));
    if names == [] then Err else Ok(names)
  }

  /** The pushes of `build_proof_plan`, up to the outer circuit. */
  method ResolveDisclosures(query: map<string, Json>) returns (circuits: seq<string>)
    ensures circuits == Pick(CIRCUITS, Requirements(query))
  {
    hide Pick, HasDiscloseBytesRequirement, HasAgeRequirement, HasNestedKey;
    ghost var flags := Requirements(query);
    circuits := [];
    if HasDiscloseBytesRequirement(query) {
      circuits := circuits + [DISCLOSE_BYTES];
    }
    assert circuits == Pushed(CIRCUITS, flags, 1);
    if HasAgeRequirement(query) {
      circuits := circuits + [COMPARE_AGE];
    }
    assert circuits == Pushed(CIRCUITS, flags, 2);
    if HasNestedKey(query, "nationality", "in") {
      circuits := circuits + [IN_NATIONALITY];
    }
    assert circuits == Pushed(CIRCUITS, flags, 3);
    if HasNestedKey(query, "nationality", "out") {
      circuits := circuits + [OUT_NATIONALITY];
    }
    assert circuits == Pushed(CIRCUITS, flags, 4);
    if HasNestedKey(query, "issuing_country", "in") {
      circuits := circuits + [IN_ISSUING_COUNTRY];
    }
    assert circuits == Pushed(CIRCUITS, flags, 5);
    if HasNestedKey(query, "issuing_country", "out") {
      circuits := circuits + [OUT_ISSUING_COUNTRY];
    }
    assert circuits == Pushed(CIRCUITS, flags, 6);
    PushesPick(CIRCUITS, flags);
  }

  /** `valid` is the outcome of the fixture's own validation. */
  method BuildProofPlan(valid: bool, query: Json) returns (r: Result<ProofPlan>)
    ensures r.Ok? <==> valid && RustDisclosures(query).Ok?
    ensures r.Ok? ==>
              var plan, names := r.value, RustDisclosures(query).value;
              && plan.disclosureCount == |names|
              && plan.outerCircuit == OuterCircuit(|names|)
              && plan.resolvedCircuits == names + [plan.outerCircuit]
              && 1 <= plan.disclosureCount <= 6
              && plan.outerCircuit
                 == ["outer_evm_count_4", "outer_evm_count_5", "outer_evm_count_6",
                     "outer_evm_count_7", "outer_evm_count_8", "outer_evm_count_9"][plan.disclosureCount - 1]
  {
    hide Pick, Requirements, OuterCircuit;
    if !valid {
      return Err;
    }
    var normalized :- NormalizeQuery(query);
    var circuits := ResolveDisclosures(normalized);
    if circuits == [] {
      return Err;
    }
    if |circuits| > MAX_DISCLOSURE_PROOFS {
      return Err;
    }
    var outer := OuterCircuit(|circuits|);
    PlanIsSmall(query);
    OuterNames(|circuits|);
    circuits := circuits + [outer];
    return Ok(ProofPlan(|circuits| - 1, outer, circuits));
  }

  // ----- the JavaScript planner

  function JsNormalizeQuery(query: Json): map<string, Json> {
    if query.Object? && query.fields != map[] then query.fields else DEFAULT_QUERY
  }

  /** `cfg.key` is truthy. */
  predicate HasTruthy(cfg: Json, key: string) {
    cfg.Has(key) && cfg.Get(key).value.Truthy()
  }

  /** `cfg.key != null`. */
  predicate HasNonNull(cfg: Json, key: string) {
    cfg.Has(key) && !cfg.Get(key).value.Null?
  }

  predicate JsDisclosesOrEquates(cfg: Json) {
    cfg.Truthy() && (HasTruthy(cfg, "disclose") || HasTruthy(cfg, "eq"))
  }

  predicate JsNeedsDiscloseBytes(query: map<string, Json>) {
    exists key :: key in query && JsDisclosesOrEquates(query[key])
  }

  predicate JsComparesAge(cfg: Json) {
    || (exists key :: key in ["gte", "gt", "lte", "lt", "range", "eq"] && HasNonNull(cfg, key))
    || HasTruthy(cfg, "disclose")
  }

  predicate JsNeedsAge(query: map<string, Json>) {
    "age" in query && query["age"].Truthy() && JsComparesAge(query["age"])
  }

  predicate JsNeeds(query: map<string, Json>, field: string, key: string) {
    field in query && query[field].Truthy() && HasTruthy(query[field], key)
  }

  function JsRequirements(query: map<string, Json>): (flags: seq<bool>)
    ensures |flags| == |CIRCUITS|
  {
    [JsNeedsDiscloseBytes(query), JsNeedsAge(query),
     JsNeeds(query, "nationality", "in"), JsNeeds(query, "nationality", "out"),
     JsNeeds(query, "issuing_country", "in"), JsNeeds(query, "issuing_country", "out")]
  }

  function JsDisclosures(query: Json): Result<seq<string>> {
    var names := Pick(CIRCUITS, JsRequirements(JsNormalizeQuery(query)));
    if names == [] then Err else Ok(names)
  }

  /** The pushes of `buildDisclosurePlans`. */
  method PushPlans(query: map<string, Json>) returns (plans: seq<string>)
    ensures plans == Pick(CIRCUITS, JsRequirements(query))
  {
    hide Pick, JsNeedsDiscloseBytes, JsNeedsAge, JsNeeds;
    ghost var flags := JsRequirements(query);
    plans := [];
    if JsNeedsDiscloseBytes(query) {
      plans := plans + [DISCLOSE_BYTES];
    }
    assert plans == Pushed(CIRCUITS, flags, 1);
    if JsNeedsAge(query) {
      plans := plans + [COMPARE_AGE];
    }
    assert plans == Pushed(CIRCUITS, flags, 2);
    if JsNeeds(query, "nationality", "in") {
      plans := plans + [IN_NATIONALITY];
    }
    assert plans == Pushed(CIRCUITS, flags, 3);
    if JsNeeds(query, "nationality", "out") {
      plans := plans + [OUT_NATIONALITY];
    }
    assert plans == Pushed(CIRCUITS, flags, 4);
    if JsNeeds(query, "issuing_country", "in") {
      plans := plans + [IN_ISSUING_COUNTRY];
    }
    assert plans == Pushed(CIRCUITS, flags, 5);
    if JsNeeds(query, "issuing_country", "out") {
      plans := plans + [OUT_ISSUING_COUNTRY];
    }
    assert plans == Pushed(CIRCUITS, flags, 6);
    PushesPick(CIRCUITS, flags);
  }

  method BuildDisclosurePlans(request: Json) returns (r: Result<seq<string>>)
    ensures r == JsDisclosures(request)
  {
    hide Pick, JsRequirements, JsNormalizeQuery;
    var plans := PushPlans(JsNormalizeQuery(request));
    if plans == [] {
      return Err;
    }
    return Ok(plans);
  }

  // ----- the circuits of a query, by its members

  /** The object `cfg` has this member. */
  predicate IsMember(cfg: Json, key: string) {
    cfg.Object? && key in cfg.fields
  }

  /** It has one with a value that JavaScript takes for true. */
  predicate IsSet(cfg: Json, key: string) {
    && IsMember(cfg, key)
    && cfg.fields[key] != Null && cfg.fields[key] != Bool(false)
    && cfg.fields[key] != Number(0.0) && cfg.fields[key] != String("")
  }

  lemma IsSetIff(cfg: Json, key: string)
    ensures IsSet(cfg, key) <==> HasTruthy(cfg, key)
  {
  }

  function When<T>(asked: bool, item: T): seq<T> {
    if asked then [item] else []
  }

  lemma {:induction false} PickSix<T>(items: seq<T>, flags: seq<bool>)
    requires |items| == |flags| == 6
    ensures Pick(items, flags)
         == When(flags[0], items[0]) + When(flags[1], items[1]) + When(flags[2], items[2])
          + When(flags[3], items[3]) + When(flags[4], items[4]) + When(flags[5], items[5])
  {
    hide Pick, Pushed, When;
    PushesPick(items, flags);
    PushOne(items, flags, 0);
    PushOne(items, flags, 1);
    PushOne(items, flags, 2);
    PushOne(items, flags, 3);
    PushOne(items, flags, 4);
    PushOne(items, flags, 5);
  }

  lemma {:induction false} PushOne<T>(items: seq<T>, flags: seq<bool>, k: nat)
    requires k < |items| == |flags|
    ensures Pushed(items, flags, k + 1)
         == if k == 0 then When(flags[k], items[k]) else Pushed(items, flags, k) + When(flags[k], items[k])
  {
  }

  /** The six names with the members that they stand for. */
  function Named(bytes: bool, age: bool, inNation: bool, outNation: bool, inIssuer: bool, outIssuer: bool): seq<string> {
    When(bytes, "disclose_bytes_evm") + When(age, "compare_age_evm")
    + When(inNation, "inclusion_check_nationality_evm") + When(outNation, "exclusion_check_nationality_evm")
    + When(inIssuer, "inclusion_check_issuing_country_evm") + When(outIssuer, "exclusion_check_issuing_country_evm")
  }

  lemma {:induction false} PickNamed(flags: seq<bool>)
    requires |flags| == 6
    ensures Pick(CIRCUITS, flags) == Named(flags[0], flags[1], flags[2], flags[3], flags[4], flags[5])
  {
    hide Pick, When;
    PickSix(CIRCUITS, flags);
  }

  /** A comparison, or a wish to disclose the age. */
  predicate HasAgeMember(cfg: Json) {
    || IsMember(cfg, "gte") || IsMember(cfg, "gt") || IsMember(cfg, "lte") || IsMember(cfg, "lt")
    || IsMember(cfg, "range") || IsMember(cfg, "eq") || IsMember(cfg, "disclose")
  }

  predicate IsNotNull(cfg: Json, key: string) {
    IsMember(cfg, key) && cfg.fields[key] != Null
  }

  predicate HasSetAgeMember(cfg: Json) {
    || IsNotNull(cfg, "gte") || IsNotNull(cfg, "gt") || IsNotNull(cfg, "lte") || IsNotNull(cfg, "lt")
    || IsNotNull(cfg, "range") || IsNotNull(cfg, "eq") || IsSet(cfg, "disclose")
  }

  /** A true `disclose`, or any `eq`. */
  predicate IsDisclosed(cfg: Json) {
    IsMember(cfg, "eq") || (IsMember(cfg, "disclose") && cfg.fields["disclose"] == Bool(true))
  }

  /**
   * What the Rust planner chooses: which members of the query plan which circuit, in which order,
   * and when there is no plan.
   */
  lemma RustPlanByMembers(fields: map<string, Json>)
    ensures var names := Named(
              exists field :: field in fields && IsDisclosed(fields[field]),
              "age" in fields && HasAgeMember(fields["age"]),
              "nationality" in fields && IsMember(fields["nationality"], "in"),
              "nationality" in fields && IsMember(fields["nationality"], "out"),
              "issuing_country" in fields && IsMember(fields["issuing_country"], "in"),
              "issuing_country" in fields && IsMember(fields["issuing_country"], "out"));
            RustDisclosures(Object(fields))
            == if fields == map[] then Ok(["disclose_bytes_evm"])
               else if (exists key :: key in fields && !IsSupported(key)) || names == [] then Err
               else Ok(names)
    ensures RustDisclosures(Null) == Ok(["disclose_bytes_evm"])
    ensures forall query: Json :: !query.Object? && !query.Null? ==> RustDisclosures(query) == Err
  {
    RustFlagsByMembers(fields);
    SupportedKeys();
    PickNamed(Requirements(fields));
    DefaultNames();
    hide Pick, Requirements, Named, IsMember, IsDisclosed, HasAgeMember, IsSupported;
  }

  /** The keys that a query may have. */
  predicate IsSupported(key: string) {
    || key == "age" || key == "nationality" || key == "issuing_country" || key == "firstname" || key == "lastname"
    || key == "fullname" || key == "birthdate" || key == "expiry_date" || key == "document_number"
    || key == "document_type" || key == "gender"
  }

  lemma SupportedKeys()
    ensures forall key :: key in SUPPORTED_QUERY_KEYS <==> IsSupported(key)
  {
    var keys := SUPPORTED_QUERY_KEYS;
    assert forall key :: key in keys <==>
      || key == keys[0] || key == keys[1] || key == keys[2] || key == keys[3] || key == keys[4] || key == keys[5]
      || key == keys[6] || key == keys[7] || key == keys[8] || key == keys[9] || key == keys[10];
  }

  lemma AgeByMembers(fields: map<string, Json>)
    ensures HasAgeRequirement(fields) <==> "age" in fields && HasAgeMember(fields["age"])
    ensures JsNeedsAge(fields) <==> "age" in fields && HasSetAgeMember(fields["age"])
  {
    if "age" in fields {
      AgeKeys(fields["age"]);
    }
  }

  lemma AgeKeys(cfg: Json)
    ensures (exists key :: key in ["gte", "gt", "lte", "lt", "range", "eq", "disclose"] && cfg.Has(key)) <==> HasAgeMember(cfg)
    ensures (exists key :: key in ["gte", "gt", "lte", "lt", "range", "eq"] && HasNonNull(cfg, key))
       <==> || IsNotNull(cfg, "gte") || IsNotNull(cfg, "gt") || IsNotNull(cfg, "lte") || IsNotNull(cfg, "lt")
            || IsNotNull(cfg, "range") || IsNotNull(cfg, "eq")
  {
    hide HasNonNull, IsNotNull, Json.Has, IsMember;
    SomeOfSeven(cfg, ["gte", "gt", "lte", "lt", "range", "eq", "disclose"]);
    SomeOfSix(cfg, ["gte", "gt", "lte", "lt", "range", "eq"]);
    forall key
      ensures HasNonNull(cfg, key) == IsNotNull(cfg, key)
    {
      NotNullIff(cfg, key);
    }
    forall key
      ensures cfg.Has(key) == IsMember(cfg, key)
    {
      MemberIff(cfg, key);
    }
  }

  lemma NotNullIff(cfg: Json, key: string)
    ensures HasNonNull(cfg, key) == IsNotNull(cfg, key)
  {
  }

  lemma MemberIff(cfg: Json, key: string)
    ensures cfg.Has(key) == IsMember(cfg, key)
  {
  }

  lemma SomeOfSeven(cfg: Json, keys: seq<string>)
    requires |keys| == 7
    ensures (exists key :: key in keys && cfg.Has(key))
       <==> || cfg.Has(keys[0]) || cfg.Has(keys[1]) || cfg.Has(keys[2]) || cfg.Has(keys[3])
            || cfg.Has(keys[4]) || cfg.Has(keys[5]) || cfg.Has(keys[6])
  {
    hide Json.Has;
  }

  lemma SomeOfSix(cfg: Json, keys: seq<string>)
    requires |keys| == 6
    ensures (exists key :: key in keys && HasNonNull(cfg, key))
       <==> || HasNonNull(cfg, keys[0]) || HasNonNull(cfg, keys[1]) || HasNonNull(cfg, keys[2])
            || HasNonNull(cfg, keys[3]) || HasNonNull(cfg, keys[4]) || HasNonNull(cfg, keys[5])
  {
    hide HasNonNull;
  }

  lemma RustFlagsByMembers(fields: map<string, Json>)
    ensures var flags := Requirements(fields);
            && (flags[0] <==> exists field :: field in fields && IsDisclosed(fields[field]))
            && (flags[1] <==> "age" in fields && HasAgeMember(fields["age"]))
            && (flags[2] <==> "nationality" in fields && IsMember(fields["nationality"], "in"))
            && (flags[3] <==> "nationality" in fields && IsMember(fields["nationality"], "out"))
            && (flags[4] <==> "issuing_country" in fields && IsMember(fields["issuing_country"], "in"))
            && (flags[5] <==> "issuing_country" in fields && IsMember(fields["issuing_country"], "out"))
  {
    AgeByMembers(fields);
    hide HasAgeRequirement, HasAgeMember;
    assert forall field :: field in fields ==> (DisclosesOrEquates(fields[field]) <==> IsDisclosed(fields[field]));
  }

  /** The same for the JavaScript planner, which looks at truthiness and rejects no key. */
  lemma JsPlanByMembers(fields: map<string, Json>)
    ensures var names := Named(
              exists field :: field in fields && (IsSet(fields[field], "disclose") || IsSet(fields[field], "eq")),
              "age" in fields && HasSetAgeMember(fields["age"]),
              "nationality" in fields && IsSet(fields["nationality"], "in"),
              "nationality" in fields && IsSet(fields["nationality"], "out"),
              "issuing_country" in fields && IsSet(fields["issuing_country"], "in"),
              "issuing_country" in fields && IsSet(fields["issuing_country"], "out"));
            JsDisclosures(Object(fields))
            == if fields == map[] then Ok(["disclose_bytes_evm"]) else if names == [] then Err else Ok(names)
    ensures forall query: Json :: !query.Object? ==> JsDisclosures(query) == Ok(["disclose_bytes_evm"])
  {
    JsFlagsByMembers(fields);
    PickNamed(JsRequirements(fields));
    DefaultNames();
    hide Pick, JsRequirements, Named, IsSet, HasSetAgeMember;
  }

  lemma JsFlagsByMembers(fields: map<string, Json>)
    ensures var flags := JsRequirements(fields);
            && (flags[0] <==> exists field :: field in fields
                                && (IsSet(fields[field], "disclose") || IsSet(fields[field], "eq")))
            && (flags[1] <==> "age" in fields && HasSetAgeMember(fields["age"]))
            && (flags[2] <==> "nationality" in fields && IsSet(fields["nationality"], "in"))
            && (flags[3] <==> "nationality" in fields && IsSet(fields["nationality"], "out"))
            && (flags[4] <==> "issuing_country" in fields && IsSet(fields["issuing_country"], "in"))
            && (flags[5] <==> "issuing_country" in fields && IsSet(fields["issuing_country"], "out"))
  {
    AgeByMembers(fields);
    hide JsNeedsAge, HasSetAgeMember;
    forall cfg: Json, key: string
      ensures IsSet(cfg, key) <==> HasTruthy(cfg, key)
    {
      IsSetIff(cfg, key);
    }
    hide IsSet;
    assert forall field :: field in fields ==>
      (JsDisclosesOrEquates(fields[field]) <==> IsSet(fields[field], "disclose") || IsSet(fields[field], "eq"));
  }

  /** Without a query, or with an empty one, both planners disclose one field. */
  lemma DefaultNames()
    ensures Pick(CIRCUITS, Requirements(DEFAULT_QUERY)) == ["disclose_bytes_evm"]
    ensures Pick(CIRCUITS, JsRequirements(DEFAULT_QUERY)) == ["disclose_bytes_evm"]
  {
    DefaultPlan();
    DefaultMembers();
    PickNamed(Requirements(DEFAULT_QUERY));
    assert Named(true, false, false, false, false, false) == ["disclose_bytes_evm"];
    hide Pick, Named, DEFAULT_QUERY;
  }

  lemma DefaultMembers()
    ensures Requirements(DEFAULT_QUERY)[0]
    ensures "age" !in DEFAULT_QUERY && "issuing_country" !in DEFAULT_QUERY && "nationality" in DEFAULT_QUERY
    ensures !DEFAULT_QUERY["nationality"].Has("in") && !DEFAULT_QUERY["nationality"].Has("out")
  {
    assert DisclosesOrEquates(DEFAULT_QUERY["nationality"]);
  }

  // ----- two planners, one plan

  lemma CircuitsAreDistinct()
    ensures Distinct(CIRCUITS)
  {
    assert CIRCUITS[2][0] != CIRCUITS[3][0] && CIRCUITS[4][0] != CIRCUITS[5][0];
    assert |CIRCUITS[0]| == 18 && |CIRCUITS[1]| == 15;
    assert |CIRCUITS[2]| == |CIRCUITS[3]| == 31 && |CIRCUITS[4]| == |CIRCUITS[5]| == 35;
  }

  lemma PlanIsSmall(query: Json)
    requires RustDisclosures(query).Ok?
    ensures var names := RustDisclosures(query).value;
            && 1 <= |names| <= 6
            && Distinct(names)
            && (forall name :: name in names ==> name in CIRCUITS)
  {
    CircuitsAreDistinct();
    var flags := Requirements(NormalizeQuery(query).value);
    PickIsDistinct(CIRCUITS, flags);
    PickedAreItems(CIRCUITS, flags);
  }

  predicate Supported(fields: map<string, Json>) {
    forall key :: key in fields ==> key in SUPPORTED_QUERY_KEYS
  }

  /** The languages read an age configuration alike unless everything it has is null or false. */
  predicate AgeReadsAlike(cfg: Json) {
    (exists key :: key in ["gte", "gt", "lte", "lt", "range", "eq", "disclose"] && cfg.Has(key)) ==>
      JsComparesAge(cfg)
  }

  /** A list is read alike unless it is there but falsy. */
  predicate ListReadsAlike(fields: map<string, Json>, field: string, key: string) {
    field in fields && fields[field].Has(key) ==> HasTruthy(fields[field], key)
  }

  predicate AnyDiscloses(fields: map<string, Json>) {
    exists key :: key in fields && fields[key].Get("disclose") == Some(Bool(true))
  }

  predicate AnyHas(fields: map<string, Json>, member: string) {
    exists key :: key in fields && fields[key].Has(member)
  }

  predicate AnyTruthy(fields: map<string, Json>, member: string) {
    exists key :: key in fields && HasTruthy(fields[key], member)
  }

  /**
   * Rust alone sees a disclosure if there is an `eq` and no `eq` and no `disclose` is truthy;
   * JavaScript alone does if a `disclose` is truthy but none is `true`, and there is no `eq`.
   */
  predicate DisclosureReadsAlike(fields: map<string, Json>) {
    && (AnyHas(fields, "eq") ==> AnyTruthy(fields, "disclose") || AnyTruthy(fields, "eq"))
    && (AnyTruthy(fields, "disclose") ==> AnyDiscloses(fields) || AnyHas(fields, "eq"))
  }

  predicate ReadsAlike(fields: map<string, Json>) {
    && DisclosureReadsAlike(fields)
    && ("age" in fields ==> AgeReadsAlike(fields["age"]))
    && ListReadsAlike(fields, "nationality", "in") && ListReadsAlike(fields, "nationality", "out")
    && ListReadsAlike(fields, "issuing_country", "in") && ListReadsAlike(fields, "issuing_country", "out")
  }

  lemma DisclosureFlagsAgreeIff(fields: map<string, Json>)
    ensures HasDiscloseBytesRequirement(fields) == JsNeedsDiscloseBytes(fields) <==> DisclosureReadsAlike(fields)
  {
    RustDisclosureMembers(fields);
    JsDisclosureMembers(fields);
    hide HasDiscloseBytesRequirement, JsNeedsDiscloseBytes, AnyDiscloses, AnyHas, AnyTruthy;
    TruthyMembers(fields);
  }

  lemma RustDisclosureMembers(fields: map<string, Json>)
    ensures HasDiscloseBytesRequirement(fields) <==> AnyDiscloses(fields) || AnyHas(fields, "eq")
  {
    if AnyDiscloses(fields) {
      var key :| key in fields && fields[key].Get("disclose") == Some(Bool(true));
      assert DisclosesOrEquates(fields[key]);
    }
    if AnyHas(fields, "eq") {
      var key :| key in fields && fields[key].Has("eq");
      assert DisclosesOrEquates(fields[key]);
    }
  }

  lemma JsDisclosureMembers(fields: map<string, Json>)
    ensures JsNeedsDiscloseBytes(fields) <==> AnyTruthy(fields, "disclose") || AnyTruthy(fields, "eq")
  {
    if AnyTruthy(fields, "disclose") {
      var key :| key in fields && HasTruthy(fields[key], "disclose");
      assert JsDisclosesOrEquates(fields[key]);
    }
    if AnyTruthy(fields, "eq") {
      var key :| key in fields && HasTruthy(fields[key], "eq");
      assert JsDisclosesOrEquates(fields[key]);
    }
  }

  lemma TruthyMembers(fields: map<string, Json>)
    ensures AnyDiscloses(fields) ==> AnyTruthy(fields, "disclose")
    ensures AnyTruthy(fields, "eq") ==> AnyHas(fields, "eq")
  {
    if AnyDiscloses(fields) {
      var key :| key in fields && fields[key].Get("disclose") == Some(Bool(true));
      assert HasTruthy(fields[key], "disclose");
    }
  }

  lemma ReadsAlikeIff(fields: map<string, Json>)
    ensures ReadsAlike(fields) <==> Requirements(fields) == JsRequirements(fields)
  {
    hide HasDiscloseBytesRequirement, JsNeedsDiscloseBytes, HasAgeRequirement, JsNeedsAge, HasNestedKey, JsNeeds,
         DisclosureReadsAlike, AgeReadsAlike, ListReadsAlike;
    var a, b := Requirements(fields), JsRequirements(fields);
    SixFlags(a, b);
    DisclosureFlagsAgreeIff(fields);
    AgeFlagsAgreeIff(fields);
    ListFlagsAgreeIff(fields, "nationality", "in");
    ListFlagsAgreeIff(fields, "nationality", "out");
    ListFlagsAgreeIff(fields, "issuing_country", "in");
    ListFlagsAgreeIff(fields, "issuing_country", "out");
  }

  lemma {:induction false} SixFlags(a: seq<bool>, b: seq<bool>)
    requires |a| == |b| == 6
    ensures a == b <==> a[0] == b[0] && a[1] == b[1] && a[2] == b[2] && a[3] == b[3] && a[4] == b[4] && a[5] == b[5]
  {
  }

  /** No member that JavaScript would plan a circuit for is there, unless it is null or falsy. */
  predicate NothingAsked(fields: map<string, Json>) {
    && !AnyTruthy(fields, "disclose") && !AnyTruthy(fields, "eq")
    && ("age" in fields ==>
          forall key :: key in ["gte", "gt", "lte", "lt", "range", "eq"] ==> !HasNonNull(fields["age"], key))
    && ("nationality" in fields ==>
          !HasTruthy(fields["nationality"], "in") && !HasTruthy(fields["nationality"], "out"))
    && ("issuing_country" in fields ==>
          !HasTruthy(fields["issuing_country"], "in") && !HasTruthy(fields["issuing_country"], "out"))
  }

  lemma NothingAskedIff(fields: map<string, Json>)
    ensures NothingAsked(fields) <==> forall i :: 0 <= i < |CIRCUITS| ==> !JsRequirements(fields)[i]
  {
    JsDisclosureMembers(fields);
    ListTruthyIff(fields, "nationality", "in");
    ListTruthyIff(fields, "nationality", "out");
    ListTruthyIff(fields, "issuing_country", "in");
    ListTruthyIff(fields, "issuing_country", "out");
    AgeAskedIff(fields);
    NoFlag(JsRequirements(fields));
    hide JsNeedsDiscloseBytes, JsNeedsAge, JsNeeds, AnyTruthy, HasTruthy, HasNonNull, JsComparesAge;
  }

  lemma {:induction false} NoFlag(a: seq<bool>)
    requires |a| == 6
    ensures (forall i :: 0 <= i < 6 ==> !a[i]) <==> !a[0] && !a[1] && !a[2] && !a[3] && !a[4] && !a[5]
  {
  }

  lemma ListTruthyIff(fields: map<string, Json>, field: string, key: string)
    ensures JsNeeds(fields, field, key) <==> field in fields && HasTruthy(fields[field], key)
  {
  }

  lemma AgeAskedIff(fields: map<string, Json>)
    ensures !AnyTruthy(fields, "disclose") ==>
              (JsNeedsAge(fields) <==>
                "age" in fields
                && exists key :: key in ["gte", "gt", "lte", "lt", "range", "eq"] && HasNonNull(fields["age"], key))
  {
    if "age" in fields && !AnyTruthy(fields, "disclose") {
      assert !HasTruthy(fields["age"], "disclose");
    }
  }

  lemma AgeFlagsAgreeIff(fields: map<string, Json>)
    ensures HasAgeRequirement(fields) == JsNeedsAge(fields) <==> ("age" in fields ==> AgeReadsAlike(fields["age"]))
  {
    if "age" in fields {
      var cfg := fields["age"];
      if JsComparesAge(cfg) {
        if !HasTruthy(cfg, "disclose") {
          var key :| key in ["gte", "gt", "lte", "lt", "range", "eq"] && HasNonNull(cfg, key);
          assert key in ["gte", "gt", "lte", "lt", "range", "eq", "disclose"] && cfg.Has(key);
        } else {
          assert "disclose" in ["gte", "gt", "lte", "lt", "range", "eq", "disclose"] && cfg.Has("disclose");
        }
      }
    }
  }

  lemma ListFlagsAgreeIff(fields: map<string, Json>, field: string, key: string)
    ensures HasNestedKey(fields, field, key) == JsNeeds(fields, field, key) <==> ListReadsAlike(fields, field, key)
  {
  }

  /**
   * The planners agree, on a list or on failing, exactly for: no query or an empty one; an object
   * with supported keys that both languages read alike; and an object with an unsupported key,
   * which Rust rejects, if nothing is asked in it that JavaScript would plan.
   */
  lemma PlannersAgreeIff(query: Json)
    ensures RustDisclosures(query) == JsDisclosures(query)
       <==> match query
            case Null => true
            case Object(fields) =>
              fields == map[]
              || (if Supported(fields) then ReadsAlike(fields)
                  else NothingAsked(fields))
            case _ => false
  {
    hide Pick, Requirements, JsRequirements, ReadsAlike, NothingAsked;
    CircuitsAreDistinct();
    DefaultPlan();
    if query.Object? && query.fields != map[] {
      NothingAskedIff(query.fields);
      ReadsAlikeIff(query.fields);
      PickIsInjective(CIRCUITS, Requirements(query.fields), JsRequirements(query.fields));
      PickNothingIff(CIRCUITS, JsRequirements(query.fields));
    }
  }

  /** Without a query both planners disclose the nationality. */
  lemma DefaultPlan()
    ensures Requirements(DEFAULT_QUERY) == JsRequirements(DEFAULT_QUERY)
    ensures Pick(CIRCUITS, Requirements(DEFAULT_QUERY)) != []
  {
    var cfg := Object(map["disclose" := Bool(true)]);
    assert DEFAULT_QUERY["nationality"] == cfg;
    assert "nationality" in DEFAULT_QUERY && DisclosesOrEquates(cfg) && JsDisclosesOrEquates(cfg);
    CircuitsAreDistinct();
    assert Requirements(DEFAULT_QUERY)[0] && JsRequirements(DEFAULT_QUERY)[0];
    PickNothingIff(CIRCUITS, Requirements(DEFAULT_QUERY));
    ReadsAlikeIff(DEFAULT_QUERY);
  }

  /** `disclose` is a boolean and `eq` is not empty. */
  predicate WellTypedConfig(cfg: Json) {
    && cfg.Object?
    && (cfg.Has("disclose") ==> cfg.Get("disclose").value.Bool?)
    && (cfg.Has("eq") ==> cfg.Get("eq").value.Truthy())
  }

  /** Comparisons are not null, and `disclose` is only written to ask for it. */
  predicate WellTypedAge(cfg: Json) {
    && (forall key :: key in ["gte", "gt", "lte", "lt", "range", "eq"] && cfg.Has(key) ==> !cfg.Get(key).value.Null?)
    && (cfg.Has("disclose") ==> cfg.Get("disclose") == Some(Bool(true)))
  }

  predicate WellTypedList(fields: map<string, Json>, field: string, key: string) {
    field in fields && fields[field].Has(key) ==> fields[field].Get(key).value.Array?
  }

  /** What the query schema allows: the values that a request page writes. */
  predicate WellTyped(fields: map<string, Json>) {
    && Supported(fields)
    && (forall key :: key in fields ==> WellTypedConfig(fields[key]))
    && ("age" in fields ==> WellTypedAge(fields["age"]))
    && WellTypedList(fields, "nationality", "in") && WellTypedList(fields, "nationality", "out")
    && WellTypedList(fields, "issuing_country", "in") && WellTypedList(fields, "issuing_country", "out")
  }

  /** For every well-typed query, both planners fail or both give the same circuits in the same order. */
  lemma PlannersAgreeOnWellTyped(fields: map<string, Json>)
    requires WellTyped(fields)
    ensures RustDisclosures(Object(fields)) == JsDisclosures(Object(fields))
  {
    WellTypedReadsAlike(fields);
    PlannersAgreeIff(Object(fields));
  }

  lemma WellTypedReadsAlike(fields: map<string, Json>)
    requires WellTyped(fields)
    ensures ReadsAlike(fields)
  {
    WellTypedDisclosureReadsAlike(fields);
    if "age" in fields {
      WellTypedAgeReadsAlike(fields["age"]);
    }
    hide DisclosureReadsAlike, AgeReadsAlike;
  }

  lemma WellTypedDisclosureReadsAlike(fields: map<string, Json>)
    requires forall key :: key in fields ==> WellTypedConfig(fields[key])
    ensures DisclosureReadsAlike(fields)
  {
    if AnyHas(fields, "eq") {
      var key :| key in fields && fields[key].Has("eq");
      assert WellTypedConfig(fields[key]) && HasTruthy(fields[key], "eq");
    }
    if AnyTruthy(fields, "disclose") {
      var key :| key in fields && HasTruthy(fields[key], "disclose");
      assert WellTypedConfig(fields[key]) && fields[key].Get("disclose") == Some(Bool(true));
    }
  }

  lemma WellTypedAgeReadsAlike(cfg: Json)
    requires WellTypedAge(cfg)
    ensures AgeReadsAlike(cfg)
  {
    if key :| key in ["gte", "gt", "lte", "lt", "range", "eq", "disclose"] && cfg.Has(key) {
      if key == "disclose" {
        assert HasTruthy(cfg, "disclose");
      } else {
        assert key in ["gte", "gt", "lte", "lt", "range", "eq"] && HasNonNull(cfg, key);
      }
    }
  }

  /** Asking for the age but not disclosing it is one circuit in Rust and an error in JavaScript. */
  lemma UndisclosedAgeSplitsPlanners()
    ensures var query := Object(map["age" := Object(map["disclose" := Bool(false)])]);
            RustDisclosures(query) == Ok([COMPARE_AGE]) && JsDisclosures(query) == Err
  {
    hide Pick, Requirements, JsRequirements;
    var fields := map["age" := Object(map["disclose" := Bool(false)])];
    assert SUPPORTED_QUERY_KEYS[0] == "age";
    assert "age" in fields;
    assert NormalizeQuery(Object(fields)) == Ok(fields) && JsNormalizeQuery(Object(fields)) == fields;
    UndisclosedAgeRust(fields);
    UndisclosedAgeJs(fields);
    CircuitsAreDistinct();
    PickNothingIff(CIRCUITS, JsRequirements(fields));
    PickOnlySecond(CIRCUITS, Requirements(fields));
  }

  lemma UndisclosedAgeRust(fields: map<string, Json>)
    requires fields == map["age" := Object(map["disclose" := Bool(false)])]
    ensures Requirements(fields) == [false, true, false, false, false, false]
  {
    var cfg := fields["age"];
    assert "disclose" in ["gte", "gt", "lte", "lt", "range", "eq", "disclose"] && cfg.Has("disclose");
  }

  lemma UndisclosedAgeJs(fields: map<string, Json>)
    requires fields == map["age" := Object(map["disclose" := Bool(false)])]
    ensures forall i :: 0 <= i < |CIRCUITS| ==> !JsRequirements(fields)[i]
  {
    NothingAskedIff(fields);
    hide JsRequirements;
    forall member | member == "disclose" || member == "eq"
      ensures !AnyTruthy(fields, member)
    {
      assert !HasTruthy(fields["age"], member);
    }
    forall key | key in ["gte", "gt", "lte", "lt", "range", "eq"]
      ensures !HasNonNull(fields["age"], key)
    {
      assert |key| != |"disclose"|;
    }
  }

  lemma {:induction false} PickOnlySecond<T>(items: seq<T>, flags: seq<bool>)
    requires |items| == 6 && flags == [false, true, false, false, false, false]
    ensures Pick(items, flags) == [items[1]]
  {
    hide Pick;
    PushesPick(items, flags);
    assert Pushed(items, flags, 1) == [];
    assert Pushed(items, flags, 2) == [items[1]];
    assert Pushed(items, flags, 4) == [items[1]];
  }
}
