/**
 * From the job list that the prover solves (`main.rs`) back to the roles of its circuits, which the
 * script `outer-inputs.cjs` guesses from their names.
 */
module Classification {
  import opened Wrappers
  import opened Text
  import opened Json
  import opened Planning
  import opened CircuitNames
  import opened Picking

  datatype CircuitSolveJob = CircuitSolveJob(circuitName: string, inputs: Json)

  datatype ReferenceInputs = ReferenceInputs(
    dscInputs: Json, idDataInputs: Json, integrityInputs: Json, disclosures: seq<CircuitSolveJob>)

  /** The circuit names of the summary: solving keeps the order of the jobs. */
  function Names(jobs: seq<CircuitSolveJob>): (names: seq<string>)
    ensures |names| == |jobs| && forall i :: 0 <= i < |jobs| ==> names[i] == jobs[i].circuitName
  {
    if jobs == [] then [] else [jobs[0].circuitName] + Names(jobs[1..])
  }

  lemma {:induction false} NamesConcat(first: seq<CircuitSolveJob>, others: seq<CircuitSolveJob>)
    ensures Names(first + others) == Names(first) + Names(others)
  {
    if first == [] {
      assert first + others == others;
    } else {
      assert (first + others)[1..] == first[1..] + others;
      NamesConcat(first[1..], others);
    }
  }

  lemma NamesOfThree(jobs: seq<CircuitSolveJob>)
    requires |jobs| == 3
    ensures Names(jobs) == [jobs[0].circuitName, jobs[1].circuitName, jobs[2].circuitName]
  {
  }

  method CollectSolveJobs(reference: ReferenceInputs, resolved: ResolvedDocumentCircuits)
    returns (jobs: seq<CircuitSolveJob>)
    ensures jobs == [
      CircuitSolveJob(resolved.dscName, reference.dscInputs),
      CircuitSolveJob(resolved.idDataName, reference.idDataInputs),
      CircuitSolveJob(resolved.integrityName, reference.integrityInputs)] + reference.disclosures
    ensures Names(jobs) == [resolved.dscName, resolved.idDataName, resolved.integrityName] + Names(reference.disclosures)
  {
    jobs := [
      CircuitSolveJob(resolved.dscName, reference.dscInputs),
      CircuitSolveJob(resolved.idDataName, reference.idDataInputs),
      CircuitSolveJob(resolved.integrityName, reference.integrityInputs)];
    ghost var base := jobs;
    for i := 0 to |reference.disclosures|
      invariant jobs == base + reference.disclosures[..i]
    {
      var disclosure := reference.disclosures[i];
      jobs := jobs + [CircuitSolveJob(disclosure.circuitName, disclosure.inputs)];
    }
    assert reference.disclosures[..|reference.disclosures|] == reference.disclosures;
    NamesConcat(base, reference.disclosures);
    NamesOfThree(base);
  }

  // ----- the script

  /** The first name with a prefix. */
  function Find(names: seq<string>, prefix: string): Option<string> {
    if names == [] then None
    else if StartsWith(names[0], prefix) then Some(names[0])
    else Find(names[1..], prefix)
  }

  datatype Roles = Roles(dsc: string, idData: string, integrity: string, disclosures: seq<string>)

  predicate IsDisclosure(name: string, dsc: Option<string>, idData: Option<string>, integrity: Option<string>) {
    Some(name) != dsc && Some(name) != idData && Some(name) != integrity && !StartsWith(name, "outer_")
  }

  function Disclosures(names: seq<string>, dsc: Option<string>, idData: Option<string>, integrity: Option<string>): seq<string> {
    if names == [] then []
    else
      var others := Disclosures(names[1..], dsc, idData, integrity);
      if IsDisclosure(names[0], dsc, idData, integrity) then [names[0]] + others else others
  }

  function Classify(names: seq<string>): Result<Roles> {
    var dsc, idData, integrity :=
      Find(names, "sig_check_dsc_"), Find(names, "sig_check_id_data_"), Find(names, "data_check_integrity_");
    var disclosures := Disclosures(names, dsc, idData, integrity);
    if dsc.None? || idData.None? || integrity.None? || disclosures == [] then Err
    else Ok(Roles(dsc.value, idData.value, integrity.value, disclosures))
  }

  /** `outer_circuit_name`: three more than the disclosures that were recovered, in decimal. */
  method OuterCircuitName(roles: Roles) returns (name: string)
    ensures StartsWith(name, "outer_evm_count_")
    ensures var digits := name[16..];
            digits != "" && digits[0] != '0' && AllDigits(digits) && DecimalValue(digits) == |roles.disclosures| + 3
    ensures name == OuterCircuit(|roles.disclosures|)
  {
    var count := 3 + |roles.disclosures|;
    name := "outer_evm_count_" + Decimal(count);
    DecimalInverts(count);
    DecimalLeads(count);
    assert name[16..] == Decimal(count);
  }

  // ----- the three base names

  lemma DscPrefix(spec: Spec)
    ensures StartsWith(Name(Dsc(spec)), "sig_check_dsc_")
    ensures !StartsWith(Name(Dsc(spec)), "sig_check_id_data_") && !StartsWith(Name(Dsc(spec)), "data_check_integrity_")
    ensures !StartsWith(Name(Dsc(spec)), "outer_")
  {
    var rest := Name(Dsc(spec))[|"sig_check_dsc_tbs_"|..];
    assert Name(Dsc(spec)) == "sig_check_dsc_tbs_" + rest;
    FixedPrefix("sig_check_dsc_tbs_", rest, "sig_check_dsc_");
    OtherPrefix("sig_check_dsc_tbs_", rest, "sig_check_id_data_", 10);
    OtherPrefix("sig_check_dsc_tbs_", rest, "data_check_integrity_", 0);
    OtherPrefix("sig_check_dsc_tbs_", rest, "outer_", 0);
  }

  lemma IdDataPrefix(spec: Spec)
    ensures StartsWith(Name(IdData(spec)), "sig_check_id_data_")
    ensures !StartsWith(Name(IdData(spec)), "data_check_integrity_")
  {
    var rest := Name(IdData(spec))[|"sig_check_id_data_tbs_"|..];
    assert Name(IdData(spec)) == "sig_check_id_data_tbs_" + rest;
    FixedPrefix("sig_check_id_data_tbs_", rest, "sig_check_id_data_");
    OtherPrefix("sig_check_id_data_tbs_", rest, "data_check_integrity_", 0);
  }

  lemma IntegrityPrefix(sa: Hash, dg: Hash)
    ensures StartsWith(Name(Integrity(sa, dg)), "data_check_integrity_")
  {
    var rest := Name(Integrity(sa, dg))[|"data_check_integrity_sa_"|..];
    assert Name(Integrity(sa, dg)) == "data_check_integrity_sa_" + rest;
    FixedPrefix("data_check_integrity_sa_", rest, "data_check_integrity_");
  }

  lemma FixedPrefix(fixed: string, rest: string, prefix: string)
    requires StartsWith(fixed, prefix)
    ensures StartsWith(fixed + rest, prefix)
  {
    assert (fixed + rest)[..|prefix|] == fixed[..|prefix|];
  }

  lemma OtherPrefix(fixed: string, rest: string, prefix: string, k: nat)
    requires k < |fixed| && k < |prefix| && fixed[k] != prefix[k]
    ensures !StartsWith(fixed + rest, prefix)
  {
    assert (fixed + rest)[k] == fixed[k];
    if |prefix| <= |fixed + rest| {
      assert (fixed + rest)[..|prefix|][k] == fixed[k];
    }
  }

  lemma {:induction false} DisclosuresAreAllIff(names: seq<string>, dsc: Option<string>, idData: Option<string>,
                                                integrity: Option<string>)
    ensures |Disclosures(names, dsc, idData, integrity)| <= |names|
    ensures Disclosures(names, dsc, idData, integrity) == names
       <==> forall i :: 0 <= i < |names| ==> IsDisclosure(names[i], dsc, idData, integrity)
  {
    if names != [] {
      DisclosuresAreAllIff(names[1..], dsc, idData, integrity);
      assert names == [names[0]] + names[1..];
    }
  }

  // ----- planned, solved, classified

  /** The names of the job list of a document with these circuits. */
  function Solved(dsc: Spec, idData: Spec, dg: Hash, disclosures: seq<string>): seq<string> {
    [Name(Dsc(dsc)), Name(IdData(idData)), Name(Integrity(idData.hash, dg))] + disclosures
  }

  /** A disclosure circuit's name cannot be taken for anything else. */
  predicate Unmistakable(name: string, dsc: Spec, idData: Spec, dg: Hash) {
    !StartsWith(name, "outer_") && name !in Solved(dsc, idData, dg, [])
  }

  lemma FindInList(first: string, others: seq<string>, prefix: string)
    ensures Find([first] + others, prefix) == if StartsWith(first, prefix) then Some(first) else Find(others, prefix)
  {
    hide StartsWith;
  }

  lemma DisclosuresInList(first: string, others: seq<string>, dsc: Option<string>, idData: Option<string>,
                          integrity: Option<string>)
    requires !IsDisclosure(first, dsc, idData, integrity)
    ensures Disclosures([first] + others, dsc, idData, integrity) == Disclosures(others, dsc, idData, integrity)
  {
    hide StartsWith;
    assert ([first] + others)[1..] == others;
  }

  lemma FindsBaseNames(dsc: Spec, idData: Spec, dg: Hash, disclosures: seq<string>)
    ensures var names := Solved(dsc, idData, dg, disclosures);
            && Find(names, "sig_check_dsc_") == Some(Name(Dsc(dsc)))
            && Find(names, "sig_check_id_data_") == Some(Name(IdData(idData)))
            && Find(names, "data_check_integrity_") == Some(Name(Integrity(idData.hash, dg)))
  {
    hide Name, StartsWith, Find;
    DscPrefix(dsc);
    IdDataPrefix(idData);
    IntegrityPrefix(idData.hash, dg);
    var a, b, c := Name(Dsc(dsc)), Name(IdData(idData)), Name(Integrity(idData.hash, dg));
    assert Solved(dsc, idData, dg, disclosures) == [a] + ([b] + ([c] + disclosures));
    FindInList(a, [b] + ([c] + disclosures), "sig_check_dsc_");
    FindInList(a, [b] + ([c] + disclosures), "sig_check_id_data_");
    FindInList(b, [c] + disclosures, "sig_check_id_data_");
    FindInList(a, [b] + ([c] + disclosures), "data_check_integrity_");
    FindInList(b, [c] + disclosures, "data_check_integrity_");
    FindInList(c, disclosures, "data_check_integrity_");
  }

  /** The base names are filtered out; what follows is kept as far as it is disclosure names. */
  lemma FiltersBaseNames(dsc: Spec, idData: Spec, dg: Hash, disclosures: seq<string>)
    ensures var a, b, c := Some(Name(Dsc(dsc))), Some(Name(IdData(idData))), Some(Name(Integrity(idData.hash, dg)));
            Disclosures(Solved(dsc, idData, dg, disclosures), a, b, c) == Disclosures(disclosures, a, b, c)
  {
    hide Name, StartsWith, Disclosures;
    var x, y, z := Name(Dsc(dsc)), Name(IdData(idData)), Name(Integrity(idData.hash, dg));
    assert Solved(dsc, idData, dg, disclosures) == [x] + ([y] + ([z] + disclosures));
    DisclosuresInList(x, [y] + ([z] + disclosures), Some(x), Some(y), Some(z));
    DisclosuresInList(y, [z] + disclosures, Some(x), Some(y), Some(z));
    DisclosuresInList(z, disclosures, Some(x), Some(y), Some(z));
  }

  /**
   * Classifying a job list recovers the three base names and exactly the disclosure names, in
   * order, if and only if there is one and none of them can be mistaken.
   */
  lemma ClassifiesIff(dsc: Spec, idData: Spec, dg: Hash, disclosures: seq<string>)
    ensures Classify(Solved(dsc, idData, dg, disclosures))
            == Ok(Roles(Name(Dsc(dsc)), Name(IdData(idData)), Name(Integrity(idData.hash, dg)), disclosures))
       <==> disclosures != [] && forall i :: 0 <= i < |disclosures| ==> Unmistakable(disclosures[i], dsc, idData, dg)
  {
    hide Name, StartsWith, Find, Disclosures;
    var a, b, c := Some(Name(Dsc(dsc))), Some(Name(IdData(idData))), Some(Name(Integrity(idData.hash, dg)));
    FindsBaseNames(dsc, idData, dg, disclosures);
    FiltersBaseNames(dsc, idData, dg, disclosures);
    DisclosuresAreAllIff(disclosures, a, b, c);
    assert forall name :: IsDisclosure(name, a, b, c) <==> Unmistakable(name, dsc, idData, dg);
  }

  lemma ThreeNames(name: string, a: string, b: string, c: string)
    requires name != a && name != b && name != c
    ensures name !in [a, b, c] + []
  {
  }

  lemma PlannedAreUnmistakable(name: string, dsc: Spec, idData: Spec, dg: Hash)
    requires name in CIRCUITS
    ensures Unmistakable(name, dsc, idData, dg)
  {
    FirstTwoLetters(name);
    BaseLetters(dsc, idData, dg);
    OtherPrefix(name, "", "outer_", 0);
    assert name + "" == name;
    hide Name, StartsWith;
    ThreeNames(name, Name(Dsc(dsc)), Name(IdData(idData)), Name(Integrity(idData.hash, dg)));
  }

  lemma SpecNameStarts(prefix: string, spec: Spec)
    requires prefix != ""
    ensures SpecName(prefix, spec) != "" && SpecName(prefix, spec)[0] == prefix[0]
  {
    hide KeySuffix, HashSuffix, Decimal;
  }

  lemma BaseLetters(dsc: Spec, idData: Spec, dg: Hash)
    ensures Name(Dsc(dsc)) != "" && Name(Dsc(dsc))[0] == 's'
    ensures Name(IdData(idData)) != "" && Name(IdData(idData))[0] == 's'
    ensures var integrity := Name(Integrity(idData.hash, dg));
            |integrity| > 1 && integrity[0] == 'd' && integrity[1] == 'a'
  {
    SpecNameStarts("sig_check_dsc_tbs_", dsc);
    SpecNameStarts("sig_check_id_data_tbs_", idData);
    hide SpecName, HashSuffix;
    IntegrityStarts(HashSuffix(idData.hash) + ("_dg_" + HashSuffix(dg)));
  }

  lemma IntegrityStarts(rest: string)
    ensures var integrity := "data_check_integrity_sa_" + rest;
            |integrity| > 1 && integrity[0] == 'd' && integrity[1] == 'a'
  {
  }

  lemma FirstTwoLetters(name: string)
    requires name in CIRCUITS
    ensures |name| > 1 && name[0] != 's' && name[0] != 'o' && (name[0] == 'd' ==> name[1] == 'i')
  {
    var i :| 0 <= i < |CIRCUITS| && CIRCUITS[i] == name;
    assert i == 0 || i == 1 || i == 2 || i == 3 || i == 4 || i == 5;
  }

  /**
   * From a query through planning and solving to classification: the script recovers the circuits
   * that the JavaScript planner chose, and names the outer circuit of the Rust plan if and only if
   * both planners chose equally many.
   */
  lemma PlannedIsClassified(query: Json, dsc: Spec, idData: Spec, dg: Hash)
    requires JsDisclosures(query).Ok? && RustDisclosures(query).Ok?
    ensures var chosen := JsDisclosures(query).value;
            && Classify(Solved(dsc, idData, dg, chosen))
               == Ok(Roles(Name(Dsc(dsc)), Name(IdData(idData)), Name(Integrity(idData.hash, dg)), chosen))
            && (OuterCircuit(|chosen|) == OuterCircuit(|RustDisclosures(query).value|)
                <==> |chosen| == |RustDisclosures(query).value|)
  {
    hide Classify, Solved, Unmistakable, Name, Requirements, JsRequirements, Pick;
    var chosen := JsDisclosures(query).value;
    PickedAreItems(CIRCUITS, JsRequirements(JsNormalizeQuery(query)));
    forall i | 0 <= i < |chosen|
      ensures Unmistakable(chosen[i], dsc, idData, dg)
    {
      assert chosen[i] in chosen;
      PlannedAreUnmistakable(chosen[i], dsc, idData, dg);
    }
    ClassifiesIff(dsc, idData, dg, chosen);
    OuterCircuitIsInjective(|chosen|, |RustDisclosures(query).value|);
  }

  /** For a well-typed query all four parts fit: what was planned is what the script recovers and counts. */
  lemma WellTypedPlanIsClassified(fields: map<string, Json>, dsc: Spec, idData: Spec, dg: Hash)
    requires WellTyped(fields) && RustDisclosures(Object(fields)).Ok?
    ensures var planned := RustDisclosures(Object(fields)).value;
            && JsDisclosures(Object(fields)) == Ok(planned)
            && Classify(Solved(dsc, idData, dg, planned))
               == Ok(Roles(Name(Dsc(dsc)), Name(IdData(idData)), Name(Integrity(idData.hash, dg)), planned))
  {
    hide *;
    PlannersAgreeOnWellTyped(fields);
    PlannedIsClassified(Object(fields), dsc, idData, dg);
  }

  lemma OuterCircuitIsInjective(m: nat, n: nat)
    ensures OuterCircuit(m) == OuterCircuit(n) <==> m == n
  {
    if OuterCircuit(m) == OuterCircuit(n) {
      assert OuterCircuit(m)[|"outer_evm_count_"|..] == Decimal(3 + m);
      assert OuterCircuit(n)[|"outer_evm_count_"|..] == Decimal(3 + n);
      DecimalInjective(3 + m, 3 + n);
    }
  }
}
