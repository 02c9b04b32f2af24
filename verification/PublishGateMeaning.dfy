/**
 * The publish gate as a publisher sees it: which answer a draft gets from its own history and from the
 * attributes its conditions name.
 */
module PublishGateMeaning {
  import opened Common
  import opened Evaluator
  import opened EvaluatorMeaning
  import opened Simulation
  import opened DraftHash
  import opened PublishGate

  /** Some condition decides by this custom attribute. */
  ghost predicate NamesAttribute(d: Definition, key: string) {
    key != "" && exists c :: c in d.conditions && c.field == "attributes." + key
  }

  lemma KeysAreNamed(d: Definition, key: string)
    ensures key in AttributeKeys(d) <==> NamesAttribute(d, key)
  {
    if key in AttributeKeys(d) {
      var c :| c in d.conditions && StartsWith(c.field, ATTRIBUTE_PREFIX) && |c.field| > |ATTRIBUTE_PREFIX|
        && key == c.field[|ATTRIBUTE_PREFIX|..];
      var k := AttributeFieldSplits(c.field);
      assert c.field[|"attributes."|..] == k;
    }
    if NamesAttribute(d, key) {
      var c :| c in d.conditions && c.field == "attributes." + key;
      PrefixedStarts(key);
      assert c.field[|ATTRIBUTE_PREFIX|..] == key;
    }
  }

  /** The draft names an attribute that its subjects may edit. */
  ghost predicate NamesAny(d: Definition, keys: set<string>) {
    exists key :: key in keys && NamesAttribute(d, key)
  }

  lemma CommonKeysAreNamed(d: Definition, selfEditable: set<string>)
    ensures forall key :: key in AttributeKeys(d) * selfEditable <==> key in selfEditable && NamesAttribute(d, key)
    ensures AttributeKeys(d) * selfEditable == {} <==> !NamesAny(d, selfEditable)
  {
    forall key ensures key in AttributeKeys(d) * selfEditable <==> key in selfEditable && NamesAttribute(d, key) {
      KeysAreNamed(d, key);
    }
    if AttributeKeys(d) * selfEditable != {} {
      var key :| key in AttributeKeys(d) * selfEditable;
      assert NamesAny(d, selfEditable);
    }
  }

  /** The last simulation since the draft was saved was of its canonical form. */
  predicate Covers(simulated: Option<Simulated>, d: Definition) {
    simulated.Some? && Permuted(simulated.value.definition, d)
  }

  /** The gate's answer on every reachable row. It opens exactly for a draft that was simulated since it was
      saved, without violations, and no condition of which is on `attributes.` followed by a self-editable
      key; then the draft goes live. It names violations before attributes, and of the attributes exactly the
      offending ones. */
  lemma GateMeaning(e: Encoding, first: Table, r: Run, id: RoleId, selfEditable: set<string>)
    requires Injective(e) && Explained(e, first, r) && id in first
    ensures var drafted, simulated := Drafted(r.history, id), LastSimulation(r.history, id);
      var answer := Gate(e, r.table[id], selfEditable);
      && (drafted.None? ==> answer == Err(NoDraft))
      && (drafted.Some? && !Covers(simulated, drafted.value) ==> answer == Err(NotSimulated))
      && (drafted.Some? && Covers(simulated, drafted.value) ==>
            if simulated.value.count > 0 then answer == Err(HasViolations(simulated.value.count))
            else if NamesAny(drafted.value, selfEditable) then answer.Err? && answer.error.SelfEditable?
            else answer == Ok(drafted.value))
      && (answer.Err? && answer.error.SelfEditable? ==>
            forall key :: key in answer.error.keys <==> key in selfEditable && NamesAttribute(drafted.value, key))
  {
    var drafted, simulated := Drafted(r.history, id), LastSimulation(r.history, id);
    if drafted.Some? {
      StoredReadsBack(drafted.value);
      CommonKeysAreNamed(drafted.value, selfEditable);
      if simulated.Some? {
        HashAlikeIffPermuted(e, simulated.value.definition, drafted.value);
      }
    }
  }

  /** An opened gate lets no formula through that is decided by a self-editable attribute. */
  lemma OpenGateIsClean(e: Encoding, row: Entry, selfEditable: set<string>, key: string)
    requires Gate(e, row, selfEditable).Ok? && key in selfEditable && key != ""
    ensures forall c | c in Gate(e, row, selfEditable).value.conditions :: c.field != "attributes." + key
  {
    var d := Gate(e, row, selfEditable).value;
    CommonKeysAreNamed(d, selfEditable);
    forall c | c in d.conditions ensures c.field != "attributes." + key {
      if c.field == "attributes." + key {
        assert NamesAttribute(d, key);
      }
    }
  }

  /** A publish that is let through puts the draft live and takes the draft and its record away; one that is
      refused changes nothing. No other role is touched. */
  lemma PublishMeaning(e: Encoding, t: Table, id: RoleId, selfEditable: set<string>)
    requires id in t
    ensures var after, answer := Published(e, t, id, selfEditable), Gate(e, t[id], selfEditable);
      && (answer.Err? ==> after == Err(answer.error))
      && (answer.Ok? ==>
            && after.Ok? && after.value.Keys == t.Keys && (forall k | k in t && k != id :: after.value[k] == t[k])
            && after.value[id].live == answer.value && after.value[id].draft == None
            && after.value[id].hash == None && after.value[id].violations == None)
  {
  }

  /** A draft that is saved reads back as what was parsed and has not been simulated; the live formula and
      every other role stay. */
  lemma SaveMeaning(e: Encoding, t: Table, id: RoleId, input: Json, selfEditable: set<string>)
    requires Saved(t, id, input).Ok?
    ensures id in t && ParseDefinition(input).Some?
    ensures var after := Saved(t, id, input).value;
      && after.Keys == t.Keys && (forall k | k in t && k != id :: after[k] == t[k])
      && after[id].live == t[id].live && Gate(e, after[id], selfEditable) == Err(NotSimulated)
      && after[id].draft.Some? && ParseDefinition(after[id].draft.value) == ParseDefinition(input)
  {
    AcceptedDraftReparses(input);
  }

  /** Recording a simulation is about one role's draft: nothing else of it changes, nor any other role. */
  lemma RecordMeaning(t: Table, id: RoleId, hash: string, violations: nat)
    requires Recorded(t, id, hash, violations).Ok?
    ensures id in t
    ensures var after := Recorded(t, id, hash, violations).value;
      && after.Keys == t.Keys && (forall k | k in t && k != id :: after[k] == t[k])
      && after[id].live == t[id].live && after[id].draft == t[id].draft
      && after[id].hash == Some(hash) && after[id].violations == Some(violations)
  {
  }
}
