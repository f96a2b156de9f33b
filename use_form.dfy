/**
 * The form state of the `useForm` hook: current values, errors and rules,
 * the baseline captured when the form is created, the validation pass that
 * runs whenever the values or the rules change, and the setters.
 *
 * React's state hooks become the fields of `Form`; a state update takes
 * effect at once, and the validation effect is the method `Revalidate`,
 * called by every operation that gives `values` or `rules` a new object.
 */
module UseForm {
  import opened Wrappers
  import opened JsValues
  import opened DeepEqual

  /** The current field values, an object none of whose properties is `undefined`. */
  type Values = seq<Entry>

  /** The argument of `setValues`: a partial object; an `Undefined` property is one set to `undefined`. */
  type Patch = seq<Entry>

  /** What a rule returns: `{ isValid, message? }`. */
  datatype RuleResult = RuleResult(isValid: bool, message: Option<string>)

  type Rule = Values -> RuleResult
  type Rules = map<string, Rule>

  /** Failed rule keys to their messages. */
  type Errors = map<string, string>

  /** A value a form can hold: a well-formed object with no `undefined` property. */
  predicate IsValues(vs: Values)
  {
    WellFormed(Obj(vs)) && forall e :: e in vs ==> e.1 != Undefined
  }

  function DefaultMessage(ruleKey: string): string
  {
    "Validation by `" + ruleKey + "` rule failed"
  }

  /**
   * `result.message || default`: the rule's own message unless it is absent
   * or empty, in which case the message naming the rule.
   */
  function FailureMessage(ruleKey: string, result: RuleResult): (m: string)
    ensures m != ""
    ensures m == DefaultMessage(ruleKey) || result.message == Some(m)
    ensures result.message.Some? && result.message.value != "" ==> m == result.message.value
  {
    if result.message.Some? && result.message.value != "" then result.message.value
    else DefaultMessage(ruleKey)
  }

  /** The error set a validation pass builds from scratch. */
  function ComputeErrors(values: Values, rules: Rules): Errors
  {
    map k | k in rules && !rules[k](values).isValid :: FailureMessage(k, rules[k](values))
  }

  /**
   * The body of the validation effect: every rule runs against `values`,
   * and each one that fails contributes its message to a fresh error set.
   */
  method ValidateAll(values: Values, rules: Rules) returns (newErrors: Errors)
    ensures forall k :: k in newErrors <==> k in rules && !rules[k](values).isValid
    ensures forall k :: k in newErrors ==> newErrors[k] == FailureMessage(k, rules[k](values))
    ensures rules == map[] ==> newErrors == map[]
    ensures newErrors == ComputeErrors(values, rules)
  {
    newErrors := map[];
    var pending := rules.Keys;
    while pending != {}
      invariant pending <= rules.Keys
      invariant forall k :: k in newErrors <==> k in rules && k !in pending && !rules[k](values).isValid
      invariant forall k :: k in newErrors ==> newErrors[k] == FailureMessage(k, rules[k](values))
      decreases pending
    {
      var ruleKey :| ruleKey in pending;
      var result := rules[ruleKey](values);
      if !result.isValid {
        newErrors := newErrors[ruleKey := FailureMessage(ruleKey, result)];
      }
      pending := pending - {ruleKey};
    }
  }

  /** Validation passes exactly when every rule accepts the values. */
  lemma ValidIffAllRulesPass(values: Values, rules: Rules)
    ensures |ComputeErrors(values, rules)| == 0 <==> forall k :: k in rules ==> rules[k](values).isValid
  {
    var errs := ComputeErrors(values, rules);
    if exists k :: k in rules && !rules[k](values).isValid {
      var k :| k in rules && !rules[k](values).isValid;
      assert k in errs;
    }
  }

  /** A step of the `reduce` in DropUndefined that meets a defined entry and assigns it. */
  lemma DefinedStep(acc: Patch, rest: Patch)
    requires rest != [] && DistinctKeys(rest) && rest[0].1 != Undefined
    requires forall k :: HasOwn(acc, k) ==> !HasOwn(rest, k)
    ensures Put(acc, rest[0].0, rest[0].1) + DefinedEntries(rest[1..]) == acc + DefinedEntries(rest)
    ensures forall k :: HasOwn(Put(acc, rest[0].0, rest[0].1), k) ==> !HasOwn(rest[1..], k)
  {
    assert !HasOwn(acc, rest[0].0);
    PutAppends(acc, rest[0], DefinedEntries(rest[1..]));
    FreshKeysStayFresh(acc, rest);
  }

  /** Assigning a key the object lacks appends it. */
  lemma PutAppends(acc: Patch, e: Entry, tail: Patch)
    requires !HasOwn(acc, e.0)
    ensures Put(acc, e.0, e.1) + tail == acc + ([e] + tail)
  {
    assert Put(acc, e.0, e.1) == acc + [e];
  }

  /** The keys assigned so far, and the one being assigned, are absent from the rest of the patch. */
  lemma FreshKeysStayFresh(acc: Patch, rest: Patch)
    requires rest != [] && DistinctKeys(rest)
    requires forall k :: HasOwn(acc, k) ==> !HasOwn(rest, k)
    ensures forall k :: HasOwn(Put(acc, rest[0].0, rest[0].1), k) ==> !HasOwn(rest[1..], k)
  {
    forall k | HasOwn(Put(acc, rest[0].0, rest[0].1), k) ensures !HasOwn(rest[1..], k) {
      if k != rest[0].0 {
        assert HasOwn(acc, k);
      }
    }
  }

  /** A step of the `reduce` in DropUndefined that meets an `undefined` entry and skips it. */
  lemma UndefinedStep(acc: Patch, rest: Patch)
    requires rest != [] && rest[0].1 == Undefined
    requires forall k :: HasOwn(acc, k) ==> !HasOwn(rest, k)
    ensures acc + DefinedEntries(rest[1..]) == acc + DefinedEntries(rest)
    ensures forall k :: HasOwn(acc, k) ==> !HasOwn(rest[1..], k)
  {
  }

  /**
   * The `reduce` that builds `partialNewValues`: each property of the patch
   * whose value is not `undefined` is assigned, in order.
   */
  method DropUndefined(patch: Patch) returns (partialNewValues: Patch)
    requires DistinctKeys(patch)
    ensures partialNewValues == DefinedEntries(patch)
    ensures forall e :: e in partialNewValues ==> e.1 != Undefined
    ensures forall k :: Get(partialNewValues, k) == Get(patch, k)
  {
    partialNewValues := [];
    var i := 0;
    while i < |patch|
      invariant 0 <= i <= |patch|
      invariant DistinctKeys(patch[i..])
      invariant partialNewValues + DefinedEntries(patch[i..]) == DefinedEntries(patch)
      invariant forall k :: HasOwn(partialNewValues, k) ==> !HasOwn(patch[i..], k)
    {
      assert patch[i..][1..] == patch[i + 1..];
      var key, value := patch[i].0, patch[i].1;
      if value != Undefined {
        DefinedStep(partialNewValues, patch[i..]);
        partialNewValues := Put(partialNewValues, key, value);
      } else {
        UndefinedStep(partialNewValues, patch[i..]);
      }
      i := i + 1;
    }
    assert partialNewValues == DefinedEntries(patch) by {
      assert patch[i..] == [];
    }
    forall k ensures Get(partialNewValues, k) == Get(patch, k) {
      DefinedEntriesGet(patch, k);
    }
  }

  /**
   * After `setValues(patch)`: every key the patch sets to a value other than
   * `undefined` holds that value, and every other key, including the keys the
   * patch sets to `undefined`, keeps its previous value. The result is
   * still a form's values.
   */
  lemma SetValuesResult(prev: Values, patch: Patch)
    requires IsValues(prev) && WellFormed(Obj(patch))
    ensures IsValues(Spread(prev, DefinedEntries(patch)))
    ensures forall k ::
              Get(Spread(prev, DefinedEntries(patch)), k) ==
              if Get(patch, k) != Undefined then Get(patch, k) else Get(prev, k)
  {
    var d := DefinedEntries(patch);
    var r := Spread(prev, d);
    forall k ensures Get(r, k) == if Get(patch, k) != Undefined then Get(patch, k) else Get(prev, k) {
      SpreadGet(prev, d, k);
      DefinedEntriesGet(patch, k);
    }
    forall i | 0 <= i < |r| ensures r[i].1 != Undefined && WellFormed(r[i].1) {
      assert r[i] in prev || r[i] in patch;
    }
  }

  /**
   * The error set after `triggerRule(ruleKey, rule)` whose rule returned
   * `result`: unchanged when the rule passes, so an earlier error under
   * `ruleKey` is not cleared; otherwise only `ruleKey` takes the failure
   * message.
   */
  function Triggered(errors: Errors, ruleKey: string, result: RuleResult): (r: Errors)
    ensures result.isValid ==> r == errors
    ensures !result.isValid ==> ruleKey in r && r[ruleKey] == FailureMessage(ruleKey, result)
    ensures forall k :: k != ruleKey ==> (k in r <==> k in errors) && (k in r ==> r[k] == errors[k])
  {
    if result.isValid then errors else errors[ruleKey := FailureMessage(ruleKey, result)]
  }

  /**
   * The error set `reset()` leaves as the source is written: it is emptied,
   * and the validation effect re-runs only when `values` or `rules` held an
   * object other than the baseline's before the reset.
   */
  function ErrorsAfterResetAsWritten(valuesWereBaseline: bool, rulesWereBaseline: bool,
                                     baseline: Values, firstRules: Rules): (r: Errors)
    ensures valuesWereBaseline && rulesWereBaseline ==> r == map[]
    ensures r != ComputeErrors(baseline, firstRules) <==>
              valuesWereBaseline && rulesWereBaseline &&
              exists k :: k in firstRules && !firstRules[k](baseline).isValid
  {
    ValidIffAllRulesPass(baseline, firstRules);
    if valuesWereBaseline && rulesWereBaseline then map[] else ComputeErrors(baseline, firstRules)
  }

  /**
   * Values that serialise to the same JSON text are deep-equal, so a form
   * that is not dirty holds values deep-equal to its baseline.
   */
  lemma {:induction false} SameSerialisationIsEqual(a: Val, b: Val)
    requires WellFormed(a) && WellFormed(b)
    requires Normalize(a) == Normalize(b)
    ensures IsEqual(a, b)
  {
    if a.Obj? && b.Obj? {
      var p1, p2 := a.props, b.props;
      var d1, d2 := DefinedEntries(p1), DefinedEntries(p2);
      assert |d1| == |d2| by {
        assert |Normalize(a).props| == |d1| && |Normalize(b).props| == |d2|;
      }
      forall i | 0 <= i < |d1|
        ensures HasOwn(p2, d1[i].0) && IsEqual(d1[i].1, Get(p2, d1[i].0))
      {
        assert Normalize(a).props[i] == (d1[i].0, Normalize(d1[i].1));
        assert Normalize(b).props[i] == (d2[i].0, Normalize(d2[i].1));
        assert d1[i] in p1 && d2[i] in p2;
        HasOwnMember(p2, d2[i]);
        SameSerialisationIsEqual(d1[i].1, d2[i].1);
      }
    }
  }

  /**
   * The state of `useForm`. `firstDefaultValues` and `firstRules` are the
   * baselines captured on the first render; nothing ever replaces them.
   */
  class Form {
    var values: Values
    var errors: Errors
    var rules: Rules
    const firstDefaultValues: Values
    const firstRules: Rules

    /**
     * Whether `values` (`rules`) still holds the very object captured as the
     * baseline. React re-runs the validation effect only when one of its
     * dependencies becomes a different object, and every setter but `reset`
     * creates a new one.
     */
    var valuesIsBaseline: bool
    var rulesIsBaseline: bool

    ghost predicate Valid()
      reads this
    {
      && IsValues(firstDefaultValues)
      && IsValues(values)
      && KeyOrderKept(firstDefaultValues, values)
      && (valuesIsBaseline ==> values == firstDefaultValues)
      && (rulesIsBaseline ==> rules == firstRules)
    }

    /** `useForm({ defaultValues, rules })` on the first render, including the first run of the validation effect. */
    constructor (defaultValues: Values, initialRules: Rules)
      requires IsValues(defaultValues)
      ensures Valid()
      ensures firstDefaultValues == defaultValues && firstRules == initialRules
      ensures values == defaultValues && rules == initialRules
      ensures valuesIsBaseline && rulesIsBaseline
      ensures errors == ComputeErrors(defaultValues, initialRules)
      ensures !IsDirty()
    {
      values := defaultValues;
      errors := map[];
      rules := initialRules;
      firstDefaultValues := defaultValues;
      firstRules := initialRules;
      valuesIsBaseline, rulesIsBaseline := true, true;
      new;
      Revalidate();
    }

    /** `isValid`: no rule key has an error. */
    function IsValid(): (ok: bool)
      reads this
      ensures ok <==> errors == map[]
    {
      |errors| == 0
    }

    /**
     * `isDirty`: the values serialise differently from the baseline. A form
     * that is not dirty is deep-equal to its baseline.
     */
    function IsDirty(): (dirty: bool)
      reads this
      requires Valid()
      ensures !dirty ==> IsEqual(Obj(values), Obj(firstDefaultValues))
      ensures values == firstDefaultValues ==> !dirty
    {
      var dirty := Normalize(Obj(values)) != Normalize(Obj(firstDefaultValues));
      if dirty then dirty
      else SameSerialisationIsEqual(Obj(values), Obj(firstDefaultValues)); dirty
    }

    /** The validation effect: the error set is rebuilt from the current values and rules. */
    method Revalidate()
      modifies this`errors
      ensures errors == ComputeErrors(values, rules)
    {
      errors := ValidateAll(values, rules);
    }

    /**
     * `setValues(patch)`: the patch without its `undefined` properties is
     * spread over the current values, and the validation effect runs.
     */
    method SetValues(patch: Patch)
      requires Valid() && WellFormed(Obj(patch))
      modifies this
      ensures Valid()
      ensures values == Spread(old(values), DefinedEntries(patch))
      ensures forall k :: Get(values, k) == if Get(patch, k) != Undefined then Get(patch, k) else Get(old(values), k)
      ensures KeyOrderKept(old(values), values)
      ensures rules == old(rules) && rulesIsBaseline == old(rulesIsBaseline) && !valuesIsBaseline
      ensures errors == ComputeErrors(values, rules)
    {
      SetValuesResult(values, patch);
      var partialNewValues := DropUndefined(patch);
      values := Spread(values, partialNewValues);
      valuesIsBaseline := false;
      Revalidate();
    }

    /** `setValues(prevValues => patch)`: the callback is applied to the current values. */
    method SetValuesWith(update: Values -> Patch)
      requires Valid() && WellFormed(Obj(update(values)))
      modifies this
      ensures Valid()
      ensures values == Spread(old(values), DefinedEntries(update(old(values))))
      ensures rules == old(rules) && rulesIsBaseline == old(rulesIsBaseline) && !valuesIsBaseline
      ensures errors == ComputeErrors(values, rules)
    {
      SetValues(update(values));
    }

    /** `addRule(ruleKey, rule)`: the rule is stored under its key, and the validation effect runs. */
    method AddRule(ruleKey: string, rule: Rule)
      requires Valid()
      modifies this
      ensures Valid()
      ensures rules == old(rules)[ruleKey := rule]
      ensures values == old(values) && valuesIsBaseline == old(valuesIsBaseline) && !rulesIsBaseline
      ensures errors == ComputeErrors(values, rules)
    {
      rules := rules[ruleKey := rule];
      rulesIsBaseline := false;
      Revalidate();
    }

    /**
     * `triggerRule(ruleKey, rule)`, evaluated against the current values: a
     * failure sets the error under `ruleKey`, a pass changes nothing. The
     * rule set is left alone, and the validation effect does not run.
     */
    method TriggerRule(ruleKey: string, rule: Rule)
      requires Valid()
      modifies this`errors
      ensures Valid()
      ensures errors == Triggered(old(errors), ruleKey, rule(values))
    {
      errors := Triggered(errors, ruleKey, rule(values));
    }

    /**
     * `triggerRule` as the source has it: the callback is memoised with no
     * dependencies, so the rule sees the values of the first render, which
     * are the baseline.
     */
    method TriggerRuleAsWritten(ruleKey: string, rule: Rule)
      requires Valid()
      modifies this`errors
      ensures Valid()
      ensures errors == Triggered(old(errors), ruleKey, rule(firstDefaultValues))
    {
      errors := Triggered(errors, ruleKey, rule(firstDefaultValues));
    }

    /**
     * `reset()`: values and rules return to the baselines, the error set is
     * cleared, and the validation effect runs, so the form is in the state it
     * had when it was created.
     */
    method Reset()
      requires Valid()
      modifies this
      ensures Valid()
      ensures values == firstDefaultValues && rules == firstRules
      ensures valuesIsBaseline && rulesIsBaseline
      ensures errors == ComputeErrors(firstDefaultValues, firstRules)
      ensures !IsDirty()
    {
      values := firstDefaultValues;
      errors := map[];
      rules := firstRules;
      valuesIsBaseline, rulesIsBaseline := true, true;
      Revalidate();
    }

    /**
     * `reset()` as the source has it: when `values` and `rules` already hold
     * the baseline objects, no dependency of the validation effect changes,
     * so the emptied error set stays empty.
     */
    method ResetAsWritten()
      requires Valid()
      modifies this
      ensures Valid()
      ensures values == firstDefaultValues && rules == firstRules
      ensures valuesIsBaseline && rulesIsBaseline
      ensures errors == ErrorsAfterResetAsWritten(old(valuesIsBaseline), old(rulesIsBaseline), firstDefaultValues, firstRules)
      ensures !IsDirty()
    {
      var dependenciesUnchanged := valuesIsBaseline && rulesIsBaseline;
      values := firstDefaultValues;
      errors := map[];
      rules := firstRules;
      valuesIsBaseline, rulesIsBaseline := true, true;
      if !dependenciesUnchanged {
        Revalidate();
      }
    }
  }
}
