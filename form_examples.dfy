/**
 * Worked uses of the form: a client of `UseForm.Form` whose assertions
 * follow from the contracts alone, the two inputs on which the source's
 * `triggerRule` and `reset` depart from the corrected operations, and a
 * reordering of nested keys that is deep-equal yet dirty.
 */
module FormExamples {
  import opened Wrappers
  import opened JsValues
  import opened DeepEqual
  import opened UseForm

  /** `v => v.name.length > 0 ? { isValid: true } : { isValid: false, message: "required" }`. */
  function NameRequired(vs: Values): RuleResult
  {
    var name := Get(vs, "name");
    if name.Str? && |name.s| > 0 then RuleResult(true, None) else RuleResult(false, Some("required"))
  }

  function NameRules(): Rules
  {
    map["notEmpty" := NameRequired]
  }

  /** Dirty tracking: `setValues({name: "Ann"})` dirties the form, `reset()` cleans it. */
  method DirtyTracking()
  {
    var defaults: Values := [("name", Str("")), ("age", Num(0))];
    assert defaults[1..] == [("age", Num(0))];
    var form := new Form(defaults, map[]);
    assert !form.IsDirty();
    var patch: Patch := [("name", Str("Ann"))];
    form.SetValues(patch);
    assert Get(form.values, "age") == Num(0);
    assert Get(form.values, "name") == Str("Ann");
    NameFilledIn();
    assert form.IsDirty();
    form.Reset();
    assert form.values == defaults && !form.IsDirty();
  }

  /** `{name: "", age: 0}` patched with `{name: "Ann"}` serialises differently from before. */
  lemma NameFilledIn()
    ensures
      var defaults: Values := [("name", Str("")), ("age", Num(0))];
      var patched := Spread(defaults, DefinedEntries([("name", Str("Ann"))]));
      patched == [("name", Str("Ann")), ("age", Num(0))] &&
      Normalize(Obj(patched)) != Normalize(Obj(defaults))
  {
    var defaults: Values := [("name", Str("")), ("age", Num(0))];
    var patch: Patch := [("name", Str("Ann"))];
    var patched: Values := [("name", Str("Ann")), ("age", Num(0))];
    assert DefinedEntries(patch) == patch;
    assert Spread(defaults, patch) == Put(defaults, "name", Str("Ann")) == patched;
    assert Normalize(Obj(patched)).props[0] == ("name", Str("Ann"));
    assert Normalize(Obj(defaults)).props[0] == ("name", Str(""));
  }

  /** `setValues({name: undefined})` keeps the previous name. */
  method UndefinedDoesNotOverwrite()
  {
    var form := new Form([("name", Str("Ann"))], map[]);
    form.SetValues([("name", Undefined)]);
    assert Get(form.values, "name") == Str("Ann");
  }

  /** A failing rule on the defaults is reported; a value that passes clears it. */
  method ValidationRecompute()
  {
    var form := new Form([("name", Str(""))], NameRules());
    assert form.errors == map["notEmpty" := "required"];
    assert !form.IsValid();
    form.SetValues([("name", Str("x"))]);
    assert form.errors == map[];
    assert form.IsValid();
  }

  /** `() => ({ isValid: false })`: a rule that always fails without a message. */
  function AlwaysFails(vs: Values): RuleResult
  {
    RuleResult(false, None)
  }

  lemma AlwaysFailsReported(values: Values, rules: Rules)
    requires "k" in rules && rules["k"] == AlwaysFails
    ensures "k" in ComputeErrors(values, rules)
    ensures ComputeErrors(values, rules)["k"] == "Validation by `k` rule failed"
  {
  }

  /** `addRule` followed by `reset()` restores exactly the rules given at creation. */
  method ResetRestoresRules()
  {
    var form := new Form([("name", Str("Ann"))], NameRules());
    form.AddRule("k", AlwaysFails);
    assert "k" in form.rules;
    AlwaysFailsReported(form.values, form.rules);
    assert form.errors["k"] == "Validation by `k` rule failed";
    form.Reset();
    assert form.rules == NameRules() && "k" !in form.rules;
  }

  /**
   * After the name is filled in, `triggerRule` as written still reports the
   * rule failing, because it evaluates the rule against the first render's
   * values; evaluated against the current values it passes.
   */
  lemma StaleTriggerExample()
    ensures
      var defaults := [("name", Str(""))];
      var current := Spread(defaults, [("name", Str("x"))]);
      Triggered(map[], "notEmpty", NameRequired(defaults)) == map["notEmpty" := "required"] &&
      Triggered(map[], "notEmpty", NameRequired(current)) == map[]
  {
    var defaults := [("name", Str(""))];
    assert Get(Spread(defaults, [("name", Str("x"))]), "name") == Str("x");
  }

  /**
   * `reset()` on a form whose values and rules were never changed empties
   * the error set although its rule fails on the defaults, so `isValid`
   * turns true; a validation pass reports the failure.
   */
  lemma ResetSkipsValidationExample()
    ensures ErrorsAfterResetAsWritten(true, true, [("name", Str(""))], NameRules()) == map[]
    ensures ComputeErrors([("name", Str(""))], NameRules()) == map["notEmpty" := "required"]
  {
  }

  /** `{city: "Oslo", zip: 150}` and `{zip: 150, city: "Oslo"}`. */
  function Address(cityFirst: bool): Val
  {
    if cityFirst then Obj([("city", Str("Oslo")), ("zip", Num(150))])
    else Obj([("zip", Num(150)), ("city", Str("Oslo"))])
  }

  lemma ReorderedAddressesEqual()
    ensures IsEqual(Address(true), Address(false))
  {
    var inner1, inner2 := Address(true).props, Address(false).props;
    assert inner1[1..] == [("zip", Num(150))];
    assert inner2[1..] == [("city", Str("Oslo"))];
    assert DefinedEntries(inner1) == inner1;
    assert DefinedEntries(inner2) == inner2;
  }

  /** The two address orders serialise differently. */
  lemma ReorderedAddressesDiffer()
    ensures Normalize(Address(true)) != Normalize(Address(false))
  {
    var inner1, inner2 := Address(true).props, Address(false).props;
    assert inner1[1..] == [("zip", Num(150))];
    assert inner2[1..] == [("city", Str("Oslo"))];
    assert DefinedEntries(inner1)[0].0 == "city";
    assert DefinedEntries(inner2)[0].0 == "zip";
    assert Normalize(Address(true)).props[0].0 != Normalize(Address(false)).props[0].0;
  }

  /** A form whose one field `address` holds `v`. */
  function AddressForm(v: Val): Val
  {
    Obj([("address", v)])
  }

  lemma AddressFormEqual(a: Val, b: Val)
    requires a != Undefined && b != Undefined && IsEqual(a, b)
    ensures IsEqual(AddressForm(a), AddressForm(b))
  {
    var p1, p2 := AddressForm(a).props, AddressForm(b).props;
    assert DefinedEntries(p1) == p1 && DefinedEntries(p2) == p2;
    assert Get(p2, "address") == b;
  }

  lemma AddressFormNormalize(v: Val)
    requires v != Undefined
    ensures Normalize(AddressForm(v)) == AddressForm(Normalize(v))
  {
    var p := AddressForm(v).props;
    assert DefinedEntries(p) == p;
  }

  /**
   * The converse fails: a nested object whose keys come in another order is
   * deep-equal but serialises differently, so `isDirty` reports a change.
   */
  lemma ReorderedNestedKeysAreDirty()
    ensures IsEqual(AddressForm(Address(true)), AddressForm(Address(false)))
    ensures Normalize(AddressForm(Address(true))) != Normalize(AddressForm(Address(false)))
  {
    ReorderedAddressesEqual();
    AddressFormEqual(Address(true), Address(false));
    ReorderedAddressesDiffer();
    AddressFormNormalize(Address(true));
    AddressFormNormalize(Address(false));
  }
}
