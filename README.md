# Form state of `react-bulk-form`, modelled in Dafny

This project models the core of a small React form-state hook, `useForm`, and the deep-equality helper `isEqual`.

The hook keeps five pieces of state:
- the current field `values`;
- the `errors`, a map from rule key to message;
- the `rules`, a map from rule key to a function of the values;
- the baselines `firstDefaultValues` and `firstRules`, captured on the first render.

It offers `setValues` (a patch object or a callback), `addRule`, `triggerRule` and `reset`. It also derives two flags: `isValid` (there are no errors) and `isDirty` (the values serialise differently from the baseline). A validation effect rebuilds `errors` from scratch whenever `values` or `rules` changes.

The model is split into these modules:
- `JsValues` (js_values.dfy) defines JSON-like JavaScript values. `Undefined` stands for `undefined`. An object is its ordered list of own properties. The module also gives the object operations the hook depends on: a property read (`Get`), an assignment (`Put`), object spread (`Spread`), dropping `undefined` properties (`DefinedEntries`) and what `JSON.stringify` keeps (`Normalize`).
- `DeepEqual` (deep_equal.dfy) models `isEqual` as a pure recursive function. Its lemmas prove reflexivity, symmetry, that `undefined` keys are ignored, and the key-by-key characterisation.
- `UseForm` (use_form.dfy) models the hook. The class `Form` holds the state. The validation pass is the loop method `ValidateAll`, and the patch filter is the loop method `DropUndefined`. State updates take effect immediately. The validation effect is the method `Revalidate`, which every operation calls when it gives `values` or `rules` a new object.
- `FormExamples` (form_examples.dfy) holds client methods that replay four usage scenarios using only the contracts: dirty tracking, `undefined` not overwriting a value, validation recompute, and `reset` restoring the rules. It also holds the counterexamples for the findings below, and the reordered-keys example for `isDirty`.

Three behaviours of the code that are easy to miss:
- `isDirty` compares `JSON.stringify` output, not `isEqual`. `Form.IsDirty` is therefore defined through `Normalize`. `SameSerialisationIsEqual` proves the direction that does hold. `ReorderedNestedKeysAreDirty` shows that the converse fails.
- A passing `triggerRule` does not clear an existing error.
- `addRule` has no validation of its own. The effect covers it.

## Model

| member | source | states |
|---|---|---|
| `JsValues.Get` | src/utils/isEqual.ts:21 | reading a key the object does not own gives `undefined`; otherwise the result is the value stored under that key |
| `JsValues.Put` | src/hooks/useForm.ts:56 | `o[key] = v`: the key then reads `v`, every other key reads as before, an existing key keeps its position, and a new key is appended at the end |
| `JsValues.Spread` | src/hooks/useForm.ts:61-64 | `{...prev, ...partial}` keeps the order of `prev`'s keys as a prefix, owns exactly the keys of both sides, and keeps distinct keys |
| `JsValues.SpreadGet` | src/hooks/useForm.ts:61-64 | after a spread, a key of `partial` reads `partial`'s value and every other key reads `prev`'s value |
| `JsValues.DefinedEntries` | src/hooks/useForm.ts:54-59 | the kept entries are exactly the input entries whose value is not `undefined`, and distinct keys stay distinct |
| `JsValues.DefinedEntriesGet` | src/hooks/useForm.ts:54-59 | dropping `undefined` properties changes no property read, and the filtered object owns a key exactly when that key's value is defined |
| `JsValues.HasOwnKeysOf` | src/utils/isEqual.ts:20 | `hasOwnProperty.call(o, key)` holds exactly when `key` is one of `Object.keys(o)` |
| `JsValues.DefinedKeysFilter` | src/utils/isEqual.ts:9-14 | the filtered key list holds a key exactly when the object owns it and it does not read as `undefined` |
| `JsValues.Normalize` | src/hooks/useForm.ts:26 | what `JSON.stringify` keeps: a primitive is kept as is, an object keeps exactly its defined keys in their order, and no property at any depth is `undefined` |
| `DeepEqual.StrictEqualsValue` | src/utils/isEqual.ts:2-6 | `===` holds between two primitives exactly when they are the same value, and never when an operand is an object (no object identity in the model) |
| `DeepEqual.IsEqual` | src/utils/isEqual.ts:1-23 | when either side is not an object (including `null`), the result is strict equality |
| `DeepEqual.IsEqualReflexive` | src/utils/isEqual.ts:2-4 | every well-formed value is equal to itself at every depth, so the same-reference shortcut never changes the answer |
| `DeepEqual.NotEqualUndefined` | src/utils/isEqual.ts:5-7 | a defined value is never equal to `undefined` |
| `DeepEqual.UndefinedKeysIgnored` | src/utils/isEqual.ts:9-14 | comparing two objects gives the same result as comparing them with their `undefined` properties removed from both sides |
| `DeepEqual.DefinedCountsDiffer` | src/utils/isEqual.ts:16-18 | objects whose defined-key counts differ are unequal |
| `DeepEqual.MissingKeyNotEqual` | src/utils/isEqual.ts:20 | a defined key of the first object that the second does not own makes the result false |
| `DeepEqual.ObjectsByKey` | src/utils/isEqual.ts:16-22 | two objects are equal iff their defined-key counts agree and every defined key of the first is an own key of the second whose value is recursively equal |
| `DeepEqual.DefinedKeysCovered` | src/utils/isEqual.ts:19-22 | when two objects are equal, every defined key of the first is a defined key of the second |
| `DeepEqual.IsEqualSymmetric` | src/utils/isEqual.ts:9-22 | on well-formed values the comparison is symmetric, even though only the first argument's keys are walked |
| `DeepEqual.IsEqualExamples` | src/utils/isEqual.ts:1-23 | `{a:1,b:undefined}` equals `{a:1}`; `{a:1}` differs from `{a:1,b:2}`; `null` differs from `{}` |
| `UseForm.FailureMessage` | src/hooks/useForm.ts:41 | a stored message is never empty: it is the rule's own non-empty message, or otherwise ``Validation by `k` rule failed`` |
| `UseForm.ValidateAll` | src/hooks/useForm.ts:31-47 | the rebuilt error set holds key k iff `rules` has k and `rules[k](values)` is invalid, k maps to that rule's failure message, and with no rules the set is empty |
| `UseForm.ValidIffAllRulesPass` | src/hooks/useForm.ts:24 | a validation pass leaves no errors iff every rule accepts the values |
| `UseForm.DropUndefined` | src/hooks/useForm.ts:52-59 | the `reduce` keeps exactly the patch entries whose value is not `undefined`, in order, and every property read is unchanged |
| `UseForm.SetValuesResult` | src/hooks/useForm.ts:50-64 | after a merge, a key the patch sets to a defined value holds that value; every other key, including one the patch sets to `undefined`, keeps its previous value; the result is still a valid values object |
| `UseForm.Triggered` | src/hooks/useForm.ts:77-85 | a passing rule leaves the errors unchanged (an old error is not cleared); a failing rule sets only its key's message; every other key is untouched |
| `UseForm.ErrorsAfterResetAsWritten` | src/hooks/useForm.ts:88-92 | `reset()` as written leaves the errors empty when values and rules were still the baseline objects; for all inputs, its errors differ from a validation pass on the baseline exactly when both were still the baseline objects and some baseline rule fails |
| `UseForm.SameSerialisationIsEqual` | src/hooks/useForm.ts:25-28 | values with the same JSON serialisation are deep-equal, so a form that is not dirty is deep-equal to its baseline |
| `UseForm.Form.constructor` | src/hooks/useForm.ts:16-22 | the form starts at the defaults and the given rules; the baselines are captured; the mount-time validation fills the errors; the form is not dirty |
| `UseForm.Form.IsValid` | src/hooks/useForm.ts:24 | `isValid` holds iff the error map is empty |
| `UseForm.Form.IsDirty` | src/hooks/useForm.ts:25-28 | a form whose values equal its baseline is not dirty, and a form that is not dirty is deep-equal to its baseline |
| `UseForm.Form.Revalidate` | src/hooks/useForm.ts:31-47 | the error set becomes exactly the one computed from the current values and rules |
| `UseForm.Form.SetValues` | src/hooks/useForm.ts:49-70 | values become the spread of the filtered patch over the old values (keys keep their order, `undefined` overwrites nothing); rules are unchanged; errors are revalidated; the `Valid()` invariant still holds |
| `UseForm.Form.SetValuesWith` | src/hooks/useForm.ts:50-53 | the callback is resolved against the previous values, so successive calls fold left to right |
| `UseForm.Form.AddRule` | src/hooks/useForm.ts:72-74 | after `addRule(k, r)`, `rules[k] == r` and every other rule is unchanged; values are unchanged; errors are revalidated |
| `UseForm.Form.TriggerRule` | src/hooks/useForm.ts:76-86 | corrected: the rule is evaluated against the current values, only `errors` changes, and it changes as `Triggered` describes |
| `UseForm.Form.TriggerRuleAsWritten` | src/hooks/useForm.ts:76-86 | as written: the rule is evaluated against the first render's values, which are the baseline |
| `UseForm.Form.Reset` | src/hooks/useForm.ts:88-92 | corrected: values and rules return to the baselines, and the errors are recomputed from them, which is the state at creation; the form is not dirty |
| `UseForm.Form.ResetAsWritten` | src/hooks/useForm.ts:88-92 | as written: values and rules return to the baselines, and the errors are as `ErrorsAfterResetAsWritten` gives them |
| `FormExamples.StaleTriggerExample` | src/hooks/useForm.ts:76-86 | after the name is filled in, evaluating against the first-render values still reports the "required" error, while the current values pass |
| `FormExamples.ResetSkipsValidationExample` | src/hooks/useForm.ts:88-92 | on an untouched form whose rule fails on the defaults, `reset()` as written leaves no errors, while a validation pass reports the failure |
| `FormExamples.ReorderedNestedKeysAreDirty` | src/hooks/useForm.ts:25-28 | a nested object with its keys in a different order is deep-equal to the original but serialises differently, so the form counts as dirty |

## Left out

- React's scheduling, batching and memoisation (`useState`, `useEffect`, `useMemo`, `useCallback`) are not modelled. State updates are immediate, and the effect is an explicit `Revalidate` call. React re-runs the effect only when a dependency becomes a different object. The fields `valuesIsBaseline` and `rulesIsBaseline` track exactly that much object identity.
- UseForm.ValidateAll: rules are visited in an arbitrary order, not in `Object.keys` insertion order, and errors form a map. No result depends on the order, because rules are pure.
- A rule that throws is not modelled. Rules are total functions, and a thrown exception escapes to the host framework.
- JsValues.Put: objects in the model have no prototype, so `__proto__` is treated as an ordinary key. In JavaScript, the assignment `acc[key] = value` at src/hooks/useForm.ts:56 calls the inherited `__proto__` setter and creates no own property. So `setValues({["__proto__"]: "x"})` leaves the values unchanged in the source, while the model adds the entry. `DropUndefined` and `SetValues` inherit this through `Put`.
- JsValues.Get: inherited properties are not modelled. A key the object does not own reads as `undefined`, whereas in JavaScript a name such as `toString` reads the prototype's member.
- UseForm.ValidateAll: a rule keyed `__proto__` is treated like any other. In the source, `newErrors[ruleKey] = ...` at src/hooks/useForm.ts:41 calls the `__proto__` setter and drops that error, so `isValid` can hold while that rule fails. The model records the error.
- JsValues.Spread: JavaScript lists integer-like keys first in ascending order. The model keeps plain insertion order for every key.
- Arrays, functions, symbols, floating-point numbers and `NaN` are not part of the value model. Numbers are integers.
- Cyclic object graphs cannot be represented, so the model cannot express that `isEqual` fails to terminate on them.
- DeepEqual.IsEqual: the model has no object identity. Two object operands are treated as distinct references, and `IsEqualReflexive` shows that this changes no result.
- JSON.stringify's exact text is not modelled. `Normalize` keeps what the text depends on: the defined properties, in order, at every depth.
- An absent `rules` option is modelled as an empty map. They behave the same in every operation.
- `setErrors`, `commit` and the `flags` object belong to a different variant of the hook, described in src/types/common.ts. src/hooks/useForm.ts does not implement them, so they are not modelled, and neither is the scenario where `commit` moves the baseline.
- src/providers/FormProvider.tsx and src/hooks/useFormContext.ts are React context plumbing. Their only logic is a null check that throws. esbuild.mjs is a build script. None of them is part of this model.

## Findings

| source | as written | input that shows it | evidently intended | confidence | as-written member | corrected member |
|---|---|---|---|---|---|---|
| src/hooks/useForm.ts:76-86 | `triggerRule` is memoised with an empty dependency list, so its rule sees the `values` of the first render (the baseline) | defaults `{name: ""}`, then `setValues({name: "x"})`, then `triggerRule("notEmpty", nameRequired)`: the error "required" is stored although the current name passes | the rule is evaluated against the current values | medium; not executed | `UseForm.Form.TriggerRuleAsWritten`, `FormExamples.StaleTriggerExample` | `UseForm.Form.TriggerRule` |
| src/hooks/useForm.ts:88-92 | `reset()` empties `errors`, but the validation effect (:31-47) re-runs only if `values` or `rules` becomes a different object | a form made with `{name: ""}` and a rule that fails on an empty name, then `reset()` right away: errors become `{}` and `isValid` becomes true while the rule fails | after `reset()`, the errors are those the rules give on the baseline, as at creation | medium; not executed | `UseForm.Form.ResetAsWritten`, `UseForm.ErrorsAfterResetAsWritten`, `FormExamples.ResetSkipsValidationExample` | `UseForm.Form.Reset` |
