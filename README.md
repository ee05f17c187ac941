# Re-render helpers of React_Custom_Components, in Dafny

The repository's logic is three helpers in `src/App.js` that let a React
component skip re-rendering when its props have not changed:

- `shallowEqual(obj1 = {}, obj2 = {})`, the comparator. It checks that both objects
  have the same number of own keys. Then it checks that every key of `obj1` reads the
  same value (`===`) in `obj2`.
- `customMemo(Component)`, a one-slot cache. It keeps the last props record and the
  element built from it in two closed-over variables. On each call it returns the
  remembered element when the new props are shallowly equal to the remembered ones.
  Otherwise it builds, remembers and returns a new element.
- `CustomPureComponent.shouldComponentUpdate(nextProps)`, the negated comparator.

The model, module by module:

- `Values` (values.dfy): a JavaScript value as `===` sees it: `undefined`, `null`,
  an integer, a string or a boolean by value, or an object by reference identity
  (`Ref(id)`). A props record is a `map<string, Value>`. `Get` reads a key and gives
  `undefined` for an absent key.
- `ShallowCompare` (shallow_equal.dfy): the relation `ShallowlyEqual` on records, and
  the comparator as a loop method `ShallowEqual` over possibly missing arguments,
  proved to decide exactly that relation. Lemmas say when records are or are not
  shallowly equal.
- `CustomMemo` (custom_memo.dfy): the cache as a value (`Cache`), one call as the
  function `Step`, and a series of calls as `Run`, with lemmas about hits, misses and
  build counts. The class `Memo` is the closure itself. Its fields are `lastProps` and
  `lastResult`, and a ghost counter records the number of builds. Its `Invoke` method
  is proved to do what `Step` says. `<Component {...props} />` is an opaque function
  `build` of the props.
- `PureComponent` (pure_component.dfy): `ShouldComponentUpdate` of the current and
  next props, and its link to the cache's hit rule.

The code does not do what its doc comment says (src/App.js:38-39). The comment says
two objects are equal when they have the same set of keys and the same values. The
code only compares key counts and looks up `obj1`'s keys in `obj2`. So a key bound to
`undefined` in `obj1` is matched by any key missing from `obj2`. The model follows the
code. `UndefinedMatchesMissingKey` shows that the comparator is then not symmetric.
`StaleElementWithUndefined` shows that `customMemo` then returns an element built from
other props. In the model, where a missing key reads as `undefined`, the comment holds
when the first record binds no key to `undefined`: `EqualIffSameRecord` proves that
shallow equality is then record equality.

## Model

| member | source | states |
|---|---|---|
| `Values.Get` | src/App.js:49 | `obj2[key]`: a value other than `undefined` comes only from a key present in the record, and it is that key's value |
| `ShallowCompare.OrEmpty` | src/App.js:40 | the default parameters `= {}`: a missing argument is an empty record, a given one is itself |
| `ShallowCompare.ShallowlyEqual` | src/App.js:40-54 | what `shallowEqual` decides, stated without a loop: equal key counts and every key of the first reads the same value in the second; so every key of the first with a value other than `undefined` is a key of the second |
| `ShallowCompare.ShallowEqual` | src/App.js:40-54 | the loop returns true exactly when the two records, a missing one taken as `{}`, have equal key counts and every key of the first reads the same value in the second |
| `ShallowCompare.CountMismatchUnequal` | src/App.js:41-46 | records with different key counts are never shallowly equal |
| `ShallowCompare.MissingArgument` | src/App.js:40-46 | a missing argument equals, in either position, only another missing argument or an empty record |
| `ShallowCompare.ValueMismatchUnequal` | src/App.js:48-51 | a key of the first record whose value differs (`!==`) from the second's value there makes the records unequal |
| `ShallowCompare.DistinctReferencesUnequal` | src/App.js:49-51 | two different objects under the same key make the records unequal, whatever the objects contain |
| `ShallowCompare.SameEntriesEqual` | src/App.js:48-53 | records with the same key set and the same value under each key are shallowly equal; key order plays no part |
| `ShallowCompare.Reflexive` | src/App.js:48-53 | every record is shallowly equal to itself |
| `ShallowCompare.EqualIffSameRecord` | src/App.js:38-53 | when the first record binds no key to `undefined`, shallow equality holds exactly when the records are equal (same key set, same values) |
| `ShallowCompare.SymmetricWithoutUndefined` | src/App.js:38-53 | for records without `undefined` values the comparator is symmetric |
| `ShallowCompare.UndefinedMatchesMissingKey` | src/App.js:44-53 | `{x: undefined}` is shallowly equal to `{y: 1}` but not the reverse: key sets are not compared and symmetry fails |
| `CustomMemo.IsHit` | src/App.js:16 | the guard `lastProps && shallowEqual(lastProps, props)`: never a hit before the first call, and a hit only when the key counts agree |
| `CustomMemo.Step` | src/App.js:14-23 | a call keeps the cache invariant (the remembered element is `build` of the remembered props) and returns the element it leaves remembered |
| `CustomMemo.Run` | src/App.js:14-23 | a series of calls keeps the cache invariant, returns one element per call and builds at most once per call |
| `CustomMemo.FirstCallBuilds` | src/App.js:11-22 | the first call is never a hit; it remembers its props and the element built from them and returns that element |
| `CustomMemo.HitReturnsRemembered` | src/App.js:16-18 | on a hit the remembered element is returned and both variables stay as they were, `lastProps` keeping the older record |
| `CustomMemo.MissReplacesBoth` | src/App.js:20-22 | on a miss `lastProps` becomes the new props and `lastResult` the element built from them, which is returned |
| `CustomMemo.StepBuildsForProps` | src/App.js:16-22 | when the remembered props bind no key to `undefined`, a call returns exactly `build` of its props |
| `CustomMemo.InvokeTwiceBuildsOnce` | src/App.js:16-22 | two calls in a row with the same record build at most once (exactly once on a fresh cache) and return the same element |
| `CustomMemo.RunBuildsForEachInput` | src/App.js:6-23 | over calls whose records bind no key to `undefined`, each call returns what the unmemoized component builds from its input |
| `CustomMemo.StaleElementWithUndefined` | src/App.js:16-18 | after `{x: undefined}`, a call with `{y: 1}` is a hit and returns the element built from `{x: undefined}` |
| `CustomMemo.CounterScenario` | src/App.js:14-23 | with a component that doubles `counter`, inputs `{counter: 1}`, `{counter: 1}`, `{counter: 2}` give 2, 2, 4 and build twice |
| `CustomMemo.AddedKeyRebuilds` | src/App.js:16-22 | `{a: 1}` followed by `{a: 1, b: 2}` builds twice |
| `CustomMemo.Memo.constructor` | src/App.js:10-12 | a new memo has `lastProps` and `lastResult` unset and has built nothing |
| `CustomMemo.Memo.Invoke` | src/App.js:14-23 | a call keeps the invariant, leaves the fields and returns the element as `Step` does, and adds one to the build count exactly on a miss |
| `PureComponent.ShouldComponentUpdate` | src/App.js:31-33 | no update for identical props; an update whenever the key counts differ or a current key's value differs in the next props |
| `PureComponent.UpdateIffPropsChanged` | src/App.js:26-33 | when the current props bind no key to `undefined`, the component updates exactly when the next props are a different record |
| `PureComponent.SkipIffMemoHit` | src/App.js:31-33 | the component skips a render exactly when `customMemo`, holding the same props, would hit |

## Left out

- React itself: JSX element construction, `ReactDOM`, the CSS import (src/App.js:1-3). `<Component {...props} />` is the opaque function `build`.
- The `App` component, `useState`, the button handler and the demo components `MyComponent` and `CustomPureCom` (src/App.js:56-81): user-interface wiring with no logic of its own.
- When React calls `shouldComponentUpdate` and which `this.props` it supplies: host lifecycle behaviour. `ShouldComponentUpdate` takes the current props as a parameter.
- Floating-point numbers and `NaN` (for which `NaN !== NaN`): numbers are integers.
- Inherited properties: the model reads a missing key as `undefined` (`Get`) and ignores properties inherited from the prototype. In JavaScript, `obj2[key]` for a missing key such as `toString` reads the inherited property, so `shallowEqual({toString: Object.prototype.toString}, {y: 1})` is true there and false in the model.
- Aliasing of props objects: records are values, so the model does not capture that `lastProps = props` (src/App.js:20) keeps a reference to the caller's object. A caller that changes that object and passes it again gets a hit and an element built from the old contents. The model treats a record as immutable once it has been passed in.
- Other JavaScript object details: getters, the enumeration order of `Object.keys` (the loop visits keys in an unspecified order), and passing `null`, which bypasses the default parameter.
- `build` is total and pure. A component that throws, or that has side effects skipped on a hit, is not modelled.
- Element identity: `build` returns values, so "the same element" means an equal value, not the same object.
