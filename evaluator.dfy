/** The Condition Evaluator: how `makeRequest` turns the outcomes of a
    technology's rules into `conditionCheck` (src/index.js:97-119). */
module Evaluator {

  /** The values `conditionCheck` takes. `False` stands for both `false` and
      `undefined` (the lookup of a name that is not a rule): the two behave
      alike under `&&`, `||`, `=== null` and truthiness. */
  datatype Tri = Null | True | False

  /** A technology's `condition`; an absent list is the empty list. */
  datatype Condition = Condition(required: seq<string>, optional: seq<string>)

  predicate Truthy(v: Tri) {
    v == True
  }

  /** JavaScript `x || y`: one of its operands, truthy when either is. */
  function Or(x: Tri, y: Tri): (r: Tri)
    ensures Truthy(r) <==> Truthy(x) || Truthy(y)
    ensures r == x || r == y
  {
    if Truthy(x) then x else y
  }

  /** JavaScript `x && y`: one of its operands, truthy when both are. */
  function And(x: Tri, y: Tri): (r: Tri)
    ensures Truthy(r) <==> Truthy(x) && Truthy(y)
    ensures r == x || r == y
  {
    if Truthy(x) then y else x
  }

  /** The rule named `key` exists and succeeded. */
  predicate Holds(rulesValid: map<string, bool>, key: string) {
    key in rulesValid && rulesValid[key]
  }

  /** `rulesValid[key]`: never `null`, truthy exactly when the rule holds. */
  function Lookup(rulesValid: map<string, bool>, key: string): (v: Tri)
    ensures v != Null
    ensures Truthy(v) <==> Holds(rulesValid, key)
  {
    if Holds(rulesValid, key) then True else False
  }

  predicate AnyHolds(rulesValid: map<string, bool>, keys: seq<string>) {
    exists key :: key in keys && Holds(rulesValid, key)
  }

  predicate AllHold(rulesValid: map<string, bool>, keys: seq<string>) {
    forall key :: key in keys ==> Holds(rulesValid, key)
  }

  /** Some rule of the technology succeeded. */
  predicate SomeOutcomeTrue(rulesValid: map<string, bool>) {
    exists key :: key in rulesValid && rulesValid[key]
  }

  /** `keys` lists the names in `rulesValid`, as `Object.keys` does. */
  ghost predicate ListsKeys(keys: seq<string>, rulesValid: map<string, bool>) {
    forall key :: key in keys <==> key in rulesValid
  }

  /** The `reduce` over the rule names, from `null`, with step
      `rulesValid[value] || key` (src/index.js:99). */
  function SeedFold(rulesValid: map<string, bool>, keys: seq<string>): (r: Tri)
    ensures r != False
  {
    if keys == [] then Null
    else Or(Lookup(rulesValid, keys[|keys| - 1]), SeedFold(rulesValid, keys[..|keys| - 1]))
  }

  /** One iteration of the `required` loop (src/index.js:102-105). */
  function RequiredStep(conditionCheck: Tri, value: Tri): Tri {
    if conditionCheck == Null then value else And(conditionCheck, value)
  }

  /** The `required` loop run from `seed` over `keys`. */
  function RequiredFold(seed: Tri, rulesValid: map<string, bool>, keys: seq<string>): (r: Tri)
    ensures |keys| >= 1 ==> r != Null
    ensures Truthy(r) ==> AllHold(rulesValid, keys)
  {
    if keys == [] then seed
    else
      var init, last := keys[..|keys| - 1], keys[|keys| - 1];
      assert keys == init + [last];
      AllHoldSnoc(rulesValid, init, last);
      RequiredStep(RequiredFold(seed, rulesValid, init), Lookup(rulesValid, last))
  }

  /** One iteration of the `optional` loop (src/index.js:110-113). */
  function OptionalStep(conditionCheck: Tri, value: Tri): Tri {
    if conditionCheck == Null then value else Or(conditionCheck, value)
  }

  /** The `optional` loop run from `seed` over `keys`. */
  function OptionalFold(seed: Tri, rulesValid: map<string, bool>, keys: seq<string>): (r: Tri)
    ensures |keys| >= 1 ==> r != Null
    ensures Truthy(seed) ==> Truthy(r)
    ensures Truthy(r) ==> Truthy(seed) || AnyHolds(rulesValid, keys)
  {
    if keys == [] then seed
    else
      var init, last := keys[..|keys| - 1], keys[|keys| - 1];
      assert keys == init + [last];
      AnyHoldsSnoc(rulesValid, init, last);
      OptionalStep(OptionalFold(seed, rulesValid, init), Lookup(rulesValid, last))
  }

  /** `conditionCheck` after both loops; each loop runs only when its list
      has more than one entry. It stays `null` only when neither loop runs,
      and it is `false` (or `undefined`) only when one of them ran. */
  function ConditionCheck(rulesValid: map<string, bool>, keys: seq<string>, condition: Condition): (r: Tri)
    ensures |condition.required| > 1 || |condition.optional| > 1 ==> r != Null
    ensures |condition.required| <= 1 && |condition.optional| <= 1 ==> r != False
  {
    var seed := SeedFold(rulesValid, keys);
    var afterRequired :=
      if |condition.required| > 1 then RequiredFold(seed, rulesValid, condition.required) else seed;
    if |condition.optional| > 1 then OptionalFold(afterRequired, rulesValid, condition.optional)
    else afterRequired
  }

  /** The technology is reported: `if (conditionCheck)` (src/index.js:119). */
  predicate Present(rulesValid: map<string, bool>, keys: seq<string>, condition: Condition) {
    Truthy(ConditionCheck(rulesValid, keys, condition))
  }

  /** The statements of src/index.js:97-115, run on the outcomes of one
      technology's rules and the names `Object.keys` lists. */
  method EvaluateCondition(rulesValid: map<string, bool>, keys: seq<string>, condition: Condition)
    returns (conditionCheck: Tri)
    ensures conditionCheck == ConditionCheck(rulesValid, keys, condition)
  {
    var required, optional := condition.required, condition.optional;
    conditionCheck := SeedFold(rulesValid, keys);
    ghost var seed := conditionCheck;
    if |required| > 1 {
      for i := 0 to |required|
        invariant conditionCheck == RequiredFold(seed, rulesValid, required[..i])
      {
        var key := required[i];
        conditionCheck :=
          if conditionCheck == Null then Lookup(rulesValid, key)
          else And(conditionCheck, Lookup(rulesValid, key));
        assert required[..i + 1][..i] == required[..i];
      }
      assert required[..|required|] == required;
    }
    ghost var afterRequired := conditionCheck;
    if |optional| > 1 {
      for i := 0 to |optional|
        invariant conditionCheck == OptionalFold(afterRequired, rulesValid, optional[..i])
      {
        var key := optional[i];
        conditionCheck :=
          if conditionCheck == Null then Lookup(rulesValid, key)
          else Or(conditionCheck, Lookup(rulesValid, key));
        assert optional[..i + 1][..i] == optional[..i];
      }
      assert optional[..|optional|] == optional;
    }
  }

  /** The seed is `true` when some listed rule succeeded and `null`
      otherwise; it is never `false`. */
  lemma {:induction false} SeedFoldIsAny(rulesValid: map<string, bool>, keys: seq<string>)
    ensures SeedFold(rulesValid, keys) == if AnyHolds(rulesValid, keys) then True else Null
  {
    if keys != [] {
      var init, last := keys[..|keys| - 1], keys[|keys| - 1];
      assert keys == init + [last];
      SeedFoldIsAny(rulesValid, init);
      AnyHoldsSnoc(rulesValid, init, last);
    }
  }

  /** Some of `init + [last]` holds when some of `init` does or `last` does. */
  lemma AnyHoldsSnoc(rulesValid: map<string, bool>, init: seq<string>, last: string)
    ensures AnyHolds(rulesValid, init + [last]) <==> AnyHolds(rulesValid, init) || Holds(rulesValid, last)
  {
  }

  /** All of `init + [last]` hold when all of `init` and `last` do. */
  lemma AllHoldSnoc(rulesValid: map<string, bool>, init: seq<string>, last: string)
    ensures AllHold(rulesValid, init + [last]) <==> AllHold(rulesValid, init) && Holds(rulesValid, last)
  {
  }

  /** Run from a seed that is not `false`, the `required` loop over a
      non-empty list is the conjunction of the listed outcomes; a name that
      is not a rule counts as false. */
  lemma {:induction false} RequiredFoldIsAll(seed: Tri, rulesValid: map<string, bool>, keys: seq<string>)
    requires |keys| >= 1 && seed != False
    ensures RequiredFold(seed, rulesValid, keys) == if AllHold(rulesValid, keys) then True else False
  {
    // The contract of `RequiredFold` settles the case where some name fails.
    if AllHold(rulesValid, keys) {
      var init, last := keys[..|keys| - 1], keys[|keys| - 1];
      assert keys == init + [last];
      AllHoldSnoc(rulesValid, init, last);
      if |keys| > 1 {
        RequiredFoldIsAll(seed, rulesValid, init);
      }
    }
  }

  /** The `optional` loop over a non-empty list yields `true` when the value
      it starts from is `true` or some listed rule succeeded, and `false`
      otherwise. */
  lemma {:induction false} OptionalFoldIsAny(seed: Tri, rulesValid: map<string, bool>, keys: seq<string>)
    requires |keys| >= 1
    ensures OptionalFold(seed, rulesValid, keys)
            == if Truthy(seed) || AnyHolds(rulesValid, keys) then True else False
  {
    // The contract of `OptionalFold` settles the case where the seed is
    // truthy and the case where nothing holds.
    if !Truthy(seed) && AnyHolds(rulesValid, keys) {
      var init, last := keys[..|keys| - 1], keys[|keys| - 1];
      assert keys == init + [last];
      AnyHoldsSnoc(rulesValid, init, last);
      if |keys| > 1 {
        OptionalFoldIsAny(seed, rulesValid, init);
      }
    }
  }

  /** Over the names `Object.keys` yields, "some listed rule holds" and
      "some rule succeeded" agree. */
  lemma AnyListedIsSome(rulesValid: map<string, bool>, keys: seq<string>)
    requires ListsKeys(keys, rulesValid)
    ensures AnyHolds(rulesValid, keys) <==> SomeOutcomeTrue(rulesValid)
  {
  }

  /** With at most one `required` and at most one `optional` entry neither
      loop runs: the technology is present exactly when some rule succeeded.
      In particular a single required name does not narrow the result. */
  lemma PresentWithoutCombination(rulesValid: map<string, bool>, keys: seq<string>, condition: Condition)
    requires ListsKeys(keys, rulesValid)
    requires |condition.required| <= 1 && |condition.optional| <= 1
    ensures Present(rulesValid, keys, condition) <==> SomeOutcomeTrue(rulesValid)
  {
    SeedFoldIsAny(rulesValid, keys);
    AnyListedIsSome(rulesValid, keys);
  }

  /** With several `required` names and at most one `optional`, the
      technology is present exactly when every required name is a rule that
      succeeded. */
  lemma PresentRequiredOnly(rulesValid: map<string, bool>, keys: seq<string>, condition: Condition)
    requires |condition.required| > 1 && |condition.optional| <= 1
    ensures Present(rulesValid, keys, condition) <==> AllHold(rulesValid, condition.required)
  {
    SeedFoldIsAny(rulesValid, keys);
    RequiredFoldIsAll(SeedFold(rulesValid, keys), rulesValid, condition.required);
  }

  /** With several `optional` names and at most one `required`, the
      `optional` loop never changes the verdict: the technology is present
      exactly when some rule succeeded, listed in `optional` or not. */
  lemma PresentOptionalOnly(rulesValid: map<string, bool>, keys: seq<string>, condition: Condition)
    requires ListsKeys(keys, rulesValid)
    requires |condition.required| <= 1 && |condition.optional| > 1
    ensures Present(rulesValid, keys, condition) <==> SomeOutcomeTrue(rulesValid)
  {
    var seed := SeedFold(rulesValid, keys);
    SeedFoldIsAny(rulesValid, keys);
    AnyListedIsSome(rulesValid, keys);
    OptionalFoldIsAny(seed, rulesValid, condition.optional);
    if AnyHolds(rulesValid, condition.optional) {
      var key :| key in condition.optional && Holds(rulesValid, key);
      assert SomeOutcomeTrue(rulesValid);
    }
  }

  /** With several names in both lists, `required` is applied first and the
      result is then or-ed with `optional`: the technology is present exactly
      when all required rules succeeded or some optional rule did. */
  lemma PresentRequiredThenOptional(rulesValid: map<string, bool>, keys: seq<string>, condition: Condition)
    requires |condition.required| > 1 && |condition.optional| > 1
    ensures Present(rulesValid, keys, condition)
            <==> AllHold(rulesValid, condition.required) || AnyHolds(rulesValid, condition.optional)
  {
    var seed := SeedFold(rulesValid, keys);
    SeedFoldIsAny(rulesValid, keys);
    RequiredFoldIsAll(seed, rulesValid, condition.required);
    OptionalFoldIsAny(RequiredFold(seed, rulesValid, condition.required), rulesValid, condition.optional);
  }

  /** Whatever the condition, a technology none of whose rules succeeded
      (in particular one with no rules) is not present. */
  lemma PresentNeedsSomeSuccess(rulesValid: map<string, bool>, keys: seq<string>, condition: Condition)
    requires Present(rulesValid, keys, condition)
    ensures SomeOutcomeTrue(rulesValid)
  {
    var seed := SeedFold(rulesValid, keys);
    SeedFoldIsAny(rulesValid, keys);
    if AnyHolds(rulesValid, keys) {
      var key :| key in keys && Holds(rulesValid, key);
    }
    var afterRequired :=
      if |condition.required| > 1 then RequiredFold(seed, rulesValid, condition.required) else seed;
    if |condition.required| > 1 {
      RequiredFoldIsAll(seed, rulesValid, condition.required);
      if AllHold(rulesValid, condition.required) {
        assert Holds(rulesValid, condition.required[0]);
      }
    }
    if |condition.optional| > 1 {
      OptionalFoldIsAny(afterRequired, rulesValid, condition.optional);
      if AnyHolds(rulesValid, condition.optional) {
        var key :| key in condition.optional && Holds(rulesValid, key);
      }
    }
  }
}
