/**
 * The sign-in / sign-up form state of the authentication screen: a reducer
 * that records the latest value and validity of each input field and the
 * aggregate flag `formIsValid`, the form's initial state, and the predicate
 * that disables the submit button.
 */
module AuthForm {
  import opened Wrappers

  /** The only action type the reducer reacts to. */
  const FORM_INPUT_UPDATE: string := "FORM_INPUT_UPDATE"

  const EMAIL: string := "email"
  const PASSWORD: string := "password"

  /** The reducer's state: latest value and validity per field identifier. */
  datatype FormState = FormState(
    inputValues: map<string, string>,
    inputValidities: map<string, bool>,
    formIsValid: bool)

  /** A dispatched action; `input` names the field, `isValid` comes from the field's own validator. */
  datatype Action = Action(kind: string, input: string, value: string, isValid: bool)

  /** The AND over every entry of a validity map (true for the empty map). */
  predicate AllValid(validities: map<string, bool>) {
    forall key :: key in validities ==> validities[key]
  }

  /** The aggregate flag agrees with the validity map. */
  predicate Consistent(s: FormState) {
    s.formIsValid == AllValid(s.inputValidities)
  }

  /** Both maps describe the same set of fields. */
  predicate Lockstep(s: FormState) {
    s.inputValues.Keys == s.inputValidities.Keys
  }

  /** The state the screen hands to `useReducer`: both fields empty and invalid. */
  function InitialState(): (s: FormState)
    ensures Consistent(s) && Lockstep(s)
    ensures s.inputValues.Keys == {EMAIL, PASSWORD}
    ensures !s.formIsValid
  {
    var validities := map[EMAIL := false, PASSWORD := false];
    assert !validities[EMAIL];
    FormState(map[EMAIL := "", PASSWORD := ""], validities, false)
  }

  /**
   * The reducer's transition. An update overwrites (or adds) the entry of
   * `action.input` in both maps and recomputes the aggregate flag; any other
   * action leaves the state as it is.
   */
  function Reduce(state: FormState, action: Action): (r: FormState)
    ensures action.kind != FORM_INPUT_UPDATE ==> r == state
    ensures action.kind == FORM_INPUT_UPDATE ==>
      && r.inputValues.Keys == state.inputValues.Keys + {action.input}
      && r.inputValidities.Keys == state.inputValidities.Keys + {action.input}
      && r.inputValues[action.input] == action.value
      && r.inputValidities[action.input] == action.isValid
      && (forall key :: key in state.inputValues && key != action.input ==>
            r.inputValues[key] == state.inputValues[key])
      && (forall key :: key in state.inputValidities && key != action.input ==>
            r.inputValidities[key] == state.inputValidities[key])
      && Consistent(r)
      && (r.formIsValid <==>
            action.isValid &&
            forall key :: key in state.inputValidities && key != action.input ==> state.inputValidities[key])
  {
    if action.kind == FORM_INPUT_UPDATE then
      var updatedValues := state.inputValues[action.input := action.value];
      var updatedValidities := state.inputValidities[action.input := action.isValid];
      FormState(updatedValues, updatedValidities, AllValid(updatedValidities))
    else
      state
  }

  /**
   * The reducer as the screen runs it: the two maps are copied with one entry
   * overwritten, and the aggregate flag is folded over the new validity map
   * one key at a time. Keys are visited in an arbitrary order, so the result
   * does not depend on the map's iteration order.
   */
  method FormReducer(state: FormState, action: Action) returns (r: FormState)
    ensures r == Reduce(state, action)
  {
    if action.kind == FORM_INPUT_UPDATE {
      var updatedValues := state.inputValues[action.input := action.value];
      var updatedValidities := state.inputValidities[action.input := action.isValid];
      var updatedFormIsValid := true;
      var pending := updatedValidities.Keys;
      while pending != {}
        invariant pending <= updatedValidities.Keys
        invariant updatedFormIsValid <==>
          forall key :: key in updatedValidities && key !in pending ==> updatedValidities[key]
        decreases pending
      {
        var key :| key in pending;
        updatedFormIsValid := updatedFormIsValid && updatedValidities[key];
        pending := pending - {key};
      }
      return FormState(updatedValues, updatedValidities, updatedFormIsValid);
    }
    return state;
  }

  /** Dispatching the same update twice leaves the state of dispatching it once. */
  lemma ReduceIdempotent(state: FormState, action: Action)
    ensures Reduce(Reduce(state, action), action) == Reduce(state, action)
  {
  }

  /** For one field, only the latest update matters. */
  lemma ReduceLastWriteWins(state: FormState, first: Action, second: Action)
    requires first.kind == FORM_INPUT_UPDATE && second.kind == FORM_INPUT_UPDATE
    requires first.input == second.input
    ensures Reduce(Reduce(state, first), second) == Reduce(state, second)
  {
    var key := first.input;
    assert state.inputValues[key := first.value][key := second.value] == state.inputValues[key := second.value];
    assert state.inputValidities[key := first.isValid][key := second.isValid] == state.inputValidities[key := second.isValid];
  }

  /** Updates of two different fields commute. */
  lemma ReduceCommutes(state: FormState, a: Action, b: Action)
    requires a.kind == FORM_INPUT_UPDATE && b.kind == FORM_INPUT_UPDATE
    requires a.input != b.input
    ensures Reduce(Reduce(state, a), b) == Reduce(Reduce(state, b), a)
  {
    var values := state.inputValues[a.input := a.value][b.input := b.value];
    assert values == state.inputValues[b.input := b.value][a.input := a.value];
    var validities := state.inputValidities[a.input := a.isValid][b.input := b.isValid];
    assert validities == state.inputValidities[b.input := b.isValid][a.input := a.isValid];
  }

  /** The state after dispatching a sequence of actions in order. */
  function ReduceAll(state: FormState, actions: seq<Action>): FormState
    decreases |actions|
  {
    if |actions| == 0 then state else ReduceAll(Reduce(state, actions[0]), actions[1..])
  }

  /** The field identifiers that a sequence of actions updates. */
  function UpdatedFields(actions: seq<Action>): set<string>
    decreases |actions|
  {
    if |actions| == 0 then {}
    else (if actions[0].kind == FORM_INPUT_UPDATE then {actions[0].input} else {})
         + UpdatedFields(actions[1..])
  }

  /**
   * After any sequence of actions from a consistent state, the aggregate flag
   * is still the AND of the latest validities, the two maps still have the
   * same fields, and the fields are the old ones plus those updated.
   */
  lemma {:induction false} ReduceAllKeepsInvariant(state: FormState, actions: seq<Action>)
    requires Consistent(state) && Lockstep(state)
    ensures Consistent(ReduceAll(state, actions)) && Lockstep(ReduceAll(state, actions))
    ensures ReduceAll(state, actions).inputValues.Keys == state.inputValues.Keys + UpdatedFields(actions)
    decreases |actions|
  {
    if |actions| > 0 {
      ReduceAllKeepsInvariant(Reduce(state, actions[0]), actions[1..]);
    }
  }

  /**
   * The aggregate flag stays the AND of the validity map under any sequence
   * of actions, even when the two maps describe different fields.
   */
  lemma {:induction false} ReduceAllKeepsConsistent(state: FormState, actions: seq<Action>)
    requires Consistent(state)
    ensures Consistent(ReduceAll(state, actions))
    decreases |actions|
  {
    if |actions| > 0 {
      ReduceAllKeepsConsistent(Reduce(state, actions[0]), actions[1..]);
    }
  }

  /** Whether `action` is an update of the field `key`. */
  predicate UpdatesField(action: Action, key: string) {
    action.kind == FORM_INPUT_UPDATE && action.input == key
  }

  /** The index of the last action in the sequence that updates `key`, if any. */
  function LastUpdate(actions: seq<Action>, key: string): (r: Option<nat>)
    ensures r.Some? ==>
      && r.value < |actions|
      && UpdatesField(actions[r.value], key)
      && forall j :: r.value < j < |actions| ==> !UpdatesField(actions[j], key)
    ensures r.None? <==> forall j :: 0 <= j < |actions| ==> !UpdatesField(actions[j], key)
    decreases |actions|
  {
    if |actions| == 0 then None
    else match LastUpdate(actions[1..], key)
      case Some(i) => Some(i + 1)
      case None => if UpdatesField(actions[0], key) then Some(0) else None
  }

  /**
   * After a sequence of actions, each field holds the value and validity of
   * the last action that updated it; a field no action updated keeps its
   * old entry, or stays absent.
   */
  lemma {:induction false} ReduceAllLatest(state: FormState, actions: seq<Action>, key: string)
    ensures var r := ReduceAll(state, actions);
      match LastUpdate(actions, key)
      case Some(i) =>
        && key in r.inputValues && r.inputValues[key] == actions[i].value
        && key in r.inputValidities && r.inputValidities[key] == actions[i].isValid
      case None =>
        && (key in r.inputValues <==> key in state.inputValues)
        && (key in state.inputValues ==> r.inputValues[key] == state.inputValues[key])
        && (key in r.inputValidities <==> key in state.inputValidities)
        && (key in state.inputValidities ==> r.inputValidities[key] == state.inputValidities[key])
    decreases |actions|
  {
    if |actions| > 0 {
      ReduceAllLatest(Reduce(state, actions[0]), actions[1..], key);
      match LastUpdate(actions[1..], key)
      case Some(i) =>
        assert actions[1..][i] == actions[i + 1];
      case None =>
    }
  }

  /**
   * The latest validity recorded for `key`: from the last update of it, or
   * else from the starting state; `None` when the field is unknown.
   */
  function LatestValidity(state: FormState, actions: seq<Action>, key: string): Option<bool> {
    match LastUpdate(actions, key)
    case Some(i) => Some(actions[i].isValid)
    case None => if key in state.inputValidities then Some(state.inputValidities[key]) else None
  }

  /**
   * After any sequence of actions from a consistent state, the form is valid
   * exactly when no field's latest recorded validity is false.
   */
  lemma FormValidIsAndOfLatest(state: FormState, actions: seq<Action>)
    requires Consistent(state)
    ensures ReduceAll(state, actions).formIsValid <==>
      forall key :: LatestValidity(state, actions, key) != Some(false)
  {
    ReduceAllKeepsConsistent(state, actions);
    var r := ReduceAll(state, actions);
    forall key
      ensures key in r.inputValidities ==> LatestValidity(state, actions, key) == Some(r.inputValidities[key])
      ensures key !in r.inputValidities ==> LatestValidity(state, actions, key) == None
    {
      ReduceAllLatest(state, actions, key);
    }
  }

  /**
   * Starting from the initial state, marking only the email valid leaves the
   * form invalid; marking the password valid afterwards makes it valid.
   */
  lemma SignInScenario()
    ensures !Reduce(InitialState(), Action(FORM_INPUT_UPDATE, EMAIL, "a@b.com", true)).formIsValid
    ensures Reduce(Reduce(InitialState(), Action(FORM_INPUT_UPDATE, EMAIL, "a@b.com", true)),
                   Action(FORM_INPUT_UPDATE, PASSWORD, "123456", true)).formIsValid
  {
  }

  /**
   * Whether the submit button is disabled: exactly when the email or the
   * password value is empty. The validities and the aggregate flag play no part.
   */
  function SubmitDisabled(s: FormState): bool
    requires EMAIL in s.inputValues && PASSWORD in s.inputValues
  {
    |s.inputValues[EMAIL]| == 0 || |s.inputValues[PASSWORD]| == 0
  }

  /**
   * The latest value recorded for `key`: from the last update of it, or else
   * from the starting state; `None` when the field is unknown.
   */
  function LatestValue(state: FormState, actions: seq<Action>, key: string): Option<string> {
    match LastUpdate(actions, key)
    case Some(i) => Some(actions[i].value)
    case None => if key in state.inputValues then Some(state.inputValues[key]) else None
  }

  /**
   * On every state the screen can reach, both fields exist, so the gate is
   * defined, and it is closed exactly when the latest email or the latest
   * password typed is empty.
   */
  lemma SubmitGateAfter(actions: seq<Action>)
    ensures var r := ReduceAll(InitialState(), actions);
      && EMAIL in r.inputValues && PASSWORD in r.inputValues
      && (SubmitDisabled(r) <==>
            LatestValue(InitialState(), actions, EMAIL) == Some("") ||
            LatestValue(InitialState(), actions, PASSWORD) == Some(""))
  {
    ReduceAllKeepsInvariant(InitialState(), actions);
    ReduceAllLatest(InitialState(), actions, EMAIL);
    ReduceAllLatest(InitialState(), actions, PASSWORD);
  }

  /** The gate is the same whatever the validity map and the aggregate flag hold. */
  lemma SubmitIgnoresValidity(s: FormState, validities: map<string, bool>, formIsValid: bool)
    requires EMAIL in s.inputValues && PASSWORD in s.inputValues
    ensures SubmitDisabled(s) == SubmitDisabled(FormState(s.inputValues, validities, formIsValid))
  {
  }

  /**
   * The submit button is enabled on a form that is not valid: type a password
   * too short to pass its validator after a valid email.
   */
  lemma SubmitEnabledWhileInvalid()
    ensures var s := Reduce(Reduce(InitialState(), Action(FORM_INPUT_UPDATE, EMAIL, "a@b.com", true)),
                            Action(FORM_INPUT_UPDATE, PASSWORD, "123", false));
            !s.formIsValid && !SubmitDisabled(s)
  {
  }
}
