/** The converter object (`SysMLv2ToSCXML`): its constructor runs indexing, the
    initial-state search and emission in that order, and any failure aborts the
    whole construction. */
module Converter {
  import opened Wrappers
  import opened Sysml
  import opened Scxml
  import opened Indexing
  import opened InitialState
  import opened EventName
  import opened Emission

  /** The tree a successful construction leaves in `scxml`, or the error it
      raises, as a function of the model and the state machine. */
  function Conversion(model: Model, sm: StateMachine): Result<Element, Error> {
    var ix :- IndexChildren(sm.children);
    var initial :- InitialStateOf(model.successions, sm.entryAction);
    IndexedAreNamed(sm.children);
    Emit(initial, ix.states, ix.transitions)
  }

  /** One turn of the transition loop succeeds for `t`. */
  predicate TurnSucceeds(t: Child, slots: map<nat, nat>) {
    NamedTransition(t) && TransitionOutcome(t, slots).Ok?
  }

  /** A construction succeeds iff every child passes indexing, the initial state
      is found and every transition's turn succeeds against the slots of the
      states. It then yields the root with `initial` set to the name found and one
      `state` child per state child of the machine, in order, each with that
      state's name as `id`. */
  lemma ConversionOutcome(model: Model, sm: StateMachine)
    ensures var cs := sm.children;
            var states, ts := Select(cs, StateKind), Select(cs, TransitionKind);
      Conversion(model, sm).Ok? <==>
        && (forall i :: 0 <= i < |cs| ==> Admissible(cs[i]))
        && InitialStateOf(model.successions, sm.entryAction).Ok?
        && (forall i :: 0 <= i < |ts| ==> TurnSucceeds(ts[i], ElementSlots(states)))
    ensures Conversion(model, sm).Ok? ==>
      var root := Conversion(model, sm).value;
      var states := Select(sm.children, StateKind);
      && root.tag == "scxml"
      && |root.attributes| == 4
      && root.attributes[3] == Attribute("initial", Some(InitialStateOf(model.successions, sm.entryAction).value))
      && |root.children| == |states|
      && forall k :: 0 <= k < |states| ==>
           root.children[k].tag == "state" && root.children[k].attributes == [Attribute("id", states[k].name)]
  {
    var cs := sm.children;
    var states, ts := Select(cs, StateKind), Select(cs, TransitionKind);
    IndexingOutcome(cs);
    if forall i :: 0 <= i < |cs| ==> Admissible(cs[i]) {
      IndexedMeaning(cs);
      IndexedAreNamed(cs);
      var slots := ElementSlots(states);
      EmissionErrorIsFirst(ts, slots);
      var initial := InitialStateOf(model.successions, sm.entryAction);
      if initial.Ok? && EmissionError(ts, slots).None? {
        EmissionShape(initial.value, states, ts);
      }
    }
  }

  class SysMLv2ToSCXML {
    const model: Model
    const stateMachineNode: StateMachine

    var states: seq<Child>
    var statesByName: map<string, Child>
    var transitions: seq<Child>
    var transitionsByName: map<string, Child>
    var transitionsFromSource: map<nat, seq<Child>>
    var transitionsToTarget: map<nat, seq<Child>>
    var initialState: string
    var scxml: Element

    /** No state or transition has been indexed yet. */
    predicate Unindexed()
      reads this
    {
      && states == [] && statesByName == map[]
      && transitions == [] && transitionsByName == map[]
      && transitionsFromSource == map[] && transitionsToTarget == map[]
    }

    /** The field initialisation of the constructor; `initialState` and `scxml`
        are given placeholder values until the construction sets them. */
    constructor (model: Model, stateMachineNode: StateMachine)
      ensures this.model == model && this.stateMachineNode == stateMachineNode
      ensures Unindexed()
    {
      this.model := model;
      this.stateMachineNode := stateMachineNode;
      states, statesByName := [], map[];
      transitions, transitionsByName := [], map[];
      transitionsFromSource, transitionsToTarget := map[], map[];
      initialState := "";
      scxml := Element("", [], []);
    }

    /** One pass over the children, filling the six structures. On failure the
        error is the one of the first inadmissible child. */
    method ExtractStatesAndTransitions() returns (err: Option<Error>)
      requires Unindexed()
      modifies this`states, this`statesByName, this`transitions, this`transitionsByName,
               this`transitionsFromSource, this`transitionsToTarget
      ensures IndexChildren(stateMachineNode.children) ==
                if err.Some? then Err(err.value)
                else Ok(Index(states, statesByName, transitions, transitionsByName,
                              transitionsFromSource, transitionsToTarget))
    {
      var cs := stateMachineNode.children;
      var i := 0;
      while i < |cs|
        invariant 0 <= i <= |cs|
        invariant Indexed(cs[..i]) == Index(states, statesByName, transitions, transitionsByName,
                                            transitionsFromSource, transitionsToTarget)
        invariant FirstChildError(cs) == FirstChildError(cs[i..])
      {
        FirstChildErrorStep(cs, i);
        err := IndexChild(cs, i);
        if err.Some? {
          return;
        }
        i := i + 1;
      }
      assert cs[..i] == cs;
      return None;
    }

    /** The body of the indexing loop for the child at position `i`: raises that
        child's error, or adds it to the structures built from the children before it. */
    method IndexChild(cs: seq<Child>, i: nat) returns (err: Option<Error>)
      requires i < |cs|
      requires Indexed(cs[..i]) == Index(states, statesByName, transitions, transitionsByName,
                                         transitionsFromSource, transitionsToTarget)
      modifies this`states, this`statesByName, this`transitions, this`transitionsByName,
               this`transitionsFromSource, this`transitionsToTarget
      ensures err == ChildError(cs[i])
      ensures err.None? ==> Indexed(cs[..i + 1]) == Index(states, statesByName, transitions, transitionsByName,
                                                          transitionsFromSource, transitionsToTarget)
    {
      var child := cs[i];
      IndexedStep(cs, i);
      IndexedGroupsAgree(cs[..i]);
      match child.kind {
        case StateUsage(_) =>
          if child.name.None? {
            return Some(StateHasNoName(child.id));
          }
          states := states + [child];
          statesByName := statesByName[child.name.value := child];
        case TransitionUsage(source, target, _) =>
          if child.name.None? {
            return Some(TransitionHasNoName(child.id));
          }
          if source.None? || source.value.name.None? {
            return Some(TransitionHasNoSource(child.name.value));
          }
          if target.None? || target.value.name.None? {
            return Some(TransitionHasNoTarget(child.name.value));
          }
          transitions := transitions + [child];
          transitionsByName := transitionsByName[child.name.value := child];
          var sourceState := source.value.id;
          ghost var fromSource, toTarget := transitionsFromSource, transitionsToTarget;
          if sourceState !in transitionsFromSource {
            transitionsFromSource := transitionsFromSource[sourceState := []];
            transitionsToTarget := transitionsToTarget[sourceState := []];
          }
          assert transitionsFromSource == if sourceState in fromSource then fromSource else fromSource[sourceState := []];
          assert transitionsToTarget == if sourceState in toTarget then toTarget else toTarget[sourceState := []];
          transitionsFromSource := transitionsFromSource[sourceState := transitionsFromSource[sourceState] + [child]];
          transitionsToTarget := transitionsToTarget[sourceState := transitionsToTarget[sourceState] + [child]];
          AddToGroupInPlace(fromSource, sourceState, child);
          AddToGroupInPlace(toTarget, sourceState, child);
        case OtherElement =>
      }
      return None;
    }

    /** The search loop over the model's successions, returning at the first whose
        source is the entry action. */
    method FindInitialState() returns (r: Result<string, Error>)
      ensures r == InitialStateOf(model.successions, stateMachineNode.entryAction)
    {
      var successions := model.successions;
      var entry := stateMachineNode.entryAction;
      var i := 0;
      while i < |successions|
        invariant 0 <= i <= |successions|
        invariant InitialStateOf(successions, entry) == InitialStateOf(successions[i..], entry)
      {
        var succession := successions[i];
        if succession.source == entry {
          if |succession.targets| == 0 {
            return Err(EntryHasNoTargets);
          }
          var initial := succession.targets[0];
          if initial.name.None? {
            return Err(InitialStateHasNoName);
          }
          return Ok(initial.name.value);
        }
        assert successions[i..][1..] == successions[i + 1..];
        i := i + 1;
      }
      return Err(InitialStateNotFound);
    }

    /** `_convert_states`: the state loop, then the transition loop. */
    method ConvertStates() returns (err: Option<Error>)
      requires AllNamedStates(states) && AllNamedTransitions(transitions)
      requires scxml.children == []
      modifies this`scxml
      ensures err == EmissionError(transitions, ElementSlots(states))
      ensures err.None? ==> scxml == old(scxml).(children := StateElements(states, transitions))
    {
      var stateElements := ConvertStateElements();
      err := ConvertTransitions(stateElements);
    }

    /** The state loop: one `state` element per state, with an `invoke` child for
        its do-action, and the dictionary from each state to its element. */
    method ConvertStateElements() returns (stateElements: map<nat, nat>)
      requires AllNamedStates(states)
      requires scxml.children == []
      modifies this`scxml
      ensures stateElements == ElementSlots(states)
      ensures scxml == old(scxml).(children := StateElements(states, []))
    {
      stateElements := map[];
      var i := 0;
      while i < |states|
        invariant 0 <= i <= |states|
        invariant stateElements == ElementSlots(states[..i])
        invariant scxml.tag == old(scxml.tag) && scxml.attributes == old(scxml.attributes)
        invariant |scxml.children| == i
        invariant forall k :: 0 <= k < i ==> scxml.children[k] == StateShell(states[k])
      {
        var state := states[i];
        ghost var before := scxml.children;
        assert states[..i + 1][..i] == states[..i];
        scxml := SubElement(scxml, "state", [Attribute("id", Some(state.name.value))]);
        stateElements := stateElements[state.id := i];
        if state.kind.doAction.Some? {
          var doBehaviorString := FormatName(state.kind.doAction.value.declaredName);
          scxml := SubElementAt(scxml, stateElements[state.id], "invoke", [Attribute("id", Some(doBehaviorString))]);
          assert [] + [Element("invoke", [Attribute("id", Some(doBehaviorString))], [])] == InvokeElements(state);
        }
        assert scxml.children == before + [StateShell(state)];
        i := i + 1;
      }
      assert states[..i] == states;
      StateElementsInitially(states);
    }

    /** The transition loop: each transition's element under the element of its
        source state, stopping at the first transition whose turn fails. */
    method ConvertTransitions(stateElements: map<nat, nat>) returns (err: Option<Error>)
      requires AllNamedStates(states) && AllNamedTransitions(transitions)
      requires stateElements == ElementSlots(states)
      requires scxml.children == StateElements(states, [])
      modifies this`scxml
      ensures err == EmissionError(transitions, stateElements)
      ensures err.None? ==> scxml == old(scxml).(children := StateElements(states, transitions))
    {
      assert transitions[..0] == [];
      var j := 0;
      while j < |transitions|
        invariant 0 <= j <= |transitions|
        invariant AllNamedTransitions(transitions[..j])
        invariant scxml == old(scxml).(children := StateElements(states, transitions[..j]))
        invariant EmissionError(transitions, stateElements) == EmissionError(transitions[j..], stateElements)
      {
        err := ConvertTransition(j, stateElements);
        if err.Some? {
          return;
        }
        assert transitions[j..][1..] == transitions[j + 1..];
        j := j + 1;
      }
      assert transitions[..j] == transitions;
      return None;
    }

    /** The body of the transition loop for the transition at position `j`: raises
        its error, or appends its element (if its guard passes) under the element
        of its source state. */
    method ConvertTransition(j: nat, stateElements: map<nat, nat>) returns (err: Option<Error>)
      requires AllNamedStates(states) && AllNamedTransitions(transitions) && j < |transitions|
      requires stateElements == ElementSlots(states)
      requires AllNamedTransitions(transitions[..j])
      requires scxml.children == StateElements(states, transitions[..j])
      modifies this`scxml
      ensures err == match TransitionOutcome(transitions[j], stateElements)
                     case Err(e) => Some(e)
                     case Ok(_) => None
      ensures err.None? ==> AllNamedTransitions(transitions[..j + 1])
      ensures err.None? ==> scxml == old(scxml).(children := StateElements(states, transitions[..j + 1]))
    {
      var transition := transitions[j];
      var transitionName := transition.name.value;
      var sourceState := transition.kind.source.value.name.value;
      var targetState := transition.kind.target.value.name.value;
      if transition.kind.triggerAction.None? {
        return Some(TransitionHasNoTrigger(transitionName));
      }
      var payload := transition.kind.triggerAction.value.payloadParameter;
      if payload.None? {
        return Some(PayloadMissing(transitionName));
      }
      var transitionEvent := ExtractEventName(payload.value.heritage);
      if transitionEvent.Err? {
        return Some(transitionEvent.error);
      }
      StateElementsStep(states, transitions, j);
      if |sourceState| > 0 && |targetState| > 0 && |transitionName| > 0 {
        var source := transition.kind.source.value.id;
        if source !in stateElements {
          return Some(SourceStateNotConverted(source));
        }
        scxml := SubElementAt(scxml, stateElements[source], "transition",
                              [Attribute("event", transitionEvent.value), Attribute("target", Some(targetState))]);
      }
      return None;
    }

    /** The whole construction: field initialisation, indexing, the initial-state
        search, the root element, then emission. Either every step succeeds and
        the object holds the converted tree, or the first failure is raised. */
    static method Construct(model: Model, stateMachineNode: StateMachine) returns (r: Result<SysMLv2ToSCXML, Error>)
      ensures r.Err? ==> Conversion(model, stateMachineNode) == Err(r.error)
      ensures r.Ok? ==> fresh(r.value) && Conversion(model, stateMachineNode) == Ok(r.value.scxml)
      ensures r.Ok? ==> r.value.model == model && r.value.stateMachineNode == stateMachineNode
      ensures r.Ok? ==> InitialStateOf(model.successions, stateMachineNode.entryAction) == Ok(r.value.initialState)
      ensures r.Ok? ==> IndexChildren(stateMachineNode.children) ==
                          Ok(Index(r.value.states, r.value.statesByName, r.value.transitions, r.value.transitionsByName,
                                   r.value.transitionsFromSource, r.value.transitionsToTarget))
    {
      var c := new SysMLv2ToSCXML(model, stateMachineNode);
      var e := c.ExtractStatesAndTransitions();
      if e.Some? {
        return Err(e.value);
      }
      IndexedAreNamed(stateMachineNode.children);
      var initial := c.FindInitialState();
      if initial.Err? {
        return Err(initial.error);
      }
      c.initialState := initial.value;
      c.scxml := RootElement(c.initialState);
      e := c.ConvertStates();
      if e.Some? {
        return Err(e.value);
      }
      return Ok(c);
    }
  }
}
