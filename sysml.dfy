/** The part of a SysML v2 model the converter reads, as plain values.
    Every model object carries an `id` that stands for its identity, so that
    two references to the same object compare equal and dictionaries keyed by
    objects become maps keyed by ids. */
module Sysml {
  import opened Wrappers

  /** A reference to a model element with its effective name, which may be absent. */
  datatype ElementRef = ElementRef(id: nat, name: Option<string>)

  /** A type reached through a specialization link, with its declared name and
      the answer to "can this be cast to an AttributeDefinition?". */
  datatype TypeRef = TypeRef(id: nat, declaredName: Option<string>, isAttributeDefinition: bool)

  /** One heritage entry: the relationship and the type it references. */
  datatype HeritageItem = HeritageItem(relationship: nat, referenced: TypeRef)

  /** The payload parameter of an accept action, with its heritage in declared order. */
  datatype PayloadParameter = PayloadParameter(heritage: seq<HeritageItem>)

  /** The trigger (accept action) of a transition. */
  datatype AcceptAction = AcceptAction(payloadParameter: Option<PayloadParameter>)

  /** A "do" action of a state; only its declared name is used. */
  datatype ActionRef = ActionRef(id: nat, declaredName: Option<string>)

  /** What a child of the state machine can be cast to. */
  datatype ChildKind =
    | StateUsage(doAction: Option<ActionRef>)
    | TransitionUsage(source: Option<ElementRef>, target: Option<ElementRef>, triggerAction: Option<AcceptAction>)
    | OtherElement

  /** A direct child of the state-machine definition. */
  datatype Child = Child(id: nat, name: Option<string>, kind: ChildKind)

  /** A succession: a source element (if any) and its targets in order. */
  datatype Succession = Succession(source: Option<nat>, targets: seq<ElementRef>)

  /** The state-machine definition: its children in order and its entry action. */
  datatype StateMachine = StateMachine(children: seq<Child>, entryAction: Option<nat>)

  /** The whole model, reduced to its succession elements in enumeration order. */
  datatype Model = Model(successions: seq<Succession>)

  /** Every way a conversion can fail, one per raise or runtime error of the converter. */
  datatype Error =
    | StateHasNoName(stateId: nat)
    | TransitionHasNoName(transitionId: nat)
    | TransitionHasNoSource(transitionName: string)
    | TransitionHasNoTarget(transitionName: string)
    | EntryHasNoTargets
    | InitialStateHasNoName
    | InitialStateNotFound
    | TransitionHasNoTrigger(transitionName: string)
    | PayloadMissing(transitionName: string)
    | EventNameUnbound
    | SourceStateNotConverted(sourceId: nat)

  /** An endpoint reference that is present and named. */
  predicate NamedEndpoint(e: Option<ElementRef>) {
    e.Some? && e.value.name.Some?
  }

  /** A state child that has a name. */
  predicate NamedState(c: Child) {
    c.kind.StateUsage? && c.name.Some?
  }

  /** A transition child with a name and a named source and target. */
  predicate NamedTransition(c: Child) {
    c.kind.TransitionUsage? && c.name.Some? && NamedEndpoint(c.kind.source) && NamedEndpoint(c.kind.target)
  }

  /** Every state of the list is a named state. */
  predicate AllNamedStates(states: seq<Child>) {
    forall k :: 0 <= k < |states| ==> NamedState(states[k])
  }

  /** Every transition of the list is a named transition with named endpoints. */
  predicate AllNamedTransitions(ts: seq<Child>) {
    forall k :: 0 <= k < |ts| ==> NamedTransition(ts[k])
  }

  /** The identity of a transition's source state, when it has one. */
  function SourceId(t: Child): Option<nat> {
    if t.kind.TransitionUsage? && t.kind.source.Some? then Some(t.kind.source.value.id) else None
  }
}
