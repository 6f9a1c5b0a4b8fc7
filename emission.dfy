/** Emission (`__init__`'s root element and `_convert_states`): the element tree
    the converter builds from the indexed states and transitions. */
module Emission {
  import opened Wrappers
  import opened Sysml
  import opened Scxml
  import opened EventName
  import opened Indexing

  const ScxmlNamespace: string := "http://www.w3.org/2005/07/scxml"

  /** The root element, before any state is added. */
  function RootElement(initial: string): Element {
    Element("scxml",
            [Attribute("xmlns", Some(ScxmlNamespace)), Attribute("version", Some("1.0")),
             Attribute("datamodel", Some("ecmascript")), Attribute("initial", Some(initial))],
            [])
  }

  /** Python's f"{n}" for an optional name: an absent name prints as "None". */
  function FormatName(n: Option<string>): string {
    if n.Some? then n.value else "None"
  }

  /** The `invoke` child a state gets for its do-action, if it has one. */
  function InvokeElements(s: Child): (r: seq<Element>)
    requires s.kind.StateUsage?
    ensures |r| <= 1
  {
    match s.kind.doAction
    case None => []
    case Some(a) => [Element("invoke", [Attribute("id", Some(FormatName(a.declaredName)))], [])]
  }

  /** A state's element before any transition is appended under it. */
  function StateShell(s: Child): Element
    requires NamedState(s)
  {
    Element("state", [Attribute("id", Some(s.name.value))], InvokeElements(s))
  }

  /** The `state_elements` dictionary: for each state identity, the position among
      the root's children of the element last created for it. */
  function ElementSlots(states: seq<Child>): map<nat, nat> {
    if states == [] then map[]
    else ElementSlots(states[..|states| - 1])[states[|states| - 1].id := |states| - 1]
  }

  /** Every state has a slot, and a slot points at the last state with that identity. */
  lemma {:induction false} ElementSlotsSound(states: seq<Child>)
    ensures forall k :: 0 <= k < |states| ==> states[k].id in ElementSlots(states)
    ensures forall id :: id in ElementSlots(states) ==>
              ElementSlots(states)[id] < |states| && states[ElementSlots(states)[id]].id == id &&
              forall k :: ElementSlots(states)[id] < k < |states| ==> states[k].id != id
  {
    if states != [] {
      var p := states[..|states| - 1];
      ElementSlotsSound(p);
      assert forall k :: 0 <= k < |p| ==> p[k] == states[k];
    }
  }

  /** The states are distinct objects. */
  predicate DistinctIds(states: seq<Child>) {
    forall i, j :: 0 <= i < j < |states| ==> states[i].id != states[j].id
  }

  /** With distinct identities each state owns its own slot. */
  lemma SlotsOfDistinct(states: seq<Child>)
    requires DistinctIds(states)
    ensures forall k :: 0 <= k < |states| ==> states[k].id in ElementSlots(states) && ElementSlots(states)[states[k].id] == k
  {
    ElementSlotsSound(states);
  }

  /** A `transition` element. */
  function TransitionElement(event: Option<string>, target: string): Element {
    Element("transition", [Attribute("event", event), Attribute("target", Some(target))], [])
  }

  /** The guard before a transition is emitted: Python truthiness of the source
      name, target name and transition name, so an empty name is falsy. */
  predicate Emits(t: Child)
    requires NamedTransition(t)
  {
    |t.kind.source.value.name.value| > 0 && |t.kind.target.value.name.value| > 0 && |t.name.value| > 0
  }

  /** The payload heritage of a transition, if it has a trigger with a payload. */
  function PayloadHeritage(t: Child): Option<seq<HeritageItem>>
    requires t.kind.TransitionUsage?
  {
    if t.kind.triggerAction.Some? && t.kind.triggerAction.value.payloadParameter.Some?
    then Some(t.kind.triggerAction.value.payloadParameter.value.heritage)
    else None
  }

  /** What one turn of the transition loop does: fail, skip (`Ok(None)`), or append
      the element it returns under its source state's element. */
  function TransitionOutcome(t: Child, slots: map<nat, nat>): Result<Option<Element>, Error>
    requires NamedTransition(t)
  {
    var name := t.name.value;
    if t.kind.triggerAction.None? then Err(TransitionHasNoTrigger(name))
    else if t.kind.triggerAction.value.payloadParameter.None? then Err(PayloadMissing(name))
    else
      var event :- EventNameOf(t.kind.triggerAction.value.payloadParameter.value.heritage);
      if !Emits(t) then Ok(None)
      else if t.kind.source.value.id !in slots then Err(SourceStateNotConverted(t.kind.source.value.id))
      else Ok(Some(TransitionElement(event, t.kind.target.value.name.value)))
  }

  /** A turn succeeds iff the transition has a trigger with a payload whose event
      name resolves and, when the guard passes, its source state was converted; a
      successful turn emits iff the guard passes, and what it emits is the
      `transition` element with the resolved event and the target's name; once the
      event name resolves, the only failure left is an unconverted source. */
  lemma TransitionOutcomeMeaning(t: Child, slots: map<nat, nat>)
    requires NamedTransition(t)
    ensures var r := TransitionOutcome(t, slots);
      && (r.Ok? <==> PayloadHeritage(t).Some? && EventNameOf(PayloadHeritage(t).value).Ok? &&
                     (Emits(t) ==> t.kind.source.value.id in slots))
      && (r.Ok? ==> (r.value.Some? <==> Emits(t)))
      && (r.Ok? && r.value.Some? ==>
            r.value.value == TransitionElement(EventNameOf(PayloadHeritage(t).value).value, t.kind.target.value.name.value))
      && (r.Err? && PayloadHeritage(t).Some? && EventNameOf(PayloadHeritage(t).value).Ok? ==>
            r.error == SourceStateNotConverted(t.kind.source.value.id))
  {
  }

  /** The error of the first transition whose turn fails, if any. */
  function EmissionError(ts: seq<Child>, slots: map<nat, nat>): Option<Error>
    requires AllNamedTransitions(ts)
  {
    if ts == [] then None
    else match TransitionOutcome(ts[0], slots)
      case Err(e) => Some(e)
      case Ok(_) => EmissionError(ts[1..], slots)
  }

  /** Emission reports nothing iff every turn succeeds, and otherwise the error of
      the first turn that fails. */
  lemma {:induction false} EmissionErrorIsFirst(ts: seq<Child>, slots: map<nat, nat>)
    requires AllNamedTransitions(ts)
    ensures EmissionError(ts, slots).None? <==> forall i :: 0 <= i < |ts| ==> TransitionOutcome(ts[i], slots).Ok?
    ensures forall i :: 0 <= i < |ts| && TransitionOutcome(ts[i], slots).Err? &&
                        (forall j :: 0 <= j < i ==> TransitionOutcome(ts[j], slots).Ok?) ==>
              EmissionError(ts, slots) == Some(TransitionOutcome(ts[i], slots).error)
  {
    if ts != [] {
      assert forall j :: 0 <= j < |ts| - 1 ==> ts[1..][j] == ts[j + 1];
      EmissionErrorIsFirst(ts[1..], slots);
      forall i | 0 <= i < |ts| && TransitionOutcome(ts[i], slots).Err? &&
                 (forall j :: 0 <= j < i ==> TransitionOutcome(ts[j], slots).Ok?)
        ensures EmissionError(ts, slots) == Some(TransitionOutcome(ts[i], slots).error)
      {
        if i > 0 {
          assert TransitionOutcome(ts[1..][i - 1], slots).Err?;
        }
      }
      if forall i :: 0 <= i < |ts| ==> TransitionOutcome(ts[i], slots).Ok? {
        assert forall j :: 0 <= j < |ts| - 1 ==> TransitionOutcome(ts[1..][j], slots).Ok?;
      }
    }
  }

  /** The `transition` elements the loop appends under the state with identity
      `sid`, in transition order. */
  function Emitted(ts: seq<Child>, slots: map<nat, nat>, sid: nat): seq<Element>
    requires AllNamedTransitions(ts)
  {
    if ts == [] then []
    else
      var last := ts[|ts| - 1];
      Emitted(ts[..|ts| - 1], slots, sid) +
        (if SourceId(last) == Some(sid) then
           match TransitionOutcome(last, slots)
           case Ok(Some(e)) => [e]
           case _ => []
         else [])
  }

  /** The element of the `k`-th state once the transitions `ts` have been processed:
      its invoke child, then what was appended under it, if its slot is `k`. */
  function StateElement(states: seq<Child>, ts: seq<Child>, k: nat): Element
    requires k < |states| && AllNamedStates(states) && AllNamedTransitions(ts)
  {
    var s := states[k];
    var slots := ElementSlots(states);
    var shell := StateShell(s);
    shell.(children := shell.children +
                       (if s.id in slots && slots[s.id] == k then Emitted(ts, slots, s.id) else []))
  }

  /** The root's children after both loops. */
  function StateElements(states: seq<Child>, ts: seq<Child>): seq<Element>
    requires AllNamedStates(states) && AllNamedTransitions(ts)
  {
    seq(|states|, k requires 0 <= k < |states| => StateElement(states, ts, k))
  }

  /** The tree `_convert_states` leaves in the root, or the error it raises. */
  function Emit(initial: string, states: seq<Child>, ts: seq<Child>): Result<Element, Error>
    requires AllNamedStates(states) && AllNamedTransitions(ts)
  {
    match EmissionError(ts, ElementSlots(states))
    case Some(e) => Err(e)
    case None => Ok(RootElement(initial).(children := StateElements(states, ts)))
  }

  /** One more transition extends what is appended under its own source only. */
  lemma EmittedStep(ts: seq<Child>, j: nat, slots: map<nat, nat>, sid: nat)
    requires AllNamedTransitions(ts) && j < |ts|
    ensures Emitted(ts[..j + 1], slots, sid) ==
              Emitted(ts[..j], slots, sid) +
                (if SourceId(ts[j]) == Some(sid) then
                   match TransitionOutcome(ts[j], slots)
                   case Ok(Some(e)) => [e]
                   case _ => []
                 else [])
  {
    assert ts[..j + 1][..j] == ts[..j];
  }

  /** Before the transition loop every state's element is its shell. */
  lemma StateElementsInitially(states: seq<Child>)
    requires AllNamedStates(states)
    ensures forall k :: 0 <= k < |states| ==> StateElements(states, [])[k] == StateShell(states[k])
  {
    forall k | 0 <= k < |states|
      ensures StateElements(states, [])[k] == StateShell(states[k])
    {
      assert StateShell(states[k]).children + [] == StateShell(states[k]).children;
    }
  }

  /** A turn that emits `e` appends it under its source only. */
  lemma EmittedEmitStep(ts: seq<Child>, j: nat, slots: map<nat, nat>, sid: nat, e: Element)
    requires AllNamedTransitions(ts) && j < |ts|
    requires TransitionOutcome(ts[j], slots) == Ok(Some(e))
    ensures AllNamedTransitions(ts[..j]) && AllNamedTransitions(ts[..j + 1])
    ensures Emitted(ts[..j + 1], slots, sid) ==
              Emitted(ts[..j], slots, sid) + (if ts[j].kind.source.value.id == sid then [e] else [])
  {
    EmittedStep(ts, j, slots, sid);
  }

  /** A turn that emits `e` appends it to the element in its source's slot. */
  lemma {:induction false} StateElementOwnerStep(states: seq<Child>, ts: seq<Child>, j: nat, e: Element)
    requires AllNamedStates(states) && AllNamedTransitions(ts) && j < |ts|
    requires TransitionOutcome(ts[j], ElementSlots(states)) == Ok(Some(e))
    ensures AllNamedTransitions(ts[..j]) && AllNamedTransitions(ts[..j + 1])
    ensures var k := ElementSlots(states)[ts[j].kind.source.value.id];
      && k < |states|
      && var cur := StateElement(states, ts[..j], k);
         StateElement(states, ts[..j + 1], k) == cur.(children := cur.children + [e])
  {
    var slots := ElementSlots(states);
    ElementSlotsSound(states);
    var src := ts[j].kind.source.value.id;
    var k := slots[src];
    var s := states[k];
    assert s.id == src;
    var shell := StateShell(s);
    var before := Emitted(ts[..j], slots, src);
    EmittedEmitStep(ts, j, slots, src, e);
    var cur := StateElement(states, ts[..j], k);
    assert cur.children == shell.children + before;
    assert shell.children + (before + [e]) == cur.children + [e];
  }

  /** A turn never appends under a state other than its source. */
  lemma EmittedOtherStep(ts: seq<Child>, j: nat, slots: map<nat, nat>, sid: nat)
    requires AllNamedTransitions(ts) && j < |ts| && ts[j].kind.source.value.id != sid
    ensures AllNamedTransitions(ts[..j]) && AllNamedTransitions(ts[..j + 1])
    ensures Emitted(ts[..j + 1], slots, sid) == Emitted(ts[..j], slots, sid)
  {
    EmittedStep(ts, j, slots, sid);
  }

  /** A turn leaves the elements outside its source's slot as they are. */
  lemma StateElementOtherStep(states: seq<Child>, ts: seq<Child>, j: nat, m: nat)
    requires AllNamedStates(states) && AllNamedTransitions(ts) && j < |ts| && m < |states|
    requires ts[j].kind.source.value.id in ElementSlots(states)
    requires ElementSlots(states)[ts[j].kind.source.value.id] != m
    ensures AllNamedTransitions(ts[..j]) && AllNamedTransitions(ts[..j + 1])
    ensures StateElement(states, ts[..j + 1], m) == StateElement(states, ts[..j], m)
  {
    var slots := ElementSlots(states);
    var s := states[m];
    assert AllNamedTransitions(ts[..j]) && AllNamedTransitions(ts[..j + 1]);
    if s.id in slots && slots[s.id] == m {
      EmittedOtherStep(ts, j, slots, s.id);
    }
  }

  /** A turn that emits nothing leaves every state's element as it is. */
  lemma StateElementSkipStep(states: seq<Child>, ts: seq<Child>, j: nat, m: nat)
    requires AllNamedStates(states) && AllNamedTransitions(ts) && j < |ts| && m < |states|
    requires !TransitionOutcome(ts[j], ElementSlots(states)).Ok? || TransitionOutcome(ts[j], ElementSlots(states)).value.None?
    ensures AllNamedTransitions(ts[..j]) && AllNamedTransitions(ts[..j + 1])
    ensures StateElement(states, ts[..j + 1], m) == StateElement(states, ts[..j], m)
  {
    assert AllNamedTransitions(ts[..j]) && AllNamedTransitions(ts[..j + 1]);
    EmittedStep(ts, j, ElementSlots(states), states[m].id);
  }

  /** A turn of the transition loop that emits `e` appends it to the element in the
      slot of the transition's source; a turn that skips or fails changes nothing. */
  lemma StateElementsStep(states: seq<Child>, ts: seq<Child>, j: nat)
    requires AllNamedStates(states) && AllNamedTransitions(ts) && j < |ts|
    ensures AllNamedTransitions(ts[..j]) && AllNamedTransitions(ts[..j + 1])
    ensures var slots := ElementSlots(states);
      var cur := StateElements(states, ts[..j]);
      var next := StateElements(states, ts[..j + 1]);
      match TransitionOutcome(ts[j], slots)
      case Ok(Some(e)) =>
        var k := slots[ts[j].kind.source.value.id];
        k < |cur| && next == cur[k := cur[k].(children := cur[k].children + [e])]
      case _ => next == cur
  {
    var slots := ElementSlots(states);
    ElementSlotsSound(states);
    assert AllNamedTransitions(ts[..j]) && AllNamedTransitions(ts[..j + 1]);
    var cur := StateElements(states, ts[..j]);
    var next := StateElements(states, ts[..j + 1]);
    match TransitionOutcome(ts[j], slots)
    case Ok(Some(e)) =>
      var k := slots[ts[j].kind.source.value.id];
      StateElementOwnerStep(states, ts, j, e);
      forall m | 0 <= m < |states| && m != k {
        StateElementOtherStep(states, ts, j, m);
      }
      assert next == cur[k := cur[k].(children := cur[k].children + [e])];
    case _ =>
      forall m | 0 <= m < |states| {
        StateElementSkipStep(states, ts, j, m);
      }
      assert next == cur;
  }

  /** The shape of a successful emission: the root carries exactly the four fixed
      attributes with `initial` set to the given name; it has one `state` child per
      state, in order, with `id` the state name; a state's first child is an
      `invoke` with the do-action's name iff it has a do-action; every other child
      of a state is a `transition`. */
  lemma EmissionShape(initial: string, states: seq<Child>, ts: seq<Child>)
    requires AllNamedStates(states) && AllNamedTransitions(ts)
    requires Emit(initial, states, ts).Ok?
    ensures var root := Emit(initial, states, ts).value;
      && root.tag == "scxml"
      && root.attributes == [Attribute("xmlns", Some("http://www.w3.org/2005/07/scxml")),
                             Attribute("version", Some("1.0")), Attribute("datamodel", Some("ecmascript")),
                             Attribute("initial", Some(initial))]
      && |root.children| == |states|
      && forall k :: 0 <= k < |states| ==>
           var e := root.children[k];
           && e.tag == "state"
           && e.attributes == [Attribute("id", states[k].name)]
           && (states[k].kind.doAction.Some? <==> |e.children| > 0 && e.children[0].tag == "invoke")
           && (states[k].kind.doAction.Some? ==>
                 e.children[0] == Element("invoke", [Attribute("id", Some(FormatName(states[k].kind.doAction.value.declaredName)))], []))
           && forall j :: |InvokeElements(states[k])| <= j < |e.children| ==> e.children[j].tag == "transition"
  {
    var slots := ElementSlots(states);
    forall k | 0 <= k < |states|
      ensures forall j :: |InvokeElements(states[k])| <= j < |StateElement(states, ts, k).children| ==>
                StateElement(states, ts, k).children[j].tag == "transition"
    {
      EmittedAreTransitions(ts, slots, states[k].id);
    }
  }

  /** Everything appended under a state is a `transition` element. */
  lemma {:induction false} EmittedAreTransitions(ts: seq<Child>, slots: map<nat, nat>, sid: nat)
    requires AllNamedTransitions(ts)
    ensures forall e :: e in Emitted(ts, slots, sid) ==> e.tag == "transition"
  {
    if ts != [] {
      var p := ts[..|ts| - 1];
      assert forall j :: 0 <= j < |p| ==> p[j] == ts[j];
      EmittedAreTransitions(p, slots, sid);
    }
  }

  /** With distinct identities, the `k`-th state's element is its invoke child
      followed by everything appended under its identity. */
  lemma StateElementChildren(states: seq<Child>, ts: seq<Child>, k: nat)
    requires AllNamedStates(states) && AllNamedTransitions(ts) && k < |states|
    requires DistinctIds(states)
    ensures StateElement(states, ts, k).children ==
              InvokeElements(states[k]) + Emitted(ts, ElementSlots(states), states[k].id)
  {
    SlotsOfDistinct(states);
  }

  /** `e` is the `transition` element for `t`: its event is the name resolved from
      `t`'s payload heritage and its target is `t`'s target name. */
  predicate TransitionYields(t: Child, e: Element) {
    && NamedTransition(t)
    && PayloadHeritage(t).Some?
    && EventNameOf(PayloadHeritage(t).value).Ok?
    && e == TransitionElement(EventNameOf(PayloadHeritage(t).value).value, t.kind.target.value.name.value)
  }

  /** With no failing turn and every guard passing, what is appended under the
      state `sid` is one element per transition from `sid`, in transition order,
      each the element that transition yields. */
  lemma {:induction false} EmittedShape(ts: seq<Child>, slots: map<nat, nat>, sid: nat)
    requires AllNamedTransitions(ts)
    requires forall i :: 0 <= i < |ts| ==> TransitionOutcome(ts[i], slots).Ok? && Emits(ts[i])
    ensures |Emitted(ts, slots, sid)| == |FromSource(ts, sid)|
    ensures forall j :: 0 <= j < |FromSource(ts, sid)| ==>
              TransitionYields(FromSource(ts, sid)[j], Emitted(ts, slots, sid)[j])
  {
    if ts != [] {
      var p := ts[..|ts| - 1];
      var last := ts[|ts| - 1];
      assert forall j :: 0 <= j < |p| ==> p[j] == ts[j];
      EmittedShape(p, slots, sid);
      if SourceId(last) == Some(sid) {
        TransitionOutcomeMeaning(last, slots);
        assert TransitionYields(last, TransitionOutcome(last, slots).value.value);
      }
    }
  }

  /** The list the by-source dictionary holds for `sid`, or none. */
  lemma ListedIsFromSource(ts: seq<Child>, sid: nat)
    ensures (if sid in GroupBySource(ts) then GroupBySource(ts)[sid] else []) == FromSource(ts, sid)
  {
    GroupBySourceGroups(ts);
  }

  /** Each state's element holds, after its invoke child, exactly one `transition`
      per transition the by-source dictionary lists for it, in that order, each
      carrying the event resolved for that transition and its target's name. */
  lemma TransitionsUnderSource(states: seq<Child>, ts: seq<Child>, k: nat)
    requires AllNamedStates(states) && AllNamedTransitions(ts) && k < |states|
    requires DistinctIds(states)
    requires forall i :: 0 <= i < |ts| ==> TransitionOutcome(ts[i], ElementSlots(states)).Ok? && Emits(ts[i])
    ensures var e := StateElement(states, ts, k);
            var listed := if states[k].id in GroupBySource(ts) then GroupBySource(ts)[states[k].id] else [];
            var n := |InvokeElements(states[k])|;
      && e.children[..n] == InvokeElements(states[k])
      && |e.children| == n + |listed|
      && forall j :: 0 <= j < |listed| ==> TransitionYields(listed[j], e.children[n + j])
  {
    var slots := ElementSlots(states);
    var sid := states[k].id;
    StateElementChildren(states, ts, k);
    ListedIsFromSource(ts, sid);
    EmittedShape(ts, slots, sid);
    YieldsAfterInvoke(InvokeElements(states[k]), Emitted(ts, slots, sid), FromSource(ts, sid),
                      StateElement(states, ts, k).children);
  }

  /** Children made of the invoke part followed by one element per listed
      transition, each yielded by it. */
  lemma YieldsAfterInvoke(invoke: seq<Element>, emitted: seq<Element>, listed: seq<Child>, children: seq<Element>)
    requires children == invoke + emitted && |emitted| == |listed|
    requires forall j :: 0 <= j < |listed| ==> TransitionYields(listed[j], emitted[j])
    ensures children[..|invoke|] == invoke && |children| == |invoke| + |listed|
    ensures forall j :: 0 <= j < |listed| ==> TransitionYields(listed[j], children[|invoke| + j])
  {
    ConcatParts(invoke, emitted);
  }

  /** The two parts of a concatenation, by position. */
  lemma ConcatParts(a: seq<Element>, b: seq<Element>)
    ensures (a + b)[..|a|] == a && |a + b| == |a| + |b|
    ensures forall j :: 0 <= j < |b| ==> (a + b)[|a| + j] == b[j]
  {
    assert (a + b)[..|a|] == a;
  }
}
