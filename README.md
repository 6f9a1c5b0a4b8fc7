# SysML v2 state machine to SCXML, modelled in Dafny

This project models the converter class `SysMLv2ToSCXML` of `sysmlv2x_lib`. The
converter takes a SysML v2 state-machine definition and builds an SCXML (W3C State
Chart XML) element tree. Its constructor does four things in order, and any
failure aborts the construction:

1. **Indexing.** One pass over the machine's children. Each child is sorted as a
   state, a transition or neither. Unnamed states and transitions are rejected, and
   so are transitions with a missing or unnamed source or target. The pass fills
   the state and transition lists, their by-name dictionaries and the two
   by-source dictionaries.
2. **Initial-state search.** The first succession whose source is the machine's
   entry action names the initial state. The search fails in three ways: no such
   succession, no targets, or an unnamed first target.
3. **Root element.** The `scxml` element gets four fixed attributes, with
   `initial` set to the name found.
4. **Emission.** One `state` element per state, with an `invoke` child for its
   do-action. Then one `transition` element per transition, appended under its
   source state's element. The event name comes from the first heritage entry of
   the trigger payload whose type is an attribute definition.

Modules:

- `Wrappers`: `Option` and `Result`.
- `Sysml`: the input model as values. Every model object has an `id: nat` that
  stands for its Python identity. A dictionary keyed by objects becomes a map
  keyed by ids.
- `Scxml`: the output element tree, and `ET.SubElement` as a function on it.
- `Indexing`, `InitialState`, `EventName`, `Emission`: specification functions
  for each step, with lemmas about what they compute.
- `Converter`: the class `SysMLv2ToSCXML`. Its fields are the ones `__init__`
  sets. Its loops are methods proved against the specification functions. It
  also has `Conversion`, the outcome of the whole construction as a function.

Every Python exception becomes an `Error` value. The exceptions raised
explicitly are the `ValueError`s. The runtime errors modelled are these:

- the `AttributeError` when a transition has no trigger;
- the `AssertionError` on a missing payload;
- the `UnboundLocalError` when no event definition is found;
- the `KeyError` when a transition's source was never converted.

Behaviour of the code that the model keeps as written:

- The guard `if source_state and target_state and transition_name` uses Python
  truthiness. A transition whose name, source name or target name is the empty
  string passes indexing, but emission skips it silently. The model keeps this
  skip branch rather than treating the guard as always true.
- `transitions_to_target` is keyed by the transition's source and gets the same
  lists as `transitions_from_source`. The model builds it that way and proves
  the two dictionaries equal.
- `state_elements` is keyed by state object. If the same state object appears
  twice among the children, the later element wins the slot. The emission
  functions follow that (`ElementSlots`). The lemmas that count the children of
  one state element assume the states are distinct objects (`DistinctIds`).
- A do-action with no declared name gives an `invoke` id of `"None"`, because
  that is what `f"{None}"` produces. An event with no declared name gives an
  attribute value of Python's `None` (`Attribute(_, None)`).

## Model

| member | source | states |
|---|---|---|
| Indexing.ChildError | src/sysmlv2x_lib/sysmlv2x.py:50-63 | A child passes indexing iff it is not an unnamed state or a transition lacking a name, a named source or a named target; an unnamed state is rejected with its own error; a transition is checked for its name, then its source, then its target, and rejected with the error of the first check that fails |
| Indexing.FirstChildErrorIsFirst | src/sysmlv2x_lib/sysmlv2x.py:49-63 | The pass reports no error iff every child is admissible; otherwise it reports the error of the first inadmissible child |
| Indexing.SelectIsOrderedFilter | src/sysmlv2x_lib/sysmlv2x.py:49-65 | The selected states (or transitions) are exactly the children of that kind: every one, each once, in child order, and no other child |
| Indexing.ByNameLastWins | src/sysmlv2x_lib/sysmlv2x.py:54-66 | A by-name dictionary has exactly the names carried by the list as keys, and each maps to the last element carrying it |
| Indexing.GroupBySourceGroups | src/sysmlv2x_lib/sysmlv2x.py:69-74 | The by-source dictionary's keys are exactly the transitions' sources; each key's list is non-empty and is that source's transitions in order |
| Indexing.FromSourceCounts | src/sysmlv2x_lib/sysmlv2x.py:69-74 | Each transition occurs in its own source's list as often as in the transition list, and in no other list |
| Indexing.AddToGroupInPlace | src/sysmlv2x_lib/sysmlv2x.py:70-74 | Storing an empty list under a new key and then appending to the key's list is one grouping step |
| Indexing.IndexedGroupsAgree | src/sysmlv2x_lib/sysmlv2x.py:70-74 | The from-source and to-target dictionaries always hold the same lists |
| Indexing.IndexedStates | src/sysmlv2x_lib/sysmlv2x.py:50-54 | With every child admissible, the child-by-child state structures are the state selection and its by-name dictionary |
| Indexing.IndexedTransitions | src/sysmlv2x_lib/sysmlv2x.py:57-74 | With every child admissible, the child-by-child transition structures are the transition selection, its by-name dictionary and its by-source grouping |
| Indexing.IndexedMeaning | src/sysmlv2x_lib/sysmlv2x.py:47-74 | With every child admissible, all six structures are the selections, their by-name dictionaries and the by-source grouping (twice) |
| Indexing.IndexedAreNamed | src/sysmlv2x_lib/sysmlv2x.py:51-63 | After a successful pass every recorded state is named and every recorded transition has a name and a named source and target |
| Indexing.IndexingOutcome | src/sysmlv2x_lib/sysmlv2x.py:49-63 | Indexing succeeds iff every child is admissible, and otherwise fails with the first inadmissible child's error |
| Indexing.IndexingContents | src/sysmlv2x_lib/sysmlv2x.py:47-74 | After a successful pass: the lists are the state and transition children in order; the name dictionaries map each name to the last element with it; the from-source keys are exactly the sources, each list being that source's transitions; the to-target dictionary equals the from-source one |
| InitialState.InitialStateOfIsFirst | src/sysmlv2x_lib/sysmlv2x.py:76-86 | The search fails with not-found iff no succession leaves the entry action; otherwise the first such succession alone decides the outcome, and a success is the name of its first target |
| EventName.EventNameOfIsFirst | src/sysmlv2x_lib/sysmlv2x.py:109-120 | The event name resolves iff some heritage entry is an attribute definition; it is the declared name of the first such entry; otherwise the name is unbound |
| EventName.ExtractEventName | src/sysmlv2x_lib/sysmlv2x.py:109-120 | The loop with its break returns the specified event-name outcome |
| Emission.InvokeElements | src/sysmlv2x_lib/sysmlv2x.py:98-105 | A state gets at most one `invoke` child |
| Emission.ElementSlotsSound | src/sysmlv2x_lib/sysmlv2x.py:95-97 | Every state has a slot in `state_elements`; a slot points at the last state with that identity |
| Emission.SlotsOfDistinct | src/sysmlv2x_lib/sysmlv2x.py:95-97 | With distinct state objects, each state's slot is its own position |
| Emission.StateElementsInitially | src/sysmlv2x_lib/sysmlv2x.py:95-105 | Before the transition loop every state element is its `state` shell with its `invoke` child |
| Emission.TransitionOutcomeMeaning | src/sysmlv2x_lib/sysmlv2x.py:121-149 | A turn succeeds iff there is a payload, the event name resolves and, when the guard passes, the source was converted; it emits iff the guard passes, and it emits the `transition` element with the resolved event and target name; after the event name resolves, the only failure left is the missing source element |
| Emission.EmissionErrorIsFirst | src/sysmlv2x_lib/sysmlv2x.py:108-149 | Emission fails iff some turn fails, and then with the error of the first failing turn |
| Emission.StateElementsStep | src/sysmlv2x_lib/sysmlv2x.py:144-149 | A turn that emits appends its element to the element in its source's slot and changes nothing else; a turn that skips changes nothing |
| Emission.EmissionShape | src/sysmlv2x_lib/sysmlv2x.py:37-105 | A successful emission's root has exactly the four fixed attributes with `initial` the given name, one `state` child per state in order with `id` the state's name, an `invoke` first child (with the do-action's name) iff the state has a do-action, and only `transition` elements after it |
| Emission.EmittedAreTransitions | src/sysmlv2x_lib/sysmlv2x.py:144-149 | Everything appended under a state element is a `transition` element |
| Emission.StateElementChildren | src/sysmlv2x_lib/sysmlv2x.py:95-149 | With distinct state objects, a state element's children are its `invoke` part followed by what was appended under its identity |
| Emission.EmittedShape | src/sysmlv2x_lib/sysmlv2x.py:108-149 | With every turn succeeding and emitting, a state gets one element per transition from it, in transition order, each carrying that transition's event and target |
| Emission.ListedIsFromSource | src/sysmlv2x_lib/sysmlv2x.py:69-74 | The by-source dictionary lists for a state exactly the transitions from it, or nothing |
| Emission.TransitionsUnderSource | src/sysmlv2x_lib/sysmlv2x.py:108-149 | When the states are distinct objects (`DistinctIds`) and every transition's turn succeeds and passes the guard at line 144 (`Emits`), each state element holds, after its `invoke` part, exactly one `transition` per transition the from-source dictionary lists for it, in that order, each with the resolved event and the target's name |
| Converter.ConversionOutcome | src/sysmlv2x_lib/sysmlv2x.py:30-45 | A construction succeeds iff every child passes indexing, the initial state is found and every transition turn succeeds; its root then has `initial` equal to the name found and one `state` child per state child, each with the state's name |
| Converter.SysMLv2ToSCXML.constructor | src/sysmlv2x_lib/sysmlv2x.py:16-28 | The field initialisation: the model and machine are stored, and the six structures are empty |
| Converter.SysMLv2ToSCXML.ExtractStatesAndTransitions | src/sysmlv2x_lib/sysmlv2x.py:47-74 | The indexing loop fills the six fields with the specified index, or returns the specified error |
| Converter.SysMLv2ToSCXML.IndexChild | src/sysmlv2x_lib/sysmlv2x.py:50-74 | One turn of the indexing loop raises the child's error, or adds the child to the structures built so far |
| Converter.SysMLv2ToSCXML.FindInitialState | src/sysmlv2x_lib/sysmlv2x.py:76-86 | The search loop with its early returns yields the specified initial-state outcome |
| Converter.SysMLv2ToSCXML.ConvertStates | src/sysmlv2x_lib/sysmlv2x.py:90-149 | The two loops raise the specified emission error, or leave the specified children under the root |
| Converter.SysMLv2ToSCXML.ConvertStateElements | src/sysmlv2x_lib/sysmlv2x.py:92-105 | The state loop builds `state_elements` as the specified slots and gives the root one `state` shell per state |
| Converter.SysMLv2ToSCXML.ConvertTransitions | src/sysmlv2x_lib/sysmlv2x.py:108-149 | The transition loop stops at the first failing turn with its error, or leaves every transition appended under its source |
| Converter.SysMLv2ToSCXML.ConvertTransition | src/sysmlv2x_lib/sysmlv2x.py:109-149 | One turn fails with the turn's specified error, or extends the tree by that one turn |
| Converter.SysMLv2ToSCXML.Construct | src/sysmlv2x_lib/sysmlv2x.py:9-45 | The constructor either fails with the specified conversion error, or yields a fresh object holding the specified tree, initial state and index |

## Left out

- The `syside` library is not part of this model: loading models, `try_cast` and `cast`, `model.nodes(...)` and `children.elements`. The model receives their results as values. A child's kind is a datatype case. "Can this type be cast to an AttributeDefinition" is a flag on the type, so the `TypeError` caught at lines 113-118 is not modelled.
- XML serialisation (`to_xml_string`, lines 152-156) is ElementTree and minidom library code producing text; only the element tree is modelled.
- The debug `print` at line 100 and the commented-out prints have no effect on the tree and are left out.
- The `assert isinstance(transition.source, syside.StateUsage)` at line 67 is not modelled. `ElementRef` carries no kind, so a transition whose source is not a state passes indexing. Such a source is caught only as `SourceStateNotConverted` (the `KeyError` at line 146), and only when the guard at line 144 passes; when the guard skips the transition it is not caught at all. Python raises `AssertionError` at line 67, during indexing, in both cases.
- The `assert` statements at lines 121-135 are not modelled as checks. The indexing pass already guarantees what they check, and `AllNamedTransitions` carries that guarantee into emission. The payload assertion at line 137 is modelled as `PayloadMissing`.
- Aliasing of model objects is not modelled. The input is a tree of values in which equal ids stand for the same object. The dictionaries keyed by objects become maps keyed by ids. `state_elements` maps a state id to its element's position among the root's children, which stands for the aliased `Element` object that `SubElement` mutates.
- On a failure during indexing or emission, Python leaves partly filled lists and dictionaries, or a partly built tree, in the object. The constructor then raises, so the object is never seen. `ExtractStatesAndTransitions`, `IndexChild` and the emission methods therefore state the six structures or the new tree only for the success case.
- The unused `event_data` parameter of `extract_event_name` (line 109) is dropped. The model reads the payload heritage directly, as the code does.
- The loop bodies of indexing and of the transition loop are separate methods (`IndexChild`, `ConvertTransition`), and `_convert_states` is split into its two loops. Each method does exactly what its part of the Python body does.
