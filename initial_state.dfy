/** The initial-state search (`_find_initial_state`): the first succession, in
    model enumeration order, whose source is the state machine's entry action
    decides the outcome and the search stops there. */
module InitialState {
  import opened Wrappers
  import opened Sysml

  /** `i` is the position of the first succession leaving the entry action. */
  predicate IsFirstEntrySuccession(ss: seq<Succession>, entry: Option<nat>, i: int) {
    0 <= i < |ss| && ss[i].source == entry && forall j :: 0 <= j < i ==> ss[j].source != entry
  }

  /** What a matching succession yields: the name of its first target, or one of
      the two failures raised on it. */
  function EntryTargetName(s: Succession): Result<string, Error> {
    if |s.targets| == 0 then Err(EntryHasNoTargets)
    else if s.targets[0].name.None? then Err(InitialStateHasNoName)
    else Ok(s.targets[0].name.value)
  }

  /** The outcome of the search for the initial state's name. */
  function InitialStateOf(ss: seq<Succession>, entry: Option<nat>): Result<string, Error> {
    if ss == [] then Err(InitialStateNotFound)
    else if ss[0].source == entry then EntryTargetName(ss[0])
    else InitialStateOf(ss[1..], entry)
  }

  /** The initial state is the first target's name of the first succession
      leaving the entry action; the search fails if no succession leaves it, and
      fails (never falls back to another succession or state) if that first one
      has no targets or an unnamed first target. */
  lemma {:induction false} InitialStateOfIsFirst(ss: seq<Succession>, entry: Option<nat>)
    ensures InitialStateOf(ss, entry) == Err(InitialStateNotFound) <==> forall i :: 0 <= i < |ss| ==> ss[i].source != entry
    ensures forall i :: IsFirstEntrySuccession(ss, entry, i) ==> InitialStateOf(ss, entry) == EntryTargetName(ss[i])
    ensures InitialStateOf(ss, entry).Ok? ==>
              exists i :: IsFirstEntrySuccession(ss, entry, i) && |ss[i].targets| > 0 &&
                          ss[i].targets[0].name == Some(InitialStateOf(ss, entry).value)
  {
    if ss != [] && ss[0].source != entry {
      InitialStateOfIsFirst(ss[1..], entry);
      assert forall i :: 0 <= i < |ss| - 1 ==> ss[1..][i] == ss[i + 1];
      assert forall i :: IsFirstEntrySuccession(ss[1..], entry, i) <==> IsFirstEntrySuccession(ss, entry, i + 1);
      assert forall i :: IsFirstEntrySuccession(ss, entry, i) ==> i > 0 && IsFirstEntrySuccession(ss[1..], entry, i - 1);
    }
  }
}
