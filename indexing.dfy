/** Indexing of the state machine's children (`_extract_states_and_transitions`):
    which children are states and transitions, the by-name dictionaries, the
    by-source grouping, and when the pass fails. All sequences are built the way
    the loop builds them: one child at a time, appended at the end. */
module Indexing {
  import opened Wrappers
  import opened Sysml

  /** The three outcomes of casting a child. */
  datatype Kind = StateKind | TransitionKind | OtherKind

  function KindOf(c: Child): Kind {
    match c.kind
    case StateUsage(_) => StateKind
    case TransitionUsage(_, _, _) => TransitionKind
    case OtherElement => OtherKind
  }

  /** The children of kind `k`, in child order. */
  function Select(cs: seq<Child>, k: Kind): seq<Child> {
    if cs == [] then []
    else
      var last := cs[|cs| - 1];
      Select(cs[..|cs| - 1], k) + (if KindOf(last) == k then [last] else [])
  }

  /** The positions in `cs` of the children of kind `k`. */
  function KindPositions(cs: seq<Child>, k: Kind): seq<nat> {
    if cs == [] then []
    else KindPositions(cs[..|cs| - 1], k) + (if KindOf(cs[|cs| - 1]) == k then [|cs| - 1] else [])
  }

  /** The positions are in range and strictly increasing. */
  lemma {:induction false} KindPositionsIncreasing(cs: seq<Child>, k: Kind)
    ensures forall m :: 0 <= m < |KindPositions(cs, k)| ==> KindPositions(cs, k)[m] < |cs|
    ensures forall m, n :: 0 <= m < n < |KindPositions(cs, k)| ==> KindPositions(cs, k)[m] < KindPositions(cs, k)[n]
  {
    if cs != [] {
      KindPositionsIncreasing(cs[..|cs| - 1], k);
    }
  }

  /** A position is listed iff the child there has kind `k`. */
  lemma {:induction false} KindPositionsComplete(cs: seq<Child>, k: Kind)
    ensures forall j :: 0 <= j < |cs| ==> (KindOf(cs[j]) == k <==> j in KindPositions(cs, k))
  {
    if cs != [] {
      var p := cs[..|cs| - 1];
      KindPositionsComplete(p, k);
      KindPositionsIncreasing(p, k);
      assert forall j :: 0 <= j < |p| ==> p[j] == cs[j];
    }
  }

  /** The `m`-th selected child is the child at the `m`-th position. */
  lemma {:induction false} SelectAtPositions(cs: seq<Child>, k: Kind)
    ensures |Select(cs, k)| == |KindPositions(cs, k)|
    ensures forall m :: 0 <= m < |KindPositions(cs, k)| ==>
              KindPositions(cs, k)[m] < |cs| && Select(cs, k)[m] == cs[KindPositions(cs, k)[m]]
  {
    KindPositionsIncreasing(cs, k);
    if cs != [] {
      var p := cs[..|cs| - 1];
      SelectAtPositions(p, k);
      KindPositionsIncreasing(p, k);
      assert forall j :: 0 <= j < |p| ==> p[j] == cs[j];
    }
  }

  /** Only children of kind `k` are selected. */
  lemma {:induction false} SelectMembers(cs: seq<Child>, k: Kind)
    ensures forall c :: c in Select(cs, k) ==> c in cs && KindOf(c) == k
  {
    if cs != [] {
      var p := cs[..|cs| - 1];
      SelectMembers(p, k);
      assert forall c :: c in p ==> c in cs;
    }
  }

  /** `Select(cs, k)` is exactly the subsequence of `cs` at the positions of the
      kind-`k` children: every such child, each once, in child order, and nothing else. */
  lemma SelectIsOrderedFilter(cs: seq<Child>, k: Kind)
    ensures |Select(cs, k)| == |KindPositions(cs, k)|
    ensures forall m :: 0 <= m < |KindPositions(cs, k)| ==>
              KindPositions(cs, k)[m] < |cs| && Select(cs, k)[m] == cs[KindPositions(cs, k)[m]]
    ensures forall m, n :: 0 <= m < n < |KindPositions(cs, k)| ==> KindPositions(cs, k)[m] < KindPositions(cs, k)[n]
    ensures forall j :: 0 <= j < |cs| ==> (KindOf(cs[j]) == k <==> j in KindPositions(cs, k))
    ensures forall c :: c in Select(cs, k) ==> c in cs && KindOf(c) == k
  {
    KindPositionsIncreasing(cs, k);
    KindPositionsComplete(cs, k);
    SelectAtPositions(cs, k);
    SelectMembers(cs, k);
  }

  /** A by-name dictionary filled in order: a later element replaces an earlier one with the same name. */
  function ByName(xs: seq<Child>): map<string, Child> {
    if xs == [] then map[]
    else
      var last := xs[|xs| - 1];
      var m := ByName(xs[..|xs| - 1]);
      if last.name.Some? then m[last.name.value := last] else m
  }

  /** The keys of `ByName(xs)` are the names carried by `xs`, and each maps to the
      LAST element carrying it. */
  lemma {:induction false} ByNameLastWins(xs: seq<Child>)
    ensures forall n :: n in ByName(xs) <==> exists i :: 0 <= i < |xs| && xs[i].name == Some(n)
    ensures forall n :: n in ByName(xs) ==>
              exists i :: 0 <= i < |xs| && xs[i] == ByName(xs)[n] && xs[i].name == Some(n) &&
                          forall j :: i < j < |xs| ==> xs[j].name != Some(n)
  {
    if xs != [] {
      var p := xs[..|xs| - 1];
      ByNameLastWins(p);
      assert forall j :: 0 <= j < |p| ==> p[j] == xs[j];
      var last := xs[|xs| - 1];
      forall n | n in ByName(xs)
        ensures exists i :: 0 <= i < |xs| && xs[i] == ByName(xs)[n] && xs[i].name == Some(n) &&
                            forall j :: i < j < |xs| ==> xs[j].name != Some(n)
      {
        if last.name == Some(n) {
          assert xs[|xs| - 1] == ByName(xs)[n];
        } else {
          var i :| 0 <= i < |p| && p[i] == ByName(p)[n] && p[i].name == Some(n) &&
                   forall j :: i < j < |p| ==> p[j].name != Some(n);
          assert xs[i] == ByName(xs)[n];
        }
      }
    }
  }

  /** The transitions of `ts` whose source is the state with identity `s`, in order. */
  function FromSource(ts: seq<Child>, s: nat): seq<Child> {
    if ts == [] then []
    else
      var last := ts[|ts| - 1];
      FromSource(ts[..|ts| - 1], s) + (if SourceId(last) == Some(s) then [last] else [])
  }

  /** The by-source dictionary, filled the way the loop fills it: a new key gets an
      empty list, then the transition is appended to its source's list. */
  function GroupBySource(ts: seq<Child>): map<nat, seq<Child>> {
    if ts == [] then map[]
    else
      var last := ts[|ts| - 1];
      var g := GroupBySource(ts[..|ts| - 1]);
      match SourceId(last)
      case None => g
      case Some(s) => AddToGroup(g, s, last)
  }

  /** Appends `t` to the list of key `s`, starting from an empty list for a new key. */
  function AddToGroup(g: map<nat, seq<Child>>, s: nat, t: Child): map<nat, seq<Child>> {
    g[s := (if s in g then g[s] else []) + [t]]
  }

  /** The keys of `GroupBySource(ts)` are exactly the sources of `ts`, each key's
      list is never empty, and it is the ordered list of that source's transitions. */
  lemma {:induction false} GroupBySourceGroups(ts: seq<Child>)
    ensures forall s :: s in GroupBySource(ts) <==> exists i :: 0 <= i < |ts| && SourceId(ts[i]) == Some(s)
    ensures forall s :: s in GroupBySource(ts) ==> GroupBySource(ts)[s] == FromSource(ts, s) && GroupBySource(ts)[s] != []
    ensures forall s :: s !in GroupBySource(ts) ==> FromSource(ts, s) == []
  {
    if ts != [] {
      var p := ts[..|ts| - 1];
      GroupBySourceGroups(p);
      assert forall j :: 0 <= j < |p| ==> p[j] == ts[j];
    }
  }

  /** Each transition occurs in the list of its own source exactly as often as in
      `ts`, and in no other list. */
  lemma {:induction false} FromSourceCounts(ts: seq<Child>, s: nat)
    ensures forall t :: multiset(FromSource(ts, s))[t] == if SourceId(t) == Some(s) then multiset(ts)[t] else 0
  {
    if ts != [] {
      var p := ts[..|ts| - 1];
      FromSourceCounts(p, s);
      assert ts == p + [ts[|ts| - 1]];
    }
  }

  /** A child passes indexing when a state is named, and a transition is named
      and has a named source and a named target. */
  predicate Admissible(c: Child) {
    (c.kind.StateUsage? ==> NamedState(c)) && (c.kind.TransitionUsage? ==> NamedTransition(c))
  }

  /** The error the indexing pass raises on one child, checked in the order of the source. */
  function ChildError(c: Child): (r: Option<Error>)
    ensures r.None? <==> Admissible(c)
    ensures c.kind.StateUsage? && r.Some? ==> r.value == StateHasNoName(c.id)
    ensures c.kind.TransitionUsage? && c.name.None? ==> r == Some(TransitionHasNoName(c.id))
    ensures c.kind.TransitionUsage? && c.name.Some? && !NamedEndpoint(c.kind.source) ==>
              r == Some(TransitionHasNoSource(c.name.value))
    ensures c.kind.TransitionUsage? && c.name.Some? && NamedEndpoint(c.kind.source) && !NamedEndpoint(c.kind.target) ==>
              r == Some(TransitionHasNoTarget(c.name.value))
  {
    match c.kind
    case StateUsage(_) =>
      if c.name.None? then Some(StateHasNoName(c.id)) else None
    case TransitionUsage(source, target, _) =>
      if c.name.None? then Some(TransitionHasNoName(c.id))
      else if !NamedEndpoint(source) then Some(TransitionHasNoSource(c.name.value))
      else if !NamedEndpoint(target) then Some(TransitionHasNoTarget(c.name.value))
      else None
    case OtherElement => None
  }

  /** The error of the first child that fails, if any. */
  function FirstChildError(cs: seq<Child>): Option<Error> {
    if cs == [] then None
    else if ChildError(cs[0]).Some? then ChildError(cs[0])
    else FirstChildError(cs[1..])
  }

  /** `FirstChildError` reports nothing iff every child is admissible, and otherwise
      the error of the first child that is not. */
  lemma {:induction false} FirstChildErrorIsFirst(cs: seq<Child>)
    ensures FirstChildError(cs).None? <==> forall i :: 0 <= i < |cs| ==> Admissible(cs[i])
    ensures forall i :: 0 <= i < |cs| && !Admissible(cs[i]) && (forall j :: 0 <= j < i ==> Admissible(cs[j])) ==>
              FirstChildError(cs) == ChildError(cs[i])
  {
    if cs != [] {
      FirstChildErrorIsFirst(cs[1..]);
      assert forall j :: 0 <= j < |cs| - 1 ==> cs[1..][j] == cs[j + 1];
      forall i | 0 <= i < |cs| && !Admissible(cs[i]) && (forall j :: 0 <= j < i ==> Admissible(cs[j]))
        ensures FirstChildError(cs) == ChildError(cs[i])
      {
        if i > 0 {
          assert !Admissible(cs[1..][i - 1]);
        }
      }
      if forall i :: 0 <= i < |cs| ==> Admissible(cs[i]) {
        assert forall j :: 0 <= j < |cs| - 1 ==> Admissible(cs[1..][j]);
      }
    }
  }

  /** One more element updates its name's entry. */
  lemma ByNameStep(xs: seq<Child>, x: Child)
    ensures ByName(xs + [x]) == if x.name.Some? then ByName(xs)[x.name.value := x] else ByName(xs)
  {
    assert (xs + [x])[..|xs|] == xs;
  }


  /** The first error from position `i` on is this child's, or one further on. */
  lemma FirstChildErrorStep(cs: seq<Child>, i: nat)
    requires i < |cs|
    ensures FirstChildError(cs[i..]) == if ChildError(cs[i]).Some? then ChildError(cs[i]) else FirstChildError(cs[i + 1..])
  {
    assert cs[i..][1..] == cs[i + 1..];
  }

  /** The six structures the indexing pass fills. */
  datatype Index = Index(
    states: seq<Child>,
    statesByName: map<string, Child>,
    transitions: seq<Child>,
    transitionsByName: map<string, Child>,
    transitionsFromSource: map<nat, seq<Child>>,
    transitionsToTarget: map<nat, seq<Child>>)

  /** The structures before the first child. */
  const EmptyIndex := Index([], map[], [], map[], map[], map[])

  /** What the indexing pass does with one child it accepts: a state is appended
      and entered under its name; a transition is appended, entered under its
      name and appended to its source's list in both by-source dictionaries; any
      other child is passed over. A child it would reject changes nothing. */
  function AddChild(ix: Index, c: Child): Index {
    match c.kind
    case StateUsage(_) =>
      if c.name.None? then ix
      else ix.(states := ix.states + [c], statesByName := ix.statesByName[c.name.value := c])
    case TransitionUsage(source, _, _) =>
      if !NamedTransition(c) then ix
      else
        var s := source.value.id;
        ix.(transitions := ix.transitions + [c],
            transitionsByName := ix.transitionsByName[c.name.value := c],
            transitionsFromSource := AddToGroup(ix.transitionsFromSource, s, c),
            transitionsToTarget := AddToGroup(ix.transitionsToTarget, s, c))
    case OtherElement => ix
  }

  /** `AddToGroup` as the loop performs it: an empty list is stored under a new
      key first, then the transition is appended to the list under the key. */
  lemma AddToGroupInPlace(g: map<nat, seq<Child>>, s: nat, t: Child)
    ensures var g1 := if s in g then g else g[s := []];
      AddToGroup(g, s, t) == g1[s := g1[s] + [t]]
  {
  }

  /** The structures after the children `cs`, one child at a time. */
  function Indexed(cs: seq<Child>): Index {
    if cs == [] then EmptyIndex
    else AddChild(Indexed(cs[..|cs| - 1]), cs[|cs| - 1])
  }

  /** The two by-source dictionaries always hold the same lists. */
  lemma {:induction false} IndexedGroupsAgree(cs: seq<Child>)
    ensures Indexed(cs).transitionsToTarget == Indexed(cs).transitionsFromSource
  {
    if cs != [] {
      IndexedGroupsAgree(cs[..|cs| - 1]);
    }
  }

  /** One more child is one more step. */
  lemma IndexedStep(cs: seq<Child>, i: nat)
    requires i < |cs|
    ensures Indexed(cs[..i + 1]) == AddChild(Indexed(cs[..i]), cs[i])
  {
    assert cs[..i + 1][..i] == cs[..i];
  }

  /** When every child is admissible, the state list is the selection of the
      state children and the state dictionary is its by-name dictionary. */
  lemma {:induction false} IndexedStates(cs: seq<Child>)
    requires forall k :: 0 <= k < |cs| ==> Admissible(cs[k])
    ensures Indexed(cs).states == Select(cs, StateKind)
    ensures Indexed(cs).statesByName == ByName(Select(cs, StateKind))
  {
    if cs != [] {
      var p := cs[..|cs| - 1];
      var c := cs[|cs| - 1];
      assert forall k :: 0 <= k < |p| ==> p[k] == cs[k];
      IndexedStates(p);
      var sts := Select(p, StateKind);
      if c.kind.StateUsage? {
        ByNameStep(sts, c);
      } else {
        assert sts + [] == sts;
      }
    }
  }

  /** When every child is admissible, the transition list is the selection of the
      transition children, the transition dictionary is its by-name dictionary and
      the from-source dictionary is its by-source grouping. */
  lemma {:induction false} IndexedTransitions(cs: seq<Child>)
    requires forall k :: 0 <= k < |cs| ==> Admissible(cs[k])
    ensures Indexed(cs).transitions == Select(cs, TransitionKind)
    ensures Indexed(cs).transitionsByName == ByName(Select(cs, TransitionKind))
    ensures Indexed(cs).transitionsFromSource == GroupBySource(Select(cs, TransitionKind))
  {
    if cs != [] {
      var p := cs[..|cs| - 1];
      var c := cs[|cs| - 1];
      assert forall k :: 0 <= k < |p| ==> p[k] == cs[k];
      IndexedTransitions(p);
      var ts := Select(p, TransitionKind);
      if c.kind.TransitionUsage? {
        ByNameStep(ts, c);
        assert (ts + [c])[..|ts|] == ts;
      } else {
        assert ts + [] == ts;
      }
    }
  }

  /** When every child is admissible, the structures are the selections of the
      state and transition children, their by-name dictionaries and the by-source
      grouping of the transitions (in both by-source dictionaries). */
  lemma IndexedMeaning(cs: seq<Child>)
    requires forall k :: 0 <= k < |cs| ==> Admissible(cs[k])
    ensures Indexed(cs) == Index(Select(cs, StateKind), ByName(Select(cs, StateKind)),
                                 Select(cs, TransitionKind), ByName(Select(cs, TransitionKind)),
                                 GroupBySource(Select(cs, TransitionKind)), GroupBySource(Select(cs, TransitionKind)))
  {
    IndexedStates(cs);
    IndexedTransitions(cs);
    IndexedGroupsAgree(cs);
  }

  /** The outcome of indexing `cs`. The to-target dictionary is keyed by the source
      state and gets the same lists as the from-source one, as the code does. */
  function IndexChildren(cs: seq<Child>): Result<Index, Error> {
    match FirstChildError(cs)
    case Some(e) => Err(e)
    case None => Ok(Indexed(cs))
  }

  /** After a successful pass every recorded state and transition is named. */
  lemma IndexedAreNamed(cs: seq<Child>)
    requires IndexChildren(cs).Ok?
    ensures AllNamedStates(IndexChildren(cs).value.states)
    ensures AllNamedTransitions(IndexChildren(cs).value.transitions)
  {
    FirstChildErrorIsFirst(cs);
    IndexedMeaning(cs);
    SelectIsOrderedFilter(cs, StateKind);
    SelectIsOrderedFilter(cs, TransitionKind);
  }

  /** Indexing succeeds iff every child is admissible; otherwise it fails with the
      error of the first child that is not, so no later child is ever looked at. */
  lemma IndexingOutcome(cs: seq<Child>)
    ensures IndexChildren(cs).Ok? <==> forall i :: 0 <= i < |cs| ==> Admissible(cs[i])
    ensures forall i :: 0 <= i < |cs| && !Admissible(cs[i]) && (forall j :: 0 <= j < i ==> Admissible(cs[j])) ==>
              IndexChildren(cs) == Err(ChildError(cs[i]).value)
  {
    FirstChildErrorIsFirst(cs);
  }

  /** After a successful pass: the state list holds exactly the state-shaped children
      and the transition list exactly the transition-shaped ones, in child order;
      the name dictionaries map each name to the last element carrying it; the
      from-source dictionary groups the transitions by source; and the to-target
      dictionary is the same dictionary, keyed by source too. */
  lemma IndexingContents(cs: seq<Child>)
    requires IndexChildren(cs).Ok?
    ensures var ix := IndexChildren(cs).value;
      && ix.states == Select(cs, StateKind)
      && ix.transitions == Select(cs, TransitionKind)
      && (forall i :: 0 <= i < |ix.states| ==> ix.states[i].name.Some? && ix.states[i].name.value in ix.statesByName)
      && (forall n :: n in ix.statesByName ==>
            exists i :: 0 <= i < |ix.states| && ix.states[i] == ix.statesByName[n] && ix.states[i].name == Some(n) &&
                        forall j :: i < j < |ix.states| ==> ix.states[j].name != Some(n))
      && (forall n :: n in ix.transitionsByName ==>
            exists i :: 0 <= i < |ix.transitions| && ix.transitions[i] == ix.transitionsByName[n] &&
                        ix.transitions[i].name == Some(n) &&
                        forall j :: i < j < |ix.transitions| ==> ix.transitions[j].name != Some(n))
      && (forall i :: 0 <= i < |ix.transitions| ==>
            ix.transitions[i].name.Some? && ix.transitions[i].name.value in ix.transitionsByName)
      && (forall s :: s in ix.transitionsFromSource <==>
            exists i :: 0 <= i < |ix.transitions| && SourceId(ix.transitions[i]) == Some(s))
      && (forall s :: s in ix.transitionsFromSource ==>
            ix.transitionsFromSource[s] == FromSource(ix.transitions, s) && ix.transitionsFromSource[s] != [])
      && ix.transitionsToTarget == ix.transitionsFromSource
  {
    FirstChildErrorIsFirst(cs);
    IndexedMeaning(cs);
    IndexedAreNamed(cs);
    var ix := IndexChildren(cs).value;
    ByNameLastWins(ix.states);
    ByNameLastWins(ix.transitions);
    GroupBySourceGroups(ix.transitions);
  }
}
