/** Event-name resolution (`extract_event_name`): the declared name of the first
    heritage entry whose type is an attribute definition. Entries whose type is
    not one are skipped; when none is, the name stays unbound and the lookup fails. */
module EventName {
  import opened Wrappers
  import opened Sysml

  /** The heritage entry `h` names an event definition. */
  predicate IsEventDefinition(h: HeritageItem) {
    h.referenced.isAttributeDefinition
  }

  /** `i` is the position of the first entry naming an event definition. */
  predicate IsFirstEventDefinition(hs: seq<HeritageItem>, i: int) {
    0 <= i < |hs| && IsEventDefinition(hs[i]) && forall j :: 0 <= j < i ==> !IsEventDefinition(hs[j])
  }

  /** The resolved event name, or the failure when it stays unbound. */
  function EventNameOf(hs: seq<HeritageItem>): Result<Option<string>, Error> {
    if hs == [] then Err(EventNameUnbound)
    else if IsEventDefinition(hs[0]) then Ok(hs[0].referenced.declaredName)
    else EventNameOf(hs[1..])
  }

  /** The name resolves iff some entry names an event definition, and it is the
      (possibly absent) declared name of the first such entry; otherwise the
      lookup fails with the unbound name. */
  lemma {:induction false} EventNameOfIsFirst(hs: seq<HeritageItem>)
    ensures EventNameOf(hs).Ok? <==> exists i :: 0 <= i < |hs| && IsEventDefinition(hs[i])
    ensures forall i :: IsFirstEventDefinition(hs, i) ==> EventNameOf(hs) == Ok(hs[i].referenced.declaredName)
    ensures EventNameOf(hs).Err? ==> EventNameOf(hs).error == EventNameUnbound
  {
    if hs != [] && !IsEventDefinition(hs[0]) {
      EventNameOfIsFirst(hs[1..]);
      assert forall i :: 0 <= i < |hs| - 1 ==> hs[1..][i] == hs[i + 1];
      assert forall i :: IsFirstEventDefinition(hs[1..], i) <==> IsFirstEventDefinition(hs, i + 1);
      assert forall i :: IsFirstEventDefinition(hs, i) ==> i > 0 && IsFirstEventDefinition(hs[1..], i - 1);
    }
  }

  /** The walk itself: a loop over the heritage that stops at the first event
      definition. `Some(n)` in `eventName` stands for the bound Python variable. */
  method ExtractEventName(hs: seq<HeritageItem>) returns (r: Result<Option<string>, Error>)
    ensures r == EventNameOf(hs)
  {
    var eventName: Option<Option<string>> := None;
    var i := 0;
    while i < |hs|
      invariant 0 <= i <= |hs|
      invariant eventName.None?
      invariant EventNameOf(hs) == EventNameOf(hs[i..])
    {
      if IsEventDefinition(hs[i]) {
        eventName := Some(hs[i].referenced.declaredName);
        break;
      }
      assert hs[i..][1..] == hs[i + 1..];
      i := i + 1;
    }
    if eventName.None? {
      return Err(EventNameUnbound);
    }
    return Ok(eventName.value);
  }
}
