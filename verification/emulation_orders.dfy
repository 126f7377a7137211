/** Ordered lists in a custom emulation, each rejecting invalid and duplicate entries. */
module EmulationOrders {
  import opened Wrappers
  import opened Text

  datatype OrderError = InvalidEntry(index: nat) | DuplicateEntry(index: nat)

  predicate Distinct<T(==)>(items: seq<T>) {
    forall i, j :: 0 <= i < j < |items| ==> items[i] != items[j]
  }

  function Elements<T>(items: seq<T>): set<T> {
    set i | 0 <= i < |items| :: items[i]
  }

  /** A list without duplicates is no longer than the set it draws from. */
  lemma {:induction false} DistinctBound<T>(items: seq<T>, universe: set<T>)
    requires Distinct(items) && forall i :: 0 <= i < |items| ==> items[i] in universe
    ensures |items| <= |universe|
    decreases |items|
  {
    if items != [] {
      var n := |items| - 1;
      assert |universe - {items[n]}| == |universe| - 1;
      DistinctBound(items[..n], universe - {items[n]});
    }
  }

  /** What a loop that has seen `items[..i]` knows after an item that is new. */
  lemma SeenSnoc<T>(items: seq<T>, i: nat)
    requires i < |items|
    ensures Elements(items[..i + 1]) == Elements(items[..i]) + {items[i]}
    ensures items[i] !in Elements(items[..i]) && Distinct(items[..i]) ==> Distinct(items[..i + 1])
  {
  }

  lemma RepeatIsNotDistinct<T>(items: seq<T>, i: nat)
    requires i < |items| && items[i] in Elements(items[..i])
    ensures items[i] in items[..i] && !Distinct(items)
  {
  }

  // ----- Original header names -----

  /** The trimmed names are valid header names and differ even when case is ignored. */
  predicate ValidOrigHeaders(validName: string -> bool, headers: seq<string>) {
    && (forall i :: 0 <= i < |headers| ==> Trim(headers[i]) != "" && validName(Trim(headers[i])))
    && Distinct(Keys(headers))
  }

  function Keys(headers: seq<string>): (keys: seq<string>)
    ensures |keys| == |headers|
  {
    seq(|headers|, i requires 0 <= i < |headers| => Lower(Trim(headers[i])))
  }

  /** Two names clash exactly if, trimmed, they are the same letter by letter in whatever case. */
  lemma ValidOrigHeadersMeans(validName: string -> bool, headers: seq<string>)
    ensures ValidOrigHeaders(validName, headers) <==>
      && (forall i :: 0 <= i < |headers| ==> Trim(headers[i]) != "" && validName(Trim(headers[i])))
      && (forall i, j :: 0 <= i < j < |headers| ==> !SameIgnoringCase(Trim(headers[i]), Trim(headers[j])))
  {
    var keys := Keys(headers);
    forall i, j | 0 <= i < j < |headers|
      ensures keys[i] == keys[j] <==> SameIgnoringCase(Trim(headers[i]), Trim(headers[j]))
    {
      LowerEqualMeans(Trim(headers[i]), Trim(headers[j]));
    }
  }

  lemma KeysSnoc(headers: seq<string>, i: nat)
    requires i < |headers|
    ensures Keys(headers[..i + 1]) == Keys(headers[..i]) + [Lower(Trim(headers[i]))]
    ensures Keys(headers)[..i + 1] == Keys(headers[..i + 1])
  {
  }

  /** One more name of a list that is valid so far. */
  lemma OrigHeadersSnoc(validName: string -> bool, headers: seq<string>, i: nat)
    requires i < |headers| && ValidOrigHeaders(validName, headers[..i])
    ensures var name := Trim(headers[i]); var key := Lower(name); var keys := Keys(headers[..i]);
      && (key in Elements(keys) ==> key in keys)
      && Elements(Keys(headers[..i + 1])) == Elements(keys) + {key}
      && (if name != "" && validName(name) && key !in Elements(keys) then ValidOrigHeaders(validName, headers[..i + 1])
          else !ValidOrigHeaders(validName, headers))
  {
    var key, after := Lower(Trim(headers[i])), Keys(headers[..i + 1]);
    KeysSnoc(headers, i);
    assert after[..i] == Keys(headers[..i]) && after[..i + 1] == after && after[i] == key;
    SeenSnoc(after, i);
    if key in Elements(Keys(headers[..i])) {
      RepeatIsNotDistinct(after, i);
      assert !Distinct(Keys(headers)[..i + 1]);
    }
  }

  /** Accepts exactly the valid lists, and then keeps every name, trimmed, in its place. */
  method BuildOrigHeaderMap(headers: seq<string>, validName: string -> bool)
    returns (r: Result<seq<string>, OrderError>)
    ensures r.Ok? <==> ValidOrigHeaders(validName, headers)
    ensures r.Ok? ==>
      |r.value| == |headers| && forall i :: 0 <= i < |headers| ==> r.value[i] == Trim(headers[i])
    ensures r.Err? ==>
      r.error.index < |headers| && ValidOrigHeaders(validName, headers[..r.error.index])
    ensures r.Err? ==>
      var name := Trim(headers[r.error.index]);
      && (r.error.InvalidEntry? <==> name == "" || !validName(name))
      && (r.error.DuplicateEntry? ==> Lower(name) in Keys(headers[..r.error.index]))
  {
    var names: seq<string> := [];
    var seen: set<string> := {};
    for i := 0 to |headers|
      invariant ValidOrigHeaders(validName, headers[..i])
      invariant seen == Elements(Keys(headers[..i]))
      invariant |names| == i && forall j :: 0 <= j < i ==> names[j] == Trim(headers[j])
    {
      OrigHeadersSnoc(validName, headers, i);
      var trimmed := Trim(headers[i]);
      if trimmed == "" || !validName(trimmed) {
        return Err(InvalidEntry(i));
      }
      var key := Lower(trimmed);
      if key in seen {
        return Err(DuplicateEntry(i));
      }
      seen := seen + {key};
      names := names + [trimmed];
    }
    assert headers[..|headers|] == headers;
    return Ok(names);
  }

  // ----- HTTP/2 pseudo-header order -----

  datatype PseudoId = Method | Scheme | Authority | Path | Protocol

  function ParsePseudoId(value: string): Option<PseudoId> {
    if value == "Method" then Some(Method)
    else if value == "Scheme" then Some(Scheme)
    else if value == "Authority" then Some(Authority)
    else if value == "Path" then Some(Path)
    else if value == "Protocol" then Some(Protocol)
    else None
  }

  /** Different accepted spellings denote different ids. */
  lemma PseudoIdsInjective(a: string, b: string)
    requires ParsePseudoId(a).Some? && ParsePseudoId(a) == ParsePseudoId(b)
    ensures a == b
  {
  }

  /** The five names, and no others, each its own id. */
  lemma PseudoIdNames(value: string)
    ensures ParsePseudoId(value) == Some(Method) <==> value == "Method"
    ensures ParsePseudoId(value) == Some(Scheme) <==> value == "Scheme"
    ensures ParsePseudoId(value) == Some(Authority) <==> value == "Authority"
    ensures ParsePseudoId(value) == Some(Path) <==> value == "Path"
    ensures ParsePseudoId(value) == Some(Protocol) <==> value == "Protocol"
  {
  }

  predicate AllPseudoIds(order: seq<string>) {
    forall i :: 0 <= i < |order| ==> ParsePseudoId(order[i]).Some?
  }

  function PseudoIds(order: seq<string>): (ids: seq<PseudoId>)
    requires AllPseudoIds(order)
    ensures |ids| == |order|
  {
    seq(|order|, i requires 0 <= i < |order| => ParsePseudoId(order[i]).value)
  }

  /** Rejecting repeated strings is rejecting repeated ids. */
  lemma DistinctStringsAreDistinctIds(order: seq<string>)
    requires AllPseudoIds(order)
    ensures Distinct(order) <==> Distinct(PseudoIds(order))
  {
    var ids := PseudoIds(order);
    forall i, j | 0 <= i < j < |order| ensures order[i] == order[j] <==> ids[i] == ids[j] {
      if ids[i] == ids[j] {
        PseudoIdsInjective(order[i], order[j]);
      }
    }
  }

  /** Accepts exactly the lists of valid, different ids, and returns them in their order. */
  method BuildPseudoOrder(order: seq<string>) returns (r: Result<seq<PseudoId>, OrderError>)
    ensures r.Ok? <==> AllPseudoIds(order) && Distinct(PseudoIds(order))
    ensures r.Ok? ==> AllPseudoIds(order) && r.value == PseudoIds(order) && |r.value| <= 5
    ensures r.Err? ==>
      && r.error.index < |order| && AllPseudoIds(order[..r.error.index]) && Distinct(order[..r.error.index])
      && (r.error.InvalidEntry? <==> ParsePseudoId(order[r.error.index]).None?)
      && (r.error.DuplicateEntry? ==> order[r.error.index] in order[..r.error.index])
  {
    var ids: seq<PseudoId> := [];
    var seen: set<string> := {};
    for i := 0 to |order|
      invariant AllPseudoIds(order[..i]) && Distinct(order[..i])
      invariant seen == Elements(order[..i])
      invariant ids == PseudoIds(order[..i])
    {
      match ParsePseudoId(order[i]) {
        case None => return Err(InvalidEntry(i));
        case Some(id) =>
          if order[i] in seen {
            RepeatIsNotDistinct(order, i);
            if AllPseudoIds(order) {
              DistinctStringsAreDistinctIds(order);
            }
            return Err(DuplicateEntry(i));
          }
          SeenSnoc(order, i);
          seen := seen + {order[i]};
          ids := ids + [id];
      }
    }
    assert order[..|order|] == order;
    DistinctStringsAreDistinctIds(order);
    DistinctBound(ids, {Method, Scheme, Authority, Path, Protocol});
    return Ok(ids);
  }

  // ----- HTTP/2 settings order -----

  datatype SettingId =
    | HeaderTableSize
    | EnablePush
    | MaxConcurrentStreams
    | InitialWindowSize
    | MaxFrameSize
    | MaxHeaderListSize
    | EnableConnectProtocol
    | NoRfc7540Priorities

  function ParseSettingId(value: string): Option<SettingId> {
    if value == "HeaderTableSize" then Some(HeaderTableSize)
    else if value == "EnablePush" then Some(EnablePush)
    else if value == "MaxConcurrentStreams" then Some(MaxConcurrentStreams)
    else if value == "InitialWindowSize" then Some(InitialWindowSize)
    else if value == "MaxFrameSize" then Some(MaxFrameSize)
    else if value == "MaxHeaderListSize" then Some(MaxHeaderListSize)
    else if value == "EnableConnectProtocol" then Some(EnableConnectProtocol)
    else if value == "NoRfc7540Priorities" then Some(NoRfc7540Priorities)
    else None
  }

  /** The eight names, and no others, each its own id. */
  lemma SettingIdNames(value: string)
    ensures ParseSettingId(value) == Some(HeaderTableSize) <==> value == "HeaderTableSize"
    ensures ParseSettingId(value) == Some(EnablePush) <==> value == "EnablePush"
    ensures ParseSettingId(value) == Some(MaxConcurrentStreams) <==> value == "MaxConcurrentStreams"
    ensures ParseSettingId(value) == Some(InitialWindowSize) <==> value == "InitialWindowSize"
    ensures ParseSettingId(value) == Some(MaxFrameSize) <==> value == "MaxFrameSize"
    ensures ParseSettingId(value) == Some(MaxHeaderListSize) <==> value == "MaxHeaderListSize"
    ensures ParseSettingId(value) == Some(EnableConnectProtocol) <==> value == "EnableConnectProtocol"
    ensures ParseSettingId(value) == Some(NoRfc7540Priorities) <==> value == "NoRfc7540Priorities"
  {
  }

  predicate AllSettingIds(order: seq<string>) {
    forall i :: 0 <= i < |order| ==> ParseSettingId(order[i]).Some?
  }

  function SettingIds(order: seq<string>): (ids: seq<SettingId>)
    requires AllSettingIds(order)
    ensures |ids| == |order|
  {
    seq(|order|, i requires 0 <= i < |order| => ParseSettingId(order[i]).value)
  }

  lemma EightSettings(ids: seq<SettingId>)
    requires Distinct(ids)
    ensures |ids| <= 8
  {
    var all := {HeaderTableSize, EnablePush, MaxConcurrentStreams, InitialWindowSize, MaxFrameSize,
                MaxHeaderListSize, EnableConnectProtocol, NoRfc7540Priorities};
    forall i | 0 <= i < |ids| ensures ids[i] in all {
      var id := ids[i];
      assert id.HeaderTableSize? || id.EnablePush? || id.MaxConcurrentStreams? || id.InitialWindowSize?
          || id.MaxFrameSize? || id.MaxHeaderListSize? || id.EnableConnectProtocol? || id.NoRfc7540Priorities?;
    }
    DistinctBound(ids, all);
  }

  lemma SettingIdsPrefix(order: seq<string>, n: nat)
    requires n <= |order| && AllSettingIds(order)
    ensures SettingIds(order[..n]) == SettingIds(order)[..n]
  {
  }

  /** Appending an id that was seen before repeats it, in whatever list starts like this. */
  lemma RepeatedSetting(order: seq<string>, i: nat)
    requires i < |order| && AllSettingIds(order[..i]) && ParseSettingId(order[i]).Some?
    requires ParseSettingId(order[i]).value in Elements(SettingIds(order[..i]))
    ensures AllSettingIds(order) ==> !Distinct(SettingIds(order))
  {
    if AllSettingIds(order) {
      SettingIdsPrefix(order, i);
      RepeatIsNotDistinct(SettingIds(order), i);
    }
  }

  lemma NewSetting(order: seq<string>, i: nat, id: SettingId)
    requires i < |order| && AllSettingIds(order[..i]) && ParseSettingId(order[i]) == Some(id)
    requires Distinct(SettingIds(order[..i])) && id !in Elements(SettingIds(order[..i]))
    ensures AllSettingIds(order[..i + 1]) && SettingIds(order[..i + 1]) == SettingIds(order[..i]) + [id]
    ensures Distinct(SettingIds(order[..i + 1]))
    ensures Elements(SettingIds(order[..i + 1])) == Elements(SettingIds(order[..i])) + {id}
  {
    var before, after := SettingIds(order[..i]), SettingIds(order[..i + 1]);
    assert after == before + [id];
    assert after[..i] == before && after[..i + 1] == after;
    SeenSnoc(after, i);
  }

  /** As for the pseudo-header order, but here the parsed ids are what must not repeat. */
  method BuildSettingsOrder(order: seq<string>) returns (r: Result<seq<SettingId>, OrderError>)
    ensures r.Ok? <==> AllSettingIds(order) && Distinct(SettingIds(order))
    ensures r.Ok? ==> AllSettingIds(order) && r.value == SettingIds(order) && |r.value| <= 8
    ensures r.Err? ==>
      && r.error.index < |order| && AllSettingIds(order[..r.error.index])
      && Distinct(SettingIds(order[..r.error.index]))
      && (r.error.InvalidEntry? <==> ParseSettingId(order[r.error.index]).None?)
      && (r.error.DuplicateEntry? ==>
            ParseSettingId(order[r.error.index]).value in SettingIds(order[..r.error.index]))
  {
    var ids: seq<SettingId> := [];
    var seen: set<SettingId> := {};
    for i := 0 to |order|
      invariant AllSettingIds(order[..i]) && ids == SettingIds(order[..i]) && Distinct(ids)
      invariant seen == Elements(ids)
    {
      match ParseSettingId(order[i]) {
        case None => return Err(InvalidEntry(i));
        case Some(id) =>
          if id in seen {
            RepeatedSetting(order, i);
            return Err(DuplicateEntry(i));
          }
          NewSetting(order, i, id);
          seen := seen + {id};
          ids := ids + [id];
      }
    }
    assert order[..|order|] == order;
    EightSettings(ids);
    return Ok(ids);
  }

  // ----- HTTP/2 priorities -----

  datatype Priority = Priority(streamId: nat, dependencyId: nat, weight: nat, exclusive: bool)

  function StreamIds(priorities: seq<Priority>): (ids: seq<nat>)
    ensures |ids| == |priorities|
  {
    seq(|priorities|, i requires 0 <= i < |priorities| => priorities[i].streamId)
  }

  /** Accepts exactly the lists whose stream ids are positive and different, and keeps them as they are. */
  method BuildPriorities(priorities: seq<Priority>) returns (r: Result<seq<Priority>, OrderError>)
    ensures r.Ok? <==> 0 !in StreamIds(priorities) && Distinct(StreamIds(priorities))
    ensures r.Ok? ==> r.value == priorities
    ensures r.Err? ==>
      && r.error.index < |priorities|
      && var before := StreamIds(priorities[..r.error.index]); var id := priorities[r.error.index].streamId;
         0 !in before && Distinct(before)
         && (r.error.InvalidEntry? <==> id == 0) && (r.error.DuplicateEntry? ==> id in before)
  {
    var built: seq<Priority> := [];
    var seen: set<nat> := {};
    ghost var ids := StreamIds(priorities);
    for i := 0 to |priorities|
      invariant built == priorities[..i]
      invariant 0 !in ids[..i] && Distinct(ids[..i])
      invariant seen == Elements(ids[..i])
    {
      var priority := priorities[i];
      assert ids[i] == priority.streamId;
      assert ids[..i] == StreamIds(priorities[..i]);
      if priority.streamId == 0 {
        return Err(InvalidEntry(i));
      }
      if priority.streamId in seen {
        RepeatIsNotDistinct(ids, i);
        return Err(DuplicateEntry(i));
      }
      SeenSnoc(ids, i);
      assert ids[..i + 1] == ids[..i] + [ids[i]];
      seen := seen + {priority.streamId};
      built := built + [priority];
    }
    assert ids[..|priorities|] == ids;
    return Ok(built);
  }
}
