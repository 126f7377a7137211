/**
 Header maps of an emulation: overlaying user headers on a preset, and listing a preset's headers in
 its own order. A header map keeps, for each lower-cased name, its values in order; there is no order
 among names.
 */
module EmulationHeaders {
  import opened Sequences
  import opened Wrappers
  import opened Text

  type Entry = (string, string)

  type Entries = map<string, seq<string>>

  /** The HTTP library's parsers for header names and values: None for invalid input. */
  datatype Codec = Codec(name: string -> Option<string>, value: string -> Option<string>)

  datatype HeaderError = InvalidName(name: string) | InvalidValue(name: string)

  function ParseEntry(codec: Codec, entry: Entry): Result<Entry, HeaderError> {
    match codec.name(entry.0)
    case None => Err(InvalidName(entry.0))
    case Some(name) =>
      match codec.value(entry.1)
      case None => Err(InvalidValue(entry.0))
      case Some(value) => Ok((name, value))
  }

  /** The entries before the first invalid one, parsed. */
  function ParsedPrefix(codec: Codec, headers: seq<Entry>): seq<Entry> {
    if headers == [] || ParseEntry(codec, headers[0]).Err? then []
    else [ParseEntry(codec, headers[0]).value] + ParsedPrefix(codec, headers[1..])
  }

  /** The error of the first invalid entry. */
  function FirstError(codec: Codec, headers: seq<Entry>): Option<HeaderError> {
    if headers == [] then None
    else
      match ParseEntry(codec, headers[0])
      case Err(error) => Some(error)
      case Ok(_) => FirstError(codec, headers[1..])
  }

  function NameSet(entries: seq<Entry>): set<string> {
    if entries == [] then {} else {entries[0].0} + NameSet(entries[1..])
  }

  function ValuesOf(entries: seq<Entry>, name: string): seq<string> {
    if entries == [] then []
    else (if entries[0].0 == name then [entries[0].1] else []) + ValuesOf(entries[1..], name)
  }

  /** The simple meaning of a merge: a name that the overlay mentions has the overlay's values. */
  function Overlay(base: Entries, overlay: seq<Entry>): Entries {
    map name | name in base.Keys + NameSet(overlay) ::
      if name in NameSet(overlay) then ValuesOf(overlay, name) else base[name]
  }

  lemma {:induction false} ValuesOfConcat(a: seq<Entry>, b: seq<Entry>, name: string)
    ensures ValuesOf(a + b, name) == ValuesOf(a, name) + ValuesOf(b, name)
  {
    if a == [] {
      assert a + b == b;
    } else {
      assert (a + b)[1..] == a[1..] + b;
      ValuesOfConcat(a[1..], b, name);
      Associate(if a[0].0 == name then [a[0].1] else [], ValuesOf(a[1..], name), ValuesOf(b, name));
    }
  }

  lemma {:induction false} ValuesOfUnnamed(entries: seq<Entry>, name: string)
    requires name !in NameSet(entries)
    ensures ValuesOf(entries, name) == []
  {
    if entries != [] {
      ValuesOfUnnamed(entries[1..], name);
    }
  }

  lemma {:induction false} NameSetConcat(a: seq<Entry>, b: seq<Entry>)
    ensures NameSet(a + b) == NameSet(a) + NameSet(b)
  {
    if a == [] {
      assert a + b == b;
    } else {
      assert (a + b)[1..] == a[1..] + b;
      NameSetConcat(a[1..], b);
    }
  }

  lemma {:induction false} ParsedPrefixSnoc(codec: Codec, headers: seq<Entry>, entry: Entry)
    requires FirstError(codec, headers).None?
    ensures ParsedPrefix(codec, headers + [entry])
         == ParsedPrefix(codec, headers)
          + (if ParseEntry(codec, entry).Ok? then [ParseEntry(codec, entry).value] else [])
    ensures FirstError(codec, headers + [entry])
         == (if ParseEntry(codec, entry).Ok? then None else Some(ParseEntry(codec, entry).error))
  {
    if headers != [] {
      assert (headers + [entry])[1..] == headers[1..] + [entry];
      ParsedPrefixSnoc(codec, headers[1..], entry);
    }
  }

  lemma {:induction false} ErrorIsFinal(codec: Codec, headers: seq<Entry>, n: nat)
    requires n <= |headers| && FirstError(codec, headers[..n]).Some?
    ensures FirstError(codec, headers) == FirstError(codec, headers[..n])
    ensures ParsedPrefix(codec, headers) == ParsedPrefix(codec, headers[..n])
  {
    if ParseEntry(codec, headers[0]).Ok? {
      assert headers[..n][1..] == headers[1..][..n - 1];
      ErrorIsFinal(codec, headers[1..], n - 1);
    }
  }

  class HeaderMap {
    var entries: Entries

    constructor (initial: Entries)
      ensures entries == initial
    {
      entries := initial;
    }

    method Remove(name: string)
      modifies this
      ensures entries == old(entries) - {name}
    {
      entries := entries - {name};
    }

    method Append(name: string, value: string)
      modifies this
      ensures entries == AppendTo(old(entries), name, value)
    {
      entries := entries[name := (if name in entries then entries[name] else []) + [value]];
    }
  }

  function AppendTo(entries: Entries, name: string, value: string): Entries {
    entries[name := (if name in entries then entries[name] else []) + [value]]
  }

  lemma ValuesOfSnoc(entries: seq<Entry>, entry: Entry, name: string)
    ensures ValuesOf(entries + [entry], name)
         == ValuesOf(entries, name) + (if entry.0 == name then [entry.1] else [])
  {
    ValuesOfConcat(entries, [entry], name);
    assert ValuesOf([entry], name) == (if entry.0 == name then [entry.1] else []) + ValuesOf([], name);
  }

  lemma NameSetSnoc(entries: seq<Entry>, entry: Entry)
    ensures NameSet(entries + [entry]) == NameSet(entries) + {entry.0}
  {
    NameSetConcat(entries, [entry]);
    assert NameSet([entry]) == {entry.0} + NameSet([]);
  }

  /** The overlay so far, without the preset's values of a name that has not occurred in it yet. */
  function ReadyFor(base: Entries, overlay: seq<Entry>, name: string): Entries {
    if name in NameSet(overlay) then Overlay(base, overlay) else Overlay(base, overlay) - {name}
  }

  lemma OverlaySnocAt(base: Entries, overlay: seq<Entry>, entry: Entry, name: string)
    requires name in base.Keys + NameSet(overlay) + {entry.0}
    requires NameSet(overlay + [entry]) == NameSet(overlay) + {entry.0}
    ensures Overlay(base, overlay + [entry])[name]
         == AppendTo(ReadyFor(base, overlay, entry.0), entry.0, entry.1)[name]
  {
    ValuesOfSnoc(overlay, entry, name);
    if name !in NameSet(overlay) {
      ValuesOfUnnamed(overlay, name);
    }
  }

  /** One more overlay entry: the first of its name removes the preset's values. */
  lemma OverlaySnoc(base: Entries, overlay: seq<Entry>, entry: Entry)
    ensures Overlay(base, overlay + [entry]) == AppendTo(ReadyFor(base, overlay, entry.0), entry.0, entry.1)
  {
    NameSetSnoc(overlay, entry);
    var left, right := Overlay(base, overlay + [entry]), AppendTo(ReadyFor(base, overlay, entry.0), entry.0, entry.1);
    assert left.Keys == right.Keys;
    forall name | name in left ensures left[name] == right[name] {
      OverlaySnocAt(base, overlay, entry, name);
    }
  }

  lemma BuildSnoc(overlay: seq<Entry>, entry: Entry)
    ensures Overlay(map[], overlay + [entry]) == AppendTo(Overlay(map[], overlay), entry.0, entry.1)
  {
    OverlaySnoc(map[], overlay, entry);
    if entry.0 !in NameSet(overlay) {
      assert Overlay(map[], overlay) - {entry.0} == Overlay(map[], overlay);
    }
  }

  function OutcomeOf<T>(value: T, error: Option<HeaderError>): Result<T, HeaderError> {
    match error case None => Ok(value) case Some(e) => Err(e)
  }

  /** What the next header does to the parsed prefix and to the first error. */
  lemma ParseNext(codec: Codec, headers: seq<Entry>, i: nat)
    requires i < |headers| && FirstError(codec, headers[..i]).None?
    ensures match ParseEntry(codec, headers[i])
      case Ok(entry) =>
        && FirstError(codec, headers[..i + 1]).None?
        && ParsedPrefix(codec, headers[..i + 1]) == ParsedPrefix(codec, headers[..i]) + [entry]
      case Err(error) =>
        && FirstError(codec, headers) == Some(error)
        && ParsedPrefix(codec, headers) == ParsedPrefix(codec, headers[..i])
  {
    assert headers[..i + 1] == headers[..i] + [headers[i]];
    ParsedPrefixSnoc(codec, headers[..i], headers[i]);
    if ParseEntry(codec, headers[i]).Err? {
      ErrorIsFinal(codec, headers, i + 1);
      assert ParsedPrefix(codec, headers) == ParsedPrefix(codec, headers[..i]);
    }
  }

  /** One step of the one-pass merge, for a name seen before or not. */
  method MergeEntry(target: HeaderMap, entry: Entry, removed: set<string>, ghost base: Entries, ghost merged: seq<Entry>)
    returns (removed': set<string>)
    requires removed == NameSet(merged) && target.entries == Overlay(base, merged)
    modifies target
    ensures removed' == NameSet(merged + [entry]) && target.entries == Overlay(base, merged + [entry])
  {
    OverlaySnoc(base, merged, entry);
    NameSetSnoc(merged, entry);
    removed' := removed + {entry.0};
    if entry.0 !in removed {
      target.Remove(entry.0);
    }
    target.Append(entry.0, entry.1);
  }

  /**
   Merges in one pass, in place, removing the old values of a name when it first occurs. On an invalid
   entry the entries before it have already been merged.
   */
  method MergeHeaderMap(target: HeaderMap, headers: seq<Entry>, codec: Codec) returns (r: Result<(), HeaderError>)
    modifies target
    ensures target.entries == Overlay(old(target.entries), ParsedPrefix(codec, headers))
    ensures r == OutcomeOf((), FirstError(codec, headers))
  {
    var removed: set<string> := {};
    ghost var base, merged := target.entries, [];
    assert Overlay(base, []) == base;
    for i := 0 to |headers|
      invariant FirstError(codec, headers[..i]).None? && merged == ParsedPrefix(codec, headers[..i])
      invariant removed == NameSet(merged)
      invariant target.entries == Overlay(base, merged)
    {
      ParseNext(codec, headers, i);
      match ParseEntry(codec, headers[i]) {
        case Err(error) => return Err(error);
        case Ok(entry) =>
          removed := MergeEntry(target, entry, removed, base, merged);
          merged := merged + [entry];
      }
    }
    assert headers[..|headers|] == headers;
    return Ok(());
  }

  /** Building appends to an empty map; that is the same as merging into one. */
  method BuildHeaderMap(headers: seq<Entry>, codec: Codec) returns (r: Result<Entries, HeaderError>)
    ensures r == OutcomeOf(Overlay(map[], ParsedPrefix(codec, headers)), FirstError(codec, headers))
  {
    var headerMap := new HeaderMap(map[]);
    ghost var built: seq<Entry> := [];
    assert Overlay(map[], []) == map[];
    for i := 0 to |headers|
      invariant FirstError(codec, headers[..i]).None? && built == ParsedPrefix(codec, headers[..i])
      invariant headerMap.entries == Overlay(map[], built)
    {
      ParseNext(codec, headers, i);
      match ParseEntry(codec, headers[i]) {
        case Err(error) => return Err(error);
        case Ok(entry) =>
          BuildSnoc(built, entry);
          headerMap.Append(entry.0, entry.1);
          built := built + [entry];
      }
    }
    assert headers[..|headers|] == headers;
    return Ok(headerMap.entries);
  }

  // ----- What a merge computes, entry by entry -----

  predicate IsValidEntry(codec: Codec, entry: Entry) {
    codec.name(entry.0).Some? && codec.value(entry.1).Some?
  }

  /** The first `n` entries are valid, and the next one, if there is one, is not. */
  predicate ValidUpTo(codec: Codec, headers: seq<Entry>, n: nat) {
    && n <= |headers| && (forall i :: 0 <= i < n ==> IsValidEntry(codec, headers[i]))
    && (n < |headers| ==> !IsValidEntry(codec, headers[n]))
  }

  /**
   The valid entries up to the first invalid one are merged as parsed, name and value each in its place.
   The error names the first invalid entry, and is about its name if that is invalid already.
   */
  lemma {:induction false} ParsingMeans(codec: Codec, headers: seq<Entry>) returns (n: nat)
    ensures ValidUpTo(codec, headers, n) && |ParsedPrefix(codec, headers)| == n
    ensures forall i :: 0 <= i < n ==>
      && codec.name(headers[i].0) == Some(ParsedPrefix(codec, headers)[i].0)
      && codec.value(headers[i].1) == Some(ParsedPrefix(codec, headers)[i].1)
    ensures FirstError(codec, headers) ==
      if n == |headers| then None
      else if codec.name(headers[n].0).None? then Some(InvalidName(headers[n].0))
      else Some(InvalidValue(headers[n].0))
  {
    if headers == [] || !IsValidEntry(codec, headers[0]) {
      n := 0;
    } else {
      var m := ParsingMeans(codec, headers[1..]);
      n := m + 1;
      forall i | 0 <= i < n ensures IsValidEntry(codec, headers[i])
        && codec.name(headers[i].0) == Some(ParsedPrefix(codec, headers)[i].0)
        && codec.value(headers[i].1) == Some(ParsedPrefix(codec, headers)[i].1)
      {
        if i > 0 {
          assert headers[i] == headers[1..][i - 1] && IsValidEntry(codec, headers[1..][i - 1]);
        }
      }
    }
  }

  /** Positions in strictly rising order. */
  predicate Rising(at: seq<nat>) {
    forall k, l :: 0 <= k < l < |at| ==> at[k] < at[l]
  }

  lemma {:induction false} NameSetMeans(entries: seq<Entry>, name: string)
    ensures name in NameSet(entries) <==> exists i :: 0 <= i < |entries| && entries[i].0 == name
  {
    if entries != [] {
      NameSetMeans(entries[1..], name);
      assert forall i :: 0 <= i < |entries| - 1 ==> entries[1..][i] == entries[i + 1];
    }
  }

  /** A name's values are those of exactly the entries with that name, in their order. */
  lemma {:induction false} ValuesAreThoseNamed(entries: seq<Entry>, name: string) returns (at: seq<nat>)
    ensures Rising(at) && |at| == |ValuesOf(entries, name)|
    ensures forall k :: 0 <= k < |at| ==>
      at[k] < |entries| && entries[at[k]].0 == name && entries[at[k]].1 == ValuesOf(entries, name)[k]
    ensures forall i :: 0 <= i < |entries| && entries[i].0 == name ==> i in at
    decreases |entries|
  {
    if entries == [] {
      at := [];
    } else {
      var n := |entries| - 1;
      at := ValuesAreThoseNamed(entries[..n], name);
      assert entries == entries[..n] + [entries[n]];
      ValuesOfSnoc(entries[..n], entries[n], name);
      if entries[n].0 == name {
        at := at + [n];
      }
    }
  }

  // ----- Laws of overlaying -----

  /** The overlay without the entries that a later overlay replaces. */
  function Without(overlay: seq<Entry>, names: set<string>): seq<Entry> {
    if overlay == [] then []
    else (if overlay[0].0 in names then [] else [overlay[0]]) + Without(overlay[1..], names)
  }

  lemma {:induction false} WithoutValues(overlay: seq<Entry>, names: set<string>, name: string)
    ensures ValuesOf(Without(overlay, names), name) == if name in names then [] else ValuesOf(overlay, name)
    ensures name in NameSet(Without(overlay, names)) <==> name in NameSet(overlay) && name !in names
  {
    if overlay != [] {
      WithoutValues(overlay[1..], names, name);
      var head := if overlay[0].0 in names then [] else [overlay[0]];
      ValuesOfConcat(head, Without(overlay[1..], names), name);
      NameSetConcat(head, Without(overlay[1..], names));
    }
  }

  /** Merging two overlays one after the other is merging one list, in which the second wins name by name. */
  lemma SecondOverlayWins(base: Entries, first: seq<Entry>, second: seq<Entry>)
    ensures Overlay(Overlay(base, first), second) == Overlay(base, Without(first, NameSet(second)) + second)
  {
    var left := Overlay(Overlay(base, first), second);
    var right := Overlay(base, Without(first, NameSet(second)) + second);
    forall name ensures name in NameSet(Without(first, NameSet(second)) + second)
                   <==> name in NameSet(first) + NameSet(second)
    {
      WithoutValues(first, NameSet(second), name);
      NameSetConcat(Without(first, NameSet(second)), second);
    }
    assert left.Keys == right.Keys;
    forall name | name in left ensures left[name] == right[name] {
      ValuesAfterWithout(first, second, name);
    }
  }

  lemma ValuesAfterWithout(first: seq<Entry>, second: seq<Entry>, name: string)
    ensures ValuesOf(Without(first, NameSet(second)) + second, name)
         == if name in NameSet(second) then ValuesOf(second, name) else ValuesOf(first, name)
  {
    WithoutValues(first, NameSet(second), name);
    ValuesOfConcat(Without(first, NameSet(second)), second, name);
    if name !in NameSet(second) {
      ValuesOfUnnamed(second, name);
    }
  }

  lemma MergingTwiceIsOnce(base: Entries, overlay: seq<Entry>)
    ensures Overlay(Overlay(base, overlay), overlay) == Overlay(base, overlay)
  {
  }

  // ----- Listing a preset's headers -----

  predicate LowerCased(entries: Entries) {
    forall name :: name in entries ==> Lower(name) == name
  }

  function Tag(name: string, values: seq<string>): seq<Entry> {
    seq(|values|, i requires 0 <= i < |values| => (name, values[i]))
  }

  /** The values listed under any spelling of a name. */
  function ListedValues(list: seq<Entry>, key: string): seq<string> {
    if list == [] then []
    else (if Lower(list[0].0) == key then [list[0].1] else []) + ListedValues(list[1..], key)
  }

  lemma {:induction false} ListedValuesConcat(a: seq<Entry>, b: seq<Entry>, key: string)
    ensures ListedValues(a + b, key) == ListedValues(a, key) + ListedValues(b, key)
  {
    if a == [] {
      assert a + b == b;
    } else {
      assert (a + b)[1..] == a[1..] + b;
      ListedValuesConcat(a[1..], b, key);
      Associate(if Lower(a[0].0) == key then [a[0].1] else [], ListedValues(a[1..], key), ListedValues(b, key));
    }
  }

  lemma {:induction false} ListedValuesTag(name: string, values: seq<string>, key: string)
    ensures ListedValues(Tag(name, values), key) == if Lower(name) == key then values else []
  {
    if values == [] {
    } else {
      assert Tag(name, values)[1..] == Tag(name, values[1..]);
      ListedValuesTag(name, values[1..], key);
      assert values == [values[0]] + values[1..];
    }
  }

  function LoweredNames(orig: seq<string>): set<string>
    decreases |orig|
  {
    if orig == [] then {} else LoweredNames(orig[..|orig| - 1]) + {Lower(orig[|orig| - 1])}
  }

  /** The headers that the original order lists, in that order and spelling; a repeat adds nothing. */
  function OrderedPart(orig: seq<string>, headers: Entries): seq<Entry>
    decreases |orig|
  {
    if orig == [] then []
    else
      var n := |orig| - 1;
      OrderedPart(orig[..n], headers)
      + if Lower(orig[n]) in headers.Keys - LoweredNames(orig[..n]) then
          Tag(orig[n], headers[Lower(orig[n])])
        else []
  }

  /** No earlier name is the same in any case of its letters. */
  predicate FirstMention(orig: seq<string>, i: nat)
    requires i < |orig|
  {
    forall j :: 0 <= j < i ==> !SameIgnoringCase(orig[j], orig[i])
  }

  lemma {:induction false} LoweredNamesMeans(orig: seq<string>, name: string)
    ensures Lower(name) in LoweredNames(orig) <==> exists j :: 0 <= j < |orig| && SameIgnoringCase(orig[j], name)
    decreases |orig|
  {
    if orig != [] {
      var n := |orig| - 1;
      LoweredNamesMeans(orig[..n], name);
      LowerEqualMeans(orig[n], name);
      assert forall j :: 0 <= j < n ==> orig[..n][j] == orig[j];
    }
  }

  /** The ordered part has the names as spelled where each is mentioned first, in the order of those places. */
  lemma {:induction false} OrderedPartSpelling(orig: seq<string>, headers: Entries) returns (at: seq<nat>)
    ensures |at| == |OrderedPart(orig, headers)|
    ensures forall k :: 0 <= k < |at| ==>
      at[k] < |orig| && FirstMention(orig, at[k]) && OrderedPart(orig, headers)[k].0 == orig[at[k]]
    ensures forall k, l :: 0 <= k < l < |at| ==> at[k] <= at[l]
    decreases |orig|
  {
    if orig == [] {
      at := [];
    } else {
      var n := |orig| - 1;
      at := OrderedPartSpelling(orig[..n], headers);
      forall k | 0 <= k < |at| ensures FirstMention(orig, at[k]) && orig[at[k]] == orig[..n][at[k]] {
        assert FirstMention(orig[..n], at[k]);
      }
      if Lower(orig[n]) in headers.Keys - LoweredNames(orig[..n]) {
        LoweredNamesMeans(orig[..n], orig[n]);
        assert FirstMention(orig, n) by {
          assert forall j :: 0 <= j < n ==> orig[..n][j] == orig[j];
        }
        at := at + seq(|headers[Lower(orig[n])]|, i => n);
      }
    }
  }

  lemma ListedSnoc(list: seq<Entry>, entry: Entry, key: string)
    ensures ListedValues(list + [entry], key)
         == ListedValues(list, key) + (if Lower(entry.0) == key then [entry.1] else [])
  {
    ListedValuesConcat(list, [entry], key);
    assert ListedValues([entry], key) == (if Lower(entry.0) == key then [entry.1] else []) + ListedValues([], key);
  }

  /** The values listed under a name are those of exactly the entries with that name in any case, in order. */
  lemma {:induction false} ListedAreThoseNamed(list: seq<Entry>, name: string) returns (at: seq<nat>)
    ensures Rising(at) && |at| == |ListedValues(list, Lower(name))|
    ensures forall k :: 0 <= k < |at| ==>
      && at[k] < |list| && SameIgnoringCase(list[at[k]].0, name)
      && list[at[k]].1 == ListedValues(list, Lower(name))[k]
    ensures forall i :: 0 <= i < |list| && SameIgnoringCase(list[i].0, name) ==> i in at
    decreases |list|
  {
    if list == [] {
      at := [];
    } else {
      var n := |list| - 1;
      at := ListedAreThoseNamed(list[..n], name);
      assert list == list[..n] + [list[n]];
      ListedSnoc(list[..n], list[n], Lower(name));
      LowerEqualMeans(list[n].0, name);
      if SameIgnoringCase(list[n].0, name) {
        at := at + [n];
      }
    }
  }

  /** Every listed name, lower-cased, is among `keys`. */
  predicate KeysWithin(list: seq<Entry>, keys: set<string>) {
    forall i :: 0 <= i < |list| ==> Lower(list[i].0) in keys
  }

  /** The values of one name are listed, all of them in order, or not drained yet. */
  predicate DrainedAt(list: seq<Entry>, rest: Entries, headers: Entries, key: string)
    requires key in headers
  {
    ListedValues(list, key) == if key in rest then [] else headers[key]
  }

  /** The headers not drained yet; those drained are in the list with all their values, in order. */
  predicate Drained(list: seq<Entry>, rest: Entries, headers: Entries) {
    && rest.Keys <= headers.Keys
    && (forall key :: key in rest ==> rest[key] == headers[key])
    && (forall key :: key in headers ==> DrainedAt(list, rest, headers, key))
  }

  lemma DrainOneAt(list: seq<Entry>, rest: Entries, headers: Entries, name: string, key: string)
    requires key in headers && DrainedAt(list, rest, headers, key)
    requires Lower(name) in headers && Lower(name) in rest
    ensures DrainedAt(list + Tag(name, headers[Lower(name)]), rest - {Lower(name)}, headers, key)
  {
    ListedWithTag(list, name, headers[Lower(name)], key);
  }

  lemma DrainOne(list: seq<Entry>, rest: Entries, headers: Entries, name: string)
    requires Drained(list, rest, headers) && Lower(name) in rest
    ensures Drained(list + Tag(name, rest[Lower(name)]), rest - {Lower(name)}, headers)
  {
    forall key | key in headers
      ensures DrainedAt(list + Tag(name, rest[Lower(name)]), rest - {Lower(name)}, headers, key)
    {
      DrainOneAt(list, rest, headers, name, key);
    }
  }

  lemma ListedWithTag(list: seq<Entry>, name: string, values: seq<string>, key: string)
    ensures ListedValues(list + Tag(name, values), key)
         == if key == Lower(name) then ListedValues(list, key) + values else ListedValues(list, key)
  {
    ListedValuesConcat(list, Tag(name, values), key);
    ListedValuesTag(name, values, key);
  }

  lemma KeysWithinConcat(list: seq<Entry>, name: string, values: seq<string>, keys: set<string>)
    requires KeysWithin(list, keys) && Lower(name) in keys
    ensures KeysWithin(list + Tag(name, values), keys)
  {
  }

  lemma OrderedPartSnoc(orig: seq<string>, headers: Entries, i: nat)
    requires i < |orig|
    ensures OrderedPart(orig[..i + 1], headers)
         == OrderedPart(orig[..i], headers)
          + if Lower(orig[i]) in headers.Keys - LoweredNames(orig[..i]) then
              Tag(orig[i], headers[Lower(orig[i])])
            else []
    ensures LoweredNames(orig[..i + 1]) == LoweredNames(orig[..i]) + {Lower(orig[i])}
  {
    assert orig[..i + 1][..i] == orig[..i];
  }

  lemma {:induction false} OrderedPartKeys(orig: seq<string>, headers: Entries)
    ensures KeysWithin(OrderedPart(orig, headers), headers.Keys)
    decreases |orig|
  {
    if orig != [] {
      var n := |orig| - 1;
      OrderedPartKeys(orig[..n], headers);
      if Lower(orig[n]) in headers {
        KeysWithinConcat(OrderedPart(orig[..n], headers), orig[n], headers[Lower(orig[n])], headers.Keys);
      }
    }
  }

  /** Every name is listed as it stands in `keys`. */
  predicate NamesWithin(list: seq<Entry>, keys: set<string>) {
    forall i :: 0 <= i < |list| ==> list[i].0 in keys
  }

  lemma DrainOther(ordered: seq<Entry>, others: seq<Entry>, rest: Entries, headers: Entries, name: string,
                   keys: set<string>)
    requires name in rest && Lower(name) == name && name in keys
    requires Drained(ordered + others, rest, headers) && NamesWithin(others, keys)
    ensures Drained(ordered + others + Tag(name, rest[name]), rest - {name}, headers)
    ensures NamesWithin(others + Tag(name, rest[name]), keys)
    ensures ordered + others + Tag(name, rest[name]) == ordered + (others + Tag(name, rest[name]))
  {
    Associate(ordered, others, Tag(name, rest[name]));
    DrainOne(ordered + others, rest, headers, name);
  }

  /** Lists the headers that the original order does not mention, in whatever order the map yields them. */
  method DrainRest(ordered: seq<Entry>, remaining: Entries, ghost preset: Entries)
    returns (resolved: seq<Entry>, ghost others: seq<Entry>)
    requires LowerCased(remaining) && Drained(ordered, remaining, preset)
    ensures resolved == ordered + others
    ensures Drained(resolved, map[], preset) && NamesWithin(others, remaining.Keys)
  {
    var headers := remaining;
    resolved, others := ordered, [];
    while headers.Keys != {}
      invariant headers.Keys <= remaining.Keys && LowerCased(headers)
      invariant resolved == ordered + others
      invariant Drained(resolved, headers, preset)
      invariant NamesWithin(others, remaining.Keys)
      decreases |headers.Keys|
    {
      var name :| name in headers.Keys;
      ghost var tagged := Tag(name, headers[name]);
      DrainOther(ordered, others, headers, preset, name, remaining.Keys);
      resolved := resolved + Tag(name, headers[name]);
      others := others + tagged;
      headers := headers - {name};
    }
    assert headers == map[];
  }

  lemma DrainAbsent(list: seq<Entry>, rest: Entries, headers: Entries, key: string)
    requires Drained(list, rest, headers) && key !in rest
    ensures list + [] == list && rest - {key} == rest
  {
  }

  lemma KeysAfter(orig: seq<string>, i: nat, rest: Entries, preset: Entries)
    requires i < |orig| && rest.Keys == preset.Keys - LoweredNames(orig[..i])
    requires LoweredNames(orig[..i + 1]) == LoweredNames(orig[..i]) + {Lower(orig[i])}
    ensures (rest - {Lower(orig[i])}).Keys == preset.Keys - LoweredNames(orig[..i + 1])
  {
  }

  /** Draining one name, whether its headers are still there or not. */
  lemma DrainName(list: seq<Entry>, rest: Entries, headers: Entries, name: string)
    requires Drained(list, rest, headers)
    ensures Drained(list + (if Lower(name) in rest then Tag(name, rest[Lower(name)]) else []),
                    rest - {Lower(name)}, headers)
  {
    if Lower(name) in rest {
      DrainOne(list, rest, headers, name);
    } else {
      DrainAbsent(list, rest, headers, Lower(name));
    }
  }

  /** Lists the headers that the original order mentions and returns the others. */
  method DrainOrdered(orig: seq<string>, preset: Entries) returns (resolved: seq<Entry>, headers: Entries)
    ensures resolved == OrderedPart(orig, preset)
    ensures Drained(resolved, headers, preset)
    ensures headers.Keys == preset.Keys - LoweredNames(orig)
  {
    headers := preset;
    resolved := [];
    for i := 0 to |orig|
      invariant resolved == OrderedPart(orig[..i], preset)
      invariant Drained(resolved, headers, preset)
      invariant headers.Keys == preset.Keys - LoweredNames(orig[..i])
    {
      OrderedPartSnoc(orig, preset, i);
      DrainName(resolved, headers, preset, orig[i]);
      KeysAfter(orig, i, headers, preset);
      var key := Lower(orig[i]);
      if key in headers {
        resolved := resolved + Tag(orig[i], headers[key]);
      }
      headers := headers - {key};
    }
    assert orig[..|orig|] == orig;
  }

  function Keyed(list: seq<Entry>): seq<Entry> {
    seq(|list|, i requires 0 <= i < |list| => (Lower(list[i].0), list[i].1))
  }

  lemma {:induction false} KeyedCount(list: seq<Entry>, key: string, value: string)
    ensures multiset(Keyed(list))[(key, value)] == multiset(ListedValues(list, key))[value]
  {
    if list != [] {
      var head: seq<string> := if Lower(list[0].0) == key then [list[0].1] else [];
      assert Keyed(list) == [(Lower(list[0].0), list[0].1)] + Keyed(list[1..]);
      assert ListedValues(list, key) == head + ListedValues(list[1..], key);
      KeyedCount(list[1..], key, value);
    }
  }

  lemma {:induction false} NothingListed(list: seq<Entry>, keys: set<string>, key: string)
    requires KeysWithin(list, keys) && key !in keys
    ensures ListedValues(list, key) == []
  {
    if list != [] {
      assert Lower(list[0].0) in keys;
      assert forall i :: 0 <= i < |list[1..]| ==> list[1..][i] == list[i + 1];
      NothingListed(list[1..], keys, key);
    }
  }

  /** How often the header map has the value under the name. */
  function Multiplicity(headers: Entries, key: string, value: string): nat {
    if key in headers then multiset(headers[key])[value] else 0
  }

  /** The list, names lower-cased, has exactly the entries of the header map, each as often as the map. */
  ghost predicate Permutes(list: seq<Entry>, headers: Entries) {
    forall key, value :: multiset(Keyed(list))[(key, value)] == Multiplicity(headers, key, value)
  }

  /** A list of the map's names that has all values of each is a permutation of the map's entries. */
  lemma ListingIsPermutation(list: seq<Entry>, headers: Entries)
    requires KeysWithin(list, headers.Keys)
    requires forall key :: key in headers ==> ListedValues(list, key) == headers[key]
    ensures Permutes(list, headers)
  {
    forall key, value ensures multiset(Keyed(list))[(key, value)] == Multiplicity(headers, key, value) {
      KeyedCount(list, key, value);
      if key !in headers {
        NothingListed(list, headers.Keys, key);
      }
    }
  }

  /**
   Lists every header of the preset exactly as often as it occurs there, and nothing else: first those in
   the original order, in that spelling, then the others, in lower case. Per name, the values keep their order.
   */
  method PresetHeaders(orig: seq<string>, preset: Entries) returns (resolved: seq<Entry>)
    requires LowerCased(preset)
    ensures forall key :: key in preset ==> ListedValues(resolved, key) == preset[key]
    ensures Permutes(resolved, preset)
    ensures OrderedPart(orig, preset) <= resolved
    ensures NamesWithin(resolved[|OrderedPart(orig, preset)|..], preset.Keys - LoweredNames(orig))
  {
    var ordered, headers := DrainOrdered(orig, preset);
    ghost var others;
    resolved, others := DrainRest(ordered, headers, preset);
    assert resolved[|ordered|..] == others;
    OrderedPartKeys(orig, preset);
    assert KeysWithin(resolved, preset.Keys);
    ListingIsPermutation(resolved, preset);
  }
}
