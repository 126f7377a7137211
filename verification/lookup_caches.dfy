/**
 The get-then-insert caches of the native layer, `jar_for` of the session manager and `client_for` of
 the ephemeral client manager. A lookup that misses makes a new object and inserts it in a later step,
 so lookups can overlap; entries can be evicted or replaced at any time.
 */
module LookupCaches {
  import opened Wrappers

  /** A call under way or done, or a private object made past the cache; objects are numbered in the order they were made. */
  datatype Lookup<K> =
    | Missed(key: K, item: nat)
    | Returned(key: K, item: nat)
    | BuildFailed(key: K)
    | Private(key: K, item: nat)

  /** `madeFor` records for which key each object was made. */
  datatype State<K> = State(cache: map<K, nat>, lookups: seq<Lookup<K>>, madeFor: seq<K>)

  datatype Action<K> =
    | Begin(key: K)
    | Insert(lookup: nat)
    | Fail(lookup: nat)
    | MakePrivate(key: K)
    | Evict(key: K)
    | Replace(key: K)

  function Init<K>(): State<K> {
    State(map[], [], [])
  }

  function Step<K(==)>(s: State<K>, a: Action<K>): Option<State<K>> {
    match a
    case Begin(key) =>
      if key in s.cache then Some(s.(lookups := s.lookups + [Returned(key, s.cache[key])]))
      else Some(s.(lookups := s.lookups + [Missed(key, |s.madeFor|)], madeFor := s.madeFor + [key]))
    case Insert(i) =>
      if i < |s.lookups| && s.lookups[i].Missed? then
        var Missed(key, item) := s.lookups[i];
        Some(s.(cache := s.cache[key := item], lookups := s.lookups[i := Returned(key, item)]))
      else None
    case Fail(i) =>
      if i < |s.lookups| && s.lookups[i].Missed? then
        Some(s.(lookups := s.lookups[i := BuildFailed(s.lookups[i].key)]))
      else None
    case MakePrivate(key) =>
      Some(s.(lookups := s.lookups + [Private(key, |s.madeFor|)], madeFor := s.madeFor + [key]))
    case Evict(key) => Some(s.(cache := s.cache - {key}))
    case Replace(key) =>
      Some(s.(cache := s.cache[key := |s.madeFor|], madeFor := s.madeFor + [key]))
  }

  function Exec<K(==)>(s: State<K>, schedule: seq<Action<K>>): Option<State<K>>
    decreases |schedule|
  {
    if schedule == [] then Some(s)
    else
      match Step(s, schedule[0])
      case Some(next) => Exec(next, schedule[1..])
      case None => None
  }

  predicate MadeFor<K(==)>(s: State<K>, item: nat, key: K) {
    item < |s.madeFor| && s.madeFor[item] == key
  }

  /** Only one call knows the object: one that has not inserted it yet, or a private one. */
  predicate Exclusive<K>(lookup: Lookup<K>) {
    lookup.Missed? || lookup.Private?
  }

  /** Every object in sight was made for the key it is found under. */
  predicate AllMadeFor<K(==)>(s: State<K>) {
    && (forall key :: key in s.cache ==> MadeFor(s, s.cache[key], key))
    && (forall i :: 0 <= i < |s.lookups| && !s.lookups[i].BuildFailed? ==>
          MadeFor(s, s.lookups[i].item, s.lookups[i].key))
  }

  /** An exclusive object is neither in the cache nor known to another call. */
  predicate ExclusiveOnes<K(==)>(s: State<K>) {
    forall i :: 0 <= i < |s.lookups| && Exclusive(s.lookups[i]) ==> NowhereElse(s, i)
  }

  predicate NowhereElse<K(==)>(s: State<K>, i: nat)
    requires i < |s.lookups| && Exclusive(s.lookups[i])
  {
    && (forall j :: 0 <= j < |s.lookups| && j != i && !s.lookups[j].BuildFailed? ==>
          s.lookups[j].item != s.lookups[i].item)
    && (forall key :: key in s.cache ==> s.cache[key] != s.lookups[i].item)
  }

  predicate Inv<K(==)>(s: State<K>) {
    AllMadeFor(s) && ExclusiveOnes(s)
  }

  lemma StepKeepsMadeFor<K>(s: State<K>, a: Action<K>)
    requires AllMadeFor(s) && Step(s, a).Some?
    ensures AllMadeFor(Step(s, a).value)
  {
  }

  lemma StepKeepsExclusive<K>(s: State<K>, a: Action<K>, i: nat)
    requires Inv(s) && Step(s, a).Some?
    requires i < |Step(s, a).value.lookups| && Exclusive(Step(s, a).value.lookups[i])
    ensures NowhereElse(Step(s, a).value, i)
  {
    if i < |s.lookups| {
      assert Exclusive(s.lookups[i]) && NowhereElse(s, i) && MadeFor(s, s.lookups[i].item, s.lookups[i].key);
    } else {
      assert Step(s, a).value.lookups[i].item == |s.madeFor|;
    }
  }

  lemma StepKeepsInv<K>(s: State<K>, a: Action<K>)
    requires Inv(s) && Step(s, a).Some?
    ensures Inv(Step(s, a).value)
  {
    StepKeepsMadeFor(s, a);
    forall i: nat | i < |Step(s, a).value.lookups| && Exclusive(Step(s, a).value.lookups[i])
      ensures NowhereElse(Step(s, a).value, i)
    {
      StepKeepsExclusive(s, a, i);
    }
  }

  lemma {:induction false} ExecKeepsInv<K>(s: State<K>, schedule: seq<Action<K>>)
    requires Inv(s) && Exec(s, schedule).Some?
    ensures Inv(Exec(s, schedule).value)
    decreases |schedule|
  {
    if schedule != [] {
      StepKeepsInv(s, schedule[0]);
      ExecKeepsInv(Step(s, schedule[0]).value, schedule[1..]);
    }
  }

  /**
   What the next call for a key gets: a new object after an eviction, the replacement after a replacement,
   what was inserted after an insertion, and otherwise what it would have got before.
   */
  lemma NextCall<K>(s: State<K>, a: Action<K>, key: K)
    requires Step(s, a).Some?
    ensures var next := Step(s, a).value;
      Step(next, Begin(key)).value.lookups[|next.lookups|] ==
        if a == Evict(key) then Missed(key, |next.madeFor|)
        else if a == Replace(key) then Returned(key, |s.madeFor|)
        else if a.Insert? && s.lookups[a.lookup].key == key then Returned(key, s.lookups[a.lookup].item)
        else if key in s.cache then Returned(key, s.cache[key])
        else Missed(key, |next.madeFor|)
  {
  }

  /**
   Over every interleaving of lookups, insertions, evictions and replacements, a call returns an object
   made for its own key, and calls for different keys never share one.
   */
  lemma ResultsBelongToTheirKey<K>(schedule: seq<Action<K>>, i: nat, j: nat)
    requires Exec(Init(), schedule).Some?
    requires var s := Exec(Init(), schedule).value;
      i < |s.lookups| && s.lookups[i].Returned? && j < |s.lookups| && s.lookups[j].Returned?
    ensures var s := Exec(Init(), schedule).value;
      && MadeFor(s, s.lookups[i].item, s.lookups[i].key)
      && (s.lookups[i].key != s.lookups[j].key ==> s.lookups[i].item != s.lookups[j].item)
  {
    ExecKeepsInv<K>(Init(), schedule);
    var s := Exec(Init(), schedule).value;
    assert MadeFor(s, s.lookups[j].item, s.lookups[j].key);
  }

  /**
   Over every interleaving, a private object, such as the jar of an ephemeral request, is never found
   in the cache and no other call ever gets it.
   */
  lemma PrivateStaysPrivate<K>(schedule: seq<Action<K>>, i: nat)
    requires Exec(Init(), schedule).Some?
    requires var s := Exec(Init(), schedule).value; i < |s.lookups| && s.lookups[i].Private?
    ensures var s := Exec(Init(), schedule).value;
      && s.lookups[i].item !in s.cache.Values
      && (forall j :: 0 <= j < |s.lookups| && j != i && !s.lookups[j].BuildFailed? ==>
            s.lookups[j].item != s.lookups[i].item)
  {
    ExecKeepsInv<K>(Init(), schedule);
  }

  // ----- When calls for one key agree -----

  predicate ReturnedFor<K(==)>(s: State<K>, i: int, key: K) {
    0 <= i < |s.lookups| && s.lookups[i].Returned? && s.lookups[i].key == key
  }

  /** All calls for the key that have returned got the same object. */
  ghost predicate Agree<K>(s: State<K>, key: K) {
    forall i, j :: ReturnedFor(s, i, key) && ReturnedFor(s, j, key) ==> s.lookups[i].item == s.lookups[j].item
  }

  predicate Inserts<K(==)>(s: State<K>, a: Action<K>, key: K) {
    a.Insert? && a.lookup < |s.lookups| && s.lookups[a.lookup].key == key
  }

  /** The number of insertions for the key in a schedule. */
  function InsertsFor<K(==)>(s: State<K>, schedule: seq<Action<K>>, key: K): nat
    requires Exec(s, schedule).Some?
    decreases |schedule|
  {
    if schedule == [] then 0
    else
      (if Inserts(s, schedule[0], key) then 1 else 0)
      + InsertsFor(Step(s, schedule[0]).value, schedule[1..], key)
  }

  /** The object that all calls for the key have got, and that the cache has if it has one for the key. */
  ghost predicate OnlyItem<K>(s: State<K>, key: K, item: nat) {
    && (forall i :: ReturnedFor(s, i, key) ==> s.lookups[i].item == item)
    && (key in s.cache ==> s.cache[key] == item)
  }

  /** What `n` insertions for the key have led to. */
  ghost predicate Counted<K>(s: State<K>, key: K, n: nat) {
    && (n == 0 ==> key !in s.cache && forall i :: !ReturnedFor(s, i, key))
    && (n == 1 ==> exists i :: ReturnedFor(s, i, key) && OnlyItem(s, key, s.lookups[i].item))
    && (n >= 2 ==> !Agree(s, key))
  }

  /** Returned calls stay returned with what they got. */
  lemma ReturnedStays<K>(s: State<K>, a: Action<K>, key: K, i: int)
    requires Step(s, a).Some? && ReturnedFor(s, i, key)
    ensures ReturnedFor(Step(s, a).value, i, key)
    ensures Step(s, a).value.lookups[i].item == s.lookups[i].item
  {
  }

  lemma DisagreementStays<K>(s: State<K>, a: Action<K>, key: K)
    requires Step(s, a).Some? && !Agree(s, key)
    ensures !Agree(Step(s, a).value, key)
  {
    var i, j :| ReturnedFor(s, i, key) && ReturnedFor(s, j, key) && s.lookups[i].item != s.lookups[j].item;
    ReturnedStays(s, a, key, i);
    ReturnedStays(s, a, key, j);
  }

  lemma InsertCounts<K>(s: State<K>, i: nat, key: K, n: nat)
    requires Inv(s) && Counted(s, key, n)
    requires i < |s.lookups| && s.lookups[i].Missed? && s.lookups[i].key == key
    ensures Counted(Step(s, Insert(i)).value, key, n + 1)
  {
    var next := Step(s, Insert(i)).value;
    assert forall j :: ReturnedFor(next, j, key) ==> j == i || ReturnedFor(s, j, key);
    assert ReturnedFor(next, i, key) && next.cache[key] == s.lookups[i].item;
    if n == 0 {
      assert OnlyItem(next, key, next.lookups[i].item);
    } else if n == 1 {
      var j :| ReturnedFor(s, j, key) && OnlyItem(s, key, s.lookups[j].item);
      ReturnedStays(s, Insert(i), key, j);
    } else {
      DisagreementStays(s, Insert(i), key);
    }
  }

  lemma OtherStepCounts<K>(s: State<K>, a: Action<K>, key: K, n: nat)
    requires Inv(s) && Counted(s, key, n) && Step(s, a).Some?
    requires a != Replace(key) && !Inserts(s, a, key)
    ensures Counted(Step(s, a).value, key, n)
  {
    var next := Step(s, a).value;
    NothingNew(s, a, key);
    if n == 1 {
      var j :| ReturnedFor(s, j, key) && OnlyItem(s, key, s.lookups[j].item);
      ReturnedStays(s, a, key, j);
      assert OnlyItem(next, key, next.lookups[j].item);
    } else if n >= 2 {
      DisagreementStays(s, a, key);
    }
  }

  /** Other steps neither put an object into the key's entry nor return one that was not there. */
  lemma NothingNew<K>(s: State<K>, a: Action<K>, key: K)
    requires Step(s, a).Some? && a != Replace(key) && !Inserts(s, a, key)
    ensures var next := Step(s, a).value;
      && (key in next.cache ==> key in s.cache && next.cache[key] == s.cache[key])
      && (forall i :: ReturnedFor(next, i, key) ==>
            if ReturnedFor(s, i, key) then next.lookups[i].item == s.lookups[i].item
            else key in s.cache && next.lookups[i].item == s.cache[key])
  {
  }

  lemma {:induction false} ExecCounts<K>(s: State<K>, schedule: seq<Action<K>>, key: K, n: nat)
    requires Inv(s) && Counted(s, key, n) && Exec(s, schedule).Some? && Replace(key) !in schedule
    ensures Counted(Exec(s, schedule).value, key, n + InsertsFor(s, schedule, key))
    decreases |schedule|
  {
    if schedule != [] {
      var a, next := schedule[0], Step(s, schedule[0]).value;
      StepKeepsInv(s, a);
      if Inserts(s, a, key) {
        InsertCounts(s, a.lookup, key, n);
        ExecCounts(next, schedule[1..], key, n + 1);
      } else {
        OtherStepCounts(s, a, key, n);
        ExecCounts(next, schedule[1..], key, n);
      }
    }
  }

  /**
   Unless the key's entry is replaced from outside, and however often it is evicted, all its calls that
   have returned got the same object if and only if at most one insertion for the key has taken place.
   */
  lemma CallsAgreeIfInsertedOnce<K>(schedule: seq<Action<K>>, key: K)
    requires Exec(Init(), schedule).Some? && Replace(key) !in schedule
    ensures Agree(Exec(Init(), schedule).value, key) <==> InsertsFor(Init(), schedule, key) <= 1
  {
    ExecCounts<K>(Init(), schedule, key, 0);
  }

  predicate Pending<K(==)>(s: State<K>, i: int, key: K) {
    0 <= i < |s.lookups| && s.lookups[i].Missed? && s.lookups[i].key == key
  }

  /** No call for the key begins between the miss and the insertion of another one, and its entry stays. */
  ghost predicate Calm<K>(s: State<K>, schedule: seq<Action<K>>, key: K)
    requires Exec(s, schedule).Some?
    decreases |schedule|
  {
    schedule == [] ||
    (&& schedule[0] != Evict(key) && schedule[0] != Replace(key)
     && (schedule[0] == Begin(key) ==> forall i :: !Pending(s, i, key))
     && Calm(Step(s, schedule[0]).value, schedule[1..], key))
  }

  /** At most one call is pending, and none once the key has an entry. */
  ghost predicate OnePending<K>(s: State<K>, key: K) {
    && (key in s.cache ==> forall i :: !Pending(s, i, key))
    && (forall i, j :: Pending(s, i, key) && Pending(s, j, key) ==> i == j)
  }

  lemma CalmStep<K>(s: State<K>, a: Action<K>, key: K)
    requires OnePending(s, key) && Step(s, a).Some? && a != Evict(key) && a != Replace(key)
    requires a == Begin(key) ==> forall i :: !Pending(s, i, key)
    ensures OnePending(Step(s, a).value, key)
    ensures key in Step(s, a).value.cache <==> key in s.cache || Inserts(s, a, key)
    ensures Inserts(s, a, key) ==> key !in s.cache
  {
    var next := Step(s, a).value;
    assert forall i :: Pending(next, i, key) ==> Pending(s, i, key) || (a == Begin(key) && i == |s.lookups|);
    if Inserts(s, a, key) {
      assert Pending(s, a.lookup, key);
    }
  }

  lemma {:induction false} CalmInsertsOnce<K>(s: State<K>, schedule: seq<Action<K>>, key: K)
    requires OnePending(s, key) && Exec(s, schedule).Some? && Calm(s, schedule, key)
    ensures var end := Exec(s, schedule).value; var n := InsertsFor(s, schedule, key);
      if key in s.cache then n == 0 && key in end.cache else n == (if key in end.cache then 1 else 0)
    ensures Replace(key) !in schedule
    decreases |schedule|
  {
    if schedule != [] {
      CalmStep(s, schedule[0], key);
      CalmInsertsOnce(Step(s, schedule[0]).value, schedule[1..], key);
    }
  }

  /** In particular, calls that do not overlap a first one all return the object that the cache still holds. */
  lemma CalmCallsAgree<K>(schedule: seq<Action<K>>, key: K, i: nat)
    requires Exec(Init(), schedule).Some? && Calm(Init(), schedule, key)
    requires ReturnedFor(Exec(Init(), schedule).value, i, key)
    ensures var s := Exec(Init(), schedule).value;
      key in s.cache && s.lookups[i].item == s.cache[key]
  {
    CalmInsertsOnce(Init(), schedule, key);
    ExecCounts<K>(Init(), schedule, key, 0);
  }

  /** Two calls that both missed get different objects; whatever happens next, the cache holds at most one. */
  lemma OverlappingMissesDiverge<K>(schedule: seq<Action<K>>, i: nat, j: nat)
    requires Exec(Init(), schedule).Some? && i < j
    requires var s := Exec(Init(), schedule).value;
      j < |s.lookups| && s.lookups[i].Missed? && s.lookups[j].Missed? && s.lookups[i].key == s.lookups[j].key
    ensures var s := Exec(Init(), schedule).value;
      && Step(s, Insert(i)).Some? && Step(Step(s, Insert(i)).value, Insert(j)).Some?
      && var end := Step(Step(s, Insert(i)).value, Insert(j)).value;
         end.lookups[i].item != end.lookups[j].item && end.cache[s.lookups[j].key] == end.lookups[j].item
  {
    ExecKeepsInv<K>(Init(), schedule);
  }

  lemma ExecCons<K>(s: State<K>, schedule: seq<Action<K>>, next: State<K>)
    requires schedule != [] && Step(s, schedule[0]) == Some(next)
    ensures Exec(s, schedule) == Exec(next, schedule[1..])
  {
  }

  /** So two concurrent first calls for a session can end up with different jars, one of them lost. */
  lemma FirstCallsCanRace<K>(key: K)
    ensures Exec(Init(), [Begin(key), Begin(key), Insert(0), Insert(1)])
         == Some(State(map[key := 1], [Returned(key, 0), Returned(key, 1)], [key, key]))
  {
    var schedule := [Begin(key), Begin(key), Insert(0), Insert(1)];
    var s1: State<K> := State(map[], [Missed(key, 0)], [key]);
    var s2 := s1.(lookups := [Missed(key, 0), Missed(key, 1)], madeFor := [key, key]);
    var s3 := s2.(cache := map[key := 0], lookups := [Returned(key, 0), Missed(key, 1)]);
    var s4 := s3.(cache := map[key := 1], lookups := [Returned(key, 0), Returned(key, 1)]);
    assert Step(Init(), Begin(key)) == Some(s1) by {
      assert s1.lookups == Init<K>().lookups + [Missed(key, 0)] && s1.madeFor == Init<K>().madeFor + [key];
    }
    assert Step(s1, Begin(key)) == Some(s2) by {
      assert s2.lookups == s1.lookups + [Missed(key, 1)] && s2.madeFor == s1.madeFor + [key];
    }
    assert Step(s2, Insert(0)) == Some(s3) by {
      assert s3.lookups == s2.lookups[0 := Returned(key, 0)] && s3.cache == s2.cache[key := 0];
    }
    assert Step(s3, Insert(1)) == Some(s4) by {
      assert s4.lookups == s3.lookups[1 := Returned(key, 1)] && s4.cache == s3.cache[key := 1];
    }
    ExecCons(Init(), schedule, s1);
    ExecCons(s1, schedule[1..], s2);
    ExecCons(s2, schedule[2..], s3);
    ExecCons(s3, schedule[3..], s4);
    assert schedule[4..] == [];
  }
}
