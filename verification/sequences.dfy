/** Facts about sequences that several modules share. */
module Sequences {
  lemma Associate<T>(a: seq<T>, b: seq<T>, c: seq<T>)
    ensures (a + b) + c == a + (b + c)
  {
  }

  function Flatten<T>(parts: seq<seq<T>>): seq<T> {
    if parts == [] then [] else parts[0] + Flatten(parts[1..])
  }

  lemma {:induction false} FlattenConcat<T>(a: seq<seq<T>>, b: seq<seq<T>>)
    ensures Flatten(a + b) == Flatten(a) + Flatten(b)
  {
    if a == [] {
      assert a + b == b;
    } else {
      assert (a + b)[1..] == a[1..] + b;
      FlattenConcat(a[1..], b);
      Associate(a[0], Flatten(a[1..]), Flatten(b));
    }
  }

  lemma FlattenCons<T>(part: seq<T>, parts: seq<seq<T>>)
    ensures Flatten([part] + parts) == part + Flatten(parts)
  {
  }

  /** Parts that make up all but a beginning make up everything together with that beginning. */
  lemma Reassemble<T>(whole: seq<T>, n: nat, parts: seq<seq<T>>, rest: seq<T>)
    requires n <= |whole| && Flatten(parts) + rest == whole[n..]
    ensures Flatten([whole[..n]] + parts) + rest == whole
  {
    FlattenCons(whole[..n], parts);
    Associate(whole[..n], Flatten(parts), rest);
    assert whole[..n] + whole[n..] == whole;
  }

  lemma FlattenSnoc<T>(parts: seq<seq<T>>, part: seq<T>)
    ensures Flatten(parts + [part]) == Flatten(parts) + part
  {
    FlattenConcat(parts, [part]);
    assert Flatten([part]) == part + Flatten<T>([]);
  }
}
