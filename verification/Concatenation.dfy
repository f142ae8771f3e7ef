/** Fragments and their concatenation, as every part of the model uses them. */
module Concatenation {
  import opened Numbers

  lemma Associate<T>(a: seq<T>, b: seq<T>, c: seq<T>)
    ensures a + (b + c) == (a + b) + c
  {
  }

  /** The whole that fragments are cut from. */
  function Flatten(fragments: seq<seq<u8>>): seq<u8>
  {
    if fragments == [] then [] else fragments[0] + Flatten(fragments[1..])
  }

  lemma {:induction false} FlattenAppend(a: seq<seq<u8>>, b: seq<seq<u8>>)
    ensures Flatten(a + b) == Flatten(a) + Flatten(b)
  {
    if a == [] {
      assert a + b == b;
    } else {
      assert (a + b)[1..] == a[1..] + b;
      FlattenAppend(a[1..], b);
    }
  }

  lemma FlattenNext(fragments: seq<seq<u8>>, i: nat)
    requires i < |fragments|
    ensures Flatten(fragments[..i + 1]) == Flatten(fragments[..i]) + fragments[i]
    ensures Flatten(fragments) == (Flatten(fragments[..i]) + fragments[i]) + Flatten(fragments[i + 1..])
  {
    hide Flatten;
    SplitAround(fragments, i);
    FlattenAppend(fragments[..i], [fragments[i]]);
    FlattenOne(fragments[i]);
    FlattenAppend(fragments[..i + 1], fragments[i + 1..]);
  }

  lemma SplitAround(fragments: seq<seq<u8>>, i: nat)
    requires i < |fragments|
    ensures fragments[..i + 1] == fragments[..i] + [fragments[i]]
    ensures fragments == fragments[..i + 1] + fragments[i + 1..]
  {
  }

  lemma FlattenOne(fragment: seq<u8>)
    ensures Flatten([fragment]) == fragment
  {
    assert [fragment][1..] == [];
    assert fragment + [] == fragment;
  }
}
