/** Paginated listings (src/server.rs lines 130-142, 226-291 and 323-360): each
    page selects the next names of an unsorted store, and links to the next
    page by a percent-encoded cursor. */
module RegistryListing {
  import opened Numbers
  import opened Results

  type Name = seq<u8>

  // ----- lexical order

  predicate Less(a: Name, b: Name)
  {
    if b == [] then false
    else if a == [] then true
    else a[0] < b[0] || (a[0] == b[0] && Less(a[1..], b[1..]))
  }

  lemma {:induction false} LessIrreflexive(a: Name)
    ensures !Less(a, a)
  {
    if a != [] {
      LessIrreflexive(a[1..]);
    }
  }

  lemma {:induction false} LessTransitive(a: Name, b: Name, c: Name)
    requires Less(a, b) && Less(b, c)
    ensures Less(a, c)
    decreases |a|
  {
    if a != [] && a[0] == b[0] && b[0] == c[0] {
      LessTransitive(a[1..], b[1..], c[1..]);
    }
  }

  lemma {:induction false} LessTotal(a: Name, b: Name)
    ensures a == b || Less(a, b) || Less(b, a)
    decreases |a|
  {
    if a != [] && b != [] && a[0] == b[0] {
      LessTotal(a[1..], b[1..]);
      assert a == [a[0]] + a[1..] && b == [b[0]] + b[1..];
    }
  }

  // ----- selection

  /** x is the least name of the store behind `previous`. */
  ghost predicate IsNext(names: seq<Name>, previous: Name, x: Name)
  {
    && x in names && Less(previous, x)
    && forall y :: y in names && Less(previous, y) && y != x ==> Less(x, y)
  }

  /** The least name behind `previous`, by one pass over the unsorted store. */
  method SelectNext(names: seq<Name>, previous: Name) returns (next: Option<Name>)
    ensures
      match next
      case None => forall y :: y in names ==> !Less(previous, y)
      case Some(x) => IsNext(names, previous, x)
  {
    hide Less;
    next := None;
    for index := 0 to |names|
      invariant next.None? ==> forall y :: y in names[..index] ==> !Less(previous, y)
      invariant next.Some? ==> IsNext(names[..index], previous, next.value)
    {
      var name := names[index];
      assert names[..index + 1] == names[..index] + [name];
      if Less(previous, name) {
        if next.None? {
          FirstFound(names[..index], previous, name);
          next := Some(name);
        } else {
          LessTotal(name, next.value);
          if Less(name, next.value) {
            BetterNext(names[..index], previous, next.value, name);
            next := Some(name);
          }
        }
      }
    }
    assert names[..|names|] == names;
  }

  lemma FirstFound(names: seq<Name>, previous: Name, name: Name)
    requires Less(previous, name) && forall y :: y in names ==> !Less(previous, y)
    ensures IsNext(names + [name], previous, name)
  {
    hide Less;
  }

  lemma BetterNext(names: seq<Name>, previous: Name, old': Name, name: Name)
    requires IsNext(names, previous, old') && Less(previous, name) && Less(name, old')
    ensures IsNext(names + [name], previous, name)
  {
    hide Less;
    forall y | y in names + [name] && Less(previous, y) && y != name
      ensures Less(name, y)
    {
      if y != old' {
        LessTransitive(name, old', y);
      }
    }
  }

  lemma NextIsUnique(names: seq<Name>, previous: Name, x: Name, y: Name)
    requires IsNext(names, previous, x) && IsNext(names, previous, y)
    ensures x == y
  {
    if x != y {
      LessTransitive(x, y, x);
      LessIrreflexive(x);
    }
  }

  // ----- the whole listing

  /** Ascending, without repetition. */
  predicate Ascending(list: seq<Name>)
  {
    forall i, j :: 0 <= i < j < |list| ==> Less(list[i], list[j])
  }

  /** `list` is what the store holds behind `previous`: every name once, in order. */
  ghost predicate Lists(names: seq<Name>, previous: Name, list: seq<Name>)
  {
    Ascending(list) && forall x :: x in list <==> x in names && Less(previous, x)
  }

  /** There is only one such list. */
  lemma {:induction false} ListsIsUnique(names: seq<Name>, previous: Name, a: seq<Name>, b: seq<Name>)
    requires Lists(names, previous, a) && Lists(names, previous, b)
    ensures a == b
    decreases |a|
  {
    hide Less;
    assert b == [] || b[0] in b;
    if a != [] {
      assert a[0] in a && a[0] in b;
      FirstIsNext(names, previous, a);
      FirstIsNext(names, previous, b);
      NextIsUnique(names, previous, a[0], b[0]);
      RestLists(names, previous, a);
      RestLists(names, previous, b);
      ListsIsUnique(names, a[0], a[1..], b[1..]);
      assert a == [a[0]] + a[1..] && b == [b[0]] + b[1..];
    }
  }

  lemma FirstIsNext(names: seq<Name>, previous: Name, list: seq<Name>)
    requires Lists(names, previous, list) && list != []
    ensures IsNext(names, previous, list[0])
  {
    hide Less;
    assert list[0] in list;
    forall y | y in names && Less(previous, y) && y != list[0]
      ensures Less(list[0], y)
    {
      assert y in list;
      var k :| 0 <= k < |list| && list[k] == y;
    }
  }

  lemma RestLists(names: seq<Name>, previous: Name, list: seq<Name>)
    requires Lists(names, previous, list) && list != []
    ensures Lists(names, list[0], list[1..])
  {
    hide Less;
    var rest := list[1..];
    assert Ascending(rest) by {
      forall i, j | 0 <= i < j < |rest|
        ensures Less(rest[i], rest[j])
      {
        assert Less(list[i + 1], list[j + 1]);
      }
    }
    assert list[0] in list;
    forall x
      ensures x in rest <==> x in names && Less(list[0], x)
    {
      if x in rest {
        var k :| 0 <= k < |rest| && rest[k] == x;
        assert list[k + 1] == x && Less(list[0], list[k + 1]);
        assert x in list;
      }
      if x in names && Less(list[0], x) {
        LessTransitive(previous, list[0], x);
        assert x in list;
        var k :| 0 <= k < |list| && list[k] == x;
        LessIrreflexive(x);
        assert rest[k - 1] == x;
      }
    }
  }

  lemma ExtendLists(names: seq<Name>, previous: Name, x: Name, rest: seq<Name>)
    requires IsNext(names, previous, x) && Lists(names, x, rest)
    ensures Lists(names, previous, [x] + rest)
  {
    hide Less;
    var list := [x] + rest;
    forall i, j | 0 <= i < j < |list|
      ensures Less(list[i], list[j])
    {
      if i == 0 {
        assert rest[j - 1] in rest;
      } else {
        assert Less(rest[i - 1], rest[j - 1]);
      }
    }
    forall y
      ensures y in list <==> y in names && Less(previous, y)
    {
      if y in rest {
        LessTransitive(previous, x, y);
      }
    }
  }

  /** What is still to come; it shrinks with every name. */
  ghost function Remaining(names: seq<Name>, previous: Name): set<Name>
  {
    set y | y in names && Less(previous, y)
  }

  lemma RemainingShrinks(names: seq<Name>, previous: Name, x: Name)
    requires IsNext(names, previous, x)
    ensures |Remaining(names, x)| < |Remaining(names, previous)|
  {
    hide Less;
    var smaller, larger := Remaining(names, x), Remaining(names, previous);
    forall y | y in smaller
      ensures y in larger
    {
      LessTransitive(previous, x, y);
    }
    LessIrreflexive(x);
    assert x in larger && x !in smaller;
    assert smaller <= larger - {x};
    Cardinality(smaller, larger - {x});
  }

  lemma {:induction false} Cardinality(a: set<Name>, b: set<Name>)
    requires a <= b
    ensures |a| <= |b|
  {
    if a != {} {
      var x :| x in a;
      Cardinality(a - {x}, b - {x});
    }
  }

  /** The list always exists. */
  lemma {:induction false} ListingOf(names: seq<Name>, previous: Name) returns (list: seq<Name>)
    ensures Lists(names, previous, list)
    decreases |Remaining(names, previous)|
  {
    hide Less;
    if x :| x in names && Less(previous, x) {
      var least := LeastOf(names, previous, x);
      RemainingShrinks(names, previous, least);
      var rest := ListingOf(names, least);
      ExtendLists(names, previous, least, rest);
      list := [least] + rest;
    } else {
      list := [];
    }
  }

  lemma {:induction false} LeastOf(names: seq<Name>, previous: Name, x: Name) returns (least: Name)
    requires x in names && Less(previous, x)
    ensures IsNext(names, previous, least)
    decreases |(set y | y in names && Less(previous, y) && Less(y, x))|
  {
    hide Less;
    if y :| y in names && Less(previous, y) && Less(y, x) {
      var below := set z | z in names && Less(previous, z) && Less(z, x);
      var lower := set z | z in names && Less(previous, z) && Less(z, y);
      forall z | z in lower
        ensures z in below
      {
        LessTransitive(z, y, x);
      }
      LessIrreflexive(y);
      assert y in below && y !in lower;
      assert lower <= below - {y};
      Cardinality(lower, below - {y});
      least := LeastOf(names, previous, y);
    } else {
      forall y | y in names && Less(previous, y) && y != x
        ensures Less(x, y)
      {
        LessTotal(x, y);
      }
      least := x;
    }
  }
}
