/** Insertion into an ordered sequence, for the places where the program calls the library sort. */
module Sorting {

  /** `before` is a strict weak order. */
  ghost predicate StrictWeak<T(!new)>(before: (T, T) -> bool) {
    && (forall x, y :: before(x, y) ==> !before(y, x))
    && (forall x, y, z :: !before(x, y) && !before(y, z) ==> !before(x, z))
  }

  /** Nothing comes after something it should precede. */
  ghost predicate Ordered<T(!new)>(before: (T, T) -> bool, s: seq<T>) {
    forall i, j :: 0 <= i < j < |s| ==> !before(s[j], s[i])
  }

  function Insert<T>(before: (T, T) -> bool, x: T, s: seq<T>): seq<T> {
    if s == [] || before(x, s[0]) then [x] + s else [s[0]] + Insert(before, x, s[1..])
  }

  lemma {:induction false} InsertPermutes<T>(before: (T, T) -> bool, x: T, s: seq<T>)
    ensures multiset(Insert(before, x, s)) == multiset(s) + multiset{x} && |Insert(before, x, s)| == |s| + 1
  {
    if s != [] && !before(x, s[0]) {
      InsertPermutes(before, x, s[1..]);
      assert s == [s[0]] + s[1..];
    }
  }

  lemma InsertMembers<T>(before: (T, T) -> bool, x: T, s: seq<T>)
    ensures forall y :: y in Insert(before, x, s) <==> y == x || y in s
  {
    InsertPermutes(before, x, s);
    forall y ensures y in Insert(before, x, s) <==> y == x || y in s {
      assert y in Insert(before, x, s) <==> y in multiset(s) + multiset{x};
    }
  }

  lemma {:induction false} InsertKeepsOrder<T(!new)>(before: (T, T) -> bool, x: T, s: seq<T>)
    requires StrictWeak(before) && Ordered(before, s)
    ensures Ordered(before, Insert(before, x, s))
  {
    if s == [] {
    } else if before(x, s[0]) {
      forall j | 0 <= j < |s| ensures !before(s[j], x) {
        if j > 0 { assert !before(s[j], s[0]) && !before(s[0], x); }
      }
    } else {
      var t := Insert(before, x, s[1..]);
      InsertKeepsOrder(before, x, s[1..]);
      InsertMembers(before, x, s[1..]);
      forall j | 0 <= j < |t| ensures !before(t[j], s[0]) {
        assert t[j] in t;
        if t[j] != x { var k :| 0 <= k < |s[1..]| && s[1..][k] == t[j]; assert s[k + 1] == t[j]; }
      }
    }
  }

  ghost predicate Strict<T(!new)>(before: (T, T) -> bool, s: seq<T>) {
    forall i, j :: 0 <= i < j < |s| ==> before(s[i], s[j])
  }

  lemma Transitive<T(!new)>(before: (T, T) -> bool, x: T, y: T, z: T)
    requires StrictWeak(before) && before(x, y) && before(y, z)
    ensures before(x, z)
  {
    assert !before(z, y);
  }

  /** Inserting something comparable with every member keeps a strict order strict. */
  lemma {:induction false} InsertKeepsStrict<T(!new)>(before: (T, T) -> bool, x: T, s: seq<T>)
    requires StrictWeak(before) && Strict(before, s)
    requires forall y :: y in s ==> before(x, y) || before(y, x)
    ensures Strict(before, Insert(before, x, s))
  {
    if s == [] {
    } else if before(x, s[0]) {
      forall j | 0 <= j < |s| ensures before(x, s[j]) {
        if j > 0 { Transitive(before, x, s[0], s[j]); }
      }
    } else {
      var t := Insert(before, x, s[1..]);
      InsertKeepsStrict(before, x, s[1..]);
      InsertMembers(before, x, s[1..]);
      assert s[0] in s;
      forall j | 0 <= j < |t| ensures before(s[0], t[j]) {
        assert t[j] in t;
        if t[j] != x { var k :| 0 <= k < |s[1..]| && s[1..][k] == t[j]; assert s[k + 1] == t[j]; }
      }
    }
  }
}
