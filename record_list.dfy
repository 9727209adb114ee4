/**
 * The editable record list both calculators keep: an ordered list of records,
 * each carrying an identity, with "add", "remove by identity" (refused while
 * only one record is left) and "update by identity". The record type and the
 * way to read a record's identity are parameters.
 */
module RecordList {

  /** No two records share an identity. */
  predicate UniqueIds<T>(s: seq<T>, key: T -> nat)
  {
    forall i, j :: 0 <= i < j < |s| ==> key(s[i]) != key(s[j])
  }

  /** Some record carries identity `id`. */
  predicate HasId<T>(s: seq<T>, key: T -> nat, id: nat)
  {
    exists i :: 0 <= i < |s| && key(s[i]) == id
  }

  /** Every identity in the list is below `bound`. */
  predicate IdsBelow<T>(s: seq<T>, key: T -> nat, bound: nat)
  {
    forall i :: 0 <= i < |s| ==> key(s[i]) < bound
  }

  /** The list after "add": the new record appended at the end. */
  function Added<T>(s: seq<T>, x: T): (r: seq<T>)
    ensures |r| == |s| + 1 && r[..|s|] == s && r[|s|] == x
  {
    s + [x]
  }

  /** The records whose identity differs from `id`, in their original order. */
  function Filter<T(==,!new)>(s: seq<T>, key: T -> nat, id: nat): (r: seq<T>)
    ensures |r| <= |s|
    ensures forall x :: x in r <==> x in s && key(x) != id
    decreases |s|
  {
    if s == [] then []
    else
      var rest := Filter(s[..|s| - 1], key, id);
      if key(s[|s| - 1]) != id then rest + [s[|s| - 1]] else rest
  }

  /** The list after "remove": filtered by identity, unless only one record is left. */
  function Removed<T(==,!new)>(s: seq<T>, key: T -> nat, id: nat): (r: seq<T>)
    ensures |r| <= |s|
    ensures |s| <= 1 ==> r == s
    ensures |s| > 1 ==> forall x :: x in r <==> x in s && key(x) != id
  {
    if |s| > 1 then Filter(s, key, id) else s
  }

  /** The list after "update": `edit` applied to every record with identity `id`, the others untouched. */
  function Updated<T>(s: seq<T>, key: T -> nat, id: nat, edit: T -> T): (r: seq<T>)
    ensures |r| == |s|
    ensures forall i :: 0 <= i < |s| && key(s[i]) != id ==> r[i] == s[i]
    ensures forall i :: 0 <= i < |s| && key(s[i]) == id ==> r[i] == edit(s[i])
  {
    seq(|s|, i requires 0 <= i < |s| => if key(s[i]) == id then edit(s[i]) else s[i])
  }

  // ---------------------------------------------------------------------------
  // Properties of "remove"

  /** Filtering by an identity nobody carries changes nothing. */
  lemma {:induction false} FilterNoMatch<T(!new)>(s: seq<T>, key: T -> nat, id: nat)
    requires !HasId(s, key, id)
    ensures Filter(s, key, id) == s
    decreases |s|
  {
    if s != [] {
      var init := s[..|s| - 1];
      assert !HasId(init, key, id) by {
        forall i | 0 <= i < |init| ensures key(init[i]) != id { assert init[i] == s[i]; }
      }
      FilterNoMatch(init, key, id);
      assert key(s[|s| - 1]) != id;
      assert init + [s[|s| - 1]] == s;
    }
  }

  /** Filtering keeps the original order: it distributes over concatenation. */
  lemma {:induction false} FilterAppend<T(!new)>(a: seq<T>, b: seq<T>, key: T -> nat, id: nat)
    ensures Filter(a + b, key, id) == Filter(a, key, id) + Filter(b, key, id)
    decreases |b|
  {
    if b == [] {
      assert a + b == a;
    } else {
      var ab := a + b;
      var b' := b[..|b| - 1];
      var last := b[|b| - 1];
      assert ab[..|ab| - 1] == a + b';
      assert ab[|ab| - 1] == last;
      var tail := if key(last) != id then [last] else [];
      calc {
        Filter(a + b, key, id);
        Filter(a + b', key, id) + tail;
        { FilterAppend(a, b', key, id); }
        Filter(a, key, id) + Filter(b', key, id) + tail;
        Filter(a, key, id) + (Filter(b', key, id) + tail);
      }
    }
  }

  /** With unique identities, filtering drops exactly one record when the identity is present, none otherwise. */
  lemma {:induction false} FilterLength<T(!new)>(s: seq<T>, key: T -> nat, id: nat)
    requires UniqueIds(s, key)
    ensures |Filter(s, key, id)| == if HasId(s, key, id) then |s| - 1 else |s|
    decreases |s|
  {
    if s != [] {
      var init := s[..|s| - 1];
      var last := s[|s| - 1];
      assert forall i :: 0 <= i < |init| ==> init[i] == s[i];
      assert UniqueIds(init, key);
      FilterLength(init, key, id);
      if key(last) == id {
        assert Filter(s, key, id) == Filter(init, key, id);
        assert !HasId(init, key, id);
        assert HasId(s, key, id);
      } else {
        assert Filter(s, key, id) == Filter(init, key, id) + [last];
        assert HasId(s, key, id) <==> HasId(init, key, id);
      }
    }
  }

  /** Filtering keeps identities unique and below any bound they were below. */
  lemma {:induction false} FilterKeepsIds<T(!new)>(s: seq<T>, key: T -> nat, id: nat, bound: nat)
    requires UniqueIds(s, key) && IdsBelow(s, key, bound)
    ensures UniqueIds(Filter(s, key, id), key) && IdsBelow(Filter(s, key, id), key, bound)
    decreases |s|
  {
    if s != [] {
      var init := s[..|s| - 1];
      var last := s[|s| - 1];
      var rest := Filter(init, key, id);
      assert UniqueIds(init, key) && IdsBelow(init, key, bound);
      FilterKeepsIds(init, key, id, bound);
      forall i | 0 <= i < |rest| ensures key(rest[i]) != key(last) {
        assert rest[i] in init;
        var j :| 0 <= j < |init| && init[j] == rest[i];
        assert init[j] == s[j];
      }
      if key(last) != id {
        var r := rest + [last];
        assert Filter(s, key, id) == r;
        forall i, j | 0 <= i < j < |r| ensures key(r[i]) != key(r[j]) {
          assert r[i] == rest[i];
          if j < |rest| {
            assert r[j] == rest[j];
          }
        }
        forall i | 0 <= i < |r| ensures key(r[i]) < bound {
          if i < |rest| {
            assert r[i] == rest[i];
          }
        }
      }
    }
  }

  /** Remove never empties a list whose identities are unique, and is a no-op on a single record. */
  lemma RemoveNeverEmpties<T(!new)>(s: seq<T>, key: T -> nat, id: nat)
    requires |s| >= 1 && UniqueIds(s, key)
    ensures |Removed(s, key, id)| >= 1
    ensures |s| == 1 ==> Removed(s, key, id) == s
  {
    if |s| > 1 {
      FilterLength(s, key, id);
    }
  }

  /** Remove with an identity nobody carries changes nothing. */
  lemma RemoveUnknownId<T(!new)>(s: seq<T>, key: T -> nat, id: nat)
    requires !HasId(s, key, id)
    ensures Removed(s, key, id) == s
  {
    FilterNoMatch(s, key, id);
  }

  /** Without unique identities the guard is not enough: two records sharing an identity both go. */
  lemma RemoveWithSharedIdEmpties<T(!new)>(s: seq<T>, key: T -> nat)
    requires |s| == 2 && key(s[0]) == key(s[1])
    ensures Removed(s, key, key(s[0])) == []
  {
    var id := key(s[0]);
    assert s[..1][..0] == [];
    assert s[..1][0] == s[0];
    assert Filter(s[..1], key, id) == Filter(s[..1][..0], key, id);
    assert Filter(s, key, id) == Filter(s[..1], key, id);
  }

  // ---------------------------------------------------------------------------
  // Properties of "add" and "update"

  /** Add, with an identity drawn from the counter, keeps identities unique and below the advanced counter. */
  lemma AddKeepsIds<T>(s: seq<T>, key: T -> nat, x: T, next: nat)
    requires UniqueIds(s, key) && IdsBelow(s, key, next) && key(x) == next
    ensures UniqueIds(Added(s, x), key) && IdsBelow(Added(s, x), key, next + 1)
    ensures !HasId(s, key, next)
  {
  }

  /** Removing the record just added, under an identity nobody else carries, restores the list. */
  lemma AddThenRemove<T(!new)>(s: seq<T>, key: T -> nat, x: T)
    requires |s| >= 1 && !HasId(s, key, key(x))
    ensures Removed(Added(s, x), key, key(x)) == s
  {
    FilterAppend(s, [x], key, key(x));
    FilterNoMatch(s, key, key(x));
    assert Filter([x], key, key(x)) == [] by {
      assert [x][..0] == [];
    }
  }

  /** An edit that keeps identities keeps them unique and below any bound; update on an unknown identity changes nothing. */
  lemma UpdateKeepsIds<T>(s: seq<T>, key: T -> nat, id: nat, edit: T -> T, bound: nat)
    requires forall x :: key(edit(x)) == key(x)
    requires UniqueIds(s, key) && IdsBelow(s, key, bound)
    ensures forall i :: 0 <= i < |s| ==> key(Updated(s, key, id, edit)[i]) == key(s[i])
    ensures UniqueIds(Updated(s, key, id, edit), key) && IdsBelow(Updated(s, key, id, edit), key, bound)
    ensures !HasId(s, key, id) ==> Updated(s, key, id, edit) == s
  {
    var r := Updated(s, key, id, edit);
    forall i | 0 <= i < |s| ensures key(r[i]) == key(s[i]) {
      if key(s[i]) == id {
        assert key(edit(s[i])) == key(s[i]);
      }
    }
  }
}
