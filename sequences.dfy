/** The array built-ins the data layer relies on (`filter`, `findIndex`, the
    index-or-append upsert of the change listeners), stated once over sequences
    of records identified by a string key. */
module Sequences {

  /** `a` can be obtained from `b` by deleting elements: order is kept. */
  predicate IsSubsequence<T(==)>(a: seq<T>, b: seq<T>)
    decreases |b|
  {
    if b == [] then a == []
    else (a != [] && a[0] == b[0] && IsSubsequence(a[1..], b[1..])) || IsSubsequence(a, b[1..])
  }

  lemma {:induction false} SubsequenceReflexive<T>(s: seq<T>)
    ensures IsSubsequence(s, s)
    decreases |s|
  {
    if s != [] {
      SubsequenceReflexive(s[1..]);
    }
  }

  lemma {:induction false} SubsequenceTransitive<T>(a: seq<T>, b: seq<T>, c: seq<T>)
    requires IsSubsequence(a, b) && IsSubsequence(b, c)
    ensures IsSubsequence(a, c)
    decreases |c|
  {
    if c == [] {
      assert b == [];
    } else if IsSubsequence(b, c[1..]) {
      SubsequenceTransitive(a, b, c[1..]);
    } else if a != [] && a[0] == b[0] && IsSubsequence(a[1..], b[1..]) {
      SubsequenceTransitive(a[1..], b[1..], c[1..]);
    } else {
      SubsequenceTransitive(a, b[1..], c[1..]);
    }
  }

  /** A subsequence is never longer than the whole. */
  lemma {:induction false} SubsequenceLength<T>(a: seq<T>, b: seq<T>)
    requires IsSubsequence(a, b)
    ensures |a| <= |b|
    decreases |b|
  {
    if b != [] {
      if a != [] && a[0] == b[0] && IsSubsequence(a[1..], b[1..]) {
        SubsequenceLength(a[1..], b[1..]);
      } else {
        SubsequenceLength(a, b[1..]);
      }
    }
  }

  /** A subsequence as long as the whole is the whole. */
  lemma {:induction false} SubsequenceOfSameLength<T>(a: seq<T>, b: seq<T>)
    requires IsSubsequence(a, b) && |a| == |b|
    ensures a == b
    decreases |b|
  {
    if b != [] {
      if a != [] && a[0] == b[0] && IsSubsequence(a[1..], b[1..]) {
        SubsequenceOfSameLength(a[1..], b[1..]);
        assert a == [a[0]] + a[1..] && b == [b[0]] + b[1..];
      } else {
        SubsequenceLength(a, b[1..]);
      }
    }
  }

  /** Every element of a subsequence is an element of the whole. */
  lemma {:induction false} SubsequenceMembers<T>(a: seq<T>, b: seq<T>)
    requires IsSubsequence(a, b)
    ensures forall x :: x in a ==> x in b
    decreases |b|
  {
    if b != [] {
      if a != [] && a[0] == b[0] && IsSubsequence(a[1..], b[1..]) {
        SubsequenceMembers(a[1..], b[1..]);
        assert forall x :: x in a ==> x == a[0] || x in a[1..];
      } else {
        SubsequenceMembers(a, b[1..]);
      }
    }
  }

  /** `ok` holds of every two elements of `s` at distinct positions, taken in order. */
  predicate Pairwise<T>(s: seq<T>, ok: (T, T) -> bool)
  {
    forall i, j :: 0 <= i < j < |s| ==> ok(s[i], s[j])
  }

  /** A relation that holds pairwise in a sequence holds pairwise in every subsequence of it. */
  lemma {:induction false} SubsequencePairwise<T>(a: seq<T>, b: seq<T>, ok: (T, T) -> bool)
    requires IsSubsequence(a, b) && Pairwise(b, ok)
    ensures Pairwise(a, ok)
    decreases |b|
  {
    if b != [] {
      assert Pairwise(b[1..], ok);
      if a != [] && a[0] == b[0] && IsSubsequence(a[1..], b[1..]) {
        SubsequencePairwise(a[1..], b[1..], ok);
        SubsequenceMembers(a[1..], b[1..]);
        forall j | 0 < j < |a| ensures ok(a[0], a[j]) {
          assert a[j] == a[1..][j - 1];
          assert a[j] in a[1..];
          assert a[j] in b[1..];
          var j' :| 0 <= j' < |b[1..]| && b[1..][j'] == a[j];
          assert b[j' + 1] == a[j];
        }
      } else {
        SubsequencePairwise(a, b[1..], ok);
      }
    }
  }

  /** `xs.filter(p)`: the elements satisfying `p`, in their original order,
      each with its original multiplicity. */
  function Filter<T(==,!new)>(s: seq<T>, p: T -> bool): (r: seq<T>)
    ensures forall x :: x in r <==> x in s && p(x)
    ensures forall x :: multiset(r)[x] == if p(x) then multiset(s)[x] else 0
    ensures IsSubsequence(r, s)
    ensures |r| <= |s|
    ensures |r| == |s| <==> forall i :: 0 <= i < |s| ==> p(s[i])
    decreases |s|
  {
    if s == [] then []
    else
      assert s == [s[0]] + s[1..];
      if p(s[0]) then [s[0]] + Filter(s[1..], p) else Filter(s[1..], p)
  }

  /** Some element of `s` has key `id`. */
  predicate HasKey<T>(s: seq<T>, key: T -> string, id: string)
  {
    exists i :: 0 <= i < |s| && key(s[i]) == id
  }

  /** No two elements of `s` share a key. */
  predicate UniqueKeys<T>(s: seq<T>, key: T -> string)
  {
    forall i, j :: 0 <= i < j < |s| ==> key(s[i]) != key(s[j])
  }

  /** `xs.findIndex(x => key(x) === id)`: the first position with key `id`, or -1. */
  function IndexOfKey<T>(s: seq<T>, key: T -> string, id: string): (k: int)
    ensures -1 <= k < |s|
    ensures 0 <= k ==> key(s[k]) == id && forall j :: 0 <= j < k ==> key(s[j]) != id
    ensures k == -1 <==> !HasKey(s, key, id)
    decreases |s|
  {
    if s == [] then -1
    else if key(s[0]) == id then 0
    else
      var k := IndexOfKey(s[1..], key, id);
      assert forall j :: 0 < j < |s| ==> s[j] == s[1..][j - 1];
      if k == -1 then -1 else k + 1
  }

  /** How many elements of `s` have key `id`. */
  function CountKey<T>(s: seq<T>, key: T -> string, id: string): (n: nat)
    ensures n <= |s|
    ensures n == 0 <==> !HasKey(s, key, id)
    decreases |s|
  {
    if s == [] then 0
    else
      assert forall j :: 0 < j < |s| ==> s[j] == s[1..][j - 1];
      (if key(s[0]) == id then 1 else 0) + CountKey(s[1..], key, id)
  }

  /** `xs.filter(x => key(x) !== id)`: every element with key `id` removed,
      the others kept in order with their multiplicity. */
  function RemoveKey<T(==,!new)>(s: seq<T>, key: T -> string, id: string): (r: seq<T>)
    ensures !HasKey(r, key, id)
    ensures forall x :: x in r <==> x in s && key(x) != id
    ensures forall x :: multiset(r)[x] == if key(x) == id then 0 else multiset(s)[x]
    ensures IsSubsequence(r, s)
    ensures |r| == |s| <==> !HasKey(s, key, id)
  {
    var r := Filter(s, x => key(x) != id);
    assert forall i :: 0 <= i < |r| ==> r[i] in r;
    r
  }

  /** Replace the first element whose key is `key(x)` by `x`, or append `x`
      when there is none (`findIndex`, then index assignment or `push`). */
  function Upsert<T(==,!new)>(s: seq<T>, x: T, key: T -> string): (r: seq<T>)
    ensures x in r
    ensures |r| == if HasKey(s, key, key(x)) then |s| else |s| + 1
    ensures forall y :: key(y) != key(x) ==> (y in r <==> y in s)
    ensures forall i :: 0 <= i < |s| && key(s[i]) != key(x) ==> r[i] == s[i]
    ensures HasKey(s, key, key(x)) ==>
      var k := IndexOfKey(s, key, key(x));
      r[k] == x && forall i :: 0 <= i < |s| && i != k ==> r[i] == s[i]
    ensures !HasKey(s, key, key(x)) ==> r == s + [x]
  {
    var k := IndexOfKey(s, key, key(x));
    if 0 <= k then
      var r := s[k := x];
      assert r[k] == x;
      assert forall j :: 0 <= j < |s| && j != k ==> r[j] == s[j];
      r
    else
      var r := s + [x];
      assert r[|s|] == x;
      assert forall j :: 0 <= j < |s| ==> r[j] == s[j];
      r
  }

  /** The kinds of change a document collection listener reports. */
  datatype ChangeKind = Added | Modified | Removed

  /** One reported change; `doc` already carries the document's id as its key. */
  datatype Change<T> = Change(kind: ChangeKind, doc: T)

  /** One change applied to a collection: added or modified documents are
      upserted by key, removed ones delete every element with that key. */
  function ApplyChange<T(==,!new)>(s: seq<T>, c: Change<T>, key: T -> string): (r: seq<T>)
    ensures c.kind == Removed ==> !HasKey(r, key, key(c.doc))
    ensures c.kind != Removed ==> c.doc in r
    ensures forall y :: key(y) != key(c.doc) ==> (y in r <==> y in s)
  {
    match c.kind
    case Added => Upsert(s, c.doc, key)
    case Modified => Upsert(s, c.doc, key)
    case Removed => RemoveKey(s, key, key(c.doc))
  }

  /** Appending an element the filter rejects does not change what it keeps. */
  lemma {:induction false} FilterAppendRejected<T(!new)>(s: seq<T>, x: T, p: T -> bool)
    requires !p(x)
    ensures Filter(s + [x], p) == Filter(s, p)
    decreases |s|
  {
    if s == [] {
      assert Filter([x], p) == Filter([x][1..], p);
    } else {
      assert (s + [x])[1..] == s[1..] + [x];
      FilterAppendRejected(s[1..], x, p);
    }
  }

  /** Overwriting a rejected element by another rejected element does not
      change what the filter keeps. */
  lemma {:induction false} FilterUpdateRejected<T(!new)>(s: seq<T>, k: int, x: T, p: T -> bool)
    requires 0 <= k < |s| && !p(s[k]) && !p(x)
    ensures Filter(s[k := x], p) == Filter(s, p)
    decreases |s|
  {
    var t := s[k := x];
    if k == 0 {
      assert t[1..] == s[1..];
    } else {
      assert t[0] == s[0] && t[1..] == s[1..][k - 1 := x];
      FilterUpdateRejected(s[1..], k - 1, x, p);
    }
  }

  /** Filtering by `q` and then by a stronger `p` is filtering by `p`. */
  lemma {:induction false} FilterNarrow<T(!new)>(s: seq<T>, q: T -> bool, p: T -> bool)
    requires forall y :: p(y) ==> q(y)
    ensures Filter(Filter(s, q), p) == Filter(s, p)
    decreases |s|
  {
    if s != [] {
      FilterNarrow(s[1..], q, p);
    }
  }

  /** A change leaves every element with another key where it was: the
      elements a filter keeps, when it keeps none with the change's key,
      are the same before and after, in order and with their multiplicity. */
  lemma ApplyChangeKeepsOthers<T(!new)>(s: seq<T>, c: Change<T>, key: T -> string, p: T -> bool)
    requires forall y :: p(y) ==> key(y) != key(c.doc)
    ensures Filter(ApplyChange(s, c, key), p) == Filter(s, p)
  {
    if c.kind == Removed {
      FilterNarrow(s, x => key(x) != key(c.doc), p);
    } else {
      var r, k := Upsert(s, c.doc, key), IndexOfKey(s, key, key(c.doc));
      if 0 <= k {
        assert r == s[k := c.doc];
        FilterUpdateRejected(s, k, c.doc, p);
      } else {
        FilterAppendRejected(s, c.doc, p);
      }
    }
  }

  /** A batch leaves every element whose key no change names where it was. */
  lemma {:induction false} ApplyChangesKeepsOthers<T(!new)>(s: seq<T>, cs: seq<Change<T>>, key: T -> string, p: T -> bool)
    requires forall y, i :: p(y) && 0 <= i < |cs| ==> key(y) != key(cs[i].doc)
    ensures Filter(ApplyChanges(s, cs, key), p) == Filter(s, p)
    decreases |cs|
  {
    if cs != [] {
      var n := |cs| - 1;
      ApplyChangesKeepsOthers(s, cs[..n], key, p);
      ApplyChangeKeepsOthers(ApplyChanges(s, cs[..n], key), cs[n], key, p);
    }
  }

  /** A batch with one more change at its end is the shorter batch, then
      that change. */
  lemma ApplyChangesSnoc<T(!new)>(s: seq<T>, cs: seq<Change<T>>, c: Change<T>, key: T -> string)
    ensures ApplyChanges(s, cs + [c], key) == ApplyChange(ApplyChanges(s, cs, key), c, key)
  {
    assert (cs + [c])[..|cs|] == cs;
  }

  /** A batch of changes applied in order, as the listener's `forEach` does. */
  function ApplyChanges<T(==,!new)>(s: seq<T>, cs: seq<Change<T>>, key: T -> string): (r: seq<T>)
    ensures forall y :: (forall i :: 0 <= i < |cs| ==> key(cs[i].doc) != key(y)) ==> (y in r <==> y in s)
    decreases |cs|
  {
    if cs == [] then s
    else ApplyChange(ApplyChanges(s, cs[..|cs| - 1], key), cs[|cs| - 1], key)
  }

  lemma {:induction false} CountAppend<T>(s: seq<T>, x: T, key: T -> string, id: string)
    ensures CountKey(s + [x], key, id) == CountKey(s, key, id) + (if key(x) == id then 1 else 0)
    decreases |s|
  {
    if s == [] {
      assert [] + [x] == [x];
    } else {
      assert (s + [x])[1..] == s[1..] + [x];
      CountAppend(s[1..], x, key, id);
    }
  }

  lemma {:induction false} CountUpdateSameKey<T>(s: seq<T>, k: nat, x: T, key: T -> string)
    requires k < |s| && key(s[k]) == key(x)
    ensures CountKey(s[k := x], key, key(x)) == CountKey(s, key, key(x))
    decreases |s|
  {
    if k > 0 {
      assert s[k := x][1..] == s[1..][k - 1 := x];
      CountUpdateSameKey(s[1..], k - 1, x, key);
    } else {
      assert s[k := x][1..] == s[1..];
    }
  }

  /** Upserting a record twice is the same as upserting it once. */
  lemma UpsertIdempotent<T(!new)>(s: seq<T>, x: T, key: T -> string)
    ensures Upsert(Upsert(s, x, key), x, key) == Upsert(s, x, key)
  {
    var id := key(x);
    var k := IndexOfKey(s, key, id);
    var once := Upsert(s, x, key);
    if 0 <= k {
      assert forall j :: 0 <= j < k ==> once[j] == s[j];
      assert once[k] == x;
      assert IndexOfKey(once, key, id) == k;
    } else {
      assert forall j :: 0 <= j < |s| ==> once[j] == s[j];
      assert IndexOfKey(once, key, id) == |s|;
    }
  }

  /** After an upsert exactly as many elements carry the key as before, or one
      when there were none. */
  lemma UpsertCount<T(!new)>(s: seq<T>, x: T, key: T -> string)
    ensures CountKey(Upsert(s, x, key), key, key(x)) == if HasKey(s, key, key(x)) then CountKey(s, key, key(x)) else 1
  {
    var k := IndexOfKey(s, key, key(x));
    if 0 <= k {
      CountUpdateSameKey(s, k, x, key);
    } else {
      CountAppend(s, x, key, key(x));
    }
  }

  /** Upserting into a collection without duplicate keys keeps it so. */
  lemma UpsertKeepsUniqueKeys<T(!new)>(s: seq<T>, x: T, key: T -> string)
    requires UniqueKeys(s, key)
    ensures UniqueKeys(Upsert(s, x, key), key)
  {
    var k := IndexOfKey(s, key, key(x));
    var r := Upsert(s, x, key);
    if k < 0 {
      assert forall i :: 0 <= i < |s| ==> r[i] == s[i];
    }
  }

  /** A filter that every element passes returns its input unchanged. */
  lemma FilterKeepsAll<T(!new)>(s: seq<T>, p: T -> bool)
    requires forall i :: 0 <= i < |s| ==> p(s[i])
    ensures Filter(s, p) == s
  {
    SubsequenceOfSameLength(Filter(s, p), s);
  }

  /** Applying the same change twice is the same as applying it once, for all three kinds. */
  lemma ApplyChangeIdempotent<T(!new)>(s: seq<T>, c: Change<T>, key: T -> string)
    ensures ApplyChange(ApplyChange(s, c, key), c, key) == ApplyChange(s, c, key)
  {
    match c.kind
    case Added => UpsertIdempotent(s, c.doc, key);
    case Modified => UpsertIdempotent(s, c.doc, key);
    case Removed =>
      var once := RemoveKey(s, key, key(c.doc));
      FilterKeepsAll(once, x => key(x) != key(c.doc));
  }

  /** The same added or modified change delivered twice leaves exactly one record
      with its id, provided there was at most one before. */
  lemma ReplayedUpsertLeavesOne<T(!new)>(s: seq<T>, c: Change<T>, key: T -> string)
    requires c.kind != Removed
    requires CountKey(s, key, key(c.doc)) <= 1
    ensures CountKey(ApplyChange(ApplyChange(s, c, key), c, key), key, key(c.doc)) == 1
  {
    ApplyChangeIdempotent(s, c, key);
    UpsertCount(s, c.doc, key);
  }

  /** The listener reporting the same added or modified document twice in
      one batch still leaves a single element with its key. */
  lemma ReplayedBatchLeavesOne<T(!new)>(s: seq<T>, c: Change<T>, key: T -> string)
    requires c.kind != Removed
    requires CountKey(s, key, key(c.doc)) <= 1
    ensures CountKey(ApplyChanges(s, [c, c], key), key, key(c.doc)) == 1
  {
    assert [c, c] == [c] + [c];
    ApplyChangesSnoc(s, [c], c, key);
    assert [c] == [] + [c];
    ApplyChangesSnoc(s, [], c, key);
    ReplayedUpsertLeavesOne(s, c, key);
  }
}
