/** Queries over a collection of documents keyed by id, as the Mongoose
    calls of the controllers perform them (`find`, `findOne`,
    `countDocuments`, a `-createdAt` sort), and `Array.prototype.filter`
    on the client. */
module Collection {

  import opened Common

  /** Every id used in `m` was handed out before `bound`. */
  ghost predicate KeysBelow<D>(m: map<Id, D>, bound: nat) {
    forall id :: id in m ==> id < bound
  }

  /** The ids of the documents that pass the filter `keep`. */
  function Matching<D>(m: map<Id, D>, keep: D -> bool): set<Id> {
    set id | id in m && keep(m[id])
  }

  /** Inserting a new document adds its id to a filter's result exactly
      when the document passes the filter. */
  lemma MatchingInsert<D>(m: map<Id, D>, keep: D -> bool, k: Id, d: D)
    requires k !in m
    ensures Matching(m[k := d], keep) == if keep(d) then Matching(m, keep) + {k} else Matching(m, keep)
  {
  }

  /** Replacing a document by one the filter judges alike changes nothing. */
  lemma MatchingReplace<D>(m: map<Id, D>, keep: D -> bool, k: Id, d: D)
    requires k in m && keep(d) == keep(m[k])
    ensures Matching(m[k := d], keep) == Matching(m, keep)
  {
  }

  /** Deleting documents removes exactly their ids from a filter's result. */
  lemma MatchingRemove<D>(m: map<Id, D>, keep: D -> bool, ks: set<Id>)
    ensures Matching(m - ks, keep) == Matching(m, keep) - ks
  {
  }

  /** Creation times, read through `at`, are below `clock` and grow with
      the id, so a larger id is a strictly newer document. */
  ghost predicate Chronological<D>(m: map<Id, D>, at: D -> Time, clock: Time) {
    && (forall id :: id in m ==> at(m[id]) < clock)
    && (forall a, b :: a in m && b in m && a < b ==> at(m[a]) < at(m[b]))
  }

  /** A document stamped with the current time and stored under the
      next id keeps the collection chronological once the clock moves on. */
  lemma {:induction false} ChronologicalInsert<D>(m: map<Id, D>, at: D -> Time, clock: Time, k: Id, d: D)
    requires Chronological(m, at, clock) && KeysBelow(m, k) && at(d) == clock
    ensures Chronological(m[k := d], at, clock + 1)
  {
    var after := m[k := d];
    forall a, b | a in after && b in after && a < b
      ensures at(after[a]) < at(after[b])
    {
      if b == k {
        assert a in m && after[a] == m[a];
      } else if a != k {
        assert after[a] == m[a] && after[b] == m[b];
      }
    }
  }

  /** The documents below `bound` that pass `keep`, oldest first: the
      collection's natural order, since ids grow with creation. */
  function Ascending<D>(m: map<Id, D>, keep: D -> bool, bound: nat): (r: seq<Id>)
    ensures forall i :: 0 <= i < |r| ==> r[i] < bound && r[i] in Matching(m, keep)
    ensures forall id :: id < bound && id in Matching(m, keep) ==> id in r
    ensures forall i, j :: 0 <= i < j < |r| ==> r[i] < r[j]
  {
    if bound == 0 then []
    else
      var rest := Ascending(m, keep, bound - 1);
      if bound - 1 in m && keep(m[bound - 1]) then rest + [bound - 1] else rest
  }

  /** The documents below `bound` that pass `keep`, newest first. */
  function Descending<D>(m: map<Id, D>, keep: D -> bool, bound: nat): (r: seq<Id>)
    ensures forall i :: 0 <= i < |r| ==> r[i] < bound && r[i] in Matching(m, keep)
    ensures forall id :: id < bound && id in Matching(m, keep) ==> id in r
    ensures forall i, j :: 0 <= i < j < |r| ==> r[i] > r[j]
  {
    if bound == 0 then []
    else
      var rest := Descending(m, keep, bound - 1);
      if bound - 1 in m && keep(m[bound - 1]) then [bound - 1] + rest else rest
  }

  /** The ids a list holds. */
  function Members(s: seq<Id>): set<Id> {
    set x | x in s
  }

  /** A list in strictly decreasing order has as many entries as members. */
  lemma {:induction false} DescendingListCount(s: seq<Id>)
    requires forall i, j :: 0 <= i < j < |s| ==> s[i] > s[j]
    ensures |Members(s)| == |s|
  {
    if |s| > 0 {
      var tail := s[1..];
      DescendingListCount(tail);
      assert forall x :: x in tail ==> x < s[0];
      assert Members(s) == {s[0]} + Members(tail);
    }
  }

  /** Counting the documents that pass `keep` gives the length of their
      newest-first list. */
  lemma {:induction false} DescendingCount<D>(m: map<Id, D>, keep: D -> bool, bound: nat)
    requires KeysBelow(m, bound)
    ensures |Descending(m, keep, bound)| == |Matching(m, keep)|
  {
    var r := Descending(m, keep, bound);
    assert Members(r) == Matching(m, keep);
    DescendingListCount(r);
  }

  /** Two collections that agree below `bound` list the same ids there. */
  lemma {:induction false} DescendingFrame<D>(m1: map<Id, D>, m2: map<Id, D>, keep: D -> bool, bound: nat)
    requires forall id :: id < bound ==> (id in m1 <==> id in m2)
    requires forall id :: id < bound && id in m1 ==> m1[id] == m2[id]
    ensures Descending(m1, keep, bound) == Descending(m2, keep, bound)
    ensures Ascending(m1, keep, bound) == Ascending(m2, keep, bound)
  {
    if bound > 0 {
      DescendingFrame(m1, m2, keep, bound - 1);
    }
  }

  /** A document stored under the next free id heads the newest-first list
      and ends the oldest-first list, when it passes the filter. */
  lemma {:induction false} ListsAfterInsert<D>(m: map<Id, D>, keep: D -> bool, k: Id, d: D)
    requires KeysBelow(m, k)
    ensures Descending(m[k := d], keep, k + 1)
         == (if keep(d) then [k] else []) + Descending(m, keep, k)
    ensures Ascending(m[k := d], keep, k + 1)
         == Ascending(m, keep, k) + (if keep(d) then [k] else [])
  {
    DescendingFrame(m[k := d], m, keep, k);
  }

  /** `findOne(filter)`: the oldest matching document, if any. */
  function FindFirst<D>(m: map<Id, D>, keep: D -> bool, bound: nat): (r: Option<Id>)
    ensures r.Some? ==> r.value < bound && r.value in Matching(m, keep)
    ensures r.Some? ==> forall id :: id in Matching(m, keep) ==> id >= r.value
    ensures r.None? ==> forall id :: id in Matching(m, keep) ==> id >= bound
  {
    var ids := Ascending(m, keep, bound);
    if ids == [] then None
    else
      assert forall id :: id in Matching(m, keep) && id < ids[0] ==> id !in ids;
      Some(ids[0])
  }

  /** When at most one document passes `keep`, `findOne` finds exactly it. */
  lemma {:induction false} FindFirstUnique<D>(m: map<Id, D>, keep: D -> bool, bound: nat, id: Id)
    requires KeysBelow(m, bound)
    requires id in Matching(m, keep)
    requires forall other :: other in Matching(m, keep) ==> other == id
    ensures FindFirst(m, keep, bound) == Some(id)
  {
  }

  /** `b` contains the elements of `a` in the same order, possibly with
      others in between. */
  predicate IsSubsequence<T(==)>(a: seq<T>, b: seq<T>)
    decreases |b|
  {
    if a == [] then true
    else if b == [] then false
    else if a[0] == b[0] then IsSubsequence(a[1..], b[1..])
    else IsSubsequence(a, b[1..])
  }

  /** A subsequence of the tail of `b` is a subsequence of `b`. */
  lemma {:induction false} SubsequenceOfTail<T>(a: seq<T>, b: seq<T>)
    requires b != [] && IsSubsequence(a, b[1..])
    ensures IsSubsequence(a, b)
    decreases |b|, 0
  {
    if a != [] && a[0] == b[0] {
      SubsequenceDropHead(a, b[1..]);
    }
  }

  /** Dropping the first element of a subsequence leaves a subsequence. */
  lemma {:induction false} SubsequenceDropHead<T>(a: seq<T>, c: seq<T>)
    requires a != [] && IsSubsequence(a, c)
    ensures IsSubsequence(a[1..], c)
    decreases |c|, 1
  {
    if a[0] == c[0] {
      if a[1..] != [] {
        SubsequenceOfTail(a[1..], c);
      }
    } else {
      SubsequenceDropHead(a, c[1..]);
      if a[1..] != [] {
        SubsequenceOfTail(a[1..], c);
      }
    }
  }

  /** `Array.prototype.filter`. */
  function Filter<T>(s: seq<T>, keep: T -> bool): (r: seq<T>)
    ensures forall x :: x in r ==> x in s && keep(x)
    ensures forall x :: x in s && keep(x) ==> x in r
    ensures IsSubsequence(r, s)
  {
    if s == [] then []
    else
      var rest := Filter(s[1..], keep);
      if keep(s[0]) then
        assert ([s[0]] + rest)[1..] == rest;
        [s[0]] + rest
      else
        SubsequenceOfTail(rest, s);
        rest
  }

  /** `Array.prototype.find`: the first element that passes `keep`. */
  function Find<T>(s: seq<T>, keep: T -> bool): (r: Option<T>)
    ensures r.Some? ==> r.value in s && keep(r.value)
    ensures r.Some? <==> exists i :: 0 <= i < |s| && keep(s[i])
  {
    if s == [] then None
    else if keep(s[0]) then Some(s[0])
    else
      assert forall i :: 1 <= i < |s| ==> s[i] == s[1..][i - 1];
      Find(s[1..], keep)
  }

  /** The element found is the first that passes: when `s[i]` passes and
      none before it does, `s[i]` is found. */
  lemma {:induction false} FindIsFirst<T>(s: seq<T>, keep: T -> bool, i: nat)
    requires i < |s| && keep(s[i])
    requires forall j :: 0 <= j < i ==> !keep(s[j])
    ensures Find(s, keep) == Some(s[i])
  {
    if i > 0 {
      var rest := s[1..];
      assert forall j :: 0 <= j < i - 1 ==> rest[j] == s[j + 1];
      FindIsFirst(rest, keep, i - 1);
    }
  }

  /** What `find` returns is the first element that passes: it sits at
      some index with no passing element before it. */
  lemma {:induction false} FindFoundFirst<T>(s: seq<T>, keep: T -> bool)
    requires Find(s, keep).Some?
    ensures exists i ::
      && 0 <= i < |s| && s[i] == Find(s, keep).value && keep(s[i])
      && forall j :: 0 <= j < i ==> !keep(s[j])
  {
    if !keep(s[0]) {
      var rest := s[1..];
      FindFoundFirst(rest, keep);
      var i :|
        && 0 <= i < |rest| && rest[i] == Find(rest, keep).value && keep(rest[i])
        && forall j :: 0 <= j < i ==> !keep(rest[j]);
      assert s[i + 1] == rest[i];
      assert forall j :: 1 <= j < i + 1 ==> s[j] == rest[j - 1];
    } else {
      assert s[0] == Find(s, keep).value;
    }
  }

  /** Filtering with a test every element passes changes nothing. */
  lemma {:induction false} FilterKeepsAll<T>(s: seq<T>, keep: T -> bool)
    requires forall i :: 0 <= i < |s| ==> keep(s[i])
    ensures Filter(s, keep) == s
  {
    if s != [] {
      FilterKeepsAll(s[1..], keep);
    }
  }

  /** Filtering distributes over concatenation. */
  lemma {:induction false} FilterAppend<T>(a: seq<T>, b: seq<T>, keep: T -> bool)
    ensures Filter(a + b, keep) == Filter(a, keep) + Filter(b, keep)
  {
    if a == [] {
      assert a + b == b;
    } else {
      assert (a + b)[1..] == a[1..] + b;
      FilterAppend(a[1..], b, keep);
    }
  }

  /** Each element is larger than the next: newest first, when ids grow
      with creation time. */
  predicate StrictlyDescending(s: seq<Id>) {
    forall i, j :: 0 <= i < j < |s| ==> s[i] > s[j]
  }

  /** Filtering a newest-first list keeps it newest first. */
  lemma {:induction false} FilterKeepsDescending(s: seq<Id>, keep: Id -> bool)
    requires StrictlyDescending(s)
    ensures StrictlyDescending(Filter(s, keep))
  {
    if s != [] {
      var rest := Filter(s[1..], keep);
      FilterKeepsDescending(s[1..], keep);
      if keep(s[0]) {
        var r := [s[0]] + rest;
        forall i, j | 0 <= i < j < |r| ensures r[i] > r[j] {
          if i == 0 {
            assert r[j] == rest[j - 1] && rest[j - 1] in s[1..];
          } else {
            assert r[i] == rest[i - 1] && r[j] == rest[j - 1];
          }
        }
      }
    }
  }

  /** No element occurs twice. */
  predicate NoDuplicates<T(==)>(s: seq<T>) {
    forall i, j :: 0 <= i < j < |s| ==> s[i] != s[j]
  }

  /** Appending an element not yet present keeps a list free of
      duplicates. */
  lemma AppendKeepsNoDuplicates<T>(s: seq<T>, x: T)
    requires NoDuplicates(s) && x !in s
    ensures NoDuplicates(s + [x])
  {
    var r := s + [x];
    forall i, j | 0 <= i < j < |r| ensures r[i] != r[j] {
      assert r[i] == s[i];
    }
  }
}
