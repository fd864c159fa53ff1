/** The Bookmark schema: a required user, a required post, a creation
    time, and a unique index on (user, post). */
module BookmarkModel {

  import opened Common
  import opened Collection

  /** A (user, post) join row. The like collection, whose schema is not
      part of this model, is given the same shape and the same unique
      index. */
  datatype PairRow = PairRow(user: Id, post: Id, createdAt: Time)

  /** The filter `{ user, post }`. */
  function PairOf(user: Id, post: Id): PairRow -> bool {
    (r: PairRow) => r.user == user && r.post == post
  }

  /** The filter `{ post }`. */
  function OnPost(post: Id): PairRow -> bool {
    (r: PairRow) => r.post == post
  }

  /** The filter `{ user }`. */
  function ByUser(user: Id): PairRow -> bool {
    (r: PairRow) => r.user == user
  }

  /** `findOne({ user, post })` found a row: the pair is stored. */
  function HasPair(rows: map<Id, PairRow>, user: Id, post: Id, bound: nat): (b: bool)
    requires KeysBelow(rows, bound)
    ensures b <==> exists id :: id in rows && rows[id].user == user && rows[id].post == post
  {
    var found := FindFirst(rows, PairOf(user, post), bound);
    assert forall id :: id in rows && rows[id].user == user && rows[id].post == post ==>
      id in Matching(rows, PairOf(user, post));
    assert found.Some? ==> found.value in rows && PairOf(user, post)(rows[found.value]);
    found.Some?
  }

  /** The unique index: no two rows share a (user, post) pair. */
  ghost predicate UniquePairs(rows: map<Id, PairRow>) {
    forall a, b :: a in rows && b in rows && a != b ==>
      rows[a].user != rows[b].user || rows[a].post != rows[b].post
  }

  /** Storing a row under a new id keeps the index unique when no stored
      row has the row's pair. */
  lemma {:induction false} UniquePairsInsert(rows: map<Id, PairRow>, k: Id, row: PairRow)
    requires k !in rows && UniquePairs(rows)
    requires forall id :: id in rows ==> rows[id].user != row.user || rows[id].post != row.post
    ensures UniquePairs(rows[k := row])
  {
    var after := rows[k := row];
    forall a, b | a in after && b in after && a != b
      ensures after[a].user != after[b].user || after[a].post != after[b].post
    {
      if a != k && b != k {
        assert after[a] == rows[a] && after[b] == rows[b];
      }
    }
  }

  /** A row naming `post` is stored under a new id: the post's row count
      goes up by one; any other row leaves it alone. */
  lemma {:induction false} PostCountAfterInsert(rows: map<Id, PairRow>, k: Id, row: PairRow, post: Id)
    requires k !in rows
    ensures |Matching(rows[k := row], OnPost(post))|
         == |Matching(rows, OnPost(post))| + (if row.post == post then 1 else 0)
  {
    MatchingInsert(rows, OnPost(post), k, row);
  }

  /** Deleting the rows of one (user, post) pair, of which the unique index
      allows at most one, lowers that post's row count by their number. */
  lemma {:induction false} PostCountAfterRemove(rows: map<Id, PairRow>, user: Id, post: Id)
    ensures |Matching(rows - Matching(rows, PairOf(user, post)), OnPost(post))|
         == |Matching(rows, OnPost(post))| - |Matching(rows, PairOf(user, post))|
  {
    var gone := Matching(rows, PairOf(user, post));
    MatchingRemove(rows, OnPost(post), gone);
    assert gone <= Matching(rows, OnPost(post));
  }

  /** Under the unique index a (user, post) pair names at most one row. */
  lemma {:induction false} UniquePairAtMostOne(rows: map<Id, PairRow>, user: Id, post: Id)
    requires UniquePairs(rows)
    ensures |Matching(rows, PairOf(user, post))| <= 1
  {
    var m := Matching(rows, PairOf(user, post));
    if m != {} {
      var k :| k in m;
      assert m == {k};
    }
  }
}
