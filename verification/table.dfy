/** The follower multimap of `Db` (src/database/table.rs): `followers_table`
    maps a followee to the set of players following them. The store is
    abstracted to the table's contents plus whether the table has been created;
    store failures are an explicit input naming the step that fails. */
module Table {
  import opened Wrappers
  import opened Ints

  type Uid = U64

  /** The committed state of `followers_table`. redb creates the table the
      first time a write transaction opens it and commits; until then a read
      transaction cannot open it. A followee with no followers has no key. */
  datatype FollowDb = FollowDb(tableExists: bool, followers: map<Uid, set<Uid>>)

  /** The steps of `insert_follow_table` that can fail. */
  datatype WriteStep = BeginWrite | OpenForWrite | InsertPair | Commit

  /** The steps of `qurey_follow_table` that can fail. */
  datatype ReadStep = BeginRead | OpenForRead | GetValues | ReadValue

  datatype DbError =
    | WriteFailed(writeStep: WriteStep)
    | ReadFailed(readStep: ReadStep)
    | TableDoesNotExist

  /** A freshly created store: no follower table yet. */
  const EmptyDb := FollowDb(false, map[])

  /** The followers recorded for `followee` (none when it has no key). */
  function Followers(db: FollowDb, followee: Uid): set<Uid>
  {
    if followee in db.followers then db.followers[followee] else {}
  }

  /** The state invariant: no followee is recorded with an empty set, and
      nothing is recorded before the table exists. */
  ghost predicate Valid(db: FollowDb)
  {
    && (forall k :: k in db.followers ==> db.followers[k] != {})
    && (!db.tableExists ==> db.followers == map[])
  }

  /** `insert_follow_table(followee, follower)`: one write transaction that
      opens (creating if needed) the table, inserts the pair and commits. If
      any step fails the transaction is dropped uncommitted and the state is
      untouched; on success exactly the one pair is added. */
  function InsertFollow(db: FollowDb, followee: Uid, follower: Uid, fault: Option<WriteStep>): (r: (Result<(), DbError>, FollowDb))
    ensures fault.Some? ==> r.0 == Failure(WriteFailed(fault.value)) && r.1 == db
    ensures fault.None? ==> r.0.Success? && r.1.tableExists
    ensures fault.None? ==> Followers(r.1, followee) == Followers(db, followee) + {follower}
    ensures forall c :: c != followee ==> Followers(r.1, c) == Followers(db, c)
    ensures Valid(db) ==> Valid(r.1)
  {
    match fault
    case Some(step) => (Failure(WriteFailed(step)), db)
    case None =>
      (Success(()), FollowDb(true, db.followers[followee := Followers(db, followee) + {follower}]))
  }

  /** `qurey_follow_table(uid)`: one read transaction that opens the table and
      reads the values stored under `uid`, in the ascending order redb keeps
      multimap values in. Any failing step, or a table never created, is an
      error. */
  ghost function QueryFollowers(db: FollowDb, uid: Uid, fault: Option<ReadStep>): (r: Result<seq<Uid>, DbError>)
    ensures r.Success? <==> fault.None? && db.tableExists
    ensures fault == Some(BeginRead) ==> r == Failure(ReadFailed(BeginRead))
    ensures fault != Some(BeginRead) && !db.tableExists ==> r == Failure(TableDoesNotExist)
    ensures fault.Some? && db.tableExists ==> r == Failure(ReadFailed(fault.value))
    ensures r.Success? ==> |r.value| == |Followers(db, uid)|
    ensures r.Success? ==> forall x :: x in r.value <==> x in Followers(db, uid)
    ensures r.Success? ==> forall i, j :: 0 <= i < j < |r.value| ==> r.value[i] < r.value[j]
  {
    if fault == Some(BeginRead) then Failure(ReadFailed(BeginRead))
    else if !db.tableExists then Failure(TableDoesNotExist)
    else if fault.Some? then Failure(ReadFailed(fault.value))
    else Success(Ascending(Followers(db, uid)))
  }

  /** The least element of a non-empty set of ids. */
  ghost function MinOf(s: set<Uid>): (m: Uid)
    requires s != {}
    ensures m in s
    ensures forall y :: y in s ==> m <= y
  {
    var x :| x in s;
    if s == {x} then
      assert forall y :: y in s ==> y == x;
      x
    else
      var m := MinOf(s - {x});
      assert forall y :: y in s ==> y == x || y in s - {x};
      if x < m then x else m
  }

  /** The elements of a set of ids in strictly ascending order. */
  ghost function Ascending(s: set<Uid>): (r: seq<Uid>)
    ensures |r| == |s|
    ensures forall x :: x in r <==> x in s
    ensures forall i, j :: 0 <= i < j < |r| ==> r[i] < r[j]
    decreases |s|
  {
    if s == {} then []
    else
      var m := MinOf(s);
      var rest := Ascending(s - {m});
      PrependLeast(m, rest, s - {m});
      assert |s - {m}| == |s| - 1;
      [m] + rest
  }

  /** Putting an element below everything in front of the ascending listing
      of a set lists the set with that element added. */
  lemma PrependLeast(m: Uid, rest: seq<Uid>, s: set<Uid>)
    requires m !in s
    requires forall x :: x in rest <==> x in s
    requires forall i, j :: 0 <= i < j < |rest| ==> rest[i] < rest[j]
    requires forall x :: x in s ==> m < x
    ensures forall x :: x in [m] + rest <==> x == m || x in s
    ensures forall i, j :: 0 <= i < j < |[m] + rest| ==> ([m] + rest)[i] < ([m] + rest)[j]
  {
    var r := [m] + rest;
    forall i, j | 0 <= i < j < |r|
      ensures r[i] < r[j]
    {
      assert r[j] == rest[j - 1];
      if i > 0 {
        assert r[i] == rest[i - 1];
      } else {
        assert rest[j - 1] in s;
      }
    }
  }

  /** After a successful insert of (a, b), querying a returns b. */
  lemma InsertThenQueryFinds(db: FollowDb, a: Uid, b: Uid)
    ensures QueryFollowers(InsertFollow(db, a, b, None).1, a, None).Success?
    ensures b in QueryFollowers(InsertFollow(db, a, b, None).1, a, None).value
  {
  }

  /** In a valid state, inserting a pair that is already present leaves the
      state unchanged: the pair's presence implies the table exists. */
  lemma InsertIdempotent(db: FollowDb, a: Uid, b: Uid)
    requires Valid(db) && b in Followers(db, a)
    ensures InsertFollow(db, a, b, None).1 == db
  {
    assert a in db.followers;
    assert db.followers != map[];
    assert db.tableExists;
    assert Followers(db, a) + {b} == db.followers[a];
    assert db.followers[a := Followers(db, a) + {b}] == db.followers;
  }

  /** Inserting the same pair twice gives the same state as inserting it once. */
  lemma InsertTwiceIsOnce(db: FollowDb, a: Uid, b: Uid)
    ensures InsertFollow(InsertFollow(db, a, b, None).1, a, b, None).1 == InsertFollow(db, a, b, None).1
  {
    var once := InsertFollow(db, a, b, None).1;
    assert Followers(once, a) + {b} == once.followers[a];
    assert once.followers[a := Followers(once, a) + {b}] == once.followers;
  }

  /** Insertions commute: the final state does not depend on their order. */
  lemma InsertCommutes(db: FollowDb, a1: Uid, b1: Uid, a2: Uid, b2: Uid)
    ensures InsertFollow(InsertFollow(db, a1, b1, None).1, a2, b2, None).1
         == InsertFollow(InsertFollow(db, a2, b2, None).1, a1, b1, None).1
  {
    var s12 := InsertFollow(InsertFollow(db, a1, b1, None).1, a2, b2, None).1;
    var s21 := InsertFollow(InsertFollow(db, a2, b2, None).1, a1, b1, None).1;
    assert s12.followers.Keys == s21.followers.Keys;
    forall k | k in s12.followers
      ensures s12.followers[k] == s21.followers[k]
    {
      assert Followers(s12, k) == Followers(s21, k);
    }
  }

  /** Once the table exists, a followee nobody has followed is reported with an
      empty list. */
  lemma QueryUnfollowedIsEmpty(db: FollowDb, uid: Uid)
    requires db.tableExists && uid !in db.followers
    ensures QueryFollowers(db, uid, None) == Success([])
  {
  }

  /** On a fresh store the follower table does not exist yet, so a query is an
      error rather than an empty list. */
  lemma QueryBeforeAnyInsertFails(uid: Uid)
    ensures QueryFollowers(EmptyDb, uid, None) == Failure(TableDoesNotExist)
  {
  }

  /** The query result is the follower set: no duplicates, and a member
      exactly when it was inserted for that followee. */
  lemma QueryHasNoDuplicates(db: FollowDb, uid: Uid)
    requires db.tableExists
    ensures var r := QueryFollowers(db, uid, None);
            r.Success? && forall i, j :: 0 <= i < |r.value| && 0 <= j < |r.value| && i != j ==> r.value[i] != r.value[j]
  {
    var r := QueryFollowers(db, uid, None);
    forall i, j | 0 <= i < |r.value| && 0 <= j < |r.value| && i != j
      ensures r.value[i] != r.value[j]
    {
      if i < j { assert r.value[i] < r.value[j]; } else { assert r.value[j] < r.value[i]; }
    }
  }
}
