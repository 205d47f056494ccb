/**
 * The Go back end's database layer (internal/database/db.go): the four
 * tables, the two-counter vote reconciler behind VotePost and VoteComment
 * (and processVote, which is the same code with the item type as a
 * parameter), and the listing queries.
 *
 * A table is a map from its primary key to the rest of the row. The votes
 * table is keyed by (client_id, (item_type, item_id)), the UNIQUE constraint
 * of its schema, so at most one row per client and item is structural.
 */
module Database {
  import opened Wrappers
  import opened Tally
  import opened Collections
  import opened Ordering
  import Models

  /** The item a vote row is about: item_type ('post' or 'comment') and item_id. */
  datatype ItemRef = ItemRef(itemType: string, itemId: int)

  /** (client_id, item): the UNIQUE key of the votes table. */
  type VoteKey = (string, ItemRef)

  /** The vote_type column of each row: 1 for an upvote, -1 for a downvote. */
  type VoteTable = map<VoteKey, int>

  /** The upvotes and downvotes columns of a post or comment row. */
  datatype Counters = Counters(upvotes: int, downvotes: int)

  datatype CommunityRow = CommunityRow(name: string, description: string, createdAt: int)
  datatype PostRow = PostRow(title: string, content: string, communityId: int, createdAt: int, counters: Counters)
  datatype CommentRow = CommentRow(content: string, postId: int, parentId: Option<int>, createdAt: int, counters: Counters)

  /** The whole database at one moment. */
  datatype Tables = Tables(communities: map<int, CommunityRow>, posts: map<int, PostRow>,
                           comments: map<int, CommentRow>, votes: VoteTable)

  /** Where a vote transaction fails, if it does. */
  datatype TxFault =
    | NoFault
    | BeginFails         // db.Begin() returns an error
    | LookupFails        // the SELECT of the existing row fails (other than sql.ErrNoRows)
    | RowWriteFails      // the INSERT, DELETE or UPDATE of the vote row fails
    | CounterWriteFails  // the UPDATE of the counters fails
    | CommitFails        // tx.Commit() fails

  /** A fault before COMMIT: the statement's error is returned and the deferred closure rolls back. */
  predicate StatementFault(fault: TxFault)
  {
    fault == BeginFails || fault == LookupFails || fault == RowWriteFails || fault == CounterWriteFails
  }

  function Plus(c: Counters, d: Counters): Counters
  {
    Counters(c.upvotes + d.upvotes, c.downvotes + d.downvotes)
  }

  function Minus(c: Counters, d: Counters): Counters
  {
    Counters(c.upvotes - d.upvotes, c.downvotes - d.downvotes)
  }

  function Score(c: Counters): int
  {
    c.upvotes - c.downvotes
  }

  predicate IsUnit(voteType: int)
  {
    voteType == 1 || voteType == -1
  }

  // ---------------------------------------------------------------------
  // The vote transition
  // ---------------------------------------------------------------------

  /**
   * The client's row after the vote: deleted when it already held the same
   * vote_type (toggle off), otherwise inserted or updated to the new one.
   */
  function NextRow(existing: Option<int>, voteType: int): (next: Option<int>)
    ensures next.None? <==> existing == Some(voteType)
    ensures next.Some? ==> next.value == voteType
  {
    if existing == Some(voteType) then None else Some(voteType)
  }

  /**
   * The counter UPDATE each branch issues. Only `voteType == 1` is tested: any
   * other value takes the downvote branch.
   */
  function CounterDelta(existing: Option<int>, voteType: int): Counters
  {
    if existing.None? then
      (if voteType == 1 then Counters(1, 0) else Counters(0, 1))
    else if existing.value == voteType then
      (if voteType == 1 then Counters(-1, 0) else Counters(0, -1))
    else
      (if voteType == 1 then Counters(1, -1) else Counters(-1, 1))
  }

  /** Every branch moves at least one counter. */
  lemma CounterDeltaMoves(existing: Option<int>, voteType: int)
    ensures CounterDelta(existing, voteType) != Counters(0, 0)
  {
  }

  /** `UPDATE posts SET ... WHERE id = ?`: a missing id matches no row. */
  function BumpPost(posts: map<int, PostRow>, id: int, delta: Counters): (r: map<int, PostRow>)
    ensures r.Keys == posts.Keys
    ensures id in posts ==> r[id] == posts[id].(counters := Plus(posts[id].counters, delta))
    ensures forall p :: p in posts && p != id ==> r[p] == posts[p]
  {
    if id in posts then posts[id := posts[id].(counters := Plus(posts[id].counters, delta))] else posts
  }

  /** `UPDATE comments SET ... WHERE id = ?`: a missing id matches no row. */
  function BumpComment(comments: map<int, CommentRow>, id: int, delta: Counters): (r: map<int, CommentRow>)
    ensures r.Keys == comments.Keys
    ensures id in comments ==> r[id] == comments[id].(counters := Plus(comments[id].counters, delta))
    ensures forall c :: c in comments && c != id ==> r[c] == comments[c]
  {
    if id in comments then comments[id := comments[id].(counters := Plus(comments[id].counters, delta))] else comments
  }

  /**
   * The tables after a committed vote transaction. An item type of "post"
   * updates the posts table; every other item type updates the comments table.
   */
  function AfterVote(t: Tables, itemType: string, itemId: int, clientId: string, voteType: int): Tables
  {
    var key := (clientId, ItemRef(itemType, itemId));
    var existing := Lookup(t.votes, key);
    var delta := CounterDelta(existing, voteType);
    t.(votes := Put(t.votes, key, NextRow(existing, voteType)),
       posts := if itemType == "post" then BumpPost(t.posts, itemId, delta) else t.posts,
       comments := if itemType == "post" then t.comments else BumpComment(t.comments, itemId, delta))
  }

  // ---------------------------------------------------------------------
  // The counter invariant
  // ---------------------------------------------------------------------

  /** The counters an item should have: its type-1 rows and its type -1 rows. */
  function TallyOf(votes: VoteTable, item: ItemRef): Counters
  {
    Counters(Count(votes, item, 1), Count(votes, item, -1))
  }

  /** Every upvotes column counts the item's type-1 rows and every downvotes column its type -1 rows. */
  ghost predicate Tallied(t: Tables)
  {
    PostsTallied(t.posts, t.votes) && CommentsTallied(t.comments, t.votes)
  }

  ghost predicate PostsTallied(posts: map<int, PostRow>, votes: VoteTable)
  {
    forall id :: id in posts ==> posts[id].counters == TallyOf(votes, ItemRef("post", id))
  }

  ghost predicate CommentsTallied(comments: map<int, CommentRow>, votes: VoteTable)
  {
    forall id :: id in comments ==> comments[id].counters == TallyOf(votes, ItemRef("comment", id))
  }

  /** Every stored vote_type is 1 or -1. */
  ghost predicate UnitRows(votes: VoteTable)
  {
    forall k :: k in votes ==> IsUnit(votes[k])
  }

  ghost predicate Consistent(t: Tables)
  {
    UnitRows(t.votes) && Tallied(t)
  }

  /** What one row contributes to its item's counters. */
  function RowCounters(row: Option<int>): Counters
  {
    Counters(Indicator(row == Some(1)), Indicator(row == Some(-1)))
  }

  /**
   * For a vote_type of 1 or -1 and a prior row of 1, -1 or none, the counter
   * UPDATE is exactly the new row's contribution minus the old row's.
   */
  lemma DeltaIsRowChange(existing: Option<int>, voteType: int)
    requires IsUnit(voteType)
    requires existing.None? || IsUnit(existing.value)
    ensures CounterDelta(existing, voteType) == Minus(RowCounters(NextRow(existing, voteType)), RowCounters(existing))
  {
  }

  /** Writing one row moves its item's tally by the row's change, and no other item's. */
  lemma TallyAfterPut(votes: VoteTable, k: VoteKey, row: Option<int>, item: ItemRef)
    ensures k.1 != item ==> TallyOf(Put(votes, k, row), item) == TallyOf(votes, item)
    ensures k.1 == item ==> TallyOf(Put(votes, k, row), item)
                            == Plus(TallyOf(votes, item), Minus(RowCounters(row), RowCounters(Lookup(votes, k))))
  {
    if k.1 == item {
      TallyOwnItem(votes, k, row);
    } else {
      TallyOtherItem(votes, k, row, item);
    }
  }

  lemma TallyOwnItem(votes: VoteTable, k: VoteKey, row: Option<int>)
    ensures TallyOf(Put(votes, k, row), k.1)
            == Plus(TallyOf(votes, k.1), Minus(RowCounters(row), RowCounters(Lookup(votes, k))))
  {
    CountOwnItem(votes, k, row, 1);
    CountOwnItem(votes, k, row, -1);
  }

  lemma CountOwnItem(votes: VoteTable, k: VoteKey, row: Option<int>, value: int)
    ensures Count(Put(votes, k, row), k.1, value)
            == Count(votes, k.1, value) - Indicator(Lookup(votes, k) == Some(value)) + Indicator(row == Some(value))
  {
    CountAfterPut(votes, k, row, k.1, value);
  }

  lemma TallyOtherItem(votes: VoteTable, k: VoteKey, row: Option<int>, item: ItemRef)
    requires k.1 != item
    ensures TallyOf(Put(votes, k, row), item) == TallyOf(votes, item)
  {
    CountAfterPut(votes, k, row, item, 1);
    CountAfterPut(votes, k, row, item, -1);
  }

  /** Writing a row of 1 or -1 keeps every row 1 or -1. */
  lemma RowsStayUnit(votes: VoteTable, key: VoteKey, next: Option<int>)
    requires UnitRows(votes) && (next.None? || IsUnit(next.value))
    ensures UnitRows(Put(votes, key, next))
  {
    var votes' := Put(votes, key, next);
    forall k | k in votes' ensures IsUnit(votes'[k]) {
      if k != key {
        assert Lookup(votes', k) == Lookup(votes, k);
      }
    }
  }

  /** A post's row written and its counters moved by the row's change: the posts stay tallied. */
  lemma PostsFollowRow(posts: map<int, PostRow>, votes: VoteTable, key: VoteKey, next: Option<int>, delta: Counters)
    requires PostsTallied(posts, votes) && key.1.itemType == "post"
    requires delta == Minus(RowCounters(next), RowCounters(Lookup(votes, key)))
    ensures PostsTallied(BumpPost(posts, key.1.itemId, delta), Put(votes, key, next))
  {
    var posts' := BumpPost(posts, key.1.itemId, delta);
    assert key.1 == ItemRef("post", key.1.itemId);
    forall id | id in posts' ensures posts'[id].counters == TallyOf(Put(votes, key, next), ItemRef("post", id)) {
      TallyAfterPut(votes, key, next, ItemRef("post", id));
      if id == key.1.itemId {
        assert posts'[id].counters == Plus(posts[id].counters, delta);
      } else {
        assert ItemRef("post", id) != key.1;
      }
    }
  }

  /** A row of another item type written: the posts stay tallied. */
  lemma PostsIgnoreRow(posts: map<int, PostRow>, votes: VoteTable, key: VoteKey, next: Option<int>)
    requires PostsTallied(posts, votes) && key.1.itemType != "post"
    ensures PostsTallied(posts, Put(votes, key, next))
  {
    forall id | id in posts ensures posts[id].counters == TallyOf(Put(votes, key, next), ItemRef("post", id)) {
      TallyAfterPut(votes, key, next, ItemRef("post", id));
    }
  }

  /** A comment's row written and its counters moved by the row's change: the comments stay tallied. */
  lemma CommentsFollowRow(comments: map<int, CommentRow>, votes: VoteTable, key: VoteKey, next: Option<int>, delta: Counters)
    requires CommentsTallied(comments, votes) && key.1.itemType == "comment"
    requires delta == Minus(RowCounters(next), RowCounters(Lookup(votes, key)))
    ensures CommentsTallied(BumpComment(comments, key.1.itemId, delta), Put(votes, key, next))
  {
    var comments' := BumpComment(comments, key.1.itemId, delta);
    assert key.1 == ItemRef("comment", key.1.itemId);
    forall id | id in comments' ensures comments'[id].counters == TallyOf(Put(votes, key, next), ItemRef("comment", id)) {
      TallyAfterPut(votes, key, next, ItemRef("comment", id));
      if id == key.1.itemId {
        assert comments'[id].counters == Plus(comments[id].counters, delta);
      } else {
        assert ItemRef("comment", id) != key.1;
      }
    }
  }

  /** A row of another item type written: the comments stay tallied. */
  lemma CommentsIgnoreRow(comments: map<int, CommentRow>, votes: VoteTable, key: VoteKey, next: Option<int>)
    requires CommentsTallied(comments, votes) && key.1.itemType != "comment"
    ensures CommentsTallied(comments, Put(votes, key, next))
  {
    forall id | id in comments ensures comments[id].counters == TallyOf(Put(votes, key, next), ItemRef("comment", id)) {
      TallyAfterPut(votes, key, next, ItemRef("comment", id));
    }
  }

  /**
   * A vote of 1 or -1 on a post or a comment keeps every counter equal to the
   * count of its rows, and every row's vote_type 1 or -1.
   */
  lemma VoteKeepsTally(t: Tables, itemType: string, itemId: int, clientId: string, voteType: int)
    requires Consistent(t)
    requires IsUnit(voteType) && (itemType == "post" || itemType == "comment")
    ensures Consistent(AfterVote(t, itemType, itemId, clientId, voteType))
  {
    var key := (clientId, ItemRef(itemType, itemId));
    var existing := Lookup(t.votes, key);
    var next := NextRow(existing, voteType);
    var delta := CounterDelta(existing, voteType);
    DeltaIsRowChange(existing, voteType);
    RowsStayUnit(t.votes, key, next);
    if itemType == "post" {
      PostsFollowRow(t.posts, t.votes, key, next, delta);
      CommentsIgnoreRow(t.comments, t.votes, key, next);
    } else {
      CommentsFollowRow(t.comments, t.votes, key, next, delta);
      PostsIgnoreRow(t.posts, t.votes, key, next);
    }
  }

  // ---------------------------------------------------------------------
  // Toggle and flip
  // ---------------------------------------------------------------------

  /**
   * Toggle: voting the same way twice, starting from no row or from that same
   * vote, gives back the tables as they were.
   */
  lemma RepeatedVoteRestores(t: Tables, itemType: string, itemId: int, clientId: string, voteType: int)
    requires var e := Lookup(t.votes, (clientId, ItemRef(itemType, itemId))); e.None? || e == Some(voteType)
    ensures AfterVote(AfterVote(t, itemType, itemId, clientId, voteType), itemType, itemId, clientId, voteType) == t
  {
    var key := (clientId, ItemRef(itemType, itemId));
    var e := Lookup(t.votes, key);
    var t1 := AfterVote(t, itemType, itemId, clientId, voteType);
    var e1 := NextRow(e, voteType);
    assert Lookup(t1.votes, key) == e1;
    assert NextRow(e1, voteType) == e;
    PutBack(t.votes, key, e1);
    var d, d1 := CounterDelta(e, voteType), CounterDelta(e1, voteType);
    assert Plus(d, d1) == Counters(0, 0);
    BumpPostTwice(t.posts, itemId, d, d1);
    BumpCommentTwice(t.comments, itemId, d, d1);
  }

  /** Two counter UPDATEs that cancel leave the posts table as it was. */
  lemma BumpPostTwice(posts: map<int, PostRow>, id: int, d: Counters, d1: Counters)
    requires Plus(d, d1) == Counters(0, 0)
    ensures BumpPost(BumpPost(posts, id, d), id, d1) == posts
  {
    if id in posts {
      assert Plus(Plus(posts[id].counters, d), d1) == posts[id].counters;
      assert BumpPost(BumpPost(posts, id, d), id, d1)[id] == posts[id];
    }
  }

  /** Two counter UPDATEs that cancel leave the comments table as it was. */
  lemma BumpCommentTwice(comments: map<int, CommentRow>, id: int, d: Counters, d1: Counters)
    requires Plus(d, d1) == Counters(0, 0)
    ensures BumpComment(BumpComment(comments, id, d), id, d1) == comments
  {
    if id in comments {
      assert Plus(Plus(comments[id].counters, d), d1) == comments[id].counters;
      assert BumpComment(BumpComment(comments, id, d), id, d1)[id] == comments[id];
    }
  }

  /**
   * Flip: voting against an existing vote of 1 or -1 moves one unit from one
   * counter to the other, so upvotes + downvotes is unchanged and the score
   * moves by twice the new vote.
   */
  lemma FlipMovesOneUnit(existing: int, voteType: int)
    requires IsUnit(existing) && IsUnit(voteType) && existing != voteType
    ensures var d := CounterDelta(Some(existing), voteType);
            d.upvotes + d.downvotes == 0 && Score(d) == 2 * voteType
            && NextRow(Some(existing), voteType) == Some(voteType)
  {
  }

  /** From no row, an upvote then a downvote leaves a -1 row, one downvote and no upvote more than before. */
  lemma UpThenDown(t: Tables, itemId: int, clientId: string)
    requires Lookup(t.votes, (clientId, ItemRef("post", itemId))).None? && itemId in t.posts
    ensures var t2 := AfterVote(AfterVote(t, "post", itemId, clientId, 1), "post", itemId, clientId, -1);
            && Lookup(t2.votes, (clientId, ItemRef("post", itemId))) == Some(-1)
            && t2.posts[itemId].counters == Plus(t.posts[itemId].counters, Counters(0, 1))
  {
  }

  // ---------------------------------------------------------------------
  // The deferred commit
  // ---------------------------------------------------------------------

  /** The transaction's writes became visible: no statement failed and the COMMIT went through. */
  predicate Committed(stepFailed: bool, commitFailed: bool)
  {
    !stepFailed && !commitFailed
  }

  /**
   * The error VotePost, VoteComment and processVote return, as written. `err`
   * is a local variable, not a named result: the value of `return nil` is
   * fixed before the deferred closure stores tx.Commit()'s error into `err`,
   * so a failed commit is reported as success.
   */
  function DeferredResultAsWritten(stepFailed: bool, commitFailed: bool): (failed: bool)
  {
    stepFailed
  }

  /** With `err` a named result, the deferred commit's error reaches the caller. */
  function DeferredResult(stepFailed: bool, commitFailed: bool): (failed: bool)
    ensures failed <==> !Committed(stepFailed, commitFailed)
  {
    stepFailed || commitFailed
  }

  /** As written, a failed COMMIT returns nil although nothing was written. */
  lemma CommitFailureReportedAsSuccess()
    ensures !Committed(false, true) && !DeferredResultAsWritten(false, true)
  {
  }

  // ---------------------------------------------------------------------
  // The store and the reconciler
  // ---------------------------------------------------------------------

  class Store {
    var communities: map<int, CommunityRow>
    var posts: map<int, PostRow>
    var comments: map<int, CommentRow>
    var votes: VoteTable

    /** InitDB: every table starts empty. */
    constructor ()
      ensures Snapshot() == Tables(map[], map[], map[], map[])
    {
      communities, posts, comments, votes := map[], map[], map[], map[];
    }

    function Snapshot(): Tables
      reads this
    {
      Tables(communities, posts, comments, votes)
    }

    ghost predicate Valid()
      reads this
    {
      Consistent(Snapshot())
    }
  }

  /**
   * The transaction shared by VotePost, VoteComment and processVote: it reads
   * the client's row, then inserts, deletes or updates it and updates the
   * item's counters. A failing statement rolls the transaction back, and so
   * does a COMMIT that fails: the writes become visible only when both the
   * statements and the COMMIT succeed.
   */
  method RunVoteTransaction(db: Store, itemType: string, itemId: int, clientId: string, voteType: int, fault: TxFault)
    returns (stepFailed: bool, commitFailed: bool)
    modifies db
    ensures stepFailed <==> StatementFault(fault)
    ensures commitFailed <==> fault == CommitFails
    ensures fault == NoFault ==> db.Snapshot() == AfterVote(old(db.Snapshot()), itemType, itemId, clientId, voteType)
    ensures fault != NoFault ==> db.Snapshot() == old(db.Snapshot())
  {
    if fault == BeginFails {
      return true, false;
    }
    // BEGIN: the statements work on the transaction's view of the tables.
    var votes, posts, comments := db.votes, db.posts, db.comments;
    var key := (clientId, ItemRef(itemType, itemId));
    stepFailed := fault == LookupFails;
    if !stepFailed {
      var existing := Lookup(votes, key);
      var delta := Counters(0, 0);
      stepFailed := fault == RowWriteFails;
      if !stepFailed {
        if existing.Some? {
          if existing.value == voteType {
            votes := votes - {key};  // DELETE: toggle off
            delta := if voteType == 1 then Counters(-1, 0) else Counters(0, -1);
          } else {
            votes := votes[key := voteType];  // UPDATE vote_type
            delta := if voteType == 1 then Counters(1, -1) else Counters(-1, 1);
          }
        } else {
          votes := votes[key := voteType];  // INSERT
          delta := if voteType == 1 then Counters(1, 0) else Counters(0, 1);
        }
        assert votes == Put(db.votes, key, NextRow(existing, voteType));
        assert delta == CounterDelta(existing, voteType);
        stepFailed := fault == CounterWriteFails;
        if !stepFailed {
          if itemType == "post" {
            if itemId in posts {
              posts := posts[itemId := posts[itemId].(counters := Plus(posts[itemId].counters, delta))];
            }
          } else {
            if itemId in comments {
              comments := comments[itemId := comments[itemId].(counters := Plus(comments[itemId].counters, delta))];
            }
          }
        }
      }
    }
    commitFailed := !stepFailed && fault == CommitFails;
    if Committed(stepFailed, commitFailed) {
      db.votes, db.posts, db.comments := votes, posts, comments;  // COMMIT
    }
    // Otherwise ROLLBACK, or a COMMIT that failed: nothing becomes visible.
  }

  /**
   * The reconciler as written: a statement's error is returned, but the
   * error of a failed COMMIT is lost, so the call returns nil although
   * nothing was written.
   */
  method ReconcileVote(db: Store, itemType: string, itemId: int, clientId: string, voteType: int, fault: TxFault)
    returns (failed: bool)
    modifies db
    ensures failed <==> StatementFault(fault)
    ensures fault == NoFault ==> db.Snapshot() == AfterVote(old(db.Snapshot()), itemType, itemId, clientId, voteType)
    ensures fault != NoFault ==> db.Snapshot() == old(db.Snapshot())
  {
    var stepFailed, commitFailed := RunVoteTransaction(db, itemType, itemId, clientId, voteType, fault);
    failed := DeferredResultAsWritten(stepFailed, commitFailed);
  }

  /**
   * The reconciler with `err` a named result: the call fails exactly when the
   * transaction did not commit, and the tables change exactly when it did.
   */
  method ReconcileVoteChecked(db: Store, itemType: string, itemId: int, clientId: string, voteType: int, fault: TxFault)
    returns (failed: bool)
    modifies db
    ensures failed <==> fault != NoFault
    ensures !failed ==> db.Snapshot() == AfterVote(old(db.Snapshot()), itemType, itemId, clientId, voteType)
    ensures failed ==> db.Snapshot() == old(db.Snapshot())
  {
    var stepFailed, commitFailed := RunVoteTransaction(db, itemType, itemId, clientId, voteType, fault);
    failed := DeferredResult(stepFailed, commitFailed);
  }

  /** VotePost: the reconciler on `item_type = 'post'` rows and the posts table. */
  method VotePost(db: Store, postId: int, clientId: string, voteType: int, fault: TxFault) returns (failed: bool)
    modifies db
    ensures failed <==> StatementFault(fault)
    ensures fault == NoFault ==> db.Snapshot() == AfterVote(old(db.Snapshot()), "post", postId, clientId, voteType)
    ensures fault != NoFault ==> db.Snapshot() == old(db.Snapshot())
    ensures old(db.Valid()) && IsUnit(voteType) ==> db.Valid()
  {
    if db.Valid() && IsUnit(voteType) {
      VoteKeepsTally(db.Snapshot(), "post", postId, clientId, voteType);
    }
    failed := ReconcileVote(db, "post", postId, clientId, voteType, fault);
  }

  /** VoteComment: the reconciler on `item_type = 'comment'` rows and the comments table. */
  method VoteComment(db: Store, commentId: int, clientId: string, voteType: int, fault: TxFault) returns (failed: bool)
    modifies db
    ensures failed <==> StatementFault(fault)
    ensures fault == NoFault ==> db.Snapshot() == AfterVote(old(db.Snapshot()), "comment", commentId, clientId, voteType)
    ensures fault != NoFault ==> db.Snapshot() == old(db.Snapshot())
    ensures old(db.Valid()) && IsUnit(voteType) ==> db.Valid()
  {
    if db.Valid() && IsUnit(voteType) {
      VoteKeepsTally(db.Snapshot(), "comment", commentId, clientId, voteType);
    }
    failed := ReconcileVote(db, "comment", commentId, clientId, voteType, fault);
  }

  // ---------------------------------------------------------------------
  // Listing queries
  // ---------------------------------------------------------------------

  /** `(SELECT COUNT(*) FROM comments WHERE post_id = p.id)`. */
  function CommentCount(comments: map<int, CommentRow>, postId: int): nat
  {
    |set id | id in comments && comments[id].postId == postId|
  }

  /** A post survives the inner JOIN on communities, and the community filter when one is given. */
  predicate Listed(t: Tables, communityId: int, id: int)
  {
    id in t.posts && t.posts[id].communityId in t.communities
    && (communityId > 0 ==> t.posts[id].communityId == communityId)
  }

  /** The record GetPosts builds for one row: score is upvotes - downvotes. */
  function PostView(t: Tables, id: int): (p: Models.Post)
    requires id in t.posts && t.posts[id].communityId in t.communities
    ensures p.id == id && p.score == p.upvotes - p.downvotes
    ensures p.upvotes == t.posts[id].counters.upvotes && p.downvotes == t.posts[id].counters.downvotes
  {
    var row := t.posts[id];
    Models.Post(id, row.title, row.content, row.communityId, t.communities[row.communityId].name,
                row.createdAt, row.counters.upvotes, row.counters.downvotes, Score(row.counters),
                CommentCount(t.comments, id))
  }

  /** ORDER BY (p.upvotes - p.downvotes) DESC, p.created_at DESC. */
  function PostRank(p: Models.Post): Rank
  {
    (p.score, p.createdAt)
  }

  /**
   * GetPosts: every post that joins a community (only those of `communityId`
   * when it is positive), once each, highest score first and newest first
   * among equal scores.
   */
  method GetPosts(db: Store, communityId: int) returns (posts: seq<Models.Post>)
    ensures forall i :: 0 <= i < |posts| ==>
              Listed(db.Snapshot(), communityId, posts[i].id) && posts[i] == PostView(db.Snapshot(), posts[i].id)
    ensures forall id :: Listed(db.Snapshot(), communityId, id) ==> PostView(db.Snapshot(), id) in posts
    ensures forall i, j :: 0 <= i < j < |posts| ==> posts[i].id != posts[j].id
    ensures Descending(posts, PostRank)
  {
    var t := db.Snapshot();
    var pending := t.posts.Keys;
    ghost var seen: set<int> := {};
    posts := [];
    while pending != {}
      invariant pending <= t.posts.Keys
      invariant forall id :: id in seen <==> id in t.posts && id !in pending
      invariant forall i :: 0 <= i < |posts| ==>
                  posts[i].id in seen && Listed(t, communityId, posts[i].id) && posts[i] == PostView(t, posts[i].id)
      invariant forall id :: id in seen && Listed(t, communityId, id) ==> PostView(t, id) in posts
      invariant Distinct(posts) && Descending(posts, PostRank)
      decreases pending
    {
      ghost var someId := Member(pending);
      var id :| id in pending;
      if Listed(t, communityId, id) {
        var post := PostView(t, id);
        InsertKeepsDistinct(posts, post, PostRank);
        posts := Insert(posts, post, PostRank);
      }
      pending := pending - {id};
      seen := seen + {id};
    }
  }

  /**
   * GetPost: the post and its community's name, or an error (None) when the
   * id has no row or its community does not join. The result carries no
   * comment_count; the field is 0.
   */
  function GetPost(t: Tables, id: int): (r: Option<Models.Post>)
    ensures r.Some? <==> Listed(t, 0, id)
    ensures r.Some? ==> r.value == PostView(t, id).(commentCount := 0)
  {
    if id in t.posts && t.posts[id].communityId in t.communities then
      var row := t.posts[id];
      Some(Models.Post(id, row.title, row.content, row.communityId, t.communities[row.communityId].name,
                       row.createdAt, row.counters.upvotes, row.counters.downvotes, row.counters.upvotes - row.counters.downvotes, 0))
    else None
  }

  /** The record GetComments builds for one row: score is upvotes - downvotes, no replies yet. */
  function CommentView(t: Tables, id: int): (c: Models.Comment)
    requires id in t.comments
    ensures c.id == id && c.score == c.upvotes - c.downvotes && c.replies == []
    ensures c.upvotes == t.comments[id].counters.upvotes && c.downvotes == t.comments[id].counters.downvotes
  {
    var row := t.comments[id];
    Models.Comment(id, row.content, row.postId, row.parentId, row.createdAt,
                   row.counters.upvotes, row.counters.downvotes, Score(row.counters), [])
  }

  /** ORDER BY (upvotes - downvotes) DESC, created_at ASC. */
  function CommentRank(c: Models.Comment): Rank
  {
    (c.score, -c.createdAt)
  }

  /** The comment `id` belongs to the post: `WHERE post_id = ?`. */
  predicate OfPost(t: Tables, postId: int, id: int)
  {
    id in t.comments && t.comments[id].postId == postId
  }

  /**
   * `SELECT ... FROM comments WHERE post_id = ? ORDER BY <rank> DESC`, scanned
   * row by row: every comment of the post once, as CommentView builds it, in
   * descending `rank`.
   */
  method SelectComments(t: Tables, postId: int, rank: Models.Comment -> Rank) returns (comments: seq<Models.Comment>)
    ensures forall i :: 0 <= i < |comments| ==>
              OfPost(t, postId, comments[i].id) && comments[i] == CommentView(t, comments[i].id)
    ensures forall id :: OfPost(t, postId, id) ==> CommentView(t, id) in comments
    ensures forall i, j :: 0 <= i < j < |comments| ==> comments[i].id != comments[j].id
    ensures Descending(comments, rank)
  {
    var pending := t.comments.Keys;
    ghost var seen: set<int> := {};
    comments := [];
    while pending != {}
      invariant pending <= t.comments.Keys
      invariant forall id :: id in seen <==> id in t.comments && id !in pending
      invariant forall i :: 0 <= i < |comments| ==>
                  comments[i].id in seen && OfPost(t, postId, comments[i].id)
                  && comments[i] == CommentView(t, comments[i].id)
      invariant forall id :: id in seen && OfPost(t, postId, id) ==> CommentView(t, id) in comments
      invariant Distinct(comments) && Descending(comments, rank)
      decreases pending
    {
      ghost var someId := Member(pending);
      var id :| id in pending;
      if t.comments[id].postId == postId {
        var comment := CommentView(t, id);
        InsertKeepsDistinct(comments, comment, rank);
        comments := Insert(comments, comment, rank);
      }
      pending := pending - {id};
      seen := seen + {id};
    }
  }

  /** GetComments: every comment of the post, once each, highest score first and oldest first among equal scores. */
  method GetComments(db: Store, postId: int) returns (comments: seq<Models.Comment>)
    ensures forall i :: 0 <= i < |comments| ==>
              OfPost(db.Snapshot(), postId, comments[i].id) && comments[i] == CommentView(db.Snapshot(), comments[i].id)
    ensures forall id :: OfPost(db.Snapshot(), postId, id) ==> CommentView(db.Snapshot(), id) in comments
    ensures forall i, j :: 0 <= i < j < |comments| ==> comments[i].id != comments[j].id
    ensures Descending(comments, CommentRank)
  {
    comments := SelectComments(db.Snapshot(), postId, CommentRank);
  }
}
