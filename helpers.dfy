/**
 * The handlers' own helpers (internal/handlers/helpers.go): processVote,
 * which is the reconciler of db.go with the item type as a parameter; the
 * comment tree that getComments links through its `commentMap`; the
 * client's own votes that getUserVotes collects; and getClientID.
 *
 * getPosts and getPost repeat the queries of db.go's GetPosts and GetPost and
 * are modelled there.
 */
module Helpers {
  import opened Wrappers
  import opened Tally
  import opened Ordering
  import opened Collections
  import opened GoStrings
  import opened Database
  import Models

  /**
   * processVote: one transaction on the row of (item_type, item_id,
   * client_id) and the counters of the item. "post" moves the posts table and
   * every other item type the comments table. A vote of 1 or -1 on a post or
   * a comment keeps every counter equal to the count of its rows. As in
   * VotePost, a failed COMMIT writes nothing yet returns nil.
   */
  method ProcessVote(db: Store, itemType: string, itemId: int, clientId: string, voteType: int, fault: TxFault)
    returns (failed: bool)
    modifies db
    ensures failed <==> StatementFault(fault)
    ensures fault == NoFault ==> db.Snapshot() == AfterVote(old(db.Snapshot()), itemType, itemId, clientId, voteType)
    ensures fault != NoFault ==> db.Snapshot() == old(db.Snapshot())
    ensures old(db.Valid()) && IsUnit(voteType) && (itemType == "post" || itemType == "comment") ==> db.Valid()
  {
    if db.Valid() && IsUnit(voteType) && (itemType == "post" || itemType == "comment") {
      VoteKeepsTally(db.Snapshot(), itemType, itemId, clientId, voteType);
    }
    failed := ReconcileVote(db, itemType, itemId, clientId, voteType, fault);
  }

  // ---------------------------------------------------------------------
  // getComments
  // ---------------------------------------------------------------------

  /** ORDER BY created_at ASC, as a descending key. */
  function CreationRank(c: Models.Comment): Rank
  {
    (-c.createdAt, 0)
  }

  /**
   * The records getComments builds: one per comment of the post, with the
   * row's fields and score = upvotes - downvotes, no id twice, oldest first.
   */
  ghost predicate CommentsOfPost(t: Tables, postId: int, a: seq<Models.Comment>)
  {
    (forall i :: 0 <= i < |a| ==> OfPost(t, postId, a[i].id) && a[i] == CommentView(t, a[i].id).(replies := a[i].replies))
    && (forall id :: OfPost(t, postId, id) ==> exists i :: 0 <= i < |a| && a[i].id == id)
    && (forall i, j :: 0 <= i < j < |a| ==> a[i].id != a[j].id)
    && (forall i, j :: 0 <= i < j < |a| ==> a[i].createdAt <= a[j].createdAt)
  }

  /**
   * The forest over `a`: the roots are exactly the comments with a NULL
   * parent_id, and a comment's replies are exactly the comments whose
   * parent_id is its id, each listed once. A comment whose parent is not in
   * `a` is linked nowhere.
   */
  ghost predicate ParentLinks(a: seq<Models.Comment>, roots: seq<nat>)
  {
    (forall j :: j in roots <==> 0 <= j < |a| && a[j].parentId.None?)
    && Models.NoDuplicates(roots)
    && (forall p, j :: 0 <= p < |a| ==> (j in a[p].replies <==> 0 <= j < |a| && a[j].parentId == Some(a[p].id)))
    && (forall p :: 0 <= p < |a| ==> Models.NoDuplicates(a[p].replies))
  }

  /**
   * getComments: the post's comments, oldest first, each built with empty
   * replies, then linked into a forest. The comments come back as an array
   * and every link as an index into it.
   */
  method GetComments(db: Store, postId: int) returns (comments: array<Models.Comment>, roots: seq<nat>)
    ensures fresh(comments)
    ensures CommentsOfPost(db.Snapshot(), postId, comments[..])
    ensures ParentLinks(comments[..], roots)
  {
    var t := db.Snapshot();
    // First pass: one record per row, in created_at order.
    var rows := SelectComments(t, postId, CreationRank);
    ScannedCommentsOfPost(t, postId, rows);
    comments := new Models.Comment[|rows|](i requires 0 <= i < |rows| => rows[i]);
    assert comments[..] == rows;
    // Second pass: link by parent_id.
    roots := Models.BuildCommentTree(comments);
    DistinctIdsLinkByParent(rows, comments[..], roots);
  }

  /** The scan in created_at order yields the records getComments builds, with empty replies. */
  lemma ScannedCommentsOfPost(t: Tables, postId: int, rows: seq<Models.Comment>)
    requires forall i :: 0 <= i < |rows| ==> OfPost(t, postId, rows[i].id) && rows[i] == CommentView(t, rows[i].id)
    requires forall id :: OfPost(t, postId, id) ==> CommentView(t, id) in rows
    requires forall i, j :: 0 <= i < j < |rows| ==> rows[i].id != rows[j].id
    requires Descending(rows, CreationRank)
    ensures CommentsOfPost(t, postId, rows)
  {
    forall i, j | 0 <= i < j < |rows| ensures rows[i].createdAt <= rows[j].createdAt {
      assert NotBelow(CreationRank(rows[i]), CreationRank(rows[j]));
    }
    forall id | OfPost(t, postId, id) ensures exists i :: 0 <= i < |rows| && rows[i].id == id {
      var i :| 0 <= i < |rows| && rows[i] == CommentView(t, id);
    }
  }

  /** With no id held twice, what BuildCommentTree promises is the forest by parent_id. */
  lemma DistinctIdsLinkByParent(s: seq<Models.Comment>, a: seq<Models.Comment>, roots: seq<nat>)
    requires forall i, j :: 0 <= i < j < |s| ==> s[i].id != s[j].id
    requires |a| == |s| && forall j :: 0 <= j < |s| ==> a[j] == s[j].(replies := a[j].replies)
    requires forall j :: j in roots <==> Models.IsRoot(s, j)
    requires Models.NoDuplicates(roots)
    requires forall p, j :: 0 <= p < |s| ==> (j in a[p].replies <==> Models.RepliesTo(s, j, p))
    requires forall p :: 0 <= p < |s| ==> Models.NoDuplicates(a[p].replies)
    ensures ParentLinks(a, roots)
  {
    Models.DistinctIdsAllKept(s);
  }

  // ---------------------------------------------------------------------
  // getUserVotes
  // ---------------------------------------------------------------------

  /**
   * getUserVotes: the client's vote on the post, keyed by the post's id (at
   * most one entry), and the client's votes on the comments of that post,
   * keyed by comment id.
   */
  method GetUserVotes(db: Store, clientId: string, postId: int) returns (postVotes: map<int, int>, commentVotes: map<int, int>)
    ensures postVotes.Keys <= {postId}
    ensures postId in postVotes <==> (clientId, ItemRef("post", postId)) in db.votes
    ensures postId in postVotes ==> postVotes[postId] == db.votes[(clientId, ItemRef("post", postId))]
    ensures forall id :: id in commentVotes <==>
              OfPost(db.Snapshot(), postId, id) && (clientId, ItemRef("comment", id)) in db.votes
    ensures forall id :: id in commentVotes ==> commentVotes[id] == db.votes[(clientId, ItemRef("comment", id))]
  {
    var t := db.Snapshot();
    postVotes := map[];
    var row := Lookup(t.votes, (clientId, ItemRef("post", postId)));
    if row.Some? {
      postVotes := postVotes[postId := row.value];
    }

    commentVotes := map[];
    var pending := t.votes.Keys;
    while pending != {}
      invariant pending <= t.votes.Keys
      invariant forall id :: id in commentVotes <==>
                  OfPost(t, postId, id) && (clientId, ItemRef("comment", id)) in t.votes
                  && (clientId, ItemRef("comment", id)) !in pending
      invariant forall id :: id in commentVotes ==> commentVotes[id] == t.votes[(clientId, ItemRef("comment", id))]
      decreases pending
    {
      ghost var someKey := Member(pending);
      var key :| key in pending;
      var (voter, item) := key;
      if voter == clientId && item.itemType == "comment" && OfPost(t, postId, item.itemId) {
        assert key == (clientId, ItemRef("comment", item.itemId));
        commentVotes := commentVotes[item.itemId := t.votes[key]];
      }
      pending := pending - {key};
    }
  }

  /** Under the counter invariant, every vote getUserVotes reports is 1 or -1. */
  lemma UserVotesAreUnit(db: Tables, clientId: string, postId: int, postVotes: map<int, int>, commentVotes: map<int, int>)
    requires Consistent(db)
    requires forall id :: id in postVotes ==> (clientId, ItemRef("post", id)) in db.votes
                                                && postVotes[id] == db.votes[(clientId, ItemRef("post", id))]
    requires forall id :: id in commentVotes ==> (clientId, ItemRef("comment", id)) in db.votes
                                                   && commentVotes[id] == db.votes[(clientId, ItemRef("comment", id))]
    ensures forall id :: id in postVotes ==> IsUnit(postVotes[id])
    ensures forall id :: id in commentVotes ==> IsUnit(commentVotes[id])
  {
  }

  // ---------------------------------------------------------------------
  // getClientID
  // ---------------------------------------------------------------------

  /**
   * getClientID: the value of the `client_id` cookie whenever the request
   * carries one; otherwise RemoteAddr, '_' and the current time in
   * nanoseconds (a parameter here) in decimal.
   */
  function ClientId(cookie: Option<string>, remoteAddr: string, nanos: int): (id: string)
    ensures cookie.Some? ==> id == cookie.value
  {
    if cookie.Some? then cookie.value else remoteAddr + "_" + Itoa(nanos)
  }

  /** A generated id splits at its '_' back into the address and the time. */
  lemma GeneratedIdParts(remoteAddr: string, nanos: int)
    requires '_' !in remoteAddr && InIntRange(nanos)
    ensures var parts := Split(ClientId(None, remoteAddr, nanos), '_');
            parts == [remoteAddr, Itoa(nanos)] && Atoi(parts[1]) == Some(nanos)
  {
    ItoaHasNo(nanos, '_');
    var parts := [remoteAddr, Itoa(nanos)];
    assert Join(parts, '_') == ClientId(None, remoteAddr, nanos) by {
      assert parts[1..] == [Itoa(nanos)];
    }
    SplitJoin(parts, '_');
    ItoaRoundTrip(nanos);
  }

  /**
   * Two generated ids are equal only for the same address at the same
   * nanosecond (RemoteAddr is host:port, which holds no '_').
   */
  lemma GeneratedIdsDiffer(addr1: string, nanos1: int, addr2: string, nanos2: int)
    requires '_' !in addr1 && '_' !in addr2 && InIntRange(nanos1) && InIntRange(nanos2)
    ensures ClientId(None, addr1, nanos1) == ClientId(None, addr2, nanos2) <==> addr1 == addr2 && nanos1 == nanos2
  {
    GeneratedIdParts(addr1, nanos1);
    GeneratedIdParts(addr2, nanos2);
  }
}
