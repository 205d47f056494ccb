/**
 * The Express back end (server.js): its posts, comments and votes tables, the
 * creation routes for posts and comments, and the vote reconciler behind
 * POST /api/posts/:id/vote, which keeps one signed `votes` counter per post.
 *
 * Each route's read-decide-write sequence is one method: the SQL transaction
 * is all-or-nothing, so a failing statement (`storeFails`) leaves every table
 * as it was.
 */
module ExpressServer {
  import opened Wrappers
  import opened Tally

  /** A vote_type: the table's CHECK constraint admits only 'up' and 'down'. */
  datatype Dir = Up | Down

  /** Key of the votes table: (user_id, post_id). At most one row per pair. */
  type VoteKey = (string, string)
  type VoteTable = map<VoteKey, Dir>

  /** A row of the posts table (its primary key `id` is the map key). */
  datatype PostRow = PostRow(title: string, content: string, community: string, author: string, votes: int)

  /** A row of the comments table (its primary key `id` is the map key). */
  datatype CommentRow = CommentRow(postId: string, content: string, author: string, votes: int)

  /** What the vote route answers. */
  datatype VoteReply =
    | BadRequest                                        // 400 'Invalid vote type'
    | ServerError                                       // 500, after ROLLBACK
    | NotFound                                          // 404 (only the corrected reconciler)
    | Voted(post: Option<PostRow>, userVoted: Option<Dir>)  // 200: the post row spread, plus userVoted

  /** What the creation routes answer. */
  datatype CreateReply<R> = MissingFields | InsertFailed | Created(id: string, row: R)

  // ---------------------------------------------------------------------
  // Request fields
  // ---------------------------------------------------------------------

  /** A JSON body field that is present and truthy (`!x` is false): not absent, not "". */
  predicate Present(field: Option<string>)
  {
    field.Some? && field.value != ""
  }

  /** The vote_type check: anything but exactly 'up' or 'down' (or no field at all) is rejected. */
  function ParseVoteType(voteType: Option<string>): (d: Option<Dir>)
    ensures d == Some(Up) <==> voteType == Some("up")
    ensures d == Some(Down) <==> voteType == Some("down")
  {
    if voteType == Some("up") then Some(Up)
    else if voteType == Some("down") then Some(Down)
    else None
  }

  /** A destructuring default: `user_id` is 'anonymous' only when the field is absent. */
  function UserOrAnonymous(userId: Option<string>): (user: string)
    ensures userId.None? ==> user == "anonymous"
    ensures userId.Some? ==> user == userId.value
  {
    if userId.Some? then userId.value else "anonymous"
  }

  // ---------------------------------------------------------------------
  // The vote transition
  // ---------------------------------------------------------------------

  /** What a row state contributes to the counter: +1 up, -1 down, 0 without a row. */
  function Weight(v: Option<Dir>): int
  {
    match v
    case None => 0
    case Some(Up) => 1
    case Some(Down) => -1
  }

  function Opposite(d: Dir): Dir
  {
    if d == Up then Down else Up
  }

  /**
   * The user's row after the vote: inserted when there was none, deleted when
   * it already held the requested direction, otherwise set to it.
   */
  function NextVote(existing: Option<Dir>, requested: Dir): (next: Option<Dir>)
    ensures next.None? <==> existing == Some(requested)
    ensures next.Some? ==> next == Some(requested)
  {
    if existing == Some(requested) then None else Some(requested)
  }

  /**
   * `voteChange` as the three branches assign it. Whatever the branch, it is
   * the new row's weight minus the old row's weight, and it is never zero.
   */
  function VoteChange(existing: Option<Dir>, requested: Dir): (change: int)
    ensures change == Weight(NextVote(existing, requested)) - Weight(existing)
    ensures change != 0
    ensures existing == Some(Opposite(requested)) ==> change == 2 * Weight(Some(requested))
  {
    if existing.None? then
      (if requested == Up then 1 else -1)
    else if existing.value == requested then
      (if requested == Up then -1 else 1)
    else
      (if requested == Up then 2 else -2)
  }

  /** `userVoted: voteChange === 0 ? null : vote_type`, as written. */
  function UserVotedAsWritten(voteChange: int, requested: Dir): Option<Dir>
  {
    if voteChange == 0 then None else Some(requested)
  }

  /** `UPDATE posts SET votes = votes + delta WHERE id = ?`: a missing id matches no row. */
  function Bump(posts: map<string, PostRow>, id: string, delta: int): (r: map<string, PostRow>)
    ensures r.Keys == posts.Keys
    ensures id in posts ==> r[id] == posts[id].(votes := posts[id].votes + delta)
    ensures forall p :: p in posts && p != id ==> r[p] == posts[p]
  {
    if id in posts then posts[id := posts[id].(votes := posts[id].votes + delta)] else posts
  }

  // ---------------------------------------------------------------------
  // The counter invariant
  // ---------------------------------------------------------------------

  /** The sum over the post's rows of +1 per 'up' and -1 per 'down'. */
  function Net(votes: VoteTable, post: string): int
  {
    Count(votes, post, Up) - Count(votes, post, Down)
  }

  /** Every post's counter equals the sum of its vote rows. */
  ghost predicate Tallied(votes: VoteTable, posts: map<string, PostRow>)
  {
    forall p :: p in posts ==> posts[p].votes == Net(votes, p)
  }

  /** Every vote row belongs to an existing post. */
  ghost predicate NoOrphans(votes: VoteTable, posts: map<string, PostRow>)
  {
    forall k :: k in votes ==> k.1 in posts
  }

  /** Writing one row moves the post's net sum by the new weight minus the old one. */
  lemma NetAfterPut(votes: VoteTable, k: VoteKey, o: Option<Dir>, post: string)
    ensures Net(Put(votes, k, o), post)
         == Net(votes, post) + (if k.1 == post then Weight(o) - Weight(Lookup(votes, k)) else 0)
  {
    CountAfterPut(votes, k, o, post, Up);
    CountAfterPut(votes, k, o, post, Down);
  }

  /** The reconciler's writes keep every counter equal to the sum of its rows. */
  lemma VoteKeepsTally(votes: VoteTable, posts: map<string, PostRow>, k: VoteKey, d: Dir)
    requires Tallied(votes, posts)
    ensures Tallied(Put(votes, k, NextVote(Lookup(votes, k), d)),
                    Bump(posts, k.1, VoteChange(Lookup(votes, k), d)))
  {
    var e := Lookup(votes, k);
    var votes', posts' := Put(votes, k, NextVote(e, d)), Bump(posts, k.1, VoteChange(e, d));
    forall p | p in posts' ensures posts'[p].votes == Net(votes', p) {
      NetAfterPut(votes, k, NextVote(e, d), p);
    }
  }

  /**
   * Toggle: voting the same direction twice restores both tables, unless the
   * first vote was a flip (then the second one deletes the flipped row).
   */
  lemma RepeatedVoteRestores(votes: VoteTable, posts: map<string, PostRow>, k: VoteKey, d: Dir)
    requires Lookup(votes, k) != Some(Opposite(d))
    ensures var e1 := Lookup(votes, k);
            var votes1, posts1 := Put(votes, k, NextVote(e1, d)), Bump(posts, k.1, VoteChange(e1, d));
            var e2 := Lookup(votes1, k);
            Put(votes1, k, NextVote(e2, d)) == votes
            && Bump(posts1, k.1, VoteChange(e2, d)) == posts
  {
    var e1 := Lookup(votes, k);
    var votes1, posts1 := Put(votes, k, NextVote(e1, d)), Bump(posts, k.1, VoteChange(e1, d));
    var e2 := Lookup(votes1, k);
    assert VoteChange(e2, d) == -VoteChange(e1, d);
    var votes2 := Put(votes1, k, NextVote(e2, d));
    assert votes2.Keys == votes.Keys by {
      forall k' ensures k' in votes2 <==> k' in votes {
        assert Lookup(votes2, k') == Lookup(votes, k');
      }
    }
    forall k' | k' in votes ensures votes2[k'] == votes[k'] {
      assert Lookup(votes2, k') == Lookup(votes, k');
    }
  }

  /** After a flip, voting the flipped-to direction again leaves no row and a net change of one weight. */
  lemma RepeatAfterFlipClears(votes: VoteTable, posts: map<string, PostRow>, k: VoteKey, d: Dir)
    requires Lookup(votes, k) == Some(Opposite(d))
    requires k.1 in posts
    ensures var votes1, posts1 := Put(votes, k, Some(d)), Bump(posts, k.1, VoteChange(Some(Opposite(d)), d));
            var votes2 := Put(votes1, k, NextVote(Lookup(votes1, k), d));
            var posts2 := Bump(posts1, k.1, VoteChange(Lookup(votes1, k), d));
            && Lookup(votes2, k).None?
            && posts2[k.1].votes == posts[k.1].votes + Weight(Some(d))
  {
  }

  /**
   * The flip law: with no prior row, 'up' then 'down' leaves a 'down' row; the
   * flip itself moves the counter by -2, the pair by -1 in all.
   */
  lemma UpThenDown(votes: VoteTable, posts: map<string, PostRow>, k: VoteKey)
    requires Lookup(votes, k).None? && k.1 in posts
    ensures var votes1, posts1 := Put(votes, k, NextVote(None, Up)), Bump(posts, k.1, VoteChange(None, Up));
            var e := Lookup(votes1, k);
            var votes2, posts2 := Put(votes1, k, NextVote(e, Down)), Bump(posts1, k.1, VoteChange(e, Down));
            && Lookup(votes2, k) == Some(Down)
            && posts2[k.1].votes == posts1[k.1].votes - 2
            && posts2[k.1].votes == posts[k.1].votes - 1
  {
  }

  /** As written, a toggle-off still reports the requested direction although the row is gone. */
  lemma ToggleOffStillReportsVote(d: Dir)
    ensures NextVote(Some(d), d).None?
    ensures UserVotedAsWritten(VoteChange(Some(d), d), d) == Some(d)
  {
  }

  /**
   * As written, a vote for a post that does not exist inserts an orphan row;
   * creating that post afterwards (with votes 0) breaks the counter invariant.
   */
  lemma OrphanVoteBreaksTally()
    ensures var k: VoteKey := ("alice", "p1");
            var votes := Put(map[], k, NextVote(None, Up));
            var posts := Bump(map[], "p1", VoteChange(None, Up));
            && posts == map[]
            && !NoOrphans(votes, posts)
            && !Tallied(votes, posts["p1" := PostRow("t", "c", "general", "anonymous", 0)])
  {
    var k: VoteKey := ("alice", "p1");
    var votes := Put(map[], k, NextVote(None, Up));
    assert votes == map[k := Up];
    assert Holders(votes, "p1", Up) == {k};
    assert Holders(votes, "p1", Down) == {};
    assert Net(votes, "p1") == 1;
  }

  /** With no orphan rows, a post created with votes 0 under a new id keeps both invariants. */
  lemma CreatePostKeepsInvariant(votes: VoteTable, posts: map<string, PostRow>, id: string, row: PostRow)
    requires Tallied(votes, posts) && NoOrphans(votes, posts)
    requires id !in posts && row.votes == 0
    ensures Tallied(votes, posts[id := row]) && NoOrphans(votes, posts[id := row])
  {
    CountWithoutRows(votes, id, Up);
    CountWithoutRows(votes, id, Down);
  }

  /** The corrected reconciler (existing post only) keeps both invariants. */
  lemma CheckedVoteKeepsInvariant(votes: VoteTable, posts: map<string, PostRow>, k: VoteKey, d: Dir)
    requires Tallied(votes, posts) && NoOrphans(votes, posts)
    requires k.1 in posts
    ensures var e := Lookup(votes, k);
            var votes', posts' := Put(votes, k, NextVote(e, d)), Bump(posts, k.1, VoteChange(e, d));
            Tallied(votes', posts') && NoOrphans(votes', posts')
  {
    VoteKeepsTally(votes, posts, k, d);
    var e := Lookup(votes, k);
    var votes' := Put(votes, k, NextVote(e, d));
    forall k' | k' in votes' ensures k'.1 in posts {
      if k' != k {
        assert Lookup(votes', k') == Lookup(votes, k');
      }
    }
  }

  // ---------------------------------------------------------------------
  // Creation routes
  // ---------------------------------------------------------------------

  /** POST /api/posts: id, title, content and community are required; votes start at 0. */
  function NewPost(id: Option<string>, title: Option<string>, content: Option<string>,
                   community: Option<string>, author: Option<string>): (r: Option<(string, PostRow)>)
    ensures r.Some? <==> Present(id) && Present(title) && Present(content) && Present(community)
    ensures r.Some? ==> r.value.0 == id.value && r.value.1.votes == 0
                        && r.value.1.title == title.value && r.value.1.content == content.value
                        && r.value.1.community == community.value
                        && r.value.1.author == UserOrAnonymous(author)
  {
    if !Present(id) || !Present(title) || !Present(content) || !Present(community) then None
    else Some((id.value, PostRow(title.value, content.value, community.value, UserOrAnonymous(author), 0)))
  }

  /** POST /api/posts/:id/comments: id and content are required; the post is not looked up. */
  function NewComment(postId: string, id: Option<string>, content: Option<string>,
                      author: Option<string>): (r: Option<(string, CommentRow)>)
    ensures r.Some? <==> Present(id) && Present(content)
    ensures r.Some? ==> r.value.0 == id.value && r.value.1.postId == postId && r.value.1.votes == 0
                        && r.value.1.content == content.value && r.value.1.author == UserOrAnonymous(author)
  {
    if !Present(id) || !Present(content) then None
    else Some((id.value, CommentRow(postId, content.value, UserOrAnonymous(author), 0)))
  }

  // ---------------------------------------------------------------------
  // The store
  // ---------------------------------------------------------------------

  class Db {
    var votes: VoteTable
    var posts: map<string, PostRow>
    var comments: map<string, CommentRow>

    /** CREATE TABLE ... : all three tables start empty. */
    constructor ()
      ensures votes == map[] && posts == map[] && comments == map[]
    {
      votes, posts, comments := map[], map[], map[];
    }

    ghost predicate Valid()
      reads this
    {
      Tallied(votes, posts) && NoOrphans(votes, posts)
    }

    /** POST /api/posts. A duplicate id violates the primary key and fails the INSERT. */
    method CreatePost(id: Option<string>, title: Option<string>, content: Option<string>,
                      community: Option<string>, author: Option<string>, storeFails: bool)
      returns (reply: CreateReply<PostRow>)
      modifies this`posts
      ensures var r := NewPost(id, title, content, community, author);
              && (r.None? ==> reply == MissingFields && posts == old(posts))
              && (r.Some? && (r.value.0 in old(posts) || storeFails) ==> reply == InsertFailed && posts == old(posts))
              && (r.Some? && r.value.0 !in old(posts) && !storeFails ==>
                    reply == Created(r.value.0, r.value.1) && posts == old(posts)[r.value.0 := r.value.1])
      ensures old(Valid()) ==> Valid()
    {
      var r := NewPost(id, title, content, community, author);
      if r.None? {
        return MissingFields;
      }
      var (key, row) := r.value;
      if key in posts || storeFails {
        return InsertFailed;
      }
      if Valid() {
        CreatePostKeepsInvariant(votes, posts, key, row);
      }
      posts := posts[key := row];
      reply := Created(key, row);
    }

    /** POST /api/posts/:id/comments. A duplicate id fails the INSERT. */
    method AddComment(postId: string, id: Option<string>, content: Option<string>,
                      author: Option<string>, storeFails: bool)
      returns (reply: CreateReply<CommentRow>)
      modifies this`comments
      ensures var r := NewComment(postId, id, content, author);
              && (r.None? ==> reply == MissingFields && comments == old(comments))
              && (r.Some? && (r.value.0 in old(comments) || storeFails) ==> reply == InsertFailed && comments == old(comments))
              && (r.Some? && r.value.0 !in old(comments) && !storeFails ==>
                    reply == Created(r.value.0, r.value.1) && comments == old(comments)[r.value.0 := r.value.1])
    {
      var r := NewComment(postId, id, content, author);
      if r.None? {
        return MissingFields;
      }
      var (key, row) := r.value;
      if key in comments || storeFails {
        return InsertFailed;
      }
      comments := comments[key := row];
      reply := Created(key, row);
    }

    /**
     * POST /api/posts/:id/vote as written: no check that the post exists, and
     * `userVoted` computed from a `voteChange` that is never 0.
     */
    method VoteAsWritten(postId: string, userId: Option<string>, voteType: Option<string>, storeFails: bool)
      returns (reply: VoteReply)
      modifies this`votes, this`posts
      ensures ParseVoteType(voteType).None? ==> reply == BadRequest && votes == old(votes) && posts == old(posts)
      ensures ParseVoteType(voteType).Some? && storeFails ==>
                reply == ServerError && votes == old(votes) && posts == old(posts)
      ensures ParseVoteType(voteType).Some? && !storeFails ==>
                var d := ParseVoteType(voteType).value;
                var k := (UserOrAnonymous(userId), postId);
                var e := Lookup(old(votes), k);
                && votes == Put(old(votes), k, NextVote(e, d))
                && posts == Bump(old(posts), postId, VoteChange(e, d))
                && reply == Voted(if postId in posts then Some(posts[postId]) else None,
                                  UserVotedAsWritten(VoteChange(e, d), d))
    {
      var d := ParseVoteType(voteType);
      if d.None? {
        return BadRequest;
      }
      var key := (UserOrAnonymous(userId), postId);
      var savedVotes, savedPosts := votes, posts;  // BEGIN TRANSACTION
      var vote := Lookup(votes, key);
      ghost var next := NextVote(vote, d.value);
      var voteChange := 0;
      if vote.None? {
        votes := votes[key := d.value];
        voteChange := if d.value == Up then 1 else -1;
        assert next == Some(d.value);
      } else if vote.value == d.value {
        votes := votes - {key};
        voteChange := if d.value == Up then -1 else 1;
        assert next == None;
      } else {
        votes := votes[key := d.value];
        voteChange := if d.value == Up then 2 else -2;
        assert next == Some(d.value);
      }
      assert votes == Put(savedVotes, key, next);
      assert voteChange == VoteChange(vote, d.value);
      if postId in posts {
        posts := posts[postId := posts[postId].(votes := posts[postId].votes + voteChange)];
      }
      if storeFails {
        votes, posts := savedVotes, savedPosts;  // ROLLBACK
        return ServerError;
      }
      var post := if postId in posts then Some(posts[postId]) else None;
      reply := Voted(post, if voteChange == 0 then None else Some(d.value));  // COMMIT
    }

    /**
     * The reconciler with both gaps closed: a missing post is NotFound with no
     * write, and `userVoted` is the user's row after the vote (null after a
     * toggle-off).
     */
    method Vote(postId: string, userId: Option<string>, voteType: Option<string>, storeFails: bool)
      returns (reply: VoteReply)
      modifies this`votes, this`posts
      ensures ParseVoteType(voteType).None? ==> reply == BadRequest && votes == old(votes) && posts == old(posts)
      ensures ParseVoteType(voteType).Some? && postId !in old(posts) ==>
                reply == NotFound && votes == old(votes) && posts == old(posts)
      ensures ParseVoteType(voteType).Some? && postId in old(posts) && storeFails ==>
                reply == ServerError && votes == old(votes) && posts == old(posts)
      ensures ParseVoteType(voteType).Some? && postId in old(posts) && !storeFails ==>
                var d := ParseVoteType(voteType).value;
                var k := (UserOrAnonymous(userId), postId);
                var e := Lookup(old(votes), k);
                && votes == Put(old(votes), k, NextVote(e, d))
                && posts == Bump(old(posts), postId, VoteChange(e, d))
                && postId in posts
                && reply == Voted(Some(posts[postId]), Lookup(votes, k))
      ensures old(Valid()) ==> Valid()
    {
      var d := ParseVoteType(voteType);
      if d.None? {
        return BadRequest;
      }
      if postId !in posts {
        return NotFound;
      }
      var key := (UserOrAnonymous(userId), postId);
      if storeFails {
        return ServerError;  // ROLLBACK: nothing was written
      }
      if Valid() {
        CheckedVoteKeepsInvariant(votes, posts, key, d.value);
      }
      var vote := Lookup(votes, key);
      var next := NextVote(vote, d.value);
      votes := Put(votes, key, next);
      posts := posts[postId := posts[postId].(votes := posts[postId].votes + VoteChange(vote, d.value))];
      reply := Voted(Some(posts[postId]), next);
    }
  }
}
