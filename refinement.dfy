/**
 * The two back ends keep the same votes in two shapes. server.js stores 'up'
 * or 'down' per (user, post) and one signed `votes` counter per post; the Go
 * reconciler stores 1 or -1 per (client, item) and separate `upvotes` and
 * `downvotes` counters. This module relates them: under the same sequence of
 * votes on one post, the rows correspond ('up' to 1, 'down' to -1) and the
 * signed counter equals `upvotes - downvotes`.
 */
module Refinement {
  import opened Wrappers
  import opened Tally
  import JS = ExpressServer
  import Go = Database

  /** 'up' is stored as 1 and 'down' as -1. */
  function Code(d: JS.Dir): (v: int)
    ensures Go.IsUnit(v)
    ensures v == JS.Weight(Some(d))
  {
    if d == JS.Up then 1 else -1
  }

  function CodeRow(row: Option<JS.Dir>): (r: Option<int>)
    ensures r.None? <==> row.None?
  {
    if row.None? then None else Some(Code(row.value))
  }

  /**
   * One vote, in both shapes: the Go row is the JS row encoded, and the Go
   * counters move by a pair whose difference is the JS `voteChange`.
   */
  lemma StepRefines(existing: Option<JS.Dir>, d: JS.Dir)
    ensures Go.NextRow(CodeRow(existing), Code(d)) == CodeRow(JS.NextVote(existing, d))
    ensures Go.Score(Go.CounterDelta(CodeRow(existing), Code(d))) == JS.VoteChange(existing, d)
  {
  }

  // ---------------------------------------------------------------------
  // Replaying a sequence of votes on one post
  // ---------------------------------------------------------------------

  /** One JS vote by `user` on the existing post `post`. */
  function JsStep(votes: JS.VoteTable, posts: map<string, JS.PostRow>, post: string, user: string, d: JS.Dir)
    : (JS.VoteTable, map<string, JS.PostRow>)
  {
    var k := (user, post);
    var e := Lookup(votes, k);
    (Put(votes, k, JS.NextVote(e, d)), JS.Bump(posts, post, JS.VoteChange(e, d)))
  }

  function JsReplay(votes: JS.VoteTable, posts: map<string, JS.PostRow>, post: string, history: seq<(string, JS.Dir)>)
    : (JS.VoteTable, map<string, JS.PostRow>)
    decreases |history|
  {
    if history == [] then (votes, posts)
    else
      var (votes', posts') := JsStep(votes, posts, post, history[0].0, history[0].1);
      JsReplay(votes', posts', post, history[1..])
  }

  /** The same votes sent to the Go reconciler on the post `itemId`, each one committed. */
  function GoReplay(t: Go.Tables, itemId: int, history: seq<(string, JS.Dir)>): Go.Tables
    decreases |history|
  {
    if history == [] then t
    else GoReplay(Go.AfterVote(t, "post", itemId, history[0].0, Code(history[0].1)), itemId, history[1..])
  }

  /** Every user's row on the JS post is, encoded, the same client's row on the Go post. */
  ghost predicate RowsCorrespond(jsVotes: JS.VoteTable, post: string, goVotes: Go.VoteTable, itemId: int)
  {
    forall user :: CodeRow(Lookup(jsVotes, (user, post))) == Lookup(goVotes, (user, Go.ItemRef("post", itemId)))
  }

  /** The JS counter is the Go counters' difference. */
  ghost predicate CountersCorrespond(jsPosts: map<string, JS.PostRow>, post: string, t: Go.Tables, itemId: int)
  {
    post in jsPosts && itemId in t.posts && jsPosts[post].votes == Go.Score(t.posts[itemId].counters)
  }

  /** One vote in both back ends keeps the rows and the counters corresponding. */
  lemma JsStepRefines(jsVotes: JS.VoteTable, jsPosts: map<string, JS.PostRow>, post: string,
                      t: Go.Tables, itemId: int, user: string, d: JS.Dir)
    requires RowsCorrespond(jsVotes, post, t.votes, itemId) && CountersCorrespond(jsPosts, post, t, itemId)
    ensures var (jsVotes', jsPosts') := JsStep(jsVotes, jsPosts, post, user, d);
            var t' := Go.AfterVote(t, "post", itemId, user, Code(d));
            RowsCorrespond(jsVotes', post, t'.votes, itemId) && CountersCorrespond(jsPosts', post, t', itemId)
  {
    var k := (user, post);
    var gk := (user, Go.ItemRef("post", itemId));
    var e := Lookup(jsVotes, k);
    assert Lookup(t.votes, gk) == CodeRow(e);
    StepRefines(e, d);
    var (jsVotes', jsPosts') := JsStep(jsVotes, jsPosts, post, user, d);
    var t' := Go.AfterVote(t, "post", itemId, user, Code(d));
    forall u ensures CodeRow(Lookup(jsVotes', (u, post))) == Lookup(t'.votes, (u, Go.ItemRef("post", itemId))) {
      if u != user {
        assert CodeRow(Lookup(jsVotes, (u, post))) == Lookup(t.votes, (u, Go.ItemRef("post", itemId)));
      }
    }
  }

  /**
   * The refinement: from corresponding states, replaying the same votes in
   * both back ends ends in corresponding states, so the JS counter equals
   * `upvotes - downvotes` after every sequence of votes.
   */
  lemma {:induction false} ReplayRefines(jsVotes: JS.VoteTable, jsPosts: map<string, JS.PostRow>, post: string,
                                         t: Go.Tables, itemId: int, history: seq<(string, JS.Dir)>)
    requires RowsCorrespond(jsVotes, post, t.votes, itemId) && CountersCorrespond(jsPosts, post, t, itemId)
    ensures var (jsVotes', jsPosts') := JsReplay(jsVotes, jsPosts, post, history);
            var t' := GoReplay(t, itemId, history);
            RowsCorrespond(jsVotes', post, t'.votes, itemId) && CountersCorrespond(jsPosts', post, t', itemId)
    decreases |history|
  {
    if history != [] {
      var (user, d) := history[0];
      JsStepRefines(jsVotes, jsPosts, post, t, itemId, user, d);
      var (jsVotes1, jsPosts1) := JsStep(jsVotes, jsPosts, post, user, d);
      var t1 := Go.AfterVote(t, "post", itemId, user, Code(d));
      ReplayRefines(jsVotes1, jsPosts1, post, t1, itemId, history[1..]);
    }
  }

  /**
   * Both back ends start with no vote rows and the post's counters at zero;
   * after any sequence of votes the JS counter is `upvotes - downvotes`.
   */
  lemma FromFreshPost(jsPost: JS.PostRow, goPost: Go.PostRow, post: string, itemId: int, history: seq<(string, JS.Dir)>)
    requires jsPost.votes == 0 && goPost.counters == Go.Counters(0, 0)
    ensures var (_, jsPosts') := JsReplay(map[], map[post := jsPost], post, history);
            var t' := GoReplay(Go.Tables(map[], map[itemId := goPost], map[], map[]), itemId, history);
            post in jsPosts' && itemId in t'.posts
            && jsPosts'[post].votes == t'.posts[itemId].counters.upvotes - t'.posts[itemId].counters.downvotes
  {
    ReplayRefines(map[], map[post := jsPost], post, Go.Tables(map[], map[itemId := goPost], map[], map[]), itemId, history);
  }
}
