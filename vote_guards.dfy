/**
 * What the handlers' checks protect. The reconciler itself (db.go and
 * processVote in helpers.go) trusts its caller on two points: vote_type is 1
 * or -1, and item_type is "post" or "comment". These lemmas show that the
 * counter invariant fails as soon as either is not so.
 */
module VoteGuards {
  import opened Wrappers
  import opened Tally
  import opened Database

  /**
   * Only the handlers' check keeps vote_type in {1, -1}: a first vote with any
   * other value is counted as a downvote although its row holds no -1.
   */
  lemma NonUnitVoteBreaksTally(t: Tables, postId: int, clientId: string, voteType: int)
    requires Tallied(t) && postId in t.posts
    requires Lookup(t.votes, (clientId, ItemRef("post", postId))).None?
    requires !IsUnit(voteType)
    ensures !Tallied(AfterVote(t, "post", postId, clientId, voteType))
  {
    var key := (clientId, ItemRef("post", postId));
    var t' := AfterVote(t, "post", postId, clientId, voteType);
    UncountedRow(t.votes, key, voteType);
    assert t'.posts[postId].counters == Plus(t.posts[postId].counters, Counters(0, 1));
    PostMissesTally(t'.posts, t'.votes, postId);
  }

  /** A first row that is neither 1 nor -1 counts for neither counter. */
  lemma UncountedRow(votes: VoteTable, key: VoteKey, voteType: int)
    requires Lookup(votes, key).None? && !IsUnit(voteType)
    ensures TallyOf(Put(votes, key, NextRow(Lookup(votes, key), voteType)), key.1) == TallyOf(votes, key.1)
  {
    var next := NextRow(Lookup(votes, key), voteType);
    TallyAfterPut(votes, key, next, key.1);
    NonUnitRowCountsNothing(voteType);
  }

  lemma NonUnitRowCountsNothing(voteType: int)
    requires !IsUnit(voteType)
    ensures RowCounters(Some(voteType)) == Counters(0, 0)
  {
    assert Some(voteType) != Some(1) && Some(voteType) != Some(-1);
  }

  /** One post whose counters differ from its rows' tally breaks the invariant. */
  lemma PostMissesTally(posts: map<int, PostRow>, votes: VoteTable, id: int)
    requires id in posts && posts[id].counters != TallyOf(votes, ItemRef("post", id))
    ensures !PostsTallied(posts, votes)
  {
  }

  /**
   * Only the handlers keep the item type to "post" or "comment": any other
   * type stores its row under that type but moves a comment's counters.
   */
  lemma OtherItemTypeBreaksTally(t: Tables, itemType: string, commentId: int, clientId: string, voteType: int)
    requires Tallied(t) && commentId in t.comments
    requires itemType != "post" && itemType != "comment"
    ensures !Tallied(AfterVote(t, itemType, commentId, clientId, voteType))
  {
    var key := (clientId, ItemRef(itemType, commentId));
    var item := ItemRef("comment", commentId);
    var existing := Lookup(t.votes, key);
    var t' := AfterVote(t, itemType, commentId, clientId, voteType);
    var delta := CounterDelta(existing, voteType);
    assert TallyOf(t'.votes, item) == TallyOf(t.votes, item) by {
      TallyAfterPut(t.votes, key, NextRow(existing, voteType), item);
    }
    assert t'.comments[commentId].counters == Plus(t.comments[commentId].counters, delta) by {
      CounterDeltaMoves(existing, voteType);
    }
    assert t'.comments[commentId].counters != TallyOf(t'.votes, item) by {
      CounterDeltaMoves(existing, voteType);
    }
  }
}
