/**
 * The records of the Go application (internal/models/models.go) and
 * BuildCommentTree, which links a flat slice of comments into a forest.
 *
 * Timestamps are modelled as integers ordered like the instants they stand
 * for. A `*Comment` that points into the input slice (`&comments[i]`) is the
 * index `i` of that slice, so a comment's `replies` is a sequence of indices.
 */
module Models {
  import opened Wrappers
  import opened Collections

  datatype Community = Community(id: int, name: string, description: string, createdAt: int, postCount: int)

  datatype Post = Post(id: int, title: string, content: string, communityId: int, communityName: string,
                       createdAt: int, upvotes: int, downvotes: int, score: int, commentCount: int)

  /** `parentId` is None for a top-level comment (a NULL parent_id). */
  datatype Comment = Comment(id: int, content: string, postId: int, parentId: Option<int>, createdAt: int,
                             upvotes: int, downvotes: int, score: int, replies: seq<nat>)

  /** `voteType` is 1 for an upvote and -1 for a downvote. */
  datatype Vote = Vote(id: int, itemType: string, itemId: int, clientId: string, voteType: int, createdAt: int)

  // ---------------------------------------------------------------------
  // What BuildCommentTree links
  // ---------------------------------------------------------------------

  /**
   * The element at `j` is the one the ID map keeps: no later element has its
   * ID (a later duplicate replaces an earlier one in the map).
   */
  ghost predicate Kept(s: seq<Comment>, j: int)
  {
    0 <= j < |s| && forall k :: j < k < |s| ==> s[k].id != s[j].id
  }

  /** A kept comment with a nil ParentID is a root. */
  ghost predicate IsRoot(s: seq<Comment>, j: int)
  {
    Kept(s, j) && s[j].parentId.None?
  }

  /** The kept comment at `j` is a reply to the kept comment at `p`. */
  ghost predicate RepliesTo(s: seq<Comment>, j: int, p: int)
  {
    Kept(s, j) && Kept(s, p) && s[j].parentId == Some(s[p].id)
  }

  predicate NoDuplicates(xs: seq<nat>)
  {
    forall a, b :: 0 <= a < b < |xs| ==> xs[a] != xs[b]
  }

  /** Two kept elements with the same ID are the same element. */
  lemma KeptUnique(s: seq<Comment>, a: int, b: int)
    ensures Kept(s, a) && Kept(s, b) && s[a].id == s[b].id ==> a == b
  {
  }

  /** With no ID held twice, every element is the kept one for its ID. */
  lemma DistinctIdsAllKept(s: seq<Comment>)
    requires forall i, j :: 0 <= i < j < |s| ==> s[i].id != s[j].id
    ensures forall j :: 0 <= j < |s| ==> Kept(s, j)
  {
  }

  /**
   * The first pass of BuildCommentTree: empties every comment's replies and
   * maps each ID to the index of the last comment holding it.
   */
  method ResetAndIndex(comments: array<Comment>) returns (commentMap: map<int, nat>)
    modifies comments
    ensures forall j :: 0 <= j < comments.Length ==> comments[j] == old(comments[j]).(replies := [])
    ensures forall id :: id in commentMap ==>
              Kept(old(comments[..]), commentMap[id]) && old(comments[commentMap[id]]).id == id
    ensures forall j :: 0 <= j < comments.Length ==> old(comments[j]).id in commentMap
  {
    ghost var s := comments[..];
    var n := comments.Length;
    commentMap := map[];
    for i := 0 to n
      invariant forall j :: 0 <= j < i ==> comments[j] == s[j].(replies := [])
      invariant forall j :: i <= j < n ==> comments[j] == s[j]
      invariant forall id :: id in commentMap ==>
                  commentMap[id] < i && s[commentMap[id]].id == id
                  && forall k :: commentMap[id] < k < i ==> s[k].id != id
      invariant forall j :: 0 <= j < i ==> s[j].id in commentMap
    {
      comments[i] := comments[i].(replies := []);
      commentMap := commentMap[comments[i].id := i];
    }
  }

  /** The ID map of the first pass: each ID maps to the kept comment holding it, and every ID is mapped. */
  ghost predicate Indexed(s: seq<Comment>, m: map<int, nat>)
  {
    (forall id :: id in m ==> Kept(s, m[id]) && s[m[id]].id == id)
    && (forall j :: 0 <= j < |s| ==> s[j].id in m)
  }

  /**
   * The state of the second pass once the IDs in `done` are handled: only
   * replies changed, and roots and replies hold exactly the links of the
   * handled comments, each once.
   */
  ghost predicate Linked(s: seq<Comment>, a: seq<Comment>, roots: seq<nat>, done: set<int>)
  {
    |a| == |s|
    && (forall j :: 0 <= j < |s| ==> a[j] == s[j].(replies := a[j].replies))
    && (forall j :: j in roots <==> IsRoot(s, j) && s[j].id in done)
    && NoDuplicates(roots)
    && (forall p, j :: 0 <= p < |s| ==> (j in a[p].replies <==> RepliesTo(s, j, p) && s[j].id in done))
    && (forall p :: 0 <= p < |s| ==> NoDuplicates(a[p].replies))
  }

  /** Handling a comment with a nil ParentID appends it to the roots. */
  lemma LinkRoot(s: seq<Comment>, a: seq<Comment>, roots: seq<nat>, done: set<int>, m: map<int, nat>, id: int)
    requires Indexed(s, m) && Linked(s, a, roots, done)
    requires id in m && id !in done && s[m[id]].parentId.None?
    ensures Linked(s, a, roots + [m[id]], done + {id})
  {
    var idx := m[id];
    forall j ensures j in roots + [idx] <==> IsRoot(s, j) && s[j].id in done + {id} {
      KeptUnique(s, j, idx);
    }
  }

  /** Handling a comment whose parent is the kept comment at `p` appends it to that comment's replies. */
  lemma LinkReply(s: seq<Comment>, a: seq<Comment>, roots: seq<nat>, done: set<int>, m: map<int, nat>, id: int, p: nat)
    requires Indexed(s, m) && Linked(s, a, roots, done)
    requires id in m && id !in done && Kept(s, p) && s[m[id]].parentId == Some(s[p].id)
    ensures Linked(s, a[p := a[p].(replies := a[p].replies + [m[id]])], roots, done + {id})
  {
    var idx := m[id];
    var a' := a[p := a[p].(replies := a[p].replies + [idx])];
    forall q, j | 0 <= q < |s|
      ensures j in a'[q].replies <==> RepliesTo(s, j, q) && s[j].id in done + {id}
    {
      KeptUnique(s, j, idx);
      KeptUnique(s, q, p);
    }
    assert idx !in a[p].replies;
  }

  /** A comment whose parent ID is not mapped is linked nowhere. */
  lemma LinkOrphan(s: seq<Comment>, a: seq<Comment>, roots: seq<nat>, done: set<int>, m: map<int, nat>, id: int)
    requires Indexed(s, m) && Linked(s, a, roots, done)
    requires id in m && id !in done && s[m[id]].parentId.Some? && s[m[id]].parentId.value !in m
    ensures Linked(s, a, roots, done + {id})
  {
    var idx := m[id];
    forall q, j | 0 <= q < |s|
      ensures j in a[q].replies <==> RepliesTo(s, j, q) && s[j].id in done + {id}
    {
      KeptUnique(s, j, idx);
      assert s[q].id in m;
    }
  }

  /** Once every mapped ID is handled, roots and replies hold exactly the links of all kept comments. */
  lemma LinkedAll(s: seq<Comment>, a: seq<Comment>, roots: seq<nat>, done: set<int>, m: map<int, nat>)
    requires Indexed(s, m) && Linked(s, a, roots, done)
    requires forall id :: id in m ==> id in done
    ensures forall j :: j in roots <==> IsRoot(s, j)
    ensures forall p, j :: 0 <= p < |a| ==> (j in a[p].replies <==> RepliesTo(s, j, p))
  {
  }

  /**
   * BuildCommentTree: every comment's replies are reset; the roots are exactly
   * the kept comments with a nil ParentID; a kept comment whose parent ID is
   * kept is appended once to that parent's replies; one whose parent ID is
   * absent is linked nowhere. The map is iterated in no particular order, so
   * only membership (and the absence of duplicates) is promised.
   */
  method BuildCommentTree(comments: array<Comment>) returns (roots: seq<nat>)
    modifies comments
    ensures forall j :: 0 <= j < comments.Length ==>
              comments[j] == old(comments[j]).(replies := comments[j].replies)
    ensures forall j :: j in roots <==> IsRoot(old(comments[..]), j)
    ensures NoDuplicates(roots)
    ensures forall p, j :: 0 <= p < comments.Length ==>
              (j in comments[p].replies <==> RepliesTo(old(comments[..]), j, p))
    ensures forall p :: 0 <= p < comments.Length ==> NoDuplicates(comments[p].replies)
  {
    ghost var s := comments[..];

    // First pass: reset Replies and map each ID to (the last) element holding it.
    var commentMap := ResetAndIndex(comments);
    assert Indexed(s, commentMap);

    // Second pass: link every entry of the map, in whatever order the map yields.
    var pending := commentMap.Keys;
    ghost var done: set<int> := {};
    roots := [];
    while pending != {}
      invariant pending <= commentMap.Keys
      invariant forall id :: id in done <==> id in commentMap && id !in pending
      invariant Linked(s, comments[..], roots, done)
      decreases pending
    {
      ghost var someId := Member(pending);
      var id :| id in pending;
      var idx := commentMap[id];
      var comment := comments[idx];
      if comment.parentId.None? {
        LinkRoot(s, comments[..], roots, done, commentMap, id);
        roots := roots + [idx];
      } else {
        var parentId := comment.parentId.value;
        if parentId in commentMap {
          var p := commentMap[parentId];
          LinkReply(s, comments[..], roots, done, commentMap, id, p);
          comments[p] := comments[p].(replies := comments[p].replies + [idx]);
        } else {
          LinkOrphan(s, comments[..], roots, done, commentMap, id);
        }
      }
      pending := pending - {id};
      done := done + {id};
    }
    forall id | id in commentMap ensures id in done {
      assert Kept(s, commentMap[id]);
    }
    LinkedAll(s, comments[..], roots, done, commentMap);
  }
}
