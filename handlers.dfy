/**
 * The decisions of the Go HTTP handlers (internal/handlers/handlers.go): the
 * method check, the required form fields and their strconv.Atoi parsing, the
 * path segment that names a community or a post, and the vote handlers,
 * which run processVote and answer with the counters read back.
 *
 * A request is given by its method, its path and the form values the handler
 * reads (an absent field reads as ""). A refused request is a status and a
 * message; a path that does not route is None (http.NotFound).
 */
module Handlers {
  import opened Wrappers
  import opened Tally
  import opened GoStrings
  import opened Database
  import opened Helpers

  const StatusBadRequest := 400
  const StatusMethodNotAllowed := 405
  const StatusInternalServerError := 500

  datatype Response =
    | Failure(code: int, message: string)            // http.Error
    | VoteCounts(upvotes: int, downvotes: int, score: int)

  /** A 405 or a 400: the request was refused before anything was written. */
  predicate Refused(resp: Response)
  {
    resp.Failure? && (resp.code == StatusMethodNotAllowed || resp.code == StatusBadRequest)
  }

  function MethodNotAllowed(): Response
  {
    Failure(StatusMethodNotAllowed, "Method not allowed")
  }

  // ---------------------------------------------------------------------
  // Routing on the path
  // ---------------------------------------------------------------------

  /** FrontPage serves the exact path "/" and nothing else. */
  function FrontPageServes(path: string): (served: bool)
    ensures served <==> path == "/"
  {
    path == "/"
  }

  /**
   * ViewCommunity and ViewPost: the path split on "/" must have at least
   * three pieces, that is at least two '/'; the third piece is the name or id.
   */
  function ThirdSegment(path: string): (r: Option<string>)
    ensures r.None? <==> Occurrences(path, '/') < 2
    ensures r.Some? ==> |Split(path, '/')| >= 3 && r.value == Split(path, '/')[2] && '/' !in r.value
  {
    SplitPieces(path, '/');
    var parts := Split(path, '/');
    if |parts| < 3 then None else Some(parts[2])
  }

  /** ViewPost: the post id of `/posts/<id>`, or 404 (None) when the segment is missing or not an integer. */
  function PostIdOfPath(path: string): (r: Option<int>)
    ensures r.Some? <==> ThirdSegment(path).Some? && Atoi(ThirdSegment(path).value).Some?
    ensures r.Some? ==> r.value == Atoi(ThirdSegment(path).value).value && InIntRange(r.value)
  {
    var segment := ThirdSegment(path);
    if segment.None? then None else Atoi(segment.value)
  }

  /** Where CreatePost and CreateComment redirect: fmt.Sprintf("/posts/%d", id). */
  function PostLocation(id: int): string
  {
    "/posts/" + Itoa(id)
  }

  /** The redirect after creating a post or a comment leads ViewPost back to that post. */
  lemma PostLocationRoundTrip(id: int)
    requires InIntRange(id)
    ensures PostIdOfPath(PostLocation(id)) == Some(id)
  {
    ItoaHasNo(id, '/');
    var parts := ["", "posts", Itoa(id)];
    assert Join(parts, '/') == PostLocation(id) by {
      assert parts[1..] == ["posts", Itoa(id)];
      assert parts[1..][1..] == [Itoa(id)];
      assert Join(parts[1..], '/') == "posts" + ['/'] + Itoa(id);
      assert Join(parts, '/') == "" + ['/'] + ("posts" + ['/'] + Itoa(id));
    }
    SplitJoin(parts, '/');
    ItoaRoundTrip(id);
  }

  /** `/c/<name>` names the community `name`, whatever follows a further '/'. */
  lemma CommunityPathNamesCommunity(name: string, rest: string)
    requires '/' !in name
    ensures ThirdSegment("/c/" + name) == Some(name)
    ensures ThirdSegment("/c/" + name + "/" + rest) == Some(name)
  {
    SplitLeadingPiece("", "c/" + name, '/');
    assert "/c/" + name == "" + ['/'] + ("c/" + name);
    SplitLeadingPiece("c", name, '/');
    assert "c/" + name == "c" + ['/'] + name;
    SplitWithoutSep(name, '/');
    var long := "/c/" + name + "/" + rest;
    assert long == "" + ['/'] + ("c" + ['/'] + (name + ['/'] + rest));
    SplitLeadingPiece("", "c" + ['/'] + (name + ['/'] + rest), '/');
    SplitLeadingPiece("c", name + ['/'] + rest, '/');
    SplitLeadingPiece(name, rest, '/');
  }

  // ---------------------------------------------------------------------
  // Form validation
  // ---------------------------------------------------------------------

  /**
   * CreateCommunity: 405 unless POST, 400 for an empty name; the
   * description may be empty.
   */
  function ValidateCommunity(httpMethod: string, name: string, description: string): (r: Result<(string, string), Response>)
    ensures r.Ok? <==> httpMethod == "POST" && name != ""
    ensures r.Ok? ==> r.value == (name, description)
    ensures httpMethod != "POST" ==> r == Err(MethodNotAllowed())
    ensures httpMethod == "POST" && name == "" ==> r == Err(Failure(StatusBadRequest, "Community name is required"))
  {
    if httpMethod != "POST" then Err(MethodNotAllowed())
    else if name == "" then Err(Failure(StatusBadRequest, "Community name is required"))
    else Ok((name, description))
  }

  /**
   * CreatePost: 405 unless POST, 400 for an empty title, then 400 for a
   * community_id that is not an integer; the content may be empty.
   */
  function ValidatePost(httpMethod: string, title: string, content: string, communityIdField: string)
    : (r: Result<(string, string, int), Response>)
    ensures r.Ok? <==> httpMethod == "POST" && title != "" && Atoi(communityIdField).Some?
    ensures r.Ok? ==> r.value == (title, content, Atoi(communityIdField).value)
    ensures httpMethod != "POST" ==> r == Err(MethodNotAllowed())
    ensures r.Err? ==> Refused(r.error)
    ensures httpMethod == "POST" && title == "" ==> r == Err(Failure(StatusBadRequest, "Post title is required"))
    ensures httpMethod == "POST" && title != "" && Atoi(communityIdField).None? ==>
              r == Err(Failure(StatusBadRequest, "Invalid community ID"))
  {
    if httpMethod != "POST" then Err(MethodNotAllowed())
    else if title == "" then Err(Failure(StatusBadRequest, "Post title is required"))
    else
      match Atoi(communityIdField)
      case None => Err(Failure(StatusBadRequest, "Invalid community ID"))
      case Some(communityId) => Ok((title, content, communityId))
  }

  /**
   * CreateComment: 405 unless POST, 400 for empty content, then 400 for a
   * post_id that is not an integer. A parent_id that is empty or not an
   * integer is dropped: the comment is top-level.
   */
  function ValidateComment(httpMethod: string, content: string, postIdField: string, parentIdField: string)
    : (r: Result<(string, int, Option<int>), Response>)
    ensures r.Ok? <==> httpMethod == "POST" && content != "" && Atoi(postIdField).Some?
    ensures r.Ok? ==> r.value.0 == content && r.value.1 == Atoi(postIdField).value
    ensures r.Ok? ==> r.value.2 == Atoi(parentIdField)
    ensures httpMethod != "POST" ==> r == Err(MethodNotAllowed())
    ensures r.Err? ==> Refused(r.error)
    ensures httpMethod == "POST" && content == "" ==> r == Err(Failure(StatusBadRequest, "Comment content is required"))
    ensures httpMethod == "POST" && content != "" && Atoi(postIdField).None? ==>
              r == Err(Failure(StatusBadRequest, "Invalid post ID"))
  {
    if httpMethod != "POST" then Err(MethodNotAllowed())
    else if content == "" then Err(Failure(StatusBadRequest, "Comment content is required"))
    else
      match Atoi(postIdField)
      case None => Err(Failure(StatusBadRequest, "Invalid post ID"))
      case Some(postId) =>
        var parentId := if parentIdField != "" then Atoi(parentIdField) else None;
        Ok((content, postId, parentId))
  }

  /** A parent_id that does not parse makes a top-level comment rather than an error. */
  lemma BadParentMakesTopLevel(content: string, postIdField: string, parentIdField: string)
    requires content != "" && Atoi(postIdField).Some? && Atoi(parentIdField).None?
    ensures ValidateComment("POST", content, postIdField, parentIdField) == Ok((content, Atoi(postIdField).value, None))
  {
  }

  /** What is voted on: the handler fixes item_type and the name of the id field. */
  datatype ItemKind = PostKind | CommentKind

  function TypeName(kind: ItemKind): string
  {
    if kind == PostKind then "post" else "comment"
  }

  function InvalidIdMessage(kind: ItemKind): string
  {
    if kind == PostKind then "Invalid post ID" else "Invalid comment ID"
  }

  /**
   * VotePost and VoteComment: 405 unless POST, then 400 for an id that is not
   * an integer, then 400 unless vote_type parses to exactly 1 or -1.
   */
  function ValidateVote(kind: ItemKind, httpMethod: string, idField: string, voteTypeField: string)
    : (r: Result<(int, int), Response>)
    ensures r.Ok? <==> httpMethod == "POST" && Atoi(idField).Some?
                       && (Atoi(voteTypeField) == Some(1) || Atoi(voteTypeField) == Some(-1))
    ensures r.Ok? ==> r.value == (Atoi(idField).value, Atoi(voteTypeField).value) && IsUnit(r.value.1)
    ensures httpMethod != "POST" ==> r == Err(MethodNotAllowed())
    ensures httpMethod == "POST" && Atoi(idField).None? ==> r == Err(Failure(StatusBadRequest, InvalidIdMessage(kind)))
    ensures httpMethod == "POST" && Atoi(idField).Some? && Atoi(voteTypeField) != Some(1) && Atoi(voteTypeField) != Some(-1) ==>
              r == Err(Failure(StatusBadRequest, "Invalid vote type"))
    ensures r.Err? ==> Refused(r.error)
  {
    if httpMethod != "POST" then Err(MethodNotAllowed())
    else
      match Atoi(idField)
      case None => Err(Failure(StatusBadRequest, InvalidIdMessage(kind)))
      case Some(id) =>
        var voteType := Atoi(voteTypeField);
        if voteType.None? || (voteType.value != 1 && voteType.value != -1) then
          Err(Failure(StatusBadRequest, "Invalid vote type"))
        else
          Ok((id, voteType.value))
  }

  /** A form written with Itoa from an id and a vote of 1 or -1 is accepted as that id and vote. */
  lemma VoteFormRoundTrip(kind: ItemKind, id: int, voteType: int)
    requires InIntRange(id) && IsUnit(voteType)
    ensures ValidateVote(kind, "POST", Itoa(id), Itoa(voteType)) == Ok((id, voteType))
  {
    ItoaRoundTrip(id);
    ItoaRoundTrip(voteType);
  }

  // ---------------------------------------------------------------------
  // The vote handlers
  // ---------------------------------------------------------------------

  /** `SELECT upvotes, downvotes FROM <posts|comments> WHERE id = ?`, None when no row matches. */
  function Reread(t: Tables, kind: ItemKind, id: int): (r: Option<Counters>)
    ensures kind == PostKind ==> (r.Some? <==> id in t.posts)
    ensures kind == CommentKind ==> (r.Some? <==> id in t.comments)
    ensures r.Some? ==> r.value == (if kind == PostKind then t.posts[id].counters else t.comments[id].counters)
  {
    if kind == PostKind then
      (if id in t.posts then Some(t.posts[id].counters) else None)
    else
      (if id in t.comments then Some(t.comments[id].counters) else None)
  }

  /** Under the counter invariant, the counters read back are the item's tally of rows. */
  lemma RereadIsTally(t: Tables, kind: ItemKind, id: int)
    requires Consistent(t)
    ensures Reread(t, kind, id).Some? ==> Reread(t, kind, id).value == TallyOf(t.votes, ItemRef(TypeName(kind), id))
  {
  }

  /**
   * VotePost / VoteComment: validate, take the client id, run processVote,
   * then read the counters back and answer with them and their difference
   * as the score. Nothing is written unless the request is valid, and the
   * counter invariant holds after every request that held it before. Since
   * processVote returns nil on a failed COMMIT, that case is answered with
   * the counters as they were before the vote.
   */
  method HandleVote(db: Store, kind: ItemKind, httpMethod: string, idField: string, voteTypeField: string,
                    cookie: Option<string>, remoteAddr: string, nanos: int, fault: TxFault)
    returns (resp: Response)
    modifies db
    ensures var v := ValidateVote(kind, httpMethod, idField, voteTypeField);
            v.Err? ==> resp == v.error && db.Snapshot() == old(db.Snapshot())
    ensures var v := ValidateVote(kind, httpMethod, idField, voteTypeField);
            v.Ok? && StatementFault(fault) ==>
              resp == Failure(StatusInternalServerError, "Failed to process vote") && db.Snapshot() == old(db.Snapshot())
    ensures var v := ValidateVote(kind, httpMethod, idField, voteTypeField);
            v.Ok? && fault == CommitFails ==>
              db.Snapshot() == old(db.Snapshot())
              && (resp.VoteCounts? <==> Reread(old(db.Snapshot()), kind, v.value.0).Some?)
    ensures var v := ValidateVote(kind, httpMethod, idField, voteTypeField);
            v.Ok? && fault == NoFault ==>
              db.Snapshot() == AfterVote(old(db.Snapshot()), TypeName(kind), v.value.0, ClientId(cookie, remoteAddr, nanos), v.value.1)
              && (resp.VoteCounts? <==> Reread(db.Snapshot(), kind, v.value.0).Some?)
    ensures var v := ValidateVote(kind, httpMethod, idField, voteTypeField);
            v.Ok? && !StatementFault(fault) && Reread(db.Snapshot(), kind, v.value.0).None? ==>
              resp == Failure(StatusInternalServerError, "Failed to get updated vote count")
    ensures resp.VoteCounts? ==> resp.score == resp.upvotes - resp.downvotes
    ensures resp.VoteCounts? ==>
              ValidateVote(kind, httpMethod, idField, voteTypeField).Ok?
              && Reread(db.Snapshot(), kind, ValidateVote(kind, httpMethod, idField, voteTypeField).value.0)
                 == Some(Counters(resp.upvotes, resp.downvotes))
    ensures old(db.Valid()) ==> db.Valid()
    ensures resp.VoteCounts? && db.Valid() ==>
              var id := ValidateVote(kind, httpMethod, idField, voteTypeField).value.0;
              Counters(resp.upvotes, resp.downvotes) == TallyOf(db.votes, ItemRef(TypeName(kind), id))
  {
    var v := ValidateVote(kind, httpMethod, idField, voteTypeField);
    if v.Err? {
      return v.error;
    }
    var (id, voteType) := v.value;
    var clientId := ClientId(cookie, remoteAddr, nanos);
    var failed := ProcessVote(db, TypeName(kind), id, clientId, voteType, fault);
    if failed {
      return Failure(StatusInternalServerError, "Failed to process vote");
    }
    var counters := Reread(db.Snapshot(), kind, id);
    if counters.None? {
      return Failure(StatusInternalServerError, "Failed to get updated vote count");
    }
    if db.Valid() {
      RereadIsTally(db.Snapshot(), kind, id);
    }
    var c := counters.value;
    resp := VoteCounts(c.upvotes, c.downvotes, c.upvotes - c.downvotes);
  }
}
