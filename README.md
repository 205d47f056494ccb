# hubcorner: vote reconciliation, comment trees and request checks

hubcorner is a small Reddit-like forum with two back ends. The Express back end
(`server.js`) keeps one signed `votes` counter per post. The Go back end
(`internal/`) keeps separate `upvotes` and `downvotes` counters per post and per
comment. Both reconcile a vote the same way:

- A first vote inserts a row.
- The same vote again deletes the row (toggle off).
- The other vote updates the row (flip).

Each branch then moves the item's counters inside one transaction.

This project models:

- the vote reconciler in all three of its copies:
  - `server.js` (module `ExpressServer`);
  - `VotePost`/`VoteComment` of `db.go` (module `Database`);
  - `processVote` of `helpers.go` (module `Helpers`);
- the invariant the reconciler keeps: every counter is the count of its rows;
- the toggle and flip laws;
- a refinement (module `Refinement`): under the same sequence of votes, the Express counter equals Go's `upvotes - downvotes`;
- the listing queries, with their score and ORDER BY rules;
- `BuildCommentTree` (module `Models`) and the tree `getComments` builds;
- `getUserVotes` and `getClientID`;
- the form and path checks of the Go handlers (module `Handlers`), over a model of `strconv.Atoi`, `strconv.Itoa` and `strings.Split` (module `GoStrings`);
- the submit logic of `CreateCommunityDialog.tsx` (module `CommunityDialog`).

How the model represents things:

- A table is a `map` from its key to the rest of the row. The vote tables are keyed by voter and item, so "at most one vote per voter and item" is structural.
  - In Go this follows the `UNIQUE(item_type, item_id, client_id)` key of `db.go`.
  - In Express it is a modelling choice. The `UNIQUE(user_id, post_id, comment_id)` key of `server.js` does not enforce it, because the vote route never writes `comment_id` and SQLite treats NULLs as distinct. Only the route's SELECT before its INSERT keeps one row per pair, and that holds only when requests run one at a time (concurrency is left out).
- A transaction is one method. Its failure is a parameter: `storeFails` in Express, `TxFault` in Go. A failed transaction leaves every table as it was.
- The clock (`time.Now().UnixNano()`, `new Date().toISOString()`) is a parameter.
- The outcome of the dialog's `fetch` is a parameter.

Some laws one might expect of a vote toggle do not hold as written, and the model follows the code:

- **Flip law.** Voting up and then down from no vote leaves the counter one below where it started, not two. The flip itself moves the counter by two (`ExpressServer.UpThenDown`).
- **Toggle.** Voting twice restores the tables only when the voter had no row or had that same vote. After a flip, a second vote deletes the row (`ExpressServer.RepeatAfterFlipClears`).
- **Vote values in Go.** The Go reconciler compares only with `voteType == 1`. Any other value is counted as a downvote. The handlers accept only 1 and -1 (`Handlers.ValidateVote`), so through HTTP this is unreachable. `VoteGuards.NonUnitVoteBreaksTally` shows what a direct caller would get.
- **A failed COMMIT in Go.** `VotePost`, `VoteComment` and `processVote` return nil when only the COMMIT fails, so the vote handlers answer 200 with the counters as they were. The reconcilers and `Handlers.HandleVote` are modelled that way; `Database.ReconcileVoteChecked` is the corrected reconciler (see Findings).
- **Comment order.** `db.go`'s `GetComments` orders by score, then oldest first. The handlers' own `getComments` runs a query ordered by creation time, but the forest it returns comes from walking a map and has no order. Each is modelled as written.

## Model

| member | source | states |
|---|---|---|
| ExpressServer.ParseVoteType | server.js:227-230 | a vote_type is accepted exactly when it is the string 'up' or 'down' |
| ExpressServer.UserOrAnonymous | server.js:224 | user_id defaults to 'anonymous' only when the field is absent |
| ExpressServer.NextVote | server.js:249-270 | the row after a vote is deleted exactly when it already held the requested direction, otherwise it holds the requested direction |
| ExpressServer.VoteChange | server.js:247-270 | the counter change of each branch is the new row's weight minus the old row's, is never 0, and is ±2 on a flip |
| ExpressServer.Bump | server.js:273-275 | the UPDATE moves only the named post's counter, and matches nothing when the post is missing |
| ExpressServer.NetAfterPut | server.js:249-270 | writing one vote row moves the post's net sum of rows by the new weight minus the old weight, and no other post's |
| ExpressServer.VoteKeepsTally | server.js:249-275 | the reconciler's writes keep every post's counter equal to the sum of its vote rows |
| ExpressServer.RepeatedVoteRestores | server.js:249-275 | from no row or the same vote, voting the same direction twice restores both tables |
| ExpressServer.RepeatAfterFlipClears | server.js:256-270 | after a flip, repeating the new direction deletes the row, so the net effect is one weight |
| ExpressServer.UpThenDown | server.js:249-270 | up then down from no row leaves a 'down' row; the flip moves the counter by -2 and the pair by -1 |
| ExpressServer.ToggleOffStillReportsVote | server.js:296 | as written, a toggle-off removes the row but still reports `userVoted` as the requested direction |
| ExpressServer.OrphanVoteBreaksTally | server.js:237-275 | as written, a vote on a missing post inserts a row no post owns; a post created later under that id has a counter that misses it |
| ExpressServer.CreatePostKeepsInvariant | server.js:132-133 | with no orphan rows, inserting a post with votes 0 under a new id keeps the counters tallied |
| ExpressServer.CheckedVoteKeepsInvariant | server.js:249-275 | a vote on an existing post keeps both the tally and the absence of orphan rows |
| ExpressServer.NewPost | server.js:124-133 | a post is built exactly when id, title, content and community are present; its votes start at 0 |
| ExpressServer.NewComment | server.js:194-205 | a comment is built exactly when id and content are present, under the URL's post id, with votes 0 |
| ExpressServer.Db.constructor | server.js:52-59 | all tables start empty |
| ExpressServer.Db.CreatePost | server.js:124-151 | missing fields, a duplicate id or a failed INSERT leave the posts unchanged; otherwise the row is added; the invariant is kept |
| ExpressServer.Db.AddComment | server.js:194-220 | missing fields, a duplicate id or a failed INSERT leave the comments unchanged; otherwise the row is added |
| ExpressServer.Db.VoteAsWritten | server.js:223-305 | the vote route as written: 400 on a bad vote_type, rollback on failure, otherwise the row transition and counter change, answered with the post (or none) and `userVoted` as computed |
| ExpressServer.Db.Vote | server.js:223-305 | the corrected route: a missing post is refused with no write, and `userVoted` is the row after the vote; the invariant is kept |
| Database.NextRow | internal/database/db.go:324-374 | the client's row is deleted exactly when it held the same vote_type, otherwise it holds the new vote_type |
| Database.CounterDeltaMoves | internal/database/db.go:333-370 | every branch of the reconciler moves at least one counter |
| Database.BumpPost | internal/database/db.go:334-369 | the posts UPDATE changes only the named post's counters, and nothing when it is missing |
| Database.BumpComment | internal/database/db.go:413-448 | the comments UPDATE changes only the named comment's counters, and nothing when it is missing |
| Database.DeltaIsRowChange | internal/database/db.go:324-374 | for votes of 1 or -1, each branch's counter UPDATE is the new row's contribution minus the old row's |
| Database.TallyAfterPut | internal/database/db.go:324-374 | writing one vote row moves only its own item's tally, by the row's change |
| Database.RowsStayUnit | internal/database/db.go:65 | writing a row of 1 or -1 keeps every stored vote_type 1 or -1 |
| Database.PostsFollowRow | internal/database/db.go:324-374 | a post's row written and its counters moved by the row's change keeps every post tallied |
| Database.PostsIgnoreRow | internal/database/db.go:403-453 | a comment row written leaves every post tallied |
| Database.CommentsFollowRow | internal/database/db.go:403-453 | a comment's row written and its counters moved by the row's change keeps every comment tallied |
| Database.CommentsIgnoreRow | internal/database/db.go:324-374 | a post row written leaves every comment tallied |
| Database.VoteKeepsTally | internal/database/db.go:301-377 | a vote of 1 or -1 on a post or comment keeps every counter equal to the count of its rows, and every row 1 or -1 |
| Database.RepeatedVoteRestores | internal/database/db.go:324-374 | toggle: from no row or the same vote, voting twice gives back the tables as they were |
| Database.BumpPostTwice | internal/database/db.go:333-370 | two counter UPDATEs that cancel leave the posts table as it was |
| Database.BumpCommentTwice | internal/database/db.go:412-449 | two counter UPDATEs that cancel leave the comments table as it was |
| Database.FlipMovesOneUnit | internal/database/db.go:341-357 | a flip moves one unit between the counters: their sum is unchanged and the score moves by twice the new vote |
| Database.UpThenDown | internal/database/db.go:324-374 | up then down from no row leaves a -1 row and one more downvote, no more upvotes |
| Database.DeferredResultAsWritten | internal/database/db.go:306-312 | as written, the error returned is only that of a failed statement; the commit's error is lost |
| Database.DeferredResult | internal/database/db.go:306-312 | corrected: the call fails exactly when the transaction did not commit |
| Database.CommitFailureReportedAsSuccess | internal/database/db.go:306-312 | as written, a failed COMMIT returns nil although nothing was written |
| Database.Store.constructor | internal/database/db.go:9-75 | every table starts empty |
| Database.RunVoteTransaction | internal/database/db.go:301-377 | a failing statement or a failing COMMIT leaves every table unchanged; otherwise the tables are the row transition and counter UPDATE of the vote |
| Database.ReconcileVote | internal/database/db.go:301-377 | as written: an error is returned exactly when a statement (or BEGIN) failed; a failed COMMIT writes nothing yet returns nil |
| Database.ReconcileVoteChecked | internal/database/db.go:306-312 | corrected: the call fails exactly when the transaction did not commit, and the tables change exactly when it did |
| Database.VotePost | internal/database/db.go:301-377 | the reconciler on posts, with the as-written result; a vote of 1 or -1 keeps the tally invariant |
| Database.VoteComment | internal/database/db.go:380-456 | the reconciler on comments, with the as-written result; a vote of 1 or -1 keeps the tally invariant |
| Database.PostView | internal/database/db.go:190-201 | a listed post's record carries its counters and score = upvotes - downvotes |
| Database.GetPosts | internal/database/db.go:151-204 | every post that joins a community (of the given one when positive) appears once, as its record, by score descending then newest first |
| Database.GetPost | internal/database/db.go:216-238 | a post is found exactly when its row joins a community; the record is the listing's with score = upvotes - downvotes |
| Database.CommentView | internal/database/db.go:269-278 | a comment's record carries its counters and score = upvotes - downvotes |
| Database.SelectComments | internal/database/db.go:242-279 | every comment of the post appears once, as its record, in descending rank |
| Database.GetComments | internal/database/db.go:241-281 | every comment of the post appears once, by score descending then oldest first |
| VoteGuards.NonUnitVoteBreaksTally | internal/database/db.go:358-370 | a first vote whose vote_type is neither 1 nor -1 adds a downvote that no row accounts for |
| VoteGuards.UncountedRow | internal/database/db.go:358-363 | a stored row of any value other than 1 or -1 counts toward neither counter |
| VoteGuards.NonUnitRowCountsNothing | internal/database/db.go:65 | a row other than 1 or -1 contributes to neither counter |
| VoteGuards.OtherItemTypeBreaksTally | internal/handlers/helpers.go:274-286 | processVote treats any item type but "post" as a comment, so a first vote with another item type moves a comment's counters while its row belongs to no comment |
| Models.KeptUnique | internal/models/models.go:59-63 | the map keeps one comment per id: two kept positions with the same id are the same |
| Models.DistinctIdsAllKept | internal/models/models.go:59-63 | when ids are distinct, every comment is kept in the map |
| Models.ResetAndIndex | internal/models/models.go:59-63 | every comment's replies are reset to empty, and the map sends each id to the last position holding it |
| Models.LinkRoot | internal/models/models.go:67-69 | linking a comment with no parent adds it to the roots |
| Models.LinkReply | internal/models/models.go:71-75 | linking a reply whose parent is in the map appends it to that parent's replies |
| Models.LinkOrphan | internal/models/models.go:73 | a reply whose parent is not in the map is linked nowhere |
| Models.LinkedAll | internal/models/models.go:66-77 | once every id is visited, the roots are exactly the kept comments with no parent and each comment's replies are exactly its kept children |
| Models.BuildCommentTree | internal/models/models.go:54-80 | roots are exactly the kept comments with no parent, once each; each kept comment's replies are exactly the kept comments whose parent is its id, once each; the other fields are unchanged |
| Helpers.ProcessVote | internal/handlers/helpers.go:241-347 | the reconciler with the item type as a parameter; an error exactly when a statement failed (a failed COMMIT returns nil and writes nothing); a vote of 1 or -1 on a post or comment keeps the tally invariant |
| Helpers.GetComments | internal/handlers/helpers.go:127-189 | the post's comments oldest first, once each, with score = upvotes - downvotes; the roots are exactly those with no parent, and each comment's replies are exactly its children |
| Helpers.ScannedCommentsOfPost | internal/handlers/helpers.go:128-171 | the scan ordered by created_at yields the post's comments once each, oldest first |
| Helpers.DistinctIdsLinkByParent | internal/handlers/helpers.go:174-186 | with distinct ids, the tree links every comment to its parent by parent_id |
| Helpers.GetUserVotes | internal/handlers/helpers.go:205-238 | the client's vote on the post, keyed by the post id; and their votes on exactly the comments of that post, keyed by comment id |
| Helpers.UserVotesAreUnit | internal/handlers/helpers.go:205-238 | under the tally invariant, every reported vote is 1 or -1 |
| Helpers.ClientId | internal/handlers/helpers.go:192-202 | the client_id cookie wins whenever the request carries one |
| Helpers.GeneratedIdParts | internal/handlers/helpers.go:200 | a generated id splits at '_' into the address and the decimal time, which parses back |
| Helpers.GeneratedIdsDiffer | internal/handlers/helpers.go:200 | two generated ids are equal exactly when address and time are equal |
| GoStrings.Atoi | internal/handlers/handlers.go:190-194 | strconv.Atoi parses exactly the texts of an optional sign and one or more decimal digits whose value is within the int range, to that value; the empty string fails |
| GoStrings.ItoaRoundTrip | internal/handlers/handlers.go:210 | for every int, parsing the decimal text gives the int back |
| GoStrings.ItoaHasNo | internal/handlers/helpers.go:200 | the decimal text holds no character other than digits and '-' |
| GoStrings.SplitPieces | internal/handlers/handlers.go:111 | strings.Split gives one more piece than separators, none holding the separator, and joining them gives the string back |
| GoStrings.SplitJoin | internal/handlers/handlers.go:215-221 | pieces without the separator, joined then split, come back unchanged |
| GoStrings.SplitLeadingPiece | internal/handlers/handlers.go:111 | splitting a piece, a separator and a rest gives the piece followed by the rest's pieces |
| GoStrings.SplitWithoutSep | internal/handlers/handlers.go:111 | a string without the separator splits into itself |
| GoStrings.NatDigitsValue | internal/handlers/helpers.go:200 | the decimal digits of n have value n |
| Handlers.FrontPageServes | internal/handlers/handlers.go:29-33 | the front page serves exactly the path "/" |
| Handlers.ThirdSegment | internal/handlers/handlers.go:111-117 | no segment exactly when the path has fewer than two '/'; otherwise the third piece, which holds no '/' |
| Handlers.PostIdOfPath | internal/handlers/handlers.go:214-226 | a post id exactly when the third segment exists and parses as an int |
| Handlers.PostLocationRoundTrip | internal/handlers/handlers.go:210 | the redirect `/posts/<id>` leads ViewPost back to that id |
| Handlers.CommunityPathNamesCommunity | internal/handlers/handlers.go:110-117 | `/c/<name>` and `/c/<name>/<rest>` both name the community `name` |
| Handlers.ValidateCommunity | internal/handlers/handlers.go:84-96 | accepted exactly for POST with a non-empty name; 405 otherwise for the method, 400 for an empty name |
| Handlers.ValidatePost | internal/handlers/handlers.go:175-194 | accepted exactly for POST with a title and an integer community_id; 405 for another method; for POST, 400 "Post title is required" then 400 "Invalid community ID" |
| Handlers.ValidateComment | internal/handlers/handlers.go:273-300 | accepted exactly for POST with content and an integer post_id; 405 for another method; for POST, 400 "Comment content is required" then 400 "Invalid post ID"; the parent is the parsed parent_id or none |
| Handlers.BadParentMakesTopLevel | internal/handlers/handlers.go:294-300 | a parent_id that does not parse makes a top-level comment, not an error |
| Handlers.ValidateVote | internal/handlers/handlers.go:314-333 | accepted exactly for POST with an integer id and a vote_type of exactly 1 or -1; 405 for another method; for POST, 400 for a bad id, then 400 "Invalid vote type" for any vote_type other than 1 or -1 |
| Handlers.VoteFormRoundTrip | internal/handlers/handlers.go:323-333 | a form written from an id and a vote of ±1 is accepted as that id and vote |
| Handlers.Reread | internal/handlers/handlers.go:346-351 | the counters are read back exactly when the item's row exists, and they are that row's upvotes and downvotes |
| Handlers.RereadIsTally | internal/handlers/handlers.go:346-357 | under the invariant, the counters read back are the item's count of rows |
| Handlers.HandleVote | internal/handlers/handlers.go:314-411 | a refused request writes nothing; a failed statement answers 500 "Failed to process vote" and writes nothing; a missing row on the re-read answers 500 "Failed to get updated vote count"; a failed COMMIT writes nothing and answers the counters as they were; otherwise the tables are the vote's transition; every answer's counters are the row read back, with score = upvotes - downvotes; the invariant is kept, and under it the answer's counters equal the count of rows |
| CommunityDialog.TrimStart | src/components/community/CreateCommunityDialog.tsx:26 | the leading white space is cut off, and the remainder does not begin with white space |
| CommunityDialog.TrimEnd | src/components/community/CreateCommunityDialog.tsx:26 | the trailing white space is cut off, and the remainder does not end with white space |
| CommunityDialog.Trim | src/components/community/CreateCommunityDialog.tsx:26 | the result is the slice of the input left once a white-space prefix and a white-space suffix are cut off; it is empty exactly when the input is all white space, and otherwise begins and ends with a character that is not |
| CommunityDialog.TrimOfTrimmed | src/components/community/CreateCommunityDialog.tsx:59 | trimming a trimmed string changes nothing |
| CommunityDialog.LowerCase | src/components/community/CreateCommunityDialog.tsx:148 | every upper-case ASCII letter is lowered, the KELVIN SIGN becomes 'k', and every other character is kept |
| CommunityDialog.ValidateName | src/components/community/CreateCommunityDialog.tsx:26-43 | a name is accepted exactly when it matches /^[a-z0-9-]+$/; a blank name gets the blank message and any other failure the format message |
| CommunityDialog.TypedNameAccepted | src/components/community/CreateCommunityDialog.tsx:148 | a typed name of ASCII letters, the KELVIN SIGN, digits and '-' passes validation once lowered by the input |
| CommunityDialog.DescriptionOrDefault | src/components/community/CreateCommunityDialog.tsx:59 | a non-blank description is sent trimmed; a blank one becomes "Discussions about <name>" |
| CommunityDialog.DescriptionNeverBlank | src/components/community/CreateCommunityDialog.tsx:91 | for an accepted name the stored description is never blank and needs no trimming |
| CommunityDialog.CommunityList.constructor | src/components/community/CreateCommunityDialog.tsx:75 | no stored list reads as the empty list |
| CommunityDialog.CommunityList.Contains | src/components/community/CreateCommunityDialog.tsx:78 | true exactly when some stored entry has the name |
| CommunityDialog.CommunityList.Submit | src/components/community/CreateCommunityDialog.tsx:25-99 | a rejected name stores nothing; an API success stores nothing; otherwise a duplicate is rejected and a new name is appended with its description and time; no name is ever stored twice |
| CommunityDialog.AppendKeepsWellFormed | src/components/community/CreateCommunityDialog.tsx:78-96 | appending an accepted name not in the list keeps every name accepted and unique |
| Refinement.Code | internal/database/db.go:65 | 'up' and 'down' are stored as 1 and -1, each being the direction's weight |
| Refinement.StepRefines | internal/database/db.go:324-374 | for one vote, the Go row is the encoded Express row and the Go score moves by Express's voteChange |
| Refinement.JsStepRefines | server.js:249-275 | one vote in both back ends keeps rows and counters corresponding |
| Refinement.ReplayRefines | internal/database/db.go:301-377 | after any sequence of votes from corresponding states, the rows correspond and the Express counter equals upvotes - downvotes |
| Refinement.FromFreshPost | server.js:133 | from a fresh post in both back ends, after any sequence of votes, the Express counter equals Go's upvotes - downvotes |

## Left out

- SQL engine, HTTP plumbing, templates, JSON encoding, redirects and CORS are not modelled. Static files, `main.js` and the frontend views are also out. A table is a map, and a handler's decision is a value.
- Concurrency is not modelled. Each transaction is one atomic step.
- ExpressServer.Db.VoteAsWritten: the callback error paths collapse into one `storeFails` input. These are the failed SELECT, the failed counter UPDATE and the failed re-read, each followed by a ROLLBACK.
- ExpressServer.Db.VoteAsWritten: the statements with no callback are not modelled failing. These are `BEGIN TRANSACTION` (`server.js:234`), the INSERT, DELETE or UPDATE of the vote row (`server.js:251-268`), `COMMIT` (`server.js:293`) and the `ROLLBACK`s. The model commits whenever `storeFails` is false. In the source, node-sqlite3 reports such a statement's failure as an `'error'` event, which is not modelled.
- ExpressServer.Db.VoteAsWritten: the 200 answer is sent right after `COMMIT` is queued (`server.js:293-297`), before its outcome is known. A failed COMMIT would still have answered with the new counter. This is the Express counterpart of the Go commit finding, and it is not modelled.
- The Go reconciler's failures are one `TxFault` per transaction. Read-only queries (`GetPosts`, `GetPost`, `GetComments`, `getUserVotes`) are modelled without their error returns.
- `getPosts` and `getPost` in `helpers.go` repeat the queries of `db.go`, so only `Database.GetPosts` and `Database.GetPost` model them.
- `getCommunities` and the community and comment listings of the Express server are out. They are plain SELECTs with no rule to state.
- The INSERTs of the Go create handlers and `db.go`'s `CreateCommunity`/`CreatePost`/`CreateComment` are out. The model covers their validation; the rows and `LastInsertId` belong to the SQL engine.
- The time-based part of the client id (`time.Now().UnixNano()`) and the dialog's `new Date().toISOString()` are parameters. The dialog's `fetch` is the `apiSucceeded` input, and the `localStorage` text is the `entries` sequence; its JSON is not modelled.
- Database.GetPosts: ties under ORDER BY (same score and created_at) come back in an order the contract does not fix. SQLite's tie order is unspecified.
- Database.GetComments: ties under ORDER BY are likewise left in an unfixed order.
- Helpers.GetComments: the roots and each comment's replies are sets in the contract. The source walks a Go map, whose iteration order is random, so no order is promised.
- Models.BuildCommentTree: the order of the roots and the replies is not stated, for the same reason. Pointers to comments are indices into the array.
- Database.GetPost: the record carries `comment_count` 0 because the query selects no count. `created_at` is an integer rather than SQLite's timestamp text.
- Helpers.ClientId: the generated id is unique only per address and nanosecond, as stated. Cookie setting is out of scope; the handlers never set the cookie.
- CommunityDialog.LowerCase: only the characters whose lower case is ASCII are lowered (the ASCII capitals and U+212A KELVIN SIGN). JavaScript's `toLowerCase` also lowers other scripts, but their lower-case forms are not ASCII (U+0130 becomes 'i' followed by U+0307), so the name pattern refuses them either way and nothing is stored.
- CommunityDialog.CommunityList.Submit: the toasts, the dialog closing and the `isSubmitting` flag are out. Only the outcome and the stored list are modelled.
- Go orphan rows: like the Express route, the Go reconciler never checks that the post or comment exists. A vote on a missing id commits a row that no item owns, and the handler then answers 500 from the re-read. The model's `HandleVote` shows this: the tables become `AfterVote`, and the answer is a failure when `Reread` finds nothing. An item created later under that id would start with counters that miss the row. This is the same gap as the Express finding below and is not proved twice.
- UserOrAnonymous: a body with `"user_id": null` is not modelled. The destructuring default of `server.js:224` applies only to an absent field, so null is kept, and `user_id = ?` with NULL never matches at `server.js:238`. Every such vote therefore inserts a new row and moves the counter by one, with no toggle and no flip. `Option<string>` has no null case, so `Db.VoteAsWritten` does not capture this.
- The Express server has no route for votes on comments, so its comments' `votes` column stays 0. The model has nothing to state there.

## Findings

| source | as written | input that shows it | evidently intended | confidence | as-written member | corrected member |
|---|---|---|---|---|---|---|
| server.js:296 | `userVoted` is `vote_type` whenever `voteChange` is non-zero, and it never is zero | a user with an 'up' row votes 'up' again: the row is deleted but `userVoted` is 'up' | `userVoted` is the user's vote after the request, null after a toggle-off | not executed | ExpressServer.ToggleOffStillReportsVote | ExpressServer.Db.Vote |
| server.js:237-275 | the vote route never checks that the post exists; the vote row is written and the UPDATE matches nothing | 'alice' votes 'up' on post 'p1' before it exists, then 'p1' is created with votes 0: its counter is 0 but its rows sum to 1 | a vote on a missing post is refused with no write | not executed | ExpressServer.OrphanVoteBreaksTally | ExpressServer.CheckedVoteKeepsInvariant |
| internal/database/db.go:306-312 | `err` is a local, not a named result, so the error `tx.Commit()` stores in it after `return nil` never reaches the caller | every statement succeeds and COMMIT fails: nothing is written, yet the call returns nil (the same holds in helpers.go:246-252) | the call returns the commit's error | not executed | Database.CommitFailureReportedAsSuccess | Database.ReconcileVoteChecked |
