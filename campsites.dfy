/** The comment routes of routes/campsiteRouter.js. The campsite collection is
    a map from id to the stored document; a handler loads a document, changes
    its comment list in place, and a save replaces the stored document. */
module Campsites {
  import opened Http
  import opened Sequences
  import opened Authenticate

  type CampsiteId = string
  type CommentId = string

  datatype Comment = Comment(id: CommentId, author: UserId, rating: int, text: string)

  /** A stored campsite; `name` and `description` stand for the fields these routes never touch. */
  datatype Campsite = Campsite(id: CampsiteId, name: string, description: string, comments: seq<Comment>)

  type Db = map<CampsiteId, Campsite>

  datatype Body =
    | CommentsJson(comments: seq<Comment>)
    | CommentJson(comment: Comment)
    | CampsiteJson(campsite: Campsite)

  /** Which store call, if any, rejects: `findById` or the later `save`. */
  datatype StoreFault = NoFault | FindFails(message: string) | SaveFails(message: string)

  const NotYourCommentToUpdate := "You are not authorized to update this comment!"
  const NotYourCommentToDelete := "You are not authorized to delete this comment!"

  function CampsiteNotFound(id: CampsiteId): HttpError
  {
    Failure(404, "Campsite " + id + " not found")
  }

  function CommentNotFound(id: CommentId): HttpError
  {
    Failure(404, "Comment " + id + " not found")
  }

  /** No two comments in the list share an id. */
  predicate DistinctIds(cs: seq<Comment>)
  {
    forall a, b :: 0 <= a < b < |cs| ==> cs[a].id != cs[b].id
  }

  /** Comment ids are distinct within the campsite. */
  predicate UniqueCommentIds(c: Campsite)
  {
    DistinctIds(c.comments)
  }

  /** Every stored campsite sits under its own id and has distinct comment ids. */
  predicate ValidDb(db: Db)
  {
    forall id :: id in db ==> db[id].id == id && UniqueCommentIds(db[id])
  }

  predicate FreshComment(c: Campsite, cid: CommentId)
  {
    forall k :: 0 <= k < |c.comments| ==> c.comments[k].id != cid
  }

  /** `campsite.comments.id(commentId)`: the position of the first comment with that id. */
  function CommentIndex(comments: seq<Comment>, cid: CommentId): (r: Option<nat>)
    ensures r.Some? ==> r.value < |comments| && comments[r.value].id == cid
    ensures r.Some? ==> forall k :: 0 <= k < r.value ==> comments[k].id != cid
    ensures r.None? <==> forall k :: 0 <= k < |comments| ==> comments[k].id != cid
  {
    FirstIndex(comments, (c: Comment) => c.id == cid)
  }

  // ----- What each operation does to a stored campsite -----

  /** `comments.push(comment)`. */
  function Appended(c: Campsite, comment: Comment): Campsite
  {
    c.(comments := c.comments + [comment])
  }

  /** `comments = []`. */
  function Cleared(c: Campsite): Campsite
  {
    c.(comments := [])
  }

  /** The rating and text a PUT may carry; absent or falsy ones are left alone. */
  datatype CommentPatch = CommentPatch(rating: Option<int>, text: Option<string>)

  /** The comment after `if (req.body.rating) …` and `if (req.body.text) …`. */
  function Patch(comment: Comment, patch: CommentPatch): (r: Comment)
    ensures r.id == comment.id && r.author == comment.author
    ensures r.rating == (if TruthyNumber(patch.rating) then patch.rating.value else comment.rating)
    ensures r.text == (if Truthy(patch.text) then patch.text.value else comment.text)
  {
    comment.(rating := if TruthyNumber(patch.rating) then patch.rating.value else comment.rating,
             text := if Truthy(patch.text) then patch.text.value else comment.text)
  }

  function Patched(c: Campsite, i: nat, patch: CommentPatch): Campsite
    requires i < |c.comments|
  {
    c.(comments := c.comments[i := Patch(c.comments[i], patch)])
  }

  /** What `pull({_id: cid})` leaves of a comment list: every comment with
      that id goes, and the others keep their order. */
  function WithoutId(comments: seq<Comment>, cid: CommentId): (r: seq<Comment>)
    ensures |r| <= |comments|
    ensures forall k :: 0 <= k < |r| ==> r[k].id != cid
    decreases |comments|
  {
    if comments == [] then []
    else if comments[0].id == cid then WithoutId(comments[1..], cid)
    else [comments[0]] + WithoutId(comments[1..], cid)
  }

  /** Exactly the comments with another id survive the pull. */
  lemma {:induction false} WithoutIdMembers(comments: seq<Comment>, cid: CommentId)
    ensures forall x :: x in WithoutId(comments, cid) <==> x in comments && x.id != cid
    decreases |comments|
  {
    if comments != [] {
      WithoutIdMembers(comments[1..], cid);
      assert comments == [comments[0]] + comments[1..];
    }
  }

  /** The pull changes the list iff some comment has that id. */
  lemma {:induction false} WithoutIdUnchanged(comments: seq<Comment>, cid: CommentId)
    ensures (forall k :: 0 <= k < |comments| ==> comments[k].id != cid) <==> WithoutId(comments, cid) == comments
    decreases |comments|
  {
    if comments != [] {
      var rest := comments[1..];
      WithoutIdUnchanged(rest, cid);
      if comments[0].id == cid {
        assert |WithoutId(comments, cid)| <= |rest| < |comments|;
      } else if forall k :: 0 <= k < |comments| ==> comments[k].id != cid {
        assert forall k :: 0 <= k < |rest| ==> rest[k].id != cid by {
          forall k | 0 <= k < |rest| ensures rest[k].id != cid {
            assert rest[k] == comments[k + 1];
          }
        }
        assert [comments[0]] + rest == comments;
      } else {
        var k :| 0 <= k < |comments| && comments[k].id == cid;
        assert rest[k - 1] == comments[k];
        assert WithoutId(rest, cid) != rest;
        assert WithoutId(comments, cid)[1..] == WithoutId(rest, cid);
      }
    }
  }

  /** `comment.remove()` on a comment with id `cid`: the subdocument pulls
      every comment with that id from its parent array. */
  function Pulled(c: Campsite, cid: CommentId): Campsite
  {
    c.(comments := WithoutId(c.comments, cid))
  }

  /** Removal of the one comment at position `i`. */
  function Removed(c: Campsite, i: nat): Campsite
    requires i < |c.comments|
  {
    c.(comments := c.comments[..i] + c.comments[i + 1..])
  }

  // ----- The loaded document -----

  /** A campsite document loaded by `findById`, whose comment list the handlers change in place. */
  class CampsiteDoc {
    const id: CampsiteId
    var name: string
    var description: string
    var comments: seq<Comment>

    constructor Load(c: Campsite)
      ensures Record() == c
    {
      id := c.id;
      name := c.name;
      description := c.description;
      comments := c.comments;
    }

    /** The document as a save writes it. */
    function Record(): Campsite
      reads this
    {
      Campsite(id, name, description, comments)
    }

    method PushComment(comment: Comment)
      modifies this
      ensures Record() == Appended(old(Record()), comment)
    {
      comments := comments + [comment];
    }

    method ClearComments()
      modifies this
      ensures Record() == Cleared(old(Record()))
    {
      comments := [];
    }

    method SetRating(i: nat, rating: int)
      requires i < |comments|
      modifies this
      ensures comments == old(comments)[i := old(comments)[i].(rating := rating)]
      ensures name == old(name) && description == old(description)
    {
      comments := comments[i := comments[i].(rating := rating)];
    }

    method SetText(i: nat, text: string)
      requires i < |comments|
      modifies this
      ensures comments == old(comments)[i := old(comments)[i].(text := text)]
      ensures name == old(name) && description == old(description)
    {
      comments := comments[i := comments[i].(text := text)];
    }

    method RemoveComment(i: nat)
      requires i < |comments|
      modifies this
      ensures Record() == Pulled(old(Record()), old(comments)[i].id)
    {
      comments := WithoutId(comments, comments[i].id);
    }
  }

  // ----- Locating the target of a request -----

  /** The campsite and, for the single-comment routes, the comment's position;
      or the error the handler forwards. */
  datatype Located = Located(campsite: Campsite, index: nat) | Missing(err: HttpError)

  /** `findById(campsiteId)` followed by `campsite.comments.id(commentId)`. */
  function Locate(db: Db, id: CampsiteId, cid: CommentId, fault: StoreFault): (l: Located)
    ensures fault.FindFails? ==> l == Missing(HttpError(None, fault.message))
    ensures !fault.FindFails? && id !in db ==> l == Missing(CampsiteNotFound(id))
    ensures !fault.FindFails? && id in db && CommentIndex(db[id].comments, cid).None? ==>
              l == Missing(CommentNotFound(cid))
    ensures l.Located? <==> !fault.FindFails? && id in db && CommentIndex(db[id].comments, cid).Some?
    ensures l.Located? ==> l.campsite == db[id] && l.index < |l.campsite.comments| &&
                           l.campsite.comments[l.index].id == cid
    ensures l.Located? ==> CommentIndex(db[id].comments, cid) == Some(l.index)
  {
    if fault.FindFails? then Missing(HttpError(None, fault.message))
    else if id !in db then Missing(CampsiteNotFound(id))
    else match CommentIndex(db[id].comments, cid)
      case None => Missing(CommentNotFound(cid))
      case Some(i) => Located(db[id], i)
  }

  // ----- Guards -----

  /** The router's own copy of `verifyAdmin`. */
  function LocalVerifyAdmin(user: Option<User>): (n: Next)
    ensures n.Proceed? <==> user.Some? && user.value.admin
    ensures !n.Proceed? ==> n == Pass(Failure(403, "You are not authorized to perform this operation!"))
  {
    if user.Some? && user.value.admin then Proceed
    else Pass(Failure(403, "You are not authorized to perform this operation!"))
  }

  /** The router's copy decides exactly as the shared one. */
  lemma LocalVerifyAdminAgrees(user: Option<User>)
    ensures LocalVerifyAdmin(user) == VerifyAdmin(user)
  {
  }

  /** `verifyUser` followed by the router's own `verifyAdmin`. */
  function LocalAdminChain(b: BearerResult): (n: Next)
    requires b.Stops()
    ensures n == AdminChain(b)
  {
    match b
    case Rejected(reason) => reason
    case Authenticated(user) =>
      LocalVerifyAdminAgrees(Some(user));
      LocalVerifyAdmin(Some(user))
  }

  // ----- GET /campsites/:campsiteId/comments and /comments/:commentId -----

  function GetComments(db: Db, id: CampsiteId, findFault: Option<string>): (o: Outcome<Body>)
    ensures findFault.Some? ==> o == Forward(HttpError(None, findFault.value))
    ensures findFault.None? && id in db ==> o == Reply(200, CommentsJson(db[id].comments))
    ensures findFault.None? && id !in db ==> o == Forward(CampsiteNotFound(id))
  {
    if findFault.Some? then Forward(HttpError(None, findFault.value))
    else if id in db then Reply(200, CommentsJson(db[id].comments))
    else Forward(CampsiteNotFound(id))
  }

  function GetComment(db: Db, id: CampsiteId, cid: CommentId, findFault: Option<string>): (o: Outcome<Body>)
    ensures o.Reply? <==> findFault.None? && id in db && CommentIndex(db[id].comments, cid).Some?
    ensures o.Reply? ==> o.status == 200 && o.body.CommentJson? &&
                         o.body.comment in db[id].comments && o.body.comment.id == cid
    ensures o.Reply? ==> o.body.comment == db[id].comments[CommentIndex(db[id].comments, cid).value]
    ensures findFault.Some? ==> o == Forward(HttpError(None, findFault.value))
    ensures findFault.None? && id !in db ==> o == Forward(CampsiteNotFound(id))
    ensures findFault.None? && id in db && (forall k :: 0 <= k < |db[id].comments| ==> db[id].comments[k].id != cid) ==>
              o == Forward(CommentNotFound(cid))
  {
    var fault := if findFault.Some? then FindFails(findFault.value) else NoFault;
    match Locate(db, id, cid, fault)
    case Missing(err) => Forward(err)
    case Located(c, i) => Reply(200, CommentJson(c.comments[i]))
  }

  // ----- POST and DELETE /campsites/:campsiteId/comments -----

  /** POST: `verifyUser`, `verifyAdmin`, then append the body as a comment
      authored by the requester and save. */
  method PostComment(db: Db, id: CampsiteId, bearer: BearerResult, rating: int, text: string,
                     freshId: CommentId, fault: StoreFault)
    returns (after: Db, o: Outcome<Body>)
    requires bearer.Stops()
    ensures !AdminChain(bearer).Proceed? ==> after == db && o == Stop(AdminChain(bearer))
    ensures AdminChain(bearer).Proceed? && fault.FindFails? ==>
              after == db && o == Forward(HttpError(None, fault.message))
    ensures AdminChain(bearer).Proceed? && !fault.FindFails? && id !in db ==>
              after == db && o == Forward(CampsiteNotFound(id))
    ensures AdminChain(bearer).Proceed? && fault.SaveFails? && id in db ==>
              after == db && o == Forward(HttpError(None, fault.message))
    ensures after != db <==> AdminChain(bearer).Proceed? && fault.NoFault? && id in db
    ensures after != db ==>
              after == db[id := Appended(db[id], Comment(freshId, bearer.user.id, rating, text))] &&
              o == Reply(200, CampsiteJson(after[id]))
    ensures ValidDb(db) && (id in db ==> FreshComment(db[id], freshId)) ==> ValidDb(after)
  {
    var chain := AdminChain(bearer);
    if !chain.Proceed? {
      return db, Stop(chain);
    }
    if fault.FindFails? {
      return db, Forward(HttpError(None, fault.message));
    }
    if id !in db {
      return db, Forward(CampsiteNotFound(id));
    }
    var campsite := new CampsiteDoc.Load(db[id]);
    var comment := Comment(freshId, bearer.user.id, rating, text);
    campsite.PushComment(comment);
    assert |campsite.Record().comments| != |db[id].comments|;
    if fault.SaveFails? {
      return db, Forward(HttpError(None, fault.message));
    }
    after := db[id := campsite.Record()];
    if ValidDb(db) && FreshComment(db[id], freshId) {
      AppendKeepsIdsUnique(db[id], comment);
    }
    o := Reply(200, CampsiteJson(campsite.Record()));
  }

  /** DELETE: `verifyUser`, the router's `verifyAdmin`, then empty the comment list and save. */
  method DeleteComments(db: Db, id: CampsiteId, bearer: BearerResult, fault: StoreFault)
    returns (after: Db, o: Outcome<Body>)
    requires bearer.Stops()
    ensures !AdminChain(bearer).Proceed? ==> after == db && o == Stop(AdminChain(bearer))
    ensures AdminChain(bearer).Proceed? && fault.FindFails? ==>
              after == db && o == Forward(HttpError(None, fault.message))
    ensures AdminChain(bearer).Proceed? && !fault.FindFails? && id !in db ==>
              after == db && o == Forward(CampsiteNotFound(id))
    ensures AdminChain(bearer).Proceed? && fault.SaveFails? ==> after == db
    ensures AdminChain(bearer).Proceed? && fault.SaveFails? && id in db ==>
              o == Forward(HttpError(None, fault.message))
    ensures AdminChain(bearer).Proceed? && fault.NoFault? && id in db ==>
              after.Keys == db.Keys && after[id].comments == [] &&
              after[id] == db[id].(comments := []) &&
              (forall other :: other in db && other != id ==> after[other] == db[other]) &&
              o == Reply(200, CampsiteJson(after[id]))
    ensures ValidDb(db) ==> ValidDb(after)
  {
    var chain := LocalAdminChain(bearer);
    if !chain.Proceed? {
      return db, Stop(chain);
    }
    if fault.FindFails? {
      return db, Forward(HttpError(None, fault.message));
    }
    if id !in db {
      return db, Forward(CampsiteNotFound(id));
    }
    var campsite := new CampsiteDoc.Load(db[id]);
    campsite.ClearComments();
    if fault.SaveFails? {
      return db, Forward(HttpError(None, fault.message));
    }
    after := db[id := campsite.Record()];
    o := Reply(200, CampsiteJson(campsite.Record()));
  }

  // ----- PUT and DELETE /campsites/:campsiteId/comments/:commentId -----

  /** PUT: `verifyUser` only; the author may replace the rating and the text,
      each only when the request supplies a truthy value. */
  method PutComment(db: Db, id: CampsiteId, cid: CommentId, bearer: BearerResult,
                    patch: CommentPatch, fault: StoreFault)
    returns (after: Db, o: Outcome<Body>)
    requires bearer.Stops()
    ensures bearer.Rejected? ==> after == db && o == Stop(bearer.reason)
    ensures bearer.Authenticated? && Locate(db, id, cid, fault).Missing? ==>
              after == db && o == Forward(Locate(db, id, cid, fault).err)
    ensures bearer.Authenticated? && Locate(db, id, cid, fault).Located? &&
            db[id].comments[Locate(db, id, cid, fault).index].author != bearer.user.id ==>
              after == db && o == Forward(Failure(403, NotYourCommentToUpdate))
    ensures after != db ==>
              bearer.Authenticated? && fault.NoFault? && Locate(db, id, cid, fault).Located? &&
              var i := Locate(db, id, cid, fault).index;
              db[id].comments[i].author == bearer.user.id &&
              after == db[id := Patched(db[id], i, patch)] &&
              o == Reply(200, CampsiteJson(after[id]))
    ensures bearer.Authenticated? && fault.NoFault? && Locate(db, id, cid, fault).Located? &&
            db[id].comments[Locate(db, id, cid, fault).index].author == bearer.user.id ==>
              after == db[id := Patched(db[id], Locate(db, id, cid, fault).index, patch)] &&
              o == Reply(200, CampsiteJson(after[id]))
    ensures bearer.Authenticated? && fault.SaveFails? && Locate(db, id, cid, fault).Located? &&
            db[id].comments[Locate(db, id, cid, fault).index].author == bearer.user.id ==>
              after == db && o == Forward(HttpError(None, fault.message))
    ensures ValidDb(db) ==> ValidDb(after)
  {
    if bearer.Rejected? {
      return db, Stop(bearer.reason);
    }
    var found := Locate(db, id, cid, fault);
    if found.Missing? {
      return db, Forward(found.err);
    }
    var i := found.index;
    if db[id].comments[i].author != bearer.user.id {
      return db, Forward(Failure(403, NotYourCommentToUpdate));
    }
    var campsite := new CampsiteDoc.Load(db[id]);
    if TruthyNumber(patch.rating) {
      campsite.SetRating(i, patch.rating.value);
    }
    if Truthy(patch.text) {
      campsite.SetText(i, patch.text.value);
    }
    assert campsite.Record() == Patched(db[id], i, patch);
    if fault.SaveFails? {
      return db, Forward(HttpError(None, fault.message));
    }
    after := db[id := campsite.Record()];
    if ValidDb(db) {
      PatchKeepsIdsUnique(db[id], i, patch);
    }
    o := Reply(200, CampsiteJson(campsite.Record()));
  }

  /** DELETE: `verifyUser` only; the author removes that one comment. */
  method DeleteComment(db: Db, id: CampsiteId, cid: CommentId, bearer: BearerResult, fault: StoreFault)
    returns (after: Db, o: Outcome<Body>)
    requires bearer.Stops()
    ensures bearer.Rejected? ==> after == db && o == Stop(bearer.reason)
    ensures bearer.Authenticated? && Locate(db, id, cid, fault).Missing? ==>
              after == db && o == Forward(Locate(db, id, cid, fault).err)
    ensures bearer.Authenticated? && Locate(db, id, cid, fault).Located? &&
            db[id].comments[Locate(db, id, cid, fault).index].author != bearer.user.id ==>
              after == db && o == Forward(Failure(403, NotYourCommentToDelete))
    ensures after != db <==>
              bearer.Authenticated? && fault.NoFault? && Locate(db, id, cid, fault).Located? &&
              db[id].comments[Locate(db, id, cid, fault).index].author == bearer.user.id
    ensures after != db ==>
              after == db[id := Pulled(db[id], cid)] &&
              o == Reply(200, CampsiteJson(after[id]))
    ensures bearer.Authenticated? && fault.SaveFails? && Locate(db, id, cid, fault).Located? &&
            db[id].comments[Locate(db, id, cid, fault).index].author == bearer.user.id ==>
              after == db && o == Forward(HttpError(None, fault.message))
    ensures ValidDb(db) ==> ValidDb(after)
  {
    if bearer.Rejected? {
      return db, Stop(bearer.reason);
    }
    var found := Locate(db, id, cid, fault);
    if found.Missing? {
      return db, Forward(found.err);
    }
    var i := found.index;
    if db[id].comments[i].author != bearer.user.id {
      return db, Forward(Failure(403, NotYourCommentToDelete));
    }
    var campsite := new CampsiteDoc.Load(db[id]);
    campsite.RemoveComment(i);
    WithoutIdUnchanged(db[id].comments, cid);
    assert campsite.Record().comments != db[id].comments;
    if fault.SaveFails? {
      return db, Forward(HttpError(None, fault.message));
    }
    after := db[id := campsite.Record()];
    if ValidDb(db) {
      RemoveKeepsIdsUnique(db[id], cid);
    }
    o := Reply(200, CampsiteJson(campsite.Record()));
  }

  // ----- The fixed "not supported" answers -----

  datatype UnsupportedRoute =
    | PutCampsites
    | PostCampsite(campsiteId: CampsiteId)
    | PutComments(campsiteId: CampsiteId)
    | PostSingleComment(campsiteId: CampsiteId, commentId: CommentId)

  /** All but PUT on a comment collection sit behind `verifyAdmin`. */
  predicate NeedsAdmin(route: UnsupportedRoute)
  {
    !route.PutComments?
  }

  function UnsupportedText(route: UnsupportedRoute): string
  {
    match route
    case PutCampsites => "PUT operation not supported on /campsites"
    case PostCampsite(id) => "POST operation not supported on /campsites/" + id
    case PutComments(id) => "PUT operation not supported on /campsites/" + id + "/comments"
    case PostSingleComment(id, cid) => "POST operation not supported on /campsites/" + id + "/comments/" + cid
  }

  /** The guard chain, then `res.statusCode = 403; res.end(text)`. No store is consulted. */
  function Unsupported(route: UnsupportedRoute, bearer: BearerResult): (o: Outcome<Body>)
    requires bearer.Stops()
    ensures !o.Reply?
    ensures bearer.Rejected? ==> o == Stop(bearer.reason)
    ensures bearer.Authenticated? ==> o.Forward? || o.Ended?
    ensures bearer.Authenticated? && o.Forward? ==> o.err == Forbidden() && NeedsAdmin(route) && !bearer.user.admin
    ensures o.Ended? && bearer.Authenticated? ==> o == Ended(403, UnsupportedText(route))
    ensures bearer.Authenticated? && NeedsAdmin(route) && !bearer.user.admin ==> o == Forward(Forbidden())
    ensures bearer.Authenticated? && (!NeedsAdmin(route) || bearer.user.admin) ==>
              o == Ended(403, UnsupportedText(route))
  {
    var chain := if NeedsAdmin(route) then AdminChain(bearer)
                 else if bearer.Rejected? then bearer.reason else Proceed;
    if !chain.Proceed? then Stop(chain)
    else Ended(403, UnsupportedText(route))
  }

  /** Once authenticated, every unsupported operation answers 403, be it for the
      missing admin flag or for the operation itself. */
  lemma UnsupportedIs403(route: UnsupportedRoute, bearer: BearerResult)
    requires bearer.Stops() && bearer.Authenticated?
    ensures var o := Unsupported(route, bearer);
            (o.Forward? && o.err.status == Some(403)) || (o.Ended? && o.status == 403)
  {
  }

  // ----- Properties of the comment operations -----

  /** Appending under a fresh id keeps comment ids distinct. */
  lemma AppendKeepsIdsUnique(c: Campsite, comment: Comment)
    requires UniqueCommentIds(c) && FreshComment(c, comment.id)
    ensures UniqueCommentIds(Appended(c, comment))
  {
  }

  /** Patching keeps every id, so distinct ids stay distinct. */
  lemma PatchKeepsIdsUnique(c: Campsite, i: nat, patch: CommentPatch)
    requires i < |c.comments| && UniqueCommentIds(c)
    ensures UniqueCommentIds(Patched(c, i, patch))
  {
  }

  lemma DistinctTail(cs: seq<Comment>)
    requires cs != [] && DistinctIds(cs)
    ensures DistinctIds(cs[1..])
    ensures forall k :: 0 <= k < |cs[1..]| ==> cs[1..][k].id != cs[0].id
  {
    forall a, b | 0 <= a < b < |cs[1..]| ensures cs[1..][a].id != cs[1..][b].id {
      assert cs[1..][a] == cs[a + 1] && cs[1..][b] == cs[b + 1];
    }
    forall k | 0 <= k < |cs[1..]| ensures cs[1..][k].id != cs[0].id {
      assert cs[1..][k] == cs[k + 1];
    }
  }

  /** Pulling keeps the others in order, so distinct ids stay distinct. */
  lemma {:induction false} WithoutIdKeepsDistinct(cs: seq<Comment>, cid: CommentId)
    requires DistinctIds(cs)
    ensures DistinctIds(WithoutId(cs, cid))
    decreases |cs|
  {
    if cs != [] {
      var rest := cs[1..];
      DistinctTail(cs);
      WithoutIdKeepsDistinct(rest, cid);
      var w := WithoutId(rest, cid);
      if cs[0].id != cid {
        var r := WithoutId(cs, cid);
        assert r == [cs[0]] + w;
        forall a, b | 0 <= a < b < |r|
          ensures r[a].id != r[b].id
        {
          assert r[b] == w[b - 1];
          if a == 0 {
            WithoutIdMembers(rest, cid);
            assert w[b - 1] in rest;
            var k :| 0 <= k < |rest| && rest[k] == w[b - 1];
          } else {
            assert r[a] == w[a - 1];
          }
        }
      }
    }
  }

  lemma RemoveKeepsIdsUnique(c: Campsite, cid: CommentId)
    requires UniqueCommentIds(c)
    ensures UniqueCommentIds(Pulled(c, cid))
  {
    assert DistinctIds(c.comments);
    WithoutIdKeepsDistinct(c.comments, cid);
    assert DistinctIds(Pulled(c, cid).comments);
  }

  /** With distinct ids, pulling the id of the comment at `i` removes exactly
      that position. */
  lemma {:induction false} WithoutIdAt(cs: seq<Comment>, i: nat)
    requires i < |cs| && DistinctIds(cs)
    ensures WithoutId(cs, cs[i].id) == cs[..i] + cs[i + 1..]
    decreases i
  {
    var rest := cs[1..];
    DistinctTail(cs);
    if i == 0 {
      assert WithoutId(cs, cs[0].id) == WithoutId(rest, cs[0].id);
      WithoutIdUnchanged(rest, cs[0].id);
      assert WithoutId(rest, cs[0].id) == rest;
      assert cs[..0] + cs[1..] == rest;
    } else {
      assert rest[i - 1] == cs[i];
      WithoutIdAt(rest, i - 1);
      assert cs[0].id != cs[i].id;
      assert WithoutId(cs, cs[i].id) == [cs[0]] + WithoutId(rest, cs[i].id);
      assert [cs[0]] + (rest[..i - 1] + rest[i..]) == cs[..i] + cs[i + 1..];
    }
  }

  /** With distinct ids, `comment.remove()` removes exactly that one comment. */
  lemma PullIsPositionRemoval(c: Campsite, i: nat)
    requires i < |c.comments| && UniqueCommentIds(c)
    ensures Pulled(c, c.comments[i].id) == Removed(c, i)
  {
    assert DistinctIds(c.comments);
    WithoutIdAt(c.comments, i);
  }

  /** Two comments sharing an id both go when either is removed. */
  lemma DuplicateIdsBothPulled(c: Campsite, x: Comment, y: Comment)
    requires c.comments == [x, y] && x.id == y.id
    ensures Pulled(c, x.id).comments == []
  {
    assert WithoutId([y], x.id) == WithoutId([], x.id);
  }

  /** A comment posted under a fresh id is what GET of that id then returns. */
  lemma {:induction false} PostedCommentIsFound(db: Db, id: CampsiteId, comment: Comment)
    requires id in db && FreshComment(db[id], comment.id)
    ensures GetComment(db[id := Appended(db[id], comment)], id, comment.id, None) == Reply(200, CommentJson(comment))
  {
    var cs := Appended(db[id], comment).comments;
    assert cs[|cs| - 1] == comment;
    assert forall k :: 0 <= k < |cs| - 1 ==> cs[k] == db[id].comments[k];
    assert CommentIndex(cs, comment.id) == Some(|cs| - 1);
  }

  /** Posting appends exactly one comment at the end and leaves the earlier ones as they were. */
  lemma AppendKeepsEarlier(c: Campsite, comment: Comment)
    ensures var a := Appended(c, comment);
            |a.comments| == |c.comments| + 1 && a.comments[..|c.comments|] == c.comments &&
            a.comments[|c.comments|] == comment && a.id == c.id && a.name == c.name && a.description == c.description
  {
  }

  /** Patching changes only that comment, only in the supplied fields. */
  lemma PatchTouchesOnlyTarget(c: Campsite, i: nat, patch: CommentPatch)
    requires i < |c.comments|
    ensures var p := Patched(c, i, patch);
            |p.comments| == |c.comments| && p.id == c.id && p.name == c.name && p.description == c.description &&
            (forall k :: 0 <= k < |c.comments| && k != i ==> p.comments[k] == c.comments[k]) &&
            (patch == CommentPatch(None, None) ==> p == c)
  {
  }

  /** Removing with distinct ids: that comment is gone, nothing else is lost,
      and the rest keep their order. */
  lemma {:induction false} RemoveDropsExactlyOne(c: Campsite, i: nat)
    requires i < |c.comments| && UniqueCommentIds(c)
    ensures var r := Pulled(c, c.comments[i].id).comments;
            |r| == |c.comments| - 1 &&
            multiset(r) + multiset{c.comments[i]} == multiset(c.comments) &&
            CommentIndex(r, c.comments[i].id).None? &&
            (forall k :: 0 <= k < i ==> r[k] == c.comments[k]) &&
            (forall k :: i <= k < |r| ==> r[k] == c.comments[k + 1])
  {
    var cs := c.comments;
    PullIsPositionRemoval(c, i);
    var r := Removed(c, i).comments;
    assert cs == cs[..i] + [cs[i]] + cs[i + 1..];
    assert r == cs[..i] + cs[i + 1..];
    assert DistinctIds(cs);
    forall k | 0 <= k < |r|
      ensures r[k].id != cs[i].id
    {
      if k < i {
        assert r[k] == cs[k] && cs[k].id != cs[i].id;
      } else {
        assert r[k] == cs[k + 1] && cs[i].id != cs[k + 1].id;
      }
    }
    assert CommentIndex(r, cs[i].id).None?;
  }
}
