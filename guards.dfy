/** The ownership checks that run first on every edit and delete request
    (`PostPermissionMixin`, `CommentPermissionMixin`). They run before the login
    check, so an anonymous visitor is simply someone who is not the author. */
module Guards {
  import opened Seqs
  import opened Model

  /** What the check decides: answer not-found, deflect to a post's detail page, or go on. */
  datatype Outcome = NotFound | Redirect(postId: PostId) | Proceed

  /** `PostPermissionMixin.dispatch` for the URL argument `post_id`. */
  function PostGuard(posts: seq<Post>, postId: PostId, who: Requester): (o: Outcome)
    ensures o.NotFound? <==> forall p :: p in posts ==> p.id != postId
    ensures o.Redirect? ==> o.postId == postId && exists p :: p in posts && p.id == postId && !IsRequester(p.author, who)
    ensures o.Proceed? ==> who.SignedIn? && exists p :: p in posts && p.id == postId && IsRequester(p.author, who)
  {
    match FindPost(posts, postId)
    case None => Outcome.NotFound
    case Some(p) => if !IsRequester(p.author, who) then Redirect(postId) else Proceed
  }

  /** `CommentPermissionMixin.dispatch` for the URL arguments `pk` and `comment_id`;
      a deflected request goes to the page of post `pk`, whichever post the comment
      belongs to. */
  function CommentGuard(comments: seq<Comment>, pk: PostId, commentId: CommentId, who: Requester): (o: Outcome)
    ensures o.NotFound? <==> forall c :: c in comments ==> c.id != commentId
    ensures o.Redirect? ==> o.postId == pk && exists c :: c in comments && c.id == commentId && !IsRequester(c.author, who)
    ensures o.Proceed? ==> who.SignedIn? && exists c :: c in comments && c.id == commentId && IsRequester(c.author, who)
  {
    match FindComment(comments, commentId)
    case None => Outcome.NotFound
    case Some(c) => if !IsRequester(c.author, who) then Redirect(pk) else Proceed
  }

  /** With unique keys the post check is decided by the post's author alone: its author
      goes on, anyone else (an anonymous visitor included) is sent to the post's page. */
  lemma PostGuardDecides(posts: seq<Post>, p: Post, who: Requester)
    requires Distinct(posts, PostKey)
    requires p in posts
    ensures PostGuard(posts, p.id, who) == if IsRequester(p.author, who) then Proceed else Redirect(p.id)
  {
    FindPostUnique(posts, p);
  }

  /** With unique keys the comment check is decided by the comment's author alone, and
      a deflected request goes to the page named by the URL's `pk`. */
  lemma CommentGuardDecides(comments: seq<Comment>, pk: PostId, c: Comment, who: Requester)
    requires Distinct(comments, CommentKey)
    requires c in comments
    ensures CommentGuard(comments, pk, c.id, who) == if IsRequester(c.author, who) then Proceed else Redirect(pk)
  {
    FindCommentUnique(comments, c);
  }
}
