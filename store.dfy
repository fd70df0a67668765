/** The request handlers that change the data store: create, edit and delete of
    posts and comments. Each runs the checks of its view in the view's order, then
    changes the store, then answers with the view's fixed success redirect. */
module Store {
  import opened Seqs
  import opened Model
  import opened Guards
  import opened Queries
  import opened Views

  /** The answer to a request that changes the store. */
  datatype Response =
    | NotFound                          // 404
    | RedirectToLogin                   // LoginRequiredMixin for an anonymous visitor
    | RedirectToPostDetail(postId: PostId)   // blog:post_detail
    | RedirectToIndex                   // blog:index
    | RedirectToProfile(username: string)    // blog:profile

  /** The fields a post form submits; the author is never among them. */
  datatype PostForm = PostForm(
    title: string,
    text: string,
    pubDate: int,
    location: Option<LocationId>,
    category: CategoryId,
    isPublished: bool)

  datatype CommentForm = CommentForm(text: string)

  /** The answer to a request the ownership check stops. */
  function Deflected(o: Outcome): Response
    requires !o.Proceed?
  {
    match o
    case NotFound => Response.NotFound
    case Redirect(id) => RedirectToPostDetail(id)
  }

  /** `form.instance.author = request.user` on a new post. */
  function NewPost(id: PostId, author: UserId, form: PostForm): Post {
    Post(id, form.title, form.text, form.pubDate, author, form.location, form.category, form.isPublished)
  }

  /** A post after its form is saved: every submitted field replaced, key and author kept. */
  function EditedPost(p: Post, form: PostForm): Post {
    p.(title := form.title, text := form.text, pubDate := form.pubDate,
       location := form.location, category := form.category, isPublished := form.isPublished)
  }

  function EditedComment(c: Comment, form: CommentForm): Comment {
    c.(text := form.text)
  }

  function EditPost(posts: seq<Post>, id: PostId, form: PostForm): (r: seq<Post>)
    ensures |r| == |posts|
    ensures forall i :: 0 <= i < |posts| ==> r[i].id == posts[i].id
  {
    Map(posts, (p: Post) => if p.id == id then EditedPost(p, form) else p)
  }

  function RemovePost(posts: seq<Post>, id: PostId): seq<Post> {
    Select(posts, (p: Post) => p.id != id)
  }

  /** The comments left when post `id` is deleted: its own comments go with it. */
  function RemoveCommentsOf(comments: seq<Comment>, id: PostId): seq<Comment> {
    Select(comments, (c: Comment) => c.post != id)
  }

  function EditComment(comments: seq<Comment>, id: CommentId, form: CommentForm): (r: seq<Comment>)
    ensures |r| == |comments|
    ensures forall i :: 0 <= i < |comments| ==> r[i].id == comments[i].id
  {
    Map(comments, (c: Comment) => if c.id == id then EditedComment(c, form) else c)
  }

  function RemoveComment(comments: seq<Comment>, id: CommentId): seq<Comment> {
    Select(comments, (c: Comment) => c.id != id)
  }

  /** Saving an edited post changes what the key `id` finds to the edited post and
      leaves what every other key finds as it was. */
  lemma {:induction false} EditPostSpec(posts: seq<Post>, id: PostId, form: PostForm, key: PostId)
    ensures FindPost(EditPost(posts, id, form), key) ==
      match FindPost(posts, key)
      case None => None
      case Some(p) => Some(if key == id then EditedPost(p, form) else p)
  {
    if |posts| > 0 {
      EditPostSpec(posts[1..], id, form, key);
      assert EditPost(posts, id, form)[1..] == EditPost(posts[1..], id, form);
    }
  }

  /** Deleting a post leaves the key `id` finding nothing and every other key finding
      what it found before. */
  lemma {:induction false} RemovePostSpec(posts: seq<Post>, id: PostId, key: PostId)
    ensures FindPost(RemovePost(posts, id), key) == if key == id then None else FindPost(posts, key)
  {
    if |posts| > 0 {
      RemovePostSpec(posts[1..], id, key);
    }
  }

  /** Saving an edited comment changes only what the key `id` finds. */
  lemma {:induction false} EditCommentSpec(comments: seq<Comment>, id: CommentId, form: CommentForm, key: CommentId)
    ensures FindComment(EditComment(comments, id, form), key) ==
      match FindComment(comments, key)
      case None => None
      case Some(c) => Some(if key == id then EditedComment(c, form) else c)
  {
    if |comments| > 0 {
      EditCommentSpec(comments[1..], id, form, key);
      assert EditComment(comments, id, form)[1..] == EditComment(comments[1..], id, form);
    }
  }

  /** Deleting a comment leaves the key `id` finding nothing and every other key
      finding what it found before. */
  lemma {:induction false} RemoveCommentSpec(comments: seq<Comment>, id: CommentId, key: CommentId)
    ensures FindComment(RemoveComment(comments, id), key) == if key == id then None else FindComment(comments, key)
  {
    if |comments| > 0 {
      RemoveCommentSpec(comments[1..], id, key);
    }
  }

  /** Counting a post's comments from the front gives the same number. */
  lemma {:induction false} CommentCountFromFront(comments: seq<Comment>, id: PostId)
    requires |comments| > 0
    ensures CommentCount(comments, id) == (if comments[0].post == id then 1 else 0) + CommentCount(comments[1..], id)
  {
    if |comments| > 1 {
      var n := |comments| - 1;
      CommentCountFromFront(comments[..n], id);
      assert comments[..n][1..] == comments[1..][..n - 1];
    }
  }

  /** Deleting post `id` together with its comments leaves every other post's
      comment count as it was. */
  lemma {:induction false} DeletePostKeepsOtherCounts(comments: seq<Comment>, id: PostId, other: PostId)
    requires other != id
    ensures CommentCount(RemoveCommentsOf(comments, id), other) == CommentCount(comments, other)
  {
    if |comments| > 0 {
      DeletePostKeepsOtherCounts(comments[1..], id, other);
      CommentCountFromFront(comments, other);
      var kept := RemoveCommentsOf(comments, id);
      if comments[0].post != id {
        assert kept == [comments[0]] + RemoveCommentsOf(comments[1..], id);
        CommentCountFromFront(kept, other);
        assert kept[1..] == RemoveCommentsOf(comments[1..], id);
      }
    }
  }

  /** Once deleted, a post's detail page answers not-found to everyone. */
  lemma DeletedPostIsNotFound(db: Db, id: PostId, viewer: Requester, now: int)
    ensures PostDetail(db.(posts := RemovePost(db.posts, id), comments := RemoveCommentsOf(db.comments, id)), id, viewer, now).NotFound?
  {
    RemovePostSpec(db.posts, id, id);
  }

  /** The tables, the two key counters standing in for the database sequences, and
      the handlers that change them. Categories and users are only read. */
  class Blog {
    var posts: seq<Post>
    var comments: seq<Comment>
    const categories: seq<Category>
    const users: seq<User>
    var nextPostId: PostId
    var nextCommentId: CommentId

    /** Keys are unique, and every key in use was handed out before. */
    ghost predicate Valid()
      reads this
    {
      && Distinct(posts, PostKey)
      && Distinct(comments, CommentKey)
      && (forall i :: 0 <= i < |posts| ==> posts[i].id < nextPostId)
      && (forall i :: 0 <= i < |comments| ==> comments[i].id < nextCommentId)
    }

    /** What the read-only pages see. */
    function Snapshot(): Db
      reads this
    {
      Db(posts, comments, categories, users)
    }

    constructor (categories: seq<Category>, users: seq<User>)
      ensures Valid()
      ensures posts == [] && comments == []
      ensures this.categories == categories && this.users == users
    {
      posts, comments := [], [];
      this.categories, this.users := categories, users;
      nextPostId, nextCommentId := 1, 1;
    }

    /** `PostCreateView`: signed-in users only; the author is the requester whatever
        the form says; success goes to the requester's profile. */
    method CreatePost(who: Requester, form: PostForm) returns (r: Response)
      requires Valid()
      modifies this
      ensures Valid()
      ensures who.Anonymous? ==> r == RedirectToLogin && posts == old(posts) && nextPostId == old(nextPostId)
      ensures who.SignedIn? ==>
        && posts == old(posts) + [NewPost(old(nextPostId), who.user.id, form)]
        && nextPostId == old(nextPostId) + 1
        && r == RedirectToProfile(who.user.username)
      ensures comments == old(comments) && nextCommentId == old(nextCommentId)
    {
      if who.Anonymous? {
        return RedirectToLogin;
      }
      var p := NewPost(nextPostId, who.user.id, form);
      posts := posts + [p];
      nextPostId := nextPostId + 1;
      r := RedirectToProfile(who.user.username);
    }

    /** `PostUpdateView`: the post check first; the author's edit is saved and success
        goes to the post's page. */
    method UpdatePost(who: Requester, postId: PostId, form: PostForm) returns (r: Response)
      requires Valid()
      modifies this
      ensures Valid()
      ensures var o := PostGuard(old(posts), postId, who);
        if o.Proceed? then posts == EditPost(old(posts), postId, form) && r == RedirectToPostDetail(postId)
        else posts == old(posts) && r == Deflected(o)
      ensures comments == old(comments)
      ensures nextPostId == old(nextPostId) && nextCommentId == old(nextCommentId)
    {
      var o := PostGuard(posts, postId, who);
      if !o.Proceed? {
        return Deflected(o);
      }
      var edited := EditPost(posts, postId, form);
      forall i, j | 0 <= i < j < |edited| ensures PostKey(edited[i]) != PostKey(edited[j]) {
        assert PostKey(posts[i]) != PostKey(posts[j]);
      }
      posts := edited;
      r := RedirectToPostDetail(postId);
    }

    /** `PostDeleteView`: the post check first; the author's post goes, together with
        its comments, and success goes to the home page. */
    method DeletePost(who: Requester, postId: PostId) returns (r: Response)
      requires Valid()
      modifies this
      ensures Valid()
      ensures var o := PostGuard(old(posts), postId, who);
        if o.Proceed? then
          && posts == RemovePost(old(posts), postId)
          && comments == RemoveCommentsOf(old(comments), postId)
          && r == RedirectToIndex
        else posts == old(posts) && comments == old(comments) && r == Deflected(o)
      ensures nextPostId == old(nextPostId) && nextCommentId == old(nextCommentId)
    {
      var o := PostGuard(posts, postId, who);
      if !o.Proceed? {
        return Deflected(o);
      }
      SelectKeepsDistinct(posts, (p: Post) => p.id != postId, PostKey);
      SelectKeepsDistinct(comments, (c: Comment) => c.post != postId, CommentKey);
      var keptPosts := RemovePost(posts, postId);
      var keptComments := RemoveCommentsOf(comments, postId);
      forall i | 0 <= i < |keptPosts| ensures keptPosts[i].id < nextPostId {
        assert keptPosts[i] in posts;
      }
      forall i | 0 <= i < |keptComments| ensures keptComments[i].id < nextCommentId {
        assert keptComments[i] in comments;
      }
      posts, comments := keptPosts, keptComments;
      r := RedirectToIndex;
    }

    /** `CommentCreateView`: the post of the URL must exist (checked before login);
        then signed-in users only. The new comment's author is the requester, its post
        the URL's `post_id`, its time `now`; success goes to that post's page. */
    method CreateComment(who: Requester, postId: PostId, form: CommentForm, now: int) returns (r: Response)
      requires Valid()
      modifies this
      ensures Valid()
      ensures FindPost(old(posts), postId).None? ==> r == Response.NotFound && comments == old(comments)
      ensures FindPost(old(posts), postId).Some? && who.Anonymous? ==> r == RedirectToLogin && comments == old(comments)
      ensures FindPost(old(posts), postId).Some? && who.SignedIn? ==>
        && comments == old(comments) + [Comment(old(nextCommentId), form.text, postId, who.user.id, now)]
        && r == RedirectToPostDetail(postId)
      ensures nextCommentId == old(nextCommentId) + (if FindPost(old(posts), postId).Some? && who.SignedIn? then 1 else 0)
      ensures posts == old(posts) && nextPostId == old(nextPostId)
    {
      if FindPost(posts, postId).None? {
        return Response.NotFound;
      }
      if who.Anonymous? {
        return RedirectToLogin;
      }
      var c := Comment(nextCommentId, form.text, postId, who.user.id, now);
      comments := comments + [c];
      nextCommentId := nextCommentId + 1;
      r := RedirectToPostDetail(postId);
    }

    /** `CommentUpdateView`: the comment check first; the author's edit is saved and
        success goes to the page of the URL's `pk`. */
    method UpdateComment(who: Requester, pk: PostId, commentId: CommentId, form: CommentForm) returns (r: Response)
      requires Valid()
      modifies this
      ensures Valid()
      ensures var o := CommentGuard(old(comments), pk, commentId, who);
        if o.Proceed? then comments == EditComment(old(comments), commentId, form) && r == RedirectToPostDetail(pk)
        else comments == old(comments) && r == Deflected(o)
      ensures posts == old(posts)
      ensures nextPostId == old(nextPostId) && nextCommentId == old(nextCommentId)
    {
      var o := CommentGuard(comments, pk, commentId, who);
      if !o.Proceed? {
        return Deflected(o);
      }
      var edited := EditComment(comments, commentId, form);
      forall i, j | 0 <= i < j < |edited| ensures CommentKey(edited[i]) != CommentKey(edited[j]) {
        assert CommentKey(comments[i]) != CommentKey(comments[j]);
      }
      comments := edited;
      r := RedirectToPostDetail(pk);
    }

    /** `CommentDeleteView`: the comment check first; the author's comment goes and
        success goes to the page of the URL's `pk`. */
    method DeleteComment(who: Requester, pk: PostId, commentId: CommentId) returns (r: Response)
      requires Valid()
      modifies this
      ensures Valid()
      ensures var o := CommentGuard(old(comments), pk, commentId, who);
        if o.Proceed? then comments == RemoveComment(old(comments), commentId) && r == RedirectToPostDetail(pk)
        else comments == old(comments) && r == Deflected(o)
      ensures posts == old(posts)
      ensures nextPostId == old(nextPostId) && nextCommentId == old(nextCommentId)
    {
      var o := CommentGuard(comments, pk, commentId, who);
      if !o.Proceed? {
        return Deflected(o);
      }
      SelectKeepsDistinct(comments, (c: Comment) => c.id != commentId, CommentKey);
      var kept := RemoveComment(comments, commentId);
      forall i | 0 <= i < |kept| ensures kept[i].id < nextCommentId {
        assert kept[i] in comments;
      }
      comments := kept;
      r := RedirectToPostDetail(pk);
    }
  }
}
