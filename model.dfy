/** The entities of the blog and an in-memory snapshot of the data store.
    Every entity is a value; identifiers are the database primary keys. */
module Model {
  import opened Seqs

  type UserId = nat
  type PostId = nat
  type CommentId = nat
  type CategoryId = nat
  type LocationId = nat

  datatype User = User(id: UserId, username: string)

  /** The identity a request is made with. An anonymous visitor is equal to no user. */
  datatype Requester = Anonymous | SignedIn(user: User)

  datatype Category = Category(id: CategoryId, title: string, slug: string, isPublished: bool)

  datatype Post = Post(
    id: PostId,
    title: string,
    text: string,
    pubDate: int,
    author: UserId,
    location: Option<LocationId>,
    category: CategoryId,
    isPublished: bool)

  datatype Comment = Comment(id: CommentId, text: string, post: PostId, author: UserId, createdAt: int)

  /** The rows of the four tables the views read. */
  datatype Db = Db(posts: seq<Post>, comments: seq<Comment>, categories: seq<Category>, users: seq<User>)

  /** The result of a view that may answer "not found" (HTTP 404). */
  datatype Result<T> = NotFound | Ok(value: T)

  /** `author == request.user`: an author is only ever the signed-in user with the same key. */
  predicate IsRequester(author: UserId, who: Requester) {
    who.SignedIn? && who.user.id == author
  }

  function PostKey(p: Post): PostId { p.id }
  function CommentKey(c: Comment): CommentId { c.id }

  /** Lookup of a post by primary key. */
  function FindPost(posts: seq<Post>, id: PostId): (r: Option<Post>)
    ensures r.Some? ==> r.value in posts && r.value.id == id
    ensures r.None? <==> forall p :: p in posts ==> p.id != id
  {
    First(posts, (p: Post) => p.id == id)
  }

  /** Lookup of a comment by primary key. */
  function FindComment(comments: seq<Comment>, id: CommentId): (r: Option<Comment>)
    ensures r.Some? ==> r.value in comments && r.value.id == id
    ensures r.None? <==> forall c :: c in comments ==> c.id != id
  {
    First(comments, (c: Comment) => c.id == id)
  }

  /** Lookup of a category by primary key. */
  function FindCategory(categories: seq<Category>, id: CategoryId): (r: Option<Category>)
    ensures r.Some? ==> r.value in categories && r.value.id == id
    ensures r.None? <==> forall c :: c in categories ==> c.id != id
  {
    First(categories, (c: Category) => c.id == id)
  }

  /** Lookup of a user by user name. */
  function FindUser(users: seq<User>, username: string): (r: Option<User>)
    ensures r.Some? ==> r.value in users && r.value.username == username
    ensures r.None? <==> forall u :: u in users ==> u.username != username
  {
    First(users, (u: User) => u.username == username)
  }

  /** With unique keys, a lookup finds exactly the row that carries the key. */
  lemma {:induction false} FindPostUnique(posts: seq<Post>, p: Post)
    requires Distinct(posts, PostKey)
    requires p in posts
    ensures FindPost(posts, p.id) == Some(p)
  {
    var r := FindPost(posts, p.id);
    var i :| 0 <= i < |posts| && posts[i] == p;
    var j :| 0 <= j < |posts| && posts[j] == r.value;
    assert PostKey(posts[i]) == PostKey(posts[j]);
  }

  lemma {:induction false} FindCommentUnique(comments: seq<Comment>, c: Comment)
    requires Distinct(comments, CommentKey)
    requires c in comments
    ensures FindComment(comments, c.id) == Some(c)
  {
    var r := FindComment(comments, c.id);
    var i :| 0 <= i < |comments| && comments[i] == c;
    var j :| 0 <= j < |comments| && comments[j] == r.value;
    assert CommentKey(comments[i]) == CommentKey(comments[j]);
  }
}
