/** The shared post query (`const_post`): every post, newest first, each with the
    number of its comments; and the filters the pages apply to it. */
module Queries {
  import opened Seqs
  import opened Model

  /** A post of a listing together with its `comment_count` annotation. */
  datatype Entry = Entry(post: Post, commentCount: nat)

  /** `Count('comments')`: the number of comments that reference post `id`. */
  function CommentCount(comments: seq<Comment>, id: PostId): nat
  {
    if |comments| == 0 then 0
    else CommentCount(comments[..|comments| - 1], id) + (if comments[|comments| - 1].post == id then 1 else 0)
  }

  /** The positions of the comments that reference post `id`. */
  ghost function CommentsOf(comments: seq<Comment>, id: PostId): set<nat>
  {
    set i | 0 <= i < |comments| && comments[i].post == id
  }

  /** The annotation counts exactly the comments whose post is `id`. */
  lemma {:induction false} CommentCountIsNumberOfComments(comments: seq<Comment>, id: PostId)
    ensures CommentCount(comments, id) == |CommentsOf(comments, id)|
  {
    if |comments| > 0 {
      var n := |comments| - 1;
      var front := comments[..n];
      CommentCountIsNumberOfComments(front, id);
      if comments[n].post == id {
        assert CommentsOf(comments, id) == CommentsOf(front, id) + {n};
      } else {
        assert CommentsOf(comments, id) == CommentsOf(front, id);
      }
    }
  }

  /** Ordering key of `order_by('-pub_date')`: a smaller key is a later date. */
  function NewestFirst(p: Post): int { -p.pubDate }
  function EntryNewestFirst(e: Entry): int { -e.post.pubDate }

  function PostOf(e: Entry): Post { e.post }

  function Annotate(comments: seq<Comment>): Post -> Entry
  {
    (p: Post) => Entry(p, CommentCount(comments, p.id))
  }

  /** `const_post()`: all posts ordered newest first and annotated with their comment count. */
  function ConstPost(db: Db): seq<Entry>
  {
    Map(SortBy(db.posts, NewestFirst), Annotate(db.comments))
  }

  /** The keyword arguments a page passes to `.filter(...)`: each present field is
      one condition, an absent field no condition (an empty `filter_user` dict). */
  datatype PostFilter = PostFilter(
    category: Option<CategoryId>,    // category__id
    author: Option<UserId>,          // author
    published: bool,                 // is_published=True
    categoryPublished: bool,         // category__is_published=True
    pubDateUpTo: Option<int>)        // pub_date__lte

  /** `category__is_published=True`: the post's category exists and is published. */
  predicate CategoryPublished(categories: seq<Category>, id: CategoryId) {
    match FindCategory(categories, id)
    case None => false
    case Some(c) => c.isPublished
  }

  predicate Matches(f: PostFilter, categories: seq<Category>, p: Post) {
    && (f.category.Some? ==> p.category == f.category.value)
    && (f.author.Some? ==> p.author == f.author.value)
    && (f.published ==> p.isPublished)
    && (f.categoryPublished ==> CategoryPublished(categories, p.category))
    && (f.pubDateUpTo.Some? ==> p.pubDate <= f.pubDateUpTo.value)
  }

  function Keeps(f: PostFilter, categories: seq<Category>): Entry -> bool
  {
    (e: Entry) => Matches(f, categories, e.post)
  }

  /** `const_post().filter(**f)`. */
  function Listing(db: Db, f: PostFilter): seq<Entry>
  {
    Select(ConstPost(db), Keeps(f, db.categories))
  }

  /** A listing is ordered by publication date, later dates first. */
  ghost predicate NewestFirstOrder(es: seq<Entry>) {
    forall i, j :: 0 <= i < j < |es| ==> es[i].post.pubDate >= es[j].post.pubDate
  }

  lemma NewestFirstOrderIsAscendingKey(es: seq<Entry>)
    ensures NewestFirstOrder(es) <==> Ascending(es, EntryNewestFirst)
  {
    if NewestFirstOrder(es) {
      forall i, j | 0 <= i < j < |es| ensures EntryNewestFirst(es[i]) <= EntryNewestFirst(es[j]) {
        assert es[i].post.pubDate >= es[j].post.pubDate;
      }
    }
    if Ascending(es, EntryNewestFirst) {
      forall i, j | 0 <= i < j < |es| ensures es[i].post.pubDate >= es[j].post.pubDate {
        assert EntryNewestFirst(es[i]) <= EntryNewestFirst(es[j]);
      }
    }
  }

  /** The posts of a list of entries, in the same order. */
  function PostsOf(es: seq<Entry>): seq<Post>
  {
    Map(es, PostOf)
  }

  lemma {:induction false} PostsOfSelect(es: seq<Entry>, f: PostFilter, categories: seq<Category>)
    ensures PostsOf(Select(es, Keeps(f, categories))) == Select(PostsOf(es), (p: Post) => Matches(f, categories, p))
  {
    if |es| > 0 {
      PostsOfSelect(es[1..], f, categories);
      assert PostsOf(es)[1..] == PostsOf(es[1..]);
    }
  }

  lemma ConstPostOrder(db: Db)
    ensures Ascending(ConstPost(db), EntryNewestFirst)
  {
    var sorted := SortBy(db.posts, NewestFirst);
    var es := ConstPost(db);
    forall i, j | 0 <= i < j < |es| ensures EntryNewestFirst(es[i]) <= EntryNewestFirst(es[j]) {
      assert NewestFirst(sorted[i]) <= NewestFirst(sorted[j]);
    }
  }

  lemma ConstPostPosts(db: Db)
    ensures PostsOf(ConstPost(db)) == SortBy(db.posts, NewestFirst)
  {
    var sorted := SortBy(db.posts, NewestFirst);
    assert forall i :: 0 <= i < |sorted| ==> PostsOf(ConstPost(db))[i] == sorted[i];
  }

  lemma ConstPostMember(db: Db, e: Entry)
    ensures e in ConstPost(db) <==> e.post in db.posts && e.commentCount == CommentCount(db.comments, e.post.id)
  {
    var sorted := SortBy(db.posts, NewestFirst);
    var es := ConstPost(db);
    if e in es {
      var i :| 0 <= i < |es| && es[i] == e;
      assert sorted[i] in multiset(db.posts);
    }
    if e.post in db.posts && e.commentCount == CommentCount(db.comments, e.post.id) {
      assert e.post in multiset(sorted);
      var i :| 0 <= i < |sorted| && sorted[i] == e.post;
      assert es[i] == e;
    }
  }

  /** What `const_post()` returns: each post exactly as often as the table holds it,
      newest first, with its own comment count. */
  lemma ConstPostSpec(db: Db)
    ensures Ascending(ConstPost(db), EntryNewestFirst)
    ensures PostsOf(ConstPost(db)) == SortBy(db.posts, NewestFirst)
    ensures forall e :: e in ConstPost(db) <==> e.post in db.posts && e.commentCount == CommentCount(db.comments, e.post.id)
  {
    ConstPostOrder(db);
    ConstPostPosts(db);
    forall e ensures e in ConstPost(db) <==> e.post in db.posts && e.commentCount == CommentCount(db.comments, e.post.id) {
      ConstPostMember(db, e);
    }
  }

  /** What every page's `const_post().filter(...)` returns: the posts that satisfy the
      filter and no others, each as often as the table holds it, newest first, each
      with the number of comments that reference it. */
  lemma ListingSpec(db: Db, f: PostFilter)
    ensures NewestFirstOrder(Listing(db, f))
    ensures forall e :: e in Listing(db, f) <==>
      && e.post in db.posts
      && Matches(f, db.categories, e.post)
      && e.commentCount == CommentCount(db.comments, e.post.id)
    ensures forall p :: multiset(PostsOf(Listing(db, f)))[p] == if Matches(f, db.categories, p) then multiset(db.posts)[p] else 0
  {
    ConstPostSpec(db);
    SelectKeepsAscending(ConstPost(db), Keeps(f, db.categories), EntryNewestFirst);
    NewestFirstOrderIsAscendingKey(Listing(db, f));
    PostsOfSelect(ConstPost(db), f, db.categories);
    forall p ensures multiset(PostsOf(Listing(db, f)))[p] == if Matches(f, db.categories, p) then multiset(db.posts)[p] else 0 {
      SelectMultiplicity(SortBy(db.posts, NewestFirst), (q: Post) => Matches(f, db.categories, q), p);
    }
  }
}
