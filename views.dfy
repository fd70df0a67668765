/** The four read-only pages: the home listing, a category listing, a user's
    profile listing and the detail page of one post. The current time `now` and
    the requesting identity are parameters. */
module Views {
  import opened Seqs
  import opened Model
  import opened Queries
  import opened Pagination

  /** The three-part condition under which a post may be shown to anyone but its author. */
  predicate VisibleToAll(categories: seq<Category>, p: Post, now: int) {
    p.isPublished && CategoryPublished(categories, p.category) && p.pubDate <= now
  }

  // ---------------------------------------------------------------- home page

  /** `IndexListView`: published, in a published category, publication date reached. */
  function IndexFilter(now: int): PostFilter {
    PostFilter(None, None, true, true, Some(now))
  }

  function IndexPosts(db: Db, now: int): seq<Entry> {
    Listing(db, IndexFilter(now))
  }

  /** The `page_obj` of the home page. */
  function IndexPage(db: Db, now: int, page: Option<int>): seq<Entry> {
    GetPage(IndexPosts(db, now), page)
  }

  /** The home listing holds exactly the posts visible to all, each once per row,
      newest first, each with its comment count. */
  lemma IndexPostsSpec(db: Db, now: int)
    ensures NewestFirstOrder(IndexPosts(db, now))
    ensures forall e :: e in IndexPosts(db, now) <==>
      e.post in db.posts && VisibleToAll(db.categories, e.post, now) && e.commentCount == CommentCount(db.comments, e.post.id)
    ensures forall p :: multiset(PostsOf(IndexPosts(db, now)))[p] == if VisibleToAll(db.categories, p, now) then multiset(db.posts)[p] else 0
  {
    ListingSpec(db, IndexFilter(now));
  }

  /** The page shown on the home page is one of at most 10 entries cut from that listing. */
  lemma IndexPageSpec(db: Db, now: int, page: Option<int>)
    ensures |IndexPage(db, now, page)| <= PostsPerPage
    ensures exists n :: 1 <= n <= PageCount(|IndexPosts(db, now)|) && IndexPage(db, now, page) == Page(IndexPosts(db, now), n)
  {
    ShownPageIsOneOfThePages(IndexPosts(db, now), page);
  }

  // ------------------------------------------------------------ category page

  /** `get_object_or_404(Category, is_published=True, slug=...)`. */
  function FindPublishedCategory(categories: seq<Category>, slug: string): Option<Category> {
    First(categories, (c: Category) => c.isPublished && c.slug == slug)
  }

  /** `CategoryPostListView`: that category, published, publication date reached. */
  function CategoryFilter(c: Category, now: int): PostFilter {
    PostFilter(Some(c.id), None, true, false, Some(now))
  }

  function CategoryPosts(db: Db, c: Category, now: int): seq<Entry> {
    Listing(db, CategoryFilter(c, now))
  }

  datatype CategoryContext = CategoryContext(category: Category, posts: seq<Entry>)

  /** The category page: not found for a missing or unpublished slug, else the category and its page. */
  function CategoryView(db: Db, slug: string, now: int, page: Option<int>): Result<CategoryContext> {
    match FindPublishedCategory(db.categories, slug)
    case None => NotFound
    case Some(c) => Ok(CategoryContext(c, GetPage(CategoryPosts(db, c, now), page)))
  }

  /** The category page answers not-found exactly when no published category has the
      slug; otherwise it shows such a category and a page of its listing. */
  lemma CategoryViewSpec(db: Db, slug: string, now: int, page: Option<int>)
    ensures CategoryView(db, slug, now, page).NotFound? <==>
      forall c :: c in db.categories ==> !(c.isPublished && c.slug == slug)
    ensures CategoryView(db, slug, now, page).Ok? ==>
      var ctx := CategoryView(db, slug, now, page).value;
      && ctx.category in db.categories && ctx.category.isPublished && ctx.category.slug == slug
      && |ctx.posts| <= PostsPerPage
      && exists n :: 1 <= n <= PageCount(|CategoryPosts(db, ctx.category, now)|) && ctx.posts == Page(CategoryPosts(db, ctx.category, now), n)
  {
    match FindPublishedCategory(db.categories, slug)
    case None =>
    case Some(c) =>
      ShownPageIsOneOfThePages(CategoryPosts(db, c, now), page);
  }

  /** A category listing holds exactly that category's published posts whose date has
      come, newest first; the category's own flag was checked by the lookup instead. */
  lemma CategoryPostsSpec(db: Db, c: Category, now: int)
    ensures NewestFirstOrder(CategoryPosts(db, c, now))
    ensures forall e :: e in CategoryPosts(db, c, now) <==>
      && e.post in db.posts && e.post.category == c.id && e.post.isPublished && e.post.pubDate <= now
      && e.commentCount == CommentCount(db.comments, e.post.id)
    ensures forall p :: multiset(PostsOf(CategoryPosts(db, c, now)))[p] ==
                        if p.category == c.id && p.isPublished && p.pubDate <= now then multiset(db.posts)[p] else 0
  {
    ListingSpec(db, CategoryFilter(c, now));
  }

  // ------------------------------------------------------------- profile page

  /** `ProfileDetailView`'s `filter_user`: nothing for the owner; for anyone else
      published and date reached, but no condition on the category. */
  function ProfileFilter(profile: User, viewer: Requester, now: int): PostFilter {
    if IsRequester(profile.id, viewer) then PostFilter(None, Some(profile.id), false, false, None)
    else PostFilter(None, Some(profile.id), true, false, Some(now))
  }

  /** `const_post().filter(author=profile, **filter_user).order_by('-pub_date')`. */
  function ProfilePosts(db: Db, profile: User, viewer: Requester, now: int): seq<Entry> {
    SortBy(Listing(db, ProfileFilter(profile, viewer, now)), EntryNewestFirst)
  }

  datatype ProfileContext = ProfileContext(profile: User, posts: seq<Entry>)

  /** The profile page: not found for an unknown user name, else the user and a page of posts. */
  function ProfileView(db: Db, username: string, viewer: Requester, now: int, page: Option<int>): Result<ProfileContext> {
    match FindUser(db.users, username)
    case None => NotFound
    case Some(u) => Ok(ProfileContext(u, GetPage(ProfilePosts(db, u, viewer, now), page)))
  }

  /** The second ordering of the profile query repeats the first and changes nothing. */
  lemma ProfileReorderIsRedundant(db: Db, profile: User, viewer: Requester, now: int)
    ensures ProfilePosts(db, profile, viewer, now) == Listing(db, ProfileFilter(profile, viewer, now))
  {
    var f := ProfileFilter(profile, viewer, now);
    ListingSpec(db, f);
    NewestFirstOrderIsAscendingKey(Listing(db, f));
    SortSortedIsIdentity(Listing(db, f), EntryNewestFirst);
  }

  /** The owner sees every post they wrote; anyone else sees those of them that are
      published and whose date has come, with no condition on the category. */
  lemma ProfilePostsSpec(db: Db, profile: User, viewer: Requester, now: int)
    ensures NewestFirstOrder(ProfilePosts(db, profile, viewer, now))
    ensures forall e :: e in ProfilePosts(db, profile, viewer, now) <==>
      && e.post in db.posts && e.post.author == profile.id
      && (IsRequester(profile.id, viewer) || (e.post.isPublished && e.post.pubDate <= now))
      && e.commentCount == CommentCount(db.comments, e.post.id)
  {
    ProfileReorderIsRedundant(db, profile, viewer, now);
    ListingSpec(db, ProfileFilter(profile, viewer, now));
  }

  /** The profile page answers not-found exactly for an unknown user name. */
  lemma ProfileViewSpec(db: Db, username: string, viewer: Requester, now: int, page: Option<int>)
    ensures ProfileView(db, username, viewer, now, page).NotFound? <==> forall u :: u in db.users ==> u.username != username
    ensures ProfileView(db, username, viewer, now, page).Ok? ==>
      var ctx := ProfileView(db, username, viewer, now, page).value;
      && ctx.profile in db.users && ctx.profile.username == username
      && |ctx.posts| <= PostsPerPage
      && exists n :: 1 <= n <= PageCount(|ProfilePosts(db, ctx.profile, viewer, now)|) && ctx.posts == Page(ProfilePosts(db, ctx.profile, viewer, now), n)
  {
    match FindUser(db.users, username)
    case None =>
    case Some(u) =>
      ShownPageIsOneOfThePages(ProfilePosts(db, u, viewer, now), page);
  }

  // -------------------------------------------------------------- detail page

  /** `PostDetailView`'s `filter_user`: the visibility condition unless the viewer is the author. */
  function DetailFilter(p: Post, viewer: Requester, now: int): PostFilter {
    if !IsRequester(p.author, viewer) then PostFilter(None, None, true, true, Some(now))
    else PostFilter(None, None, false, false, None)
  }

  /** Ordering key of `order_by('created_at')`. */
  function OldestFirst(c: Comment): int { c.createdAt }

  /** `post.comments.order_by('created_at')`. */
  function PostComments(comments: seq<Comment>, id: PostId): seq<Comment> {
    SortBy(Select(comments, (c: Comment) => c.post == id), OldestFirst)
  }

  datatype DetailContext = DetailContext(post: Post, comments: seq<Comment>)

  /** The detail page: the post is looked up by key, then looked up again under the
      viewer's `filter_user`; either miss answers not-found. */
  function PostDetail(db: Db, id: PostId, viewer: Requester, now: int): Result<DetailContext> {
    match FindPost(db.posts, id)
    case None => NotFound
    case Some(p) =>
      var f := DetailFilter(p, viewer, now);
      if First(db.posts, (q: Post) => q.id == id && Matches(f, db.categories, q)).None? then NotFound
      else Ok(DetailContext(p, PostComments(db.comments, id)))
  }

  /** The detail page of an existing post is shown to its author always and to anyone
      else exactly when the post is visible to all; its comments are all the comments
      of that post, oldest first. A missing post is not found. */
  lemma PostDetailSpec(db: Db, id: PostId, viewer: Requester, now: int)
    requires Distinct(db.posts, PostKey)
    ensures (forall p :: p in db.posts ==> p.id != id) ==> PostDetail(db, id, viewer, now).NotFound?
    ensures forall p :: p in db.posts && p.id == id ==>
      && (PostDetail(db, id, viewer, now).Ok? <==> IsRequester(p.author, viewer) || VisibleToAll(db.categories, p, now))
      && (PostDetail(db, id, viewer, now).Ok? ==> PostDetail(db, id, viewer, now).value.post == p)
    ensures PostDetail(db, id, viewer, now).Ok? ==>
      var cs := PostDetail(db, id, viewer, now).value.comments;
      && (forall i, j :: 0 <= i < j < |cs| ==> cs[i].createdAt <= cs[j].createdAt)
      && (forall c :: multiset(cs)[c] == if c.post == id then multiset(db.comments)[c] else 0)
  {
    match FindPost(db.posts, id)
    case None =>
    case Some(p) =>
      forall q | q in db.posts && q.id == id ensures q == p {
        FindPostUnique(db.posts, q);
      }
      var ofPost := (c: Comment) => c.post == id;
      var cs := PostComments(db.comments, id);
      forall i, j | 0 <= i < j < |cs| ensures cs[i].createdAt <= cs[j].createdAt {
        assert OldestFirst(cs[i]) <= OldestFirst(cs[j]);
      }
      forall c ensures multiset(cs)[c] == if c.post == id then multiset(db.comments)[c] else 0 {
        SelectMultiplicity(db.comments, ofPost, c);
      }
  }

  /** To anyone but its author, a post's detail page opens exactly when the post is on
      the home listing. */
  lemma DetailAgreesWithIndex(db: Db, p: Post, viewer: Requester, now: int)
    requires Distinct(db.posts, PostKey)
    requires p in db.posts
    requires !IsRequester(p.author, viewer)
    ensures PostDetail(db, p.id, viewer, now).Ok? <==> p in PostsOf(IndexPosts(db, now))
  {
    PostDetailSpec(db, p.id, viewer, now);
    IndexPostsSpec(db, now);
    var es := IndexPosts(db, now);
    if VisibleToAll(db.categories, p, now) {
      assert multiset(PostsOf(es))[p] > 0;
    }
    if p in PostsOf(es) {
      var i :| 0 <= i < |es| && PostsOf(es)[i] == p;
      assert es[i] in es;
    }
  }

  /** The profile page does not check the category: to anyone but the author, a
      published post whose date has come but whose category is unpublished is on its
      author's profile page, while its own detail page answers not-found and the home
      listing leaves it out. */
  lemma ProfileShowsPostsOfHiddenCategories(db: Db, profile: User, viewer: Requester, now: int, p: Post)
    requires Distinct(db.posts, PostKey)
    requires p in db.posts && p.author == profile.id && !IsRequester(profile.id, viewer)
    requires p.isPublished && p.pubDate <= now && !CategoryPublished(db.categories, p.category)
    ensures Entry(p, CommentCount(db.comments, p.id)) in ProfilePosts(db, profile, viewer, now)
    ensures PostDetail(db, p.id, viewer, now).NotFound?
    ensures p !in PostsOf(IndexPosts(db, now))
  {
    ProfilePostsSpec(db, profile, viewer, now);
    DetailAgreesWithIndex(db, p, viewer, now);
    PostDetailSpec(db, p.id, viewer, now);
  }
}
