# Blogicum: visibility, listing and ownership rules

A Dafny model of the request handlers of the Blogicum blog (`blogicum/blog/views.py`).
Users write posts, which belong to categories and have a publication date and a
published flag. Readers browse listings and comment. The model keeps the three rules
that sit under the ORM calls:

- **Which posts a page shows.** The shared query `const_post` gives every post, newest
  first, with its comment count. Each page then applies its own filter:
  - the home page: published, in a published category, date reached;
  - a category page: the category must exist and be published; then its posts that are
    published and whose date has come;
  - a profile page: everything for the owner; for anyone else, published and date
    reached, with **no** category condition;
  - the detail page: the visibility condition, unless the viewer is the author.

  Listings are cut into pages of `PAGINATOR_POSTS` = 10.
- **Ownership checks** on edit and delete. The checked object must exist (else
  not-found). A requester who is not its author is redirected to a post's detail page
  and nothing changes.
- **Creation and success rules.** The author of a new post or comment is the requester.
  A new comment's post is the URL's `post_id`. Each handler has a fixed success redirect.

The database is an in-memory snapshot (`Model.Db`: sequences of posts, comments,
categories and users). The read-only pages are functions of that snapshot, the
current time `now` (an integer) and the requester. The handlers that change data are
methods of the class `Store.Blog`. Each method states the whole new state as a function
of the old one, and keeps the invariant `Valid()`: unique keys, all below the key
counters.

Modules: `Seqs` (lookup, filter, stable sort on sequences), `Model` (entities and
lookups by key), `Pagination`, `Queries` (`const_post` and the filter keyword
arguments as a `PostFilter` value), `Views` (the four read-only pages), `Guards` (the
two permission mixins), `Store` (the six data-changing handlers).

Behaviour of the code worth knowing, all proved:

- The profile page does not check the category (`Views.ProfileShowsPostsOfHiddenCategories`).
  A published, due post in an unpublished category is listed on its author's profile
  for every visitor. Yet its detail page answers not-found to them, and the home page
  leaves it out.
- The comment check redirects to the URL's `pk`, not to the comment's own post
  (`Guards.CommentGuardDecides`). It also never checks that the comment belongs to
  `pk`. The system's documentation describes the redirect as going to the comment's
  post, and says hidden posts are absent from every listing for non-authors; in both
  places the model follows the code.
- The ownership checks run before the login check. An anonymous requester is therefore
  redirected to the post page like any non-author, never to the login page.
- `CommentCreateView` checks that the post exists before the login check. An anonymous
  request for a missing post gets not-found. The view applies no visibility condition,
  so a signed-in user may comment on a post they cannot see.
- Database ties in `order_by('-pub_date')` have no defined order. The model uses a
  stable sort. What is proved is the order by date and the permutation, which hold for
  any tie order.

## Model

| member | source | states |
|---|---|---|
| `Seqs.SortBy` | blogicum/blog/views.py:32-34 | `order_by(...)`: the result is in key order and is a permutation of the input |
| `Seqs.SortSortedIsIdentity` | blogicum/blog/views.py:265-270 | ordering an already ordered sequence again changes nothing |
| `Seqs.SelectMultiplicity` | blogicum/blog/views.py:92-96 | `.filter(...)` keeps every copy of a matching row and drops every other row |
| `Model.FindPost` | blogicum/blog/views.py:66-69 | a post lookup by key finds a post with that key, and finds nothing exactly when no post has it |
| `Model.FindComment` | blogicum/blog/views.py:47-50 | a comment lookup by key finds a comment with that key, and finds nothing exactly when no comment has it |
| `Model.FindUser` | blogicum/blog/views.py:254-257 | a user lookup by user name finds a user with that name, and finds nothing exactly when there is none |
| `Model.FindPostUnique` | blogicum/blog/views.py:126-130 | with unique keys, the lookup by a post's key finds that very post |
| `Pagination.PageCount` | blogicum/blog/views.py:91-97 | the number of pages is the fewest pages of 10 that hold every entry, and at least one |
| `Pagination.Page` | blogicum/blog/views.py:17 | page n is the entries from position 10(n-1) on, in order, and at most 10 of them |
| `Pagination.PageNumber` | blogicum/blog/views.py:98-99 | `get_page` settles on page 1 when the parameter is absent or not a number, on the requested page when it is in range, and on the last page otherwise |
| `Pagination.PagesArePrefix` | blogicum/blog/views.py:91-99 | pages 1 to k read one after another are the first 10k entries: page n+1 starts where page n ends |
| `Pagination.PagesCoverListing` | blogicum/blog/views.py:265-272 | all pages together are the whole listing, in order |
| `Pagination.ShownPageIsOneOfThePages` | blogicum/blog/views.py:230-231 | whatever the `page` parameter, the page shown is one of the listing's pages |
| `Pagination.ShownPageNonEmpty` | blogicum/blog/views.py:271-272 | a non-empty listing never shows an empty page |
| `Queries.CommentCountIsNumberOfComments` | blogicum/blog/views.py:34-36 | `comment_count` is the number of comments that reference the post |
| `Queries.ConstPostSpec` | blogicum/blog/views.py:27-37 | `const_post()` holds each post as often as the table does, newest first, with its own comment count |
| `Queries.ListingSpec` | blogicum/blog/views.py:92-96 | `const_post().filter(**f)` holds exactly the posts matching `f`, newest first, with their comment counts |
| `Views.IndexPostsSpec` | blogicum/blog/views.py:89-101 | the home listing holds exactly the published, due posts of published categories, newest first, each with its comment count |
| `Views.IndexPageSpec` | blogicum/blog/views.py:91-100 | the home page shows at most 10 entries, one of the pages of that listing |
| `Views.CategoryViewSpec` | blogicum/blog/views.py:216-234 | not-found exactly when no published category has the slug; otherwise that category and a page of at most 10 of its listing |
| `Views.CategoryPostsSpec` | blogicum/blog/views.py:223-229 | the category listing holds exactly that category's published, due posts, newest first |
| `Views.ProfileReorderIsRedundant` | blogicum/blog/views.py:265-270 | the profile query's second `order_by('-pub_date')` leaves the listing as it was |
| `Views.ProfilePostsSpec` | blogicum/blog/views.py:258-270 | the owner sees all their posts; anyone else sees the published, due ones, with no category condition |
| `Views.ProfileViewSpec` | blogicum/blog/views.py:252-274 | not-found exactly for an unknown user name; otherwise that user and a page of at most 10 of the profile listing |
| `Views.PostDetailSpec` | blogicum/blog/views.py:116-137 | a missing post is not found; an existing one is shown to its author always, and to others exactly when it is visible to all; its comments are all of its comments, oldest first |
| `Views.DetailAgreesWithIndex` | blogicum/blog/views.py:89-130 | for anyone but the author, the detail page opens exactly when the post is on the home listing |
| `Views.ProfileShowsPostsOfHiddenCategories` | blogicum/blog/views.py:258-264 | a published, due post in an unpublished category is on its author's profile for others, yet its detail page is not found and the home page leaves it out |
| `Guards.PostGuard` | blogicum/blog/views.py:65-75 | not-found exactly when no post has the key; a redirect goes to that post's page and only for a non-author; proceeding needs the signed-in author |
| `Guards.CommentGuard` | blogicum/blog/views.py:46-56 | not-found exactly when no comment has the key; a redirect goes to the URL's `pk` and only for a non-author; proceeding needs the signed-in author |
| `Guards.PostGuardDecides` | blogicum/blog/views.py:65-75 | with unique keys, the author proceeds and everyone else, anonymous included, is redirected to the post |
| `Guards.CommentGuardDecides` | blogicum/blog/views.py:46-56 | with unique keys, the comment's author proceeds and everyone else is redirected to `pk`, whatever post the comment is on |
| `Store.EditPostSpec` | blogicum/blog/views.py:140-153 | saving an edit changes what the post's key finds to the edited post and what no other key finds |
| `Store.RemovePostSpec` | blogicum/blog/views.py:162-174 | after a delete the post's key finds nothing and every other key finds what it found before |
| `Store.EditCommentSpec` | blogicum/blog/views.py:331-344 | saving a comment edit changes only what the comment's key finds |
| `Store.RemoveCommentSpec` | blogicum/blog/views.py:353-365 | after a comment delete its key finds nothing and every other key finds what it found before |
| `Store.DeletePostKeepsOtherCounts` | blogicum/blog/views.py:162-177 | deleting a post and its comments leaves every other post's comment count as it was |
| `Store.DeletedPostIsNotFound` | blogicum/blog/views.py:162-177 | once deleted, a post's detail page is not found for anyone |
| `Store.Blog.CreatePost` | blogicum/blog/views.py:180-201 | anonymous: login redirect, nothing changes; otherwise one new post with a fresh key and author = requester, then redirect to the requester's profile |
| `Store.Blog.UpdatePost` | blogicum/blog/views.py:140-159 | the post check first; when it stops the request nothing changes; otherwise the post's fields become the form's, and the redirect goes to `post_detail(post_id)` |
| `Store.Blog.DeletePost` | blogicum/blog/views.py:162-177 | the post check first; when it stops the request nothing changes; otherwise the post and its comments go, and the redirect goes to the index |
| `Store.Blog.CreateComment` | blogicum/blog/views.py:301-328 | missing post: not-found; anonymous: login redirect; otherwise one new comment with author = requester, post = URL `post_id`, time `now`, then redirect to that post |
| `Store.Blog.UpdateComment` | blogicum/blog/views.py:331-350 | the comment check first; when it stops the request nothing changes; otherwise the comment's text is replaced, and the redirect goes to the URL's `pk` |
| `Store.Blog.DeleteComment` | blogicum/blog/views.py:353-371 | the comment check first; when it stops the request nothing changes; otherwise the comment goes, and the redirect goes to the URL's `pk` |

## Left out

- Django ORM mechanics (`select_related`, querysets, joins): modelled as lookups and filters over the snapshot's sequences.
- `models.py` and `forms.py` are not part of this model. Three things are assumed from them. Deleting a post deletes its comments (a cascading foreign key). The post form does not carry the author. A comment's `created_at` is the time of creation, passed as `now`.
- Templates, form rendering and form validation. The handlers model a POST with a valid form only. An invalid form re-renders the page and changes nothing. A GET of an edit or delete page only renders it, after the same ownership check.
- The `form` entry that the detail page puts in its context (an empty comment form).
- `dt.datetime.now()` and clocks: `now` is an integer parameter.
- The `page` query parameter arrives already parsed: `None` when it is absent or not an integer. Django's parsing of strings such as `"2.0"` is not modelled.
- `get_object_or_404` on several matching rows raises an error; the model takes the first match. Keys, category slugs and user names are taken as unique.
- The `comment_id` URL segment has no converter; a non-numeric value makes the lookup fail with a server error. The model takes it as a number.
- `LoginRequiredMixin` mechanics: its login redirect is the single answer `RedirectToLogin`.
- `ProfileUpdateView`: it only edits `request.user` through a form.
- `blogicum/blog/urls.py` (the routing table; it matters only for the names `post_id`, `pk` and `comment_id`) and `blogicum/blog/admin.py` (admin-site configuration).
- `blogicum/pages/views.py`: static error and information pages with fixed status codes.
- Concurrency: each request runs alone against a consistent snapshot.
