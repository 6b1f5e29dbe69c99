# Post feed join of the trill posts router

This project models the `getAll` query of the posts router in Dafny. The query
joins the posts read from the post store with the user records read from the
identity provider. Each user record is first cut down to its public fields
(`id`, `username`, `profileImageUrl`). Then each post, in order, gets the first
user whose `id` equals the post's `authorId`. If that user is missing, or has no
username or an empty one, the whole query fails with "Author not found". No
partial feed is ever returned.

The model is pure, like the source: datatypes, recursive functions over
sequences, and lemmas.

- `wrappers.dfy` — module `Wrappers`: `Option` (a nullable field) and `Result`
  (a value or a thrown error).
- `posts_router.dfy` — module `PostsRouter`: the records, the projection
  `FilterUserForClient`, the id list `AuthorIds`, the lookup `FindUser`
  (`Array.find`), the per-post step `AttachAuthor`, the join `ComposeFeed` and
  the query `GetAll`.
- `feed_properties.dfy` — module `FeedProperties`: lemmas relating these
  across calls. They cover first-match lookup in both directions, the join of a
  concatenation, when the query fails and when it succeeds on the provider's raw
  records, and that a post's author is the public view of the first record with
  its id.

The two fetches are inputs. `posts` is what the post store returned for
`take: 100`, so `GetAll` takes `|posts| <= 100` as a precondition.
`getUserList` is a total function from the id list to the records the identity
provider returns. The query calls it once, on `AuthorIds(posts)`.

A few facts about the code shape the model:

- The id list sent to the provider is `posts.map((post) => post.authorId)`
  (posts.ts:24), in post order with duplicates kept.
- Authors are found with `Array.find` (posts.ts:31), so the first record with
  the id wins.
- The post query (posts.ts:17-19) has no `orderBy`, so the model only proves
  that the feed keeps the order of the posts it is given.

## Model

| member | source | states |
|---|---|---|
| PostsRouter.FilterUserForClient | src/server/api/routers/posts.ts:6-11 | the client view keeps the user's `id`, `username` and `profileImageUrl` unchanged |
| PostsRouter.FilterUsers | src/server/api/routers/posts.ts:22-27 | projecting the provider's list keeps its length and order; entry i is the projection of record i |
| PostsRouter.AuthorIds | src/server/api/routers/posts.ts:24 | the id list sent to the provider has one id per post, in post order, duplicates kept: entry i is `posts[i].authorId` |
| PostsRouter.FindUser | src/server/api/routers/posts.ts:31 | the lookup finds nothing exactly when no user has the id; a found user is in the list and has the id |
| PostsRouter.AttachAuthor | src/server/api/routers/posts.ts:31-45 | a post gets an entry exactly when its first matching user has a present, non-empty username; the entry keeps the post unchanged, its author id is the post's `authorId`, its username is non-empty, and it is the found user with the username made definite |
| PostsRouter.ComposeFeed | src/server/api/routers/posts.ts:30-46 | the join succeeds exactly when every post resolves to a named author; on success it has one entry per post, and entry i is post i's entry, so order is kept; otherwise it fails with no entries |
| PostsRouter.GetAll | src/server/api/routers/posts.ts:15-47 | with at most 100 posts and the provider asked with the posts' author ids, the query succeeds exactly when every post resolves; on success entry i holds `posts[i]` unchanged, an author with that post's `authorId`, and a non-empty username |
| FeedProperties.FindUserIndex | src/server/api/routers/posts.ts:31 | a found user is at the first index that carries the id |
| FeedProperties.FindUserFirst | src/server/api/routers/posts.ts:31 | the user at the first index carrying the id is the one found, so earlier records with other ids and later duplicates are ignored |
| FeedProperties.FindFilteredFirst | src/server/api/routers/posts.ts:22-31 | looking up an id among the projected records finds the projection of the first raw record with that id |
| FeedProperties.FilterIgnoresPrivateFields | src/server/api/routers/posts.ts:6-11 | two records that agree on the three public fields have the same client view, so no private field reaches the client |
| FeedProperties.ComposeFeedAppendOk | src/server/api/routers/posts.ts:30-37 | the join of two concatenated post lists succeeds exactly when the join of each part does (all-or-nothing) |
| FeedProperties.ComposeFeedAppend | src/server/api/routers/posts.ts:30-46 | when the join of a concatenation succeeds, its entries are the first part's entries followed by the second part's |
| FeedProperties.SameAuthorIdSameAuthor | src/server/api/routers/posts.ts:30-45 | on success, two posts with the same `authorId` carry the same author |
| FeedProperties.GetAllMissingAuthor | src/server/api/routers/posts.ts:22-37 | if the provider returns no record for some post's author id, the query fails with `AuthorNotFound` |
| FeedProperties.GetAllUnnamedAuthor | src/server/api/routers/posts.ts:22-37 | if the first record for some post's author id has no username or an empty one, the query fails with `AuthorNotFound`, even when a later record with that id has a username |
| FeedProperties.GetAllAuthorIsFirstMatch | src/server/api/routers/posts.ts:22-45 | on success, entry i's author is the client view of the first provider record whose id is `posts[i].authorId` |
| FeedProperties.GetAllResolvedAuthors | src/server/api/routers/posts.ts:22-46 | if, for every post, the first provider record with the post's author id exists and has a non-empty username, the query succeeds (the converse of the two failure lemmas) |

## Left out

- The post store query (`findMany` with `take: 100`) and the identity provider call (`getUserList`) are I/O. Their results are inputs. The provider's own `limit: 100` cut of its answer is not modelled separately. A record it drops is a missing record, which leads to the failure path. A fetch that itself fails (a rejected `findMany` at posts.ts:17 or `getUserList` at posts.ts:23) is not modelled: `GetAll` only ever fails with `AuthorNotFound`.
- Async execution, the router wiring and the exact error object (code `INTERNAL_SERVER_ERROR`, message "Author not found") are not modelled. The model uses one error value, `AuthorNotFound`.
- Other fields of the provider's user record are represented by `firstName`, `lastName` and `emailAddresses`. Only their absence from the client view matters.
- The `create`, `getPostsByUserId` and `getPostById` procedures and the profile router are called from the pages, but their server code is not part of this model. So post creation, content validation, rate limiting and per-author feeds are not modelled.
- Feed ordering by `createdAt` is not modelled, because the query at posts.ts:17-19 has no `orderBy`.
- The pages and components (`src/pages/*.tsx`, `src/components/PostView.tsx`) are user interface, relative-time formatting and providers, with no logic of their own to model.
