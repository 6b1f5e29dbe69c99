/**
 * The post feed query of the posts router: the fetched posts are joined with
 * the fetched identity records, one author per post, or the whole query fails.
 * The post store and the identity provider are not modelled: their answers are
 * inputs (a sequence of posts, and a function from an id list to user records).
 */
module PostsRouter {
  import opened Wrappers

  type Id = string

  /** A stored post row. */
  datatype Post = Post(id: Id, authorId: Id, content: string, createdAt: int)

  /**
   * A user record as the identity provider returns it. Besides the three public
   * fields it carries private ones (names, e-mail addresses) that must not
   * reach the client.
   */
  datatype User = User(
    id: Id,
    username: Option<string>,
    profileImageUrl: string,
    firstName: Option<string>,
    lastName: Option<string>,
    emailAddresses: seq<string>)

  /** The public view of a user sent to the client. */
  datatype ClientUser = ClientUser(id: Id, username: Option<string>, profileImageUrl: string)

  /** The author attached to a feed entry: the public view with a definite username. */
  datatype Author = Author(id: Id, username: string, profileImageUrl: string)

  datatype FeedEntry = FeedEntry(post: Post, author: Author)

  /** The single error the query raises ("Author not found"). */
  datatype FeedError = AuthorNotFound

  /** The number of posts the store is asked for (`take: 100`). */
  const PostLimit: nat := 100

  /** Projects a user record onto its public fields. */
  function FilterUserForClient(user: User): (c: ClientUser)
    ensures c.id == user.id
    ensures c.username == user.username
    ensures c.profileImageUrl == user.profileImageUrl
  {
    ClientUser(user.id, user.username, user.profileImageUrl)
  }

  /** `users.map(filterUserForClient)`. */
  function FilterUsers(users: seq<User>): (cs: seq<ClientUser>)
    ensures |cs| == |users|
    ensures forall i | 0 <= i < |users| :: cs[i] == FilterUserForClient(users[i])
  {
    seq(|users|, i requires 0 <= i < |users| => FilterUserForClient(users[i]))
  }

  /** The id list sent to the identity provider: `posts.map((post) => post.authorId)`. */
  function AuthorIds(posts: seq<Post>): (ids: seq<Id>)
    ensures |ids| == |posts|
    ensures forall i | 0 <= i < |posts| :: ids[i] == posts[i].authorId
  {
    seq(|posts|, i requires 0 <= i < |posts| => posts[i].authorId)
  }

  /** The truthiness of `author.username`: present and not the empty string. */
  predicate HasUsername(u: ClientUser) {
    u.username.Some? && u.username.value != ""
  }

  /** `users.find((user) => user.id === id)`: the first user with that id, if any. */
  function FindUser(users: seq<ClientUser>, id: Id): (r: Option<ClientUser>)
    ensures r.None? <==> forall k | 0 <= k < |users| :: users[k].id != id
    ensures r.Some? ==> r.value in users && r.value.id == id
  {
    if users == [] then None
    else if users[0].id == id then Some(users[0])
    else FindUser(users[1..], id)
  }

  /** Whether a post's author resolves to a user with a username. */
  predicate Resolves(post: Post, users: seq<ClientUser>) {
    var found := FindUser(users, post.authorId);
    found.Some? && HasUsername(found.value)
  }

  /** The public view an author was built from (the inverse of the spread in AttachAuthor). */
  function AuthorView(a: Author): ClientUser {
    ClientUser(a.id, Some(a.username), a.profileImageUrl)
  }

  /** The callback of `posts.map`: attach the first matching user, or throw. */
  function AttachAuthor(post: Post, users: seq<ClientUser>): (r: Result<FeedEntry, FeedError>)
    ensures r.Ok? <==> Resolves(post, users)
    ensures r.Ok? ==> r.value.post == post
    ensures r.Ok? ==> r.value.author.id == post.authorId && r.value.author.username != ""
    ensures r.Ok? ==> FindUser(users, post.authorId) == Some(AuthorView(r.value.author))
  {
    match FindUser(users, post.authorId)
    case None => Err(AuthorNotFound)
    case Some(author) =>
      if !HasUsername(author) then Err(AuthorNotFound)
      else Ok(FeedEntry(post, Author(author.id, author.username.value, author.profileImageUrl)))
  }

  /**
   * `posts.map(...)` with the throwing callback: every post gets its author, in
   * order, or the whole join fails and no entry is returned.
   */
  function ComposeFeed(posts: seq<Post>, users: seq<ClientUser>): (r: Result<seq<FeedEntry>, FeedError>)
    ensures r.Ok? <==> forall i | 0 <= i < |posts| :: Resolves(posts[i], users)
    ensures r.Ok? ==> |r.value| == |posts|
    ensures r.Ok? ==> forall i | 0 <= i < |posts| :: AttachAuthor(posts[i], users) == Ok(r.value[i])
  {
    if posts == [] then Ok([])
    else
      match AttachAuthor(posts[0], users)
      case Err(e) => Err(e)
      case Ok(entry) =>
        match ComposeFeed(posts[1..], users)
        case Err(e) => Err(e)
        case Ok(rest) => Ok([entry] + rest)
  }

  /**
   * The `getAll` query. `posts` is what the store returned for `take: 100`;
   * `getUserList` is the identity provider, asked once with the posts' author ids.
   */
  function GetAll(posts: seq<Post>, getUserList: seq<Id> -> seq<User>): (r: Result<seq<FeedEntry>, FeedError>)
    requires |posts| <= PostLimit
    ensures r.Ok? <==> forall i | 0 <= i < |posts| :: Resolves(posts[i], FilterUsers(getUserList(AuthorIds(posts))))
    ensures r.Ok? ==> |r.value| == |posts|
    ensures r.Ok? ==> forall i | 0 <= i < |posts| ::
      && r.value[i].post == posts[i]
      && r.value[i].author.id == posts[i].authorId
      && r.value[i].author.username != ""
  {
    var users := FilterUsers(getUserList(AuthorIds(posts)));
    ComposeFeed(posts, users)
  }
}
