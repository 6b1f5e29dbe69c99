/** Properties of the feed join stated across several calls. */
module FeedProperties {
  import opened Wrappers
  import opened PostsRouter

  /** Whether `j` is the first index at which `id` occurs in `ids`. */
  predicate FirstMatchAt(ids: seq<Id>, id: Id, j: int) {
    0 <= j < |ids| && ids[j] == id && forall k | 0 <= k < j :: ids[k] != id
  }

  /** The ids of the public views, in order. */
  function Ids(users: seq<ClientUser>): (ids: seq<Id>)
    ensures |ids| == |users| && forall k | 0 <= k < |users| :: ids[k] == users[k].id
  {
    seq(|users|, k requires 0 <= k < |users| => users[k].id)
  }

  /** The ids of the provider's records, in order: the projection keeps them. */
  function RawIds(users: seq<User>): seq<Id> {
    Ids(FilterUsers(users))
  }

  /** A found user sits at the first index carrying its id (`Array.find` order). */
  lemma {:induction false} FindUserIndex(users: seq<ClientUser>, id: Id) returns (j: nat)
    requires FindUser(users, id).Some?
    ensures FirstMatchAt(Ids(users), id, j) && users[j] == FindUser(users, id).value
  {
    if users[0].id == id {
      j := 0;
    } else {
      var j' := FindUserIndex(users[1..], id);
      j := j' + 1;
    }
  }

  /** Conversely, the user at the first index carrying the id is the one found. */
  lemma {:induction false} FindUserFirst(users: seq<ClientUser>, id: Id, j: nat)
    requires FirstMatchAt(Ids(users), id, j)
    ensures FindUser(users, id) == Some(users[j])
  {
    if j > 0 {
      assert users[0].id == Ids(users)[0];
      assert Ids(users[1..]) == Ids(users)[1..];
      FindUserFirst(users[1..], id, j - 1);
    }
  }

  /** Projecting the records keeps their ids, so the first raw match is the one found. */
  lemma FindFilteredFirst(users: seq<User>, id: Id, j: nat)
    requires FirstMatchAt(RawIds(users), id, j)
    ensures FindUser(FilterUsers(users), id) == Some(FilterUserForClient(users[j]))
  {
    FindUserFirst(FilterUsers(users), id, j);
  }

  /** The public view depends on nothing but the three public fields. */
  lemma FilterIgnoresPrivateFields(a: User, b: User)
    requires a.id == b.id && a.username == b.username && a.profileImageUrl == b.profileImageUrl
    ensures FilterUserForClient(a) == FilterUserForClient(b)
  {
  }

  /** The join of a concatenation succeeds exactly when the joins of both parts do. */
  lemma ComposeFeedAppendOk(p1: seq<Post>, p2: seq<Post>, users: seq<ClientUser>)
    ensures ComposeFeed(p1 + p2, users).Ok? <==> ComposeFeed(p1, users).Ok? && ComposeFeed(p2, users).Ok?
  {
    var r := ComposeFeed(p1 + p2, users);
    if r.Ok? {
      forall i | 0 <= i < |p1| ensures Resolves(p1[i], users) {
        assert (p1 + p2)[i] == p1[i];
      }
      forall i | 0 <= i < |p2| ensures Resolves(p2[i], users) {
        assert (p1 + p2)[|p1| + i] == p2[i];
      }
    }
  }

  /**
   * Joining a concatenation joins each part: when it succeeds, its entries are
   * the first part's entries followed by the second part's.
   */
  lemma ComposeFeedAppend(p1: seq<Post>, p2: seq<Post>, users: seq<ClientUser>)
    requires ComposeFeed(p1 + p2, users).Ok?
    ensures ComposeFeed(p1, users).Ok? && ComposeFeed(p2, users).Ok?
    ensures ComposeFeed(p1 + p2, users).value == ComposeFeed(p1, users).value + ComposeFeed(p2, users).value
  {
    ComposeFeedAppendOk(p1, p2, users);
    var es, e1, e2 := ComposeFeed(p1 + p2, users).value, ComposeFeed(p1, users).value, ComposeFeed(p2, users).value;
    forall i | 0 <= i < |es| ensures es[i] == (e1 + e2)[i] {
      assert AttachAuthor((p1 + p2)[i], users) == Ok(es[i]);
      if i < |p1| {
        assert (p1 + p2)[i] == p1[i];
        assert AttachAuthor(p1[i], users) == Ok(e1[i]);
      } else {
        assert (p1 + p2)[i] == p2[i - |p1|];
        assert AttachAuthor(p2[i - |p1|], users) == Ok(e2[i - |p1|]);
      }
    }
  }

  /** Posts by the same author carry the same author record. */
  lemma SameAuthorIdSameAuthor(posts: seq<Post>, users: seq<ClientUser>, i: nat, j: nat)
    requires ComposeFeed(posts, users).Ok?
    requires i < |posts| && j < |posts| && posts[i].authorId == posts[j].authorId
    ensures ComposeFeed(posts, users).value[i].author == ComposeFeed(posts, users).value[j].author
  {
  }

  /** A post whose author id the identity provider did not return fails the whole query. */
  lemma GetAllMissingAuthor(posts: seq<Post>, getUserList: seq<Id> -> seq<User>, i: nat)
    requires |posts| <= PostLimit && i < |posts|
    requires posts[i].authorId !in RawIds(getUserList(AuthorIds(posts)))
    ensures GetAll(posts, getUserList) == Err(AuthorNotFound)
  {
    var raw := getUserList(AuthorIds(posts));
    var cs := FilterUsers(raw);
    var id := posts[i].authorId;
    forall k | 0 <= k < |cs| ensures cs[k].id != id {
      assert RawIds(raw)[k] == raw[k].id;
    }
    assert FindUser(cs, id).None?;
    assert !Resolves(posts[i], cs);
    var r := GetAll(posts, getUserList);
    assert r.Err?;
    assert r.error.AuthorNotFound?;
  }

  /**
   * A post whose first matching record has no username, or an empty one,
   * fails the whole query even when a later record with that id has one.
   */
  lemma GetAllUnnamedAuthor(posts: seq<Post>, getUserList: seq<Id> -> seq<User>, i: nat, j: nat)
    requires |posts| <= PostLimit && i < |posts|
    requires FirstMatchAt(RawIds(getUserList(AuthorIds(posts))), posts[i].authorId, j)
    requires getUserList(AuthorIds(posts))[j].username in {None, Some("")}
    ensures GetAll(posts, getUserList) == Err(AuthorNotFound)
  {
    var raw := getUserList(AuthorIds(posts));
    var cs := FilterUsers(raw);
    FindFilteredFirst(raw, posts[i].authorId, j);
    assert FindUser(cs, posts[i].authorId) == Some(FilterUserForClient(raw[j]));
    assert !Resolves(posts[i], cs);
    var r := GetAll(posts, getUserList);
    assert r.Err?;
    assert r.error.AuthorNotFound?;
  }

  /** On success, each entry's author is the public view of the first record with the post's author id. */
  lemma GetAllAuthorIsFirstMatch(posts: seq<Post>, getUserList: seq<Id> -> seq<User>, i: nat, j: nat)
    requires |posts| <= PostLimit && i < |posts|
    requires GetAll(posts, getUserList).Ok?
    requires FirstMatchAt(RawIds(getUserList(AuthorIds(posts))), posts[i].authorId, j)
    ensures AuthorView(GetAll(posts, getUserList).value[i].author) == FilterUserForClient(getUserList(AuthorIds(posts))[j])
  {
    var raw := getUserList(AuthorIds(posts));
    var es := GetAll(posts, getUserList).value;
    FindFilteredFirst(raw, posts[i].authorId, j);
    assert AttachAuthor(posts[i], FilterUsers(raw)) == Ok(es[i]);
  }

  /**
   * Conversely, when the first record for every post's author id has a
   * username, the query succeeds. `firsts[i]` is the index of the first
   * record whose id is post i's author id.
   */
  lemma GetAllResolvedAuthors(posts: seq<Post>, getUserList: seq<Id> -> seq<User>, firsts: seq<nat>)
    requires |posts| <= PostLimit && |firsts| == |posts|
    requires forall i | 0 <= i < |posts| ::
      && FirstMatchAt(RawIds(getUserList(AuthorIds(posts))), posts[i].authorId, firsts[i])
      && HasUsername(FilterUserForClient(getUserList(AuthorIds(posts))[firsts[i]]))
    ensures GetAll(posts, getUserList).Ok?
  {
    var raw := getUserList(AuthorIds(posts));
    forall i | 0 <= i < |posts| ensures Resolves(posts[i], FilterUsers(raw)) {
      FindFilteredFirst(raw, posts[i].authorId, firsts[i]);
    }
  }
}
