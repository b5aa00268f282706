/** Whole runs of the client against a fresh server, in the order a user would click. */
module Scenarios {
  import opened Blogs
  import opened Ordering
  import opened Remote
  import opened App
  import opened BlogView
  import opened BlogForm

  /** A user signs in, creates a post, and sees the success message; the list holds one
      post, with the form's title, no likes, owned by that user. */
  method CreateScenario(u: User, title: string, author: string, url: string)
    returns (held: seq<Post>, message: Option<string>)
    ensures |held| == 1 && held[0].title == title && held[0].author == author && held[0].url == url
    ensures held[0].likes == 0 && held[0].user == Owner(u.username)
    ensures message == Some(AddedMessage)
  {
    var c := new Client(map[]);
    var store := new BlogStore([]);
    c.HandleLogin(_ => Some(u));
    c.HandleChange("title", title);
    c.HandleChange("author", author);
    c.HandleChange("url", url);
    var returned := AddBlog(c, store, Owner(u.username), Up);
    SortByLikesOfSorted([returned.value]);
    held, message := c.blogs, c.notification;
  }

  /** A post just created and then liked once shows one like, and the like is on the server. */
  method LikeScenario(u: User, title: string) returns (held: seq<Post>, stored: seq<Post>)
    ensures |held| == 1 && held[0].likes == 1 && held[0].title == title
    ensures stored == held
  {
    var c := new Client(map[]);
    var store := new BlogStore([]);
    c.HandleLogin(_ => Some(u));
    c.HandleChange("title", title);
    var returned := AddBlog(c, store, Owner(u.username), Up);
    var p := returned.value;
    assert store.posts == [p];
    SortByLikesOfSorted([p]);
    HandleLike(c, store, p, Up, Up, Up);
    assert store.posts == [Liked(p)] by {
      assert ReplaceById([p], p.id, Liked(p)) == [Liked(p)] + ReplaceById([], p.id, Liked(p));
    }
    SortByLikesOfSorted([Liked(p)]);
    held, stored := c.blogs, store.posts;
  }

  /** A post created and then deleted with the prompt confirmed leaves nothing on the list or
      on the server. */
  method DeleteScenario(u: User, title: string) returns (held: seq<Post>, stored: seq<Post>)
    ensures held == [] && stored == []
  {
    var c := new Client(map[]);
    var store := new BlogStore([]);
    c.HandleLogin(_ => Some(u));
    var returned := AddBlog(c, store, Owner(u.username), Up);
    var p := returned.value;
    assert RemoveId([p], p.id) == [] + RemoveId([], p.id);
    HandleDelete(c, store, p, true, Up, Up);
    held, stored := c.blogs, store.posts;
  }

  /** A delete that goes through but whose refetch fails leaves the list held ahead of the
      server: the deleted post is still on screen. A create after it still gets an id no held
      post has, and the new post is held exactly once, beside the stale one. */
  method StaleDeleteThenCreateScenario(owner: Owner, old0: Post) returns (held: seq<Post>, stored: seq<Post>, created: Post)
    ensures stored == [created] && created.id != old0.id
    ensures |held| == 2 && old0 in held && created in held
    ensures multiset(held)[created] == 1
  {
    var c := new Client(map[]);
    var store := new BlogStore([old0]);
    c.LoadInitialBlogs(store, Up);
    SortByLikesOfSorted([old0]);
    assert RemoveId([old0], old0.id) == [] + RemoveId([], old0.id);
    HandleDelete(c, store, old0, true, Up, Down("Network Error"));
    assert c.blogs == [old0] && store.posts == [];
    var returned := AddBlog(c, store, owner, Up);
    created := returned.value;
    SortByLikesMembers([old0] + [created]);
    held, stored := c.blogs, store.posts;
  }

  /** A post deleted with the list refetched, then a new post created: the server never hands
      out the deleted post's id again, although no post carrying it is left anywhere. */
  method DeleteThenCreateScenario(owner: Owner, old0: Post) returns (held: seq<Post>, created: Post)
    ensures held == [created] && created.id != old0.id
  {
    var c := new Client(map[]);
    var store := new BlogStore([old0]);
    c.LoadInitialBlogs(store, Up);
    assert RemoveId([old0], old0.id) == [] + RemoveId([], old0.id);
    HandleDelete(c, store, old0, true, Up, Up);
    var returned := AddBlog(c, store, owner, Up);
    created := returned.value;
    SortByLikesOfSorted([created]);
    held := c.blogs;
  }

  /** One user creates a post and signs out; another user signs in and is not offered the
      post's delete button, while its creator is. */
  method OnlyCreatorScenario(creator: User, other: User) returns (shownToOther: bool, shownToCreator: bool)
    requires creator.username != other.username
    ensures !shownToOther && shownToCreator
  {
    var c := new Client(map[]);
    var store := new BlogStore([]);
    c.HandleLogin(_ => Some(creator));
    var returned := AddBlog(c, store, Owner(creator.username), Up);
    shownToCreator := DeleteButtonShown(returned.value, c.user);
    c.HandleLogout();
    c.HandleLogin(_ => Some(other));
    shownToOther := DeleteButtonShown(returned.value, c.user);
  }

  /** Three posts in creation order, the first liked three times and the second four times,
      are listed with 4, 3 and 0 likes, in that order. */
  lemma OrderingScenario(a: Post, b: Post, c: Post)
    requires a.likes == 3 && b.likes == 4 && c.likes == 0
    ensures SortByLikes([a, b, c]) == [b, a, c]
  {
    var s := [a, b, c];
    assert s[..2] == [a, b] && [a, b][..1] == [a] && [a][..0] == [];
    assert SortByLikes([a]) == [a];
    assert SortByLikes([a, b]) == Insert([a], b) == [b, a];
    assert Insert([b, a], c) == [b] + Insert([a], c);
    assert Insert([a], c) == [a] + Insert([], c);
  }

  /** Two messages in a row: the first message's timer fires first and blanks the second
      message, which is then off the screen before its own three and a half seconds. */
  method StaleClearScenario(u: User) returns (shown: Option<string>, stillPending: seq<nat>)
    ensures shown == None && stillPending == [NotificationDuration]
  {
    var c := new Client(map[]);
    c.HandleLogin(_ => Some(u));
    c.HandleLogout();
    c.Expire(0);
    shown, stillPending := c.notification, c.pending;
  }

  /** A signed-in session survives a reload: a new client over the same storage restores the
      user and the token. */
  method ReloadScenario(u: User) returns (restored: Option<User>, token: Option<string>)
    ensures restored == Some(u) && token == Some(u.token)
  {
    var c := new Client(map[]);
    c.HandleLogin(_ => Some(u));
    var reloaded := new Client(c.storage);
    reloaded.RestoreSession();
    restored, token := reloaded.user, reloaded.token;
  }

  /** After a sign-out a reload shows the login form, whatever session was saved before. */
  method LogoutReloadScenario(saved: map<string, User>) returns (screen: Screen)
    ensures screen == LoginScreen
  {
    var c := new Client(saved);
    c.RestoreSession();
    c.HandleLogout();
    var again := new Client(c.storage);
    again.RestoreSession();
    screen := Gate(again.user);
  }
}
