/** The `Blog` component's two handlers. Each runs its remote calls in order and stops at
    the first one that fails; whether each call gets through is an input. */
module BlogView {
  import opened Blogs
  import opened Ordering
  import opened Remote
  import opened App

  const LikedMessage: string := "Blog liked successfully."
  const LikeFailedMessage: string := "Failed to like blog"
  const DeletedMessage: string := "Blog deleted successfully."
  const DeleteFailedMessage: string := "Failed to delete blog"

  /** The first half of `handleLike`: re-read the server's list, find the post by id, and
      write it back with one more like. A post that is no longer on the server makes
      `blogToUpdate.likes` throw before anything is written. */
  method WriteLike(store: BlogStore, id: nat, fetch: Network, update: Network) returns (written: bool)
    requires store.Valid()
    modifies store`posts
    ensures store.Valid()
    ensures written <==> fetch.Up? && FindById(old(store.posts), id).Some? && update.Up?
    ensures store.posts == if written then ReplaceById(old(store.posts), id, Liked(FindById(old(store.posts), id).value)) else old(store.posts)
  {
    written := false;
    var blogs := store.GetAll(fetch);
    if blogs.Some? {
      var blogToUpdate := FindById(blogs.value, id);
      if blogToUpdate.Some? {
        var updatedBlog := Liked(blogToUpdate.value);
        written := store.Update(blogToUpdate.value.id, updatedBlog, update);
      }
    }
  }

  /** `handleLike`: write one more like on the server's copy of the post, refetch and hold
      the list sorted. The local `blog.likes` plays no part: the count written is the
      server's. Any failing step leaves the list held as it was. */
  method HandleLike(c: Client, store: BlogStore, blog: Post, fetch: Network, update: Network, refetch: Network)
    requires c.Valid() && store.Valid() && HeldIdsIssued(c, store)
    modifies c`blogs, c`notification, c`pending, store`posts
    ensures c.Valid() && store.Valid() && HeldIdsIssued(c, store)
    ensures var target := FindById(old(store.posts), blog.id);
      var written := fetch.Up? && target.Some? && update.Up?;
      && store.posts == (if written then ReplaceById(old(store.posts), blog.id, Liked(target.value)) else old(store.posts))
      && c.blogs == (if written && refetch.Up? then SortByLikes(store.posts) else old(c.blogs))
      && c.notification == Some(if written && refetch.Up? then LikedMessage else LikeFailedMessage)
    ensures c.pending == old(c.pending) + [NotificationDuration]
  {
    var written := WriteLike(store, blog.id, fetch, update);
    ghost var after := store.posts;
    var updatedBlogs: Option<seq<Post>> := None;
    if written {
      updatedBlogs := store.GetAll(refetch);
    }
    assert updatedBlogs.Some? <==> written && refetch.Up?;
    if updatedBlogs.Some? {
      RefreshKeepsIssued(updatedBlogs.value, store.nextId);
      c.blogs := SortByLikes(updatedBlogs.value);
      c.Show(LikedMessage);
    } else {
      c.Show(LikeFailedMessage);
    }
    assert store.posts == after;
  }

  lemma {:induction false} FindAfterReplace(s: seq<Post>, id: nat, record: Post)
    requires FindById(s, id).Some? && record.id == id
    ensures FindById(ReplaceById(s, id, record), id) == Some(record)
  {
    var s' := ReplaceById(s, id, record);
    if s[0].id != id {
      FindAfterReplace(s[1..], id, record);
      assert s'[1..] == ReplaceById(s[1..], id, record);
    }
  }

  lemma ReplaceKeepsIds(s: seq<Post>, id: nat, record: Post)
    ensures Ids(ReplaceById(s, id, record)) == Ids(s)
  {
    var s' := ReplaceById(s, id, record);
    ReplaceByIdAt(s, id, record);
    forall x | x in Ids(s') ensures x in Ids(s) {
      var q :| q in s' && q.id == x;
      var i :| 0 <= i < |s'| && s'[i] == q;
      assert s[i] in s;
    }
    forall x | x in Ids(s) ensures x in Ids(s') {
      var q :| q in s && q.id == x;
      var i :| 0 <= i < |s| && s[i] == q;
      assert s'[i] in s';
    }
  }

  /** What a successful like does to the server's list: the post with the id gains exactly one
      like over the value the server held, every field but `likes` is kept, and every other
      post is left as it was, in its place. */
  lemma LikeEffect(s: seq<Post>, id: nat)
    requires FindById(s, id).Some?
    ensures var p := FindById(s, id).value;
      var s' := ReplaceById(s, id, Liked(p));
      && |s'| == |s|
      && FindById(s', id) == Some(Liked(p))
      && FindById(s', id).value.likes == p.likes + 1
      && Ids(s') == Ids(s)
      && forall i :: 0 <= i < |s| && s[i].id != id ==> s'[i] == s[i]
  {
    var p := FindById(s, id).value;
    FindAfterReplace(s, id, Liked(p));
    ReplaceByIdAt(s, id, Liked(p));
    ReplaceKeepsIds(s, id, Liked(p));
  }

  /** `handleDelete`: nothing at all unless the user confirms; then delete on the server,
      refetch and hold the list sorted. A refused delete or a failed refetch keeps the list. */
  method HandleDelete(c: Client, store: BlogStore, blog: Post, confirmed: bool, del: Network, refetch: Network)
    requires c.Valid() && store.Valid() && HeldIdsIssued(c, store)
    modifies c`blogs, c`notification, c`pending, store`posts
    ensures c.Valid() && store.Valid() && HeldIdsIssued(c, store)
    ensures !confirmed ==>
      && store.posts == old(store.posts) && c.blogs == old(c.blogs)
      && c.notification == old(c.notification) && c.pending == old(c.pending)
    ensures confirmed ==>
      && store.posts == (if del.Up? then RemoveId(old(store.posts), blog.id) else old(store.posts))
      && c.blogs == (if del.Up? && refetch.Up? then SortByLikes(store.posts) else old(c.blogs))
      && c.notification == Some(if del.Up? && refetch.Up? then DeletedMessage else DeleteFailedMessage)
      && c.pending == old(c.pending) + [NotificationDuration]
  {
    if confirmed {
      var ok := store.Delete(blog.id, del);
      var updatedBlogs: Option<seq<Post>> := None;
      if ok {
        updatedBlogs := store.GetAll(refetch);
      }
      if updatedBlogs.Some? {
        RefreshKeepsIssued(updatedBlogs.value, store.nextId);
        c.blogs := SortByLikes(updatedBlogs.value);
        c.Show(DeletedMessage);
      } else {
        c.Show(DeleteFailedMessage);
      }
    }
  }

  /** After a successful delete the list held is exactly the server's other posts: the deleted
      id is gone and nothing else is lost or added. */
  lemma DeleteEffect(s: seq<Post>, id: nat)
    ensures forall p :: p in SortByLikes(RemoveId(s, id)) <==> p in s && p.id != id
    ensures id !in Ids(SortByLikes(RemoveId(s, id)))
  {
    var r := RemoveId(s, id);
    RemoveIdMembers(s, id);
    SortByLikesPermutes(r);
    forall p ensures p in SortByLikes(r) <==> p in r {
      assert p in SortByLikes(r) <==> p in multiset(SortByLikes(r));
    }
  }
}
