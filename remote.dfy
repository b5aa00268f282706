/** The blog service as the client sees it: a remote list of posts that the client can
    fetch, update, delete from and add to. Whether each call gets through is an input. */
module Remote {
  import opened Blogs

  class BlogStore {
    /** The posts the server holds, in the order it lists them. */
    var posts: seq<Post>
    /** The next identifier the server hands out. */
    var nextId: nat

    ghost predicate Valid()
      reads this
    {
      UniqueIds(posts) && forall p :: p in posts ==> p.id < nextId
    }

    constructor (initial: seq<Post>)
      requires UniqueIds(initial)
      ensures Valid() && posts == initial
    {
      posts := initial;
      var top: nat := 0;
      var i := 0;
      while i < |initial|
        invariant 0 <= i <= |initial|
        invariant forall j :: 0 <= j < i ==> initial[j].id < top
      {
        if initial[i].id >= top {
          top := initial[i].id + 1;
        }
        i := i + 1;
      }
      nextId := top;
    }

    /** `blogService.getAll()`: the whole list, or a rejected promise. */
    method GetAll(net: Network) returns (r: Option<seq<Post>>)
      ensures r == if net.Up? then Some(posts) else None
    {
      r := if net.Up? then Some(posts) else None;
    }

    /** `blogService.update(id, record)`: every post with that id becomes the record sent. */
    method Update(id: nat, record: Post, net: Network) returns (ok: bool)
      requires Valid()
      modifies this`posts
      ensures Valid()
      ensures ok == net.Up?
      ensures posts == if ok then ReplaceById(old(posts), id, record) else old(posts)
    {
      ok := net.Up?;
      if ok {
        ReplaceByIdAt(posts, id, record);
        posts := ReplaceById(posts, id, record);
        forall i, j | 0 <= i < j < |posts| ensures posts[i].id != posts[j].id {
          assert old(posts)[i].id != old(posts)[j].id;
        }
        forall p | p in posts ensures p.id < nextId {
          var i :| 0 <= i < |posts| && posts[i] == p;
          assert old(posts)[i] in old(posts);
        }
      }
    }

    /** `blogService.del(id)`: the server drops the post, or refuses (not the owner, gone). */
    method Delete(id: nat, net: Network) returns (ok: bool)
      requires Valid()
      modifies this`posts
      ensures Valid()
      ensures ok == net.Up?
      ensures posts == if ok then RemoveId(old(posts), id) else old(posts)
    {
      ok := net.Up?;
      if ok {
        RemoveIdUnique(posts, id);
        RemoveIdMembers(posts, id);
        posts := RemoveId(posts, id);
      }
    }

    /** `blogService.create(blog)`: the server stores a new post with a fresh id, no likes, owned by
        the account the bearer token names, and returns it; or rejects the request. */
    method Create(blog: NewBlog, owner: Owner, net: Network) returns (r: Option<Post>)
      requires Valid()
      modifies this`posts, this`nextId
      ensures Valid()
      ensures r.Some? <==> net.Up?
      ensures r.Some? ==> r.value.id == old(nextId) && r.value.id !in Ids(old(posts))
      ensures nextId == if r.Some? then old(nextId) + 1 else old(nextId)
      ensures r.Some? ==> r.value == Post(r.value.id, blog.title, blog.author, blog.url, 0, owner)
      ensures posts == if r.Some? then old(posts) + [r.value] else old(posts)
    {
      if net.Up? {
        var p := Post(nextId, blog.title, blog.author, blog.url, 0, owner);
        posts := posts + [p];
        nextId := nextId + 1;
        r := Some(p);
      } else {
        r := None;
      }
    }
  }

  lemma {:induction false} RemoveIdUnique(s: seq<Post>, id: nat)
    requires UniqueIds(s)
    ensures UniqueIds(RemoveId(s, id))
  {
    if s != [] {
      assert UniqueIds(s[1..]) by {
        forall i, j | 0 <= i < j < |s[1..]| ensures s[1..][i].id != s[1..][j].id {
          assert s[1..][i] == s[i + 1] && s[1..][j] == s[j + 1];
        }
      }
      RemoveIdUnique(s[1..], id);
      RemoveIdMembers(s[1..], id);
      var rest := RemoveId(s[1..], id);
      if s[0].id != id {
        forall j | 0 <= j < |rest| ensures s[0].id != rest[j].id {
          assert rest[j] in rest;
          var m :| 0 <= m < |s[1..]| && s[1..][m] == rest[j];
          assert s[m + 1] == rest[j];
        }
        forall i, j | 0 <= i < j < |[s[0]] + rest| ensures ([s[0]] + rest)[i].id != ([s[0]] + rest)[j].id {
          if i > 0 {
            assert ([s[0]] + rest)[i] == rest[i - 1];
          }
          assert ([s[0]] + rest)[j] == rest[j - 1];
        }
      } else {
        assert RemoveId(s, id) == rest;
      }
    }
  }
}
