/** Records the blog-list client exchanges with its two remote services, and the
    pure expressions the components evaluate over them. */
module Blogs {

  datatype Option<+T> = None | Some(value: T)

  /** Whether a call to a remote service comes back, or is rejected with an error message. */
  datatype Network = Up | Down(message: string)

  /** The account a post belongs to; the client only ever reads its username. */
  datatype Owner = Owner(username: string)

  /** A post as the blog service returns it. The identifier is opaque to the client. */
  datatype Post = Post(id: nat, title: string, author: string, url: string, likes: nat, user: Owner)

  /** The session record the login service returns and the browser storage keeps. */
  datatype User = User(username: string, token: string)

  /** The body of a login request: a form field that was never filled is `undefined`. */
  datatype Credentials = Credentials(username: Option<string>, password: Option<string>)

  /** The body of a create request. */
  datatype NewBlog = NewBlog(title: string, author: string, url: string)

  /** Property access on the form record: a missing key reads as `undefined`. */
  function Field(form: map<string, string>, name: string): (v: Option<string>)
    ensures v.Some? <==> name in form
    ensures v.Some? ==> v.value == form[name]
  {
    if name in form then Some(form[name]) else None
  }

  /** The credentials `handleLogin` sends: the form's username and password. */
  function LoginRequest(form: map<string, string>): (c: Credentials)
    ensures c.username.Some? <==> "username" in form
    ensures c.password.Some? <==> "password" in form
    ensures c.username.Some? ==> c.username.value == form["username"]
    ensures c.password.Some? ==> c.password.value == form["password"]
  {
    Credentials(Field(form, "username"), Field(form, "password"))
  }

  /** The form keys the blog form reads; the record always holds them. */
  predicate HasBlogFields(form: map<string, string>)
  {
    "title" in form && "author" in form && "url" in form
  }

  /** The create request: exactly the title, author and url the form holds, nothing else. */
  function BlogObject(form: map<string, string>): (b: NewBlog)
    requires HasBlogFields(form)
    ensures b.title == form["title"] && b.author == form["author"] && b.url == form["url"]
  {
    NewBlog(form["title"], form["author"], form["url"])
  }

  /** `{ ...blog, likes: blog.likes + 1 }`: one more like, every other field copied. */
  function Liked(p: Post): (r: Post)
    ensures r.likes == p.likes + 1
    ensures r.id == p.id && r.title == p.title && r.author == p.author
    ensures r.url == p.url && r.user == p.user
  {
    p.(likes := p.likes + 1)
  }

  /** `Array.prototype.find` on the post id: the first post carrying `id`, if any. */
  function FindById(s: seq<Post>, id: nat): (r: Option<Post>)
    ensures r.Some? ==> r.value.id == id
  {
    if s == [] then None
    else if s[0].id == id then Some(s[0])
    else FindById(s[1..], id)
  }

  /** `find` yields undefined exactly when no post has the id; otherwise it yields a post of
      the list with that id, and no post before it has the id. */
  lemma {:induction false} FindByIdSpec(s: seq<Post>, id: nat)
    ensures FindById(s, id).None? <==> forall i :: 0 <= i < |s| ==> s[i].id != id
    ensures FindById(s, id).Some? ==>
      exists i :: 0 <= i < |s| && s[i] == FindById(s, id).value && forall j :: 0 <= j < i ==> s[j].id != id
  {
    if s != [] && s[0].id != id {
      FindByIdSpec(s[1..], id);
      if FindById(s, id).Some? {
        var i :| 0 <= i < |s[1..]| && s[1..][i] == FindById(s, id).value
          && forall j :: 0 <= j < i ==> s[1..][j].id != id;
        assert s[i + 1] == FindById(s, id).value;
        forall j | 0 <= j < i + 1 ensures s[j].id != id {
          if j > 0 {
            assert s[j] == s[1..][j - 1];
          }
        }
      }
    } else if s != [] {
      assert s[0] == FindById(s, id).value;
    }
  }

  /** The ids of a list of posts. */
  function Ids(s: seq<Post>): set<nat>
  {
    set p | p in s :: p.id
  }

  /** No two posts share an id. */
  ghost predicate UniqueIds(s: seq<Post>)
  {
    forall i, j :: 0 <= i < j < |s| ==> s[i].id != s[j].id
  }

  /** The store's answer to an update of post `id`. */
  function ReplaceById(s: seq<Post>, id: nat, record: Post): (r: seq<Post>)
    ensures |r| == |s|
  {
    if s == [] then []
    else [if s[0].id == id then record.(id := id) else s[0]] + ReplaceById(s[1..], id, record)
  }

  /** Each post with that id becomes `record` (under the id of the url); every other post
      stays what it was, where it was. */
  lemma {:induction false} ReplaceByIdAt(s: seq<Post>, id: nat, record: Post)
    ensures forall i :: 0 <= i < |s| ==>
      ReplaceById(s, id, record)[i] == (if s[i].id == id then record.(id := id) else s[i])
  {
    if s != [] {
      ReplaceByIdAt(s[1..], id, record);
      forall i | 1 <= i < |s|
        ensures ReplaceById(s, id, record)[i] == (if s[i].id == id then record.(id := id) else s[i])
      {
        assert ReplaceById(s, id, record)[i] == ReplaceById(s[1..], id, record)[i - 1];
        assert s[i] == s[1..][i - 1];
      }
    }
  }

  /** The store's answer to a delete of post `id`: the other posts, in their order. */
  function RemoveId(s: seq<Post>, id: nat): (r: seq<Post>)
    ensures |r| <= |s|
  {
    if s == [] then []
    else (if s[0].id == id then [] else [s[0]]) + RemoveId(s[1..], id)
  }

  /** A delete keeps exactly the posts with another id. */
  lemma {:induction false} RemoveIdMembers(s: seq<Post>, id: nat)
    ensures forall p :: p in RemoveId(s, id) <==> p in s && p.id != id
  {
    if s != [] {
      RemoveIdMembers(s[1..], id);
      assert s == [s[0]] + s[1..];
    }
  }

  /** `blog.user.username === currentUser.username`: whether the delete button is offered. */
  function IsCreator(blog: Post, currentUser: User): bool
  {
    blog.user.username == currentUser.username
  }
}
