/** The `BlogForm` component's submit handler. Unlike the `Blog` handlers it does not
    refetch: it appends the post the server returns to the list the component was given. */
module BlogForm {
  import opened Blogs
  import opened Ordering
  import opened Remote
  import opened App

  const AddedMessage: string := "Blog added successfully"
  const AddFailedPrefix: string := "Failed to add blog: "

  /** The form record after a submit: only the three blog inputs, all empty. The username
      and password keys the record had are not carried over. */
  function ClearedBlogForm(): (f: map<string, string>)
    ensures HasBlogFields(f) && f.Keys == {"title", "author", "url"}
    ensures forall k :: k in f ==> f[k] == ""
  {
    map["title" := "", "author" := "", "url" := ""]
  }

  /** The `try`/`catch` block of `addBlog`: send the form's title, author and url; on success
      hold the old list plus the returned post, sorted by likes. Either way show a message and
      schedule its clear. `returned` is the server's reply, kept for the contract. */
  method SubmitBlog(c: Client, store: BlogStore, owner: Owner, create: Network) returns (returned: Option<Post>)
    requires c.Valid() && store.Valid() && HeldIdsIssued(c, store)
    modifies c`blogs, c`notification, c`pending, store`posts, store`nextId
    ensures c.Valid() && store.Valid() && HeldIdsIssued(c, store)
    ensures returned.Some? <==> create.Up?
    ensures returned.Some? ==> returned.value.id == old(store.nextId)
    ensures store.nextId == if returned.Some? then old(store.nextId) + 1 else old(store.nextId)
    ensures var request := BlogObject(c.form);
      returned.Some? ==>
        && returned.value == Post(returned.value.id, request.title, request.author, request.url, 0, owner)
        && returned.value.id !in Ids(old(store.posts))
    ensures store.posts == if returned.Some? then old(store.posts) + [returned.value] else old(store.posts)
    ensures c.blogs == if returned.Some? then SortByLikes(old(c.blogs) + [returned.value]) else old(c.blogs)
    ensures returned.Some? ==> returned.value.id !in Ids(old(c.blogs)) && multiset(c.blogs)[returned.value] == 1
    ensures c.notification == Some(if create.Up? then AddedMessage else AddFailedPrefix + create.message)
    ensures c.pending == old(c.pending) + [NotificationDuration]
  {
    var blogObject := BlogObject(c.form);
    returned := store.Create(blogObject, owner, create);
    if returned.Some? {
      HoldCreated(c, returned.value);
    } else {
      c.Show(AddFailedPrefix + create.message);
    }
  }

  /** The success path of `addBlog`: the list held plus the returned post, sorted by likes,
      and the success message. The new post's id is above every id held, as the server's
      next id is, so the new post is held exactly once. */
  method HoldCreated(c: Client, returned: Post)
    requires c.Valid()
    requires forall p :: p in c.blogs ==> p.id < returned.id
    modifies c`blogs, c`notification, c`pending
    ensures c.Valid()
    ensures c.blogs == SortByLikes(old(c.blogs) + [returned])
    ensures forall p :: p in c.blogs ==> p.id <= returned.id
    ensures returned.id !in Ids(old(c.blogs)) && multiset(c.blogs)[returned] == 1
    ensures c.notification == Some(AddedMessage)
    ensures c.pending == old(c.pending) + [NotificationDuration]
  {
    CreateKeepsIssued(c.blogs, returned, returned.id);
    c.blogs := SortByLikes(c.blogs + [returned]);
    c.Show(AddedMessage);
  }

  /** `addBlog`: the create of `SubmitBlog`, then the form emptied whatever its outcome. */
  method AddBlog(c: Client, store: BlogStore, owner: Owner, create: Network) returns (returned: Option<Post>)
    requires c.Valid() && store.Valid() && HeldIdsIssued(c, store)
    modifies c`blogs, c`notification, c`pending, c`form, store`posts, store`nextId
    ensures c.Valid() && store.Valid() && HeldIdsIssued(c, store)
    ensures returned.Some? <==> create.Up?
    ensures returned.Some? ==> returned.value.id == old(store.nextId)
    ensures store.nextId == if returned.Some? then old(store.nextId) + 1 else old(store.nextId)
    ensures var request := BlogObject(old(c.form));
      returned.Some? ==>
        && returned.value == Post(returned.value.id, request.title, request.author, request.url, 0, owner)
        && returned.value.id !in Ids(old(store.posts))
    ensures store.posts == if returned.Some? then old(store.posts) + [returned.value] else old(store.posts)
    ensures c.blogs == if returned.Some? then SortByLikes(old(c.blogs) + [returned.value]) else old(c.blogs)
    ensures returned.Some? ==> returned.value.id !in Ids(old(c.blogs)) && multiset(c.blogs)[returned.value] == 1
    ensures c.notification == Some(if create.Up? then AddedMessage else AddFailedPrefix + create.message)
    ensures c.pending == old(c.pending) + [NotificationDuration]
    ensures c.form == ClearedBlogForm()
  {
    returned := SubmitBlog(c, store, owner, create);
    c.form := ClearedBlogForm();
  }

  /** A create never reorders the list held: the returned post lands after every post with at
      least as many likes and before every post with fewer, and it is the one post added. */
  lemma CreatePlacement(held: seq<Post>, returned: Post)
    requires SortedDesc(held)
    ensures |SortByLikes(held + [returned])| == |held| + 1
    ensures multiset(SortByLikes(held + [returned])) == multiset(held) + multiset{returned}
    ensures exists i ::
              && 0 <= i <= |held|
              && SortByLikes(held + [returned]) == held[..i] + [returned] + held[i..]
              && (forall j :: 0 <= j < i ==> held[j].likes >= returned.likes)
              && (forall j :: i <= j < |held| ==> held[j].likes < returned.likes)
  {
    var s := held + [returned];
    assert s[..|s| - 1] == held;
    SortByLikesOfSorted(held);
    SortByLikesPermutes(s);
    InsertSplit(held, returned);
    InsertIndexBounds(held, returned);
    var i := InsertIndex(held, returned);
    assert SortByLikes(s) == held[..i] + [returned] + held[i..];
    forall j | i <= j < |held| ensures held[j].likes < returned.likes {
      assert held[i].likes >= held[j].likes;
    }
  }

  /** A create whose id is the server's next id, over a list of issued ids: the new list is
      sorted, made of issued ids, and holds the new post exactly once. */
  lemma CreateKeepsIssued(held: seq<Post>, returned: Post, next: nat)
    requires forall p :: p in held ==> p.id < next
    requires returned.id == next
    ensures SortedDesc(SortByLikes(held + [returned]))
    ensures forall p :: p in SortByLikes(held + [returned]) ==> p.id < next + 1
    ensures returned.id !in Ids(held)
    ensures multiset(SortByLikes(held + [returned]))[returned] == 1
  {
    SortByLikesSorted(held + [returned]);
    SortByLikesMembers(held + [returned]);
    CreatedHeldOnce(held, returned);
  }

  /** The post a successful create returns is held exactly once when the list held had no
      post with its id (the server hands out a fresh id). */
  lemma CreatedHeldOnce(held: seq<Post>, returned: Post)
    requires returned.id !in Ids(held)
    ensures multiset(SortByLikes(held + [returned]))[returned] == 1
  {
    assert returned !in held;
    assert multiset(held)[returned] == 0;
    SortByLikesPermutes(held + [returned]);
  }
}
