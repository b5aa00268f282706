/** The state the `App` component holds (the post list, the signed-in user, the form
    record and the notification) together with the two pieces of global state its
    handlers write: the browser's storage and the bearer token of the blog service. */
module App {
  import opened Blogs
  import opened Ordering
  import opened Remote

  /** The storage key the session is saved under. */
  const StorageKey: string := "loggedBlogappUser"
  /** How long after a message is set its clear-to-null timer is scheduled to fire. */
  const NotificationDuration: nat := 3500

  const LoggedInMessage: string := "Logged in successfully."
  const WrongCredentialsMessage: string := "Wrong credentials."
  const LoggedOutMessage: string := "Logged out successfully."

  /** What the component renders under its heading. */
  datatype Screen = LoginScreen | BlogScreen

  /** `!user ? <LoginForm/> : <list>`: the login form exactly when nobody is signed in. */
  function Gate(user: Option<User>): (v: Screen)
    ensures v == LoginScreen <==> user.None?
    ensures v == BlogScreen <==> user.Some?
  {
    if user.None? then LoginScreen else BlogScreen
  }

  /** A post's delete button: posts are only listed on the blog screen, and there the
      button is rendered for the post's creator only. */
  function DeleteButtonShown(blog: Post, user: Option<User>): (shown: bool)
    ensures shown <==> user.Some? && blog.user.username == user.value.username
  {
    match Gate(user)
    case LoginScreen => false
    case BlogScreen => IsCreator(blog, user.value)
  }

  /** The form record the component starts with. */
  function InitialForm(): (f: map<string, string>)
    ensures HasBlogFields(f)
    ensures f.Keys == {"username", "password", "title", "author", "url"}
    ensures forall k :: k in f ==> f[k] == ""
  {
    map["username" := "", "password" := "", "title" := "", "author" := "", "url" := ""]
  }

  /** The bearer token the blog service holds is always the signed-in user's token. */
  ghost predicate TokenFollowsUser(user: Option<User>, token: Option<string>)
  {
    token == if user.Some? then Some(user.value.token) else None
  }

  /** Every post the client holds carries an id the server has already handed out, so a
      post the server creates next can never share an id with one still on screen. */
  ghost predicate HeldIdsIssued(c: Client, store: BlogStore)
    reads c`blogs, store`nextId
  {
    forall p :: p in c.blogs ==> p.id < store.nextId
  }

  /** A list refetched from a server whose ids are all issued is, once sorted, sorted and
      made of issued ids. */
  lemma RefreshKeepsIssued(s: seq<Post>, next: nat)
    requires forall p :: p in s ==> p.id < next
    ensures SortedDesc(SortByLikes(s))
    ensures forall p :: p in SortByLikes(s) ==> p.id < next
  {
    SortByLikesSorted(s);
    SortByLikesMembers(s);
  }

  class Client {
    /** The post list, as last handed to `setBlogs`. */
    var blogs: seq<Post>
    /** The signed-in user, or null. */
    var user: Option<User>
    /** The value last handed to `blogService.setToken`. */
    var token: Option<string>
    /** The browser's local storage, already decoded: key to saved session. */
    var storage: map<string, User>
    /** The message on screen, or null. */
    var notification: Option<string>
    /** Clear-to-null timers scheduled and not yet fired, by their delay. */
    var pending: seq<nat>
    /** The controlled inputs of both forms. */
    var form: map<string, string>

    ghost predicate Valid()
      reads this`blogs, this`form, this`user, this`token
    {
      SortedDesc(blogs) && HasBlogFields(form) && TokenFollowsUser(user, token)
    }

    /** The first render: nothing loaded, nobody signed in, whatever the browser had saved. */
    constructor (saved: map<string, User>)
      ensures Valid()
      ensures blogs == [] && user == None && token == None && storage == saved
      ensures notification == None && pending == [] && form == InitialForm()
    {
      blogs := [];
      user := None;
      token := None;
      storage := saved;
      notification := None;
      pending := [];
      form := InitialForm();
    }

    /** `setNotification(message)` followed by `setTimeout(() => setNotification(null), 3500)`. */
    method Show(message: string)
      modifies this`notification, this`pending
      ensures notification == Some(message)
      ensures pending == old(pending) + [NotificationDuration]
    {
      notification := Some(message);
      pending := pending + [NotificationDuration];
    }

    /** One scheduled timer fires. It blanks whatever message is showing: the timer does not
        remember which message it was scheduled for. */
    method Expire(i: nat)
      requires i < |pending|
      modifies this`notification, this`pending
      ensures notification == None
      ensures pending == old(pending)[..i] + old(pending)[i + 1..]
    {
      notification := None;
      pending := pending[..i] + pending[i + 1..];
    }

    /** `loadInitialBlogs`: fetch every post and hold them sorted by likes. A rejected fetch is
        not caught, so the list stays as it was. */
    method LoadInitialBlogs(store: BlogStore, net: Network)
      requires Valid() && store.Valid() && HeldIdsIssued(this, store)
      modifies this`blogs
      ensures Valid() && HeldIdsIssued(this, store)
      ensures blogs == if net.Up? then SortByLikes(store.posts) else old(blogs)
    {
      var initialBlogs := store.GetAll(net);
      if initialBlogs.Some? {
        RefreshKeepsIssued(initialBlogs.value, store.nextId);
        blogs := SortByLikes(initialBlogs.value);
      }
    }

    /** `restoreSession`: a saved session becomes the signed-in user and the service token. */
    method RestoreSession()
      requires Valid()
      modifies this`user, this`token
      ensures Valid()
      ensures StorageKey in storage ==> user == Some(storage[StorageKey]) && token == Some(storage[StorageKey].token)
      ensures StorageKey !in storage ==> user == old(user) && token == old(token)
    {
      if StorageKey in storage {
        var saved := storage[StorageKey];
        user := Some(saved);
        token := Some(saved.token);
      }
    }

    /** `handleChange`: the input named `name` now holds `value`; every other key is as it was. */
    method HandleChange(name: string, value: string)
      requires Valid()
      modifies this`form
      ensures Valid()
      ensures form == old(form)[name := value]
      ensures forall k :: k != name ==> (k in form <==> k in old(form))
      ensures forall k :: k != name && k in form ==> form[k] == old(form)[k]
    {
      form := form[name := value];
    }

    /** `handleLogin`: ask the login service with the form's credentials. On success save the
        session, sign in and set the token; either way show a message and schedule its clear. */
    method HandleLogin(login: Credentials -> Option<User>)
      requires Valid()
      modifies this`storage, this`user, this`token, this`notification, this`pending
      ensures Valid()
      ensures var reply := login(LoginRequest(form));
        if reply.Some? then
          && storage == old(storage)[StorageKey := reply.value]
          && user == reply
          && token == Some(reply.value.token)
          && notification == Some(LoggedInMessage)
        else
          && storage == old(storage)
          && user == old(user)
          && token == old(token)
          && notification == Some(WrongCredentialsMessage)
      ensures pending == old(pending) + [NotificationDuration]
    {
      var reply := login(LoginRequest(form));
      if reply.Some? {
        storage := storage[StorageKey := reply.value];
        user := reply;
        token := Some(reply.value.token);
        Show(LoggedInMessage);
      } else {
        Show(WrongCredentialsMessage);
      }
    }

    /** `handleLogout`: forget the saved session, sign out, drop the token, say so. */
    method HandleLogout()
      requires Valid()
      modifies this`storage, this`user, this`token, this`notification, this`pending
      ensures Valid()
      ensures storage == old(storage) - {StorageKey}
      ensures user == None && token == None
      ensures notification == Some(LoggedOutMessage)
      ensures pending == old(pending) + [NotificationDuration]
    {
      storage := storage - {StorageKey};
      user := None;
      token := None;
      Show(LoggedOutMessage);
    }
  }
}
