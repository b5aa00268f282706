# Blog-list client: a Dafny model

This project models the client half of a small blog-list application. Users sign in, see the
posts ordered by likes, create posts, like posts, and delete the posts they created. Three
React components make up the core:

- `App` holds the post list, the signed-in user, the form record and the notification. It
  loads the posts, restores a saved session, and signs users in and out.
- `Blog` renders one post. Its handlers like or delete the post and then refetch the whole
  list from the server.
- `BlogForm` submits a new post. It appends the server's reply to the list it holds and does
  not refetch.

The model is imperative where the code changes state:

- `App.Client` is a class whose fields are the component's state. Beside them it holds two
  pieces of global state the handlers write: the browser's local storage and the bearer token
  last handed to the blog service.
- `Remote.BlogStore` is a class standing for the blog service. Its posts are held in the
  server's order, and it hands out fresh ids.
- Every call to the blog service takes a `Network` input, `Up` or `Down(message)`. It decides
  whether that call resolves or rejects, so each `try`/`catch` path is a branch of the model.
  The login call is different: `HandleLogin` takes the login service as a function from
  credentials to an optional session, and no session stands for a rejected login.
- `setTimeout(() => setNotification(null), 3500)` schedules a pending clear, recorded by its
  delay. `Expire` fires any one of them.

The sort with `(a, b) => b.likes - a.likes` is a library call in the source, so the model has
no loop for it. It is the function `Ordering.SortByLikes`, a stable descending insertion.
Lemmas prove that it is sorted, a permutation and stable. They also prove that it is the only
list with those three properties, which is what a stable `Array.prototype.sort` returns.

Invariants every handler keeps, as `Client.Valid()`:

- the list held is sorted by likes;
- the form record holds the three blog keys;
- the service token is exactly the signed-in user's token.

The server's invariant is `BlogStore.Valid()`: ids are unique, and every id is below the next
id to be handed out. The two are tied by `App.HeldIdsIssued`: every post the client holds has
an id the server has already handed out. That stays true even when the list held runs ahead
of the server, as after a delete whose refetch fails. So the next post the server creates
never shares an id with a post on screen.

Two behaviours of the code are worth knowing:

- **Stale timers.** Every message schedules its own plain clear, and whichever timer fires
  first blanks the notification, even a newer message. `Client.Expire` does the same, and
  `Scenarios.StaleClearScenario` shows it.
- **No refetch after create.** Unlike the `Blog` handlers, `addBlog` concatenates the returned
  post to the list it was given and sorts that (`BlogForm.AddBlog`).

## Model

| member | source | states |
|---|---|---|
| Blogs.LoginRequest | bloglist-frontend/src/App.jsx:53-56 | The login request carries exactly the form's username and password; a key missing from the form is sent as undefined. |
| Blogs.BlogObject | bloglist-frontend/src/components/BlogForm.jsx:19-23 | The create request is the form's title, author and url and nothing else. |
| Blogs.Liked | bloglist-frontend/src/components/Blog.jsx:20 | The record written back has one more like than the record it was copied from; every other field is kept. |
| Blogs.FindById | bloglist-frontend/src/components/Blog.jsx:19 | A post found carries the id searched for. |
| Blogs.FindByIdSpec | bloglist-frontend/src/components/Blog.jsx:19 | `find` yields undefined exactly when no post has the id; otherwise it yields a post of the list with that id, and no earlier post has it. |
| Blogs.ReplaceByIdAt | bloglist-frontend/src/components/Blog.jsx:21 | After an update, the post with the id is the record sent and every other post is unchanged, in its place. |
| Blogs.RemoveIdMembers | bloglist-frontend/src/components/Blog.jsx:37 | After a delete, the server holds exactly the posts with another id. |
| Ordering.ByLikes | bloglist-frontend/src/App.jsx:30 | The comparator is positive exactly when the first post has fewer likes, and zero exactly on a tie. |
| Ordering.SortByLikesMembers | bloglist-frontend/src/App.jsx:30 | Sorting neither adds nor loses a post. |
| Ordering.SortByLikesSorted | bloglist-frontend/src/App.jsx:30 | The sorted list is descending by likes. |
| Ordering.SortByLikesPermutes | bloglist-frontend/src/App.jsx:30 | The sorted list holds the same posts, each as many times. |
| Ordering.SortByLikesStable | bloglist-frontend/src/components/Blog.jsx:23 | Posts with equal likes keep the order the server listed them in. |
| Ordering.SortedStableUnique | bloglist-frontend/src/components/Blog.jsx:39-41 | Two lists descending by likes with the same equal-likes groups are equal. |
| Ordering.SortByLikesIsStableSort | bloglist-frontend/src/components/Blog.jsx:39-41 | The result is sorted, a permutation and stable, and a list is the result exactly when it is sorted and stable. |
| Ordering.SortByLikesOfSorted | bloglist-frontend/src/App.jsx:30 | Sorting a list already descending by likes changes nothing. |
| Ordering.SortByLikesIdempotent | bloglist-frontend/src/components/BlogForm.jsx:27 | Sorting twice gives the same list as sorting once. |
| Ordering.InsertSplit | bloglist-frontend/src/components/BlogForm.jsx:26-27 | Inserting one post puts it between two unchanged parts of the list. |
| Ordering.InsertIndexBounds | bloglist-frontend/src/components/BlogForm.jsx:26-27 | Every post before the insertion point has at least as many likes as the inserted post, and the post at the insertion point, if any, has fewer. |
| Ordering.InsertStable | bloglist-frontend/src/components/BlogForm.jsx:26-27 | Inserting into a sorted list appends the post to its own equal-likes group and leaves every group as it was. |
| Remote.BlogStore.constructor | bloglist-frontend/src/App.jsx:29 | The server starts with the given posts and unique ids, and a next id above all of them. |
| Remote.BlogStore.GetAll | bloglist-frontend/src/App.jsx:29 | A fetch yields the server's list exactly when the call gets through. |
| Remote.BlogStore.Update | bloglist-frontend/src/components/Blog.jsx:21 | An update that gets through replaces the post with the id and keeps ids unique; a rejected one changes nothing. |
| Remote.BlogStore.Delete | bloglist-frontend/src/components/Blog.jsx:37 | A delete that gets through drops the post with the id and keeps ids unique; a rejected one changes nothing. |
| Remote.BlogStore.Create | bloglist-frontend/src/components/BlogForm.jsx:25 | A create that gets through appends and returns a post with the request's fields, no likes and the caller as owner. Its id is the server's next id, which is then advanced; a rejected create changes nothing. |
| Remote.RemoveIdUnique | bloglist-frontend/src/components/Blog.jsx:37 | Deleting from a list with unique ids leaves unique ids. |
| App.Gate | bloglist-frontend/src/App.jsx:81-87 | The login form is shown exactly when nobody is signed in, and the blog list exactly when someone is. |
| App.RefreshKeepsIssued | bloglist-frontend/src/components/Blog.jsx:22-24 | A refetched list, once sorted, is descending by likes and holds only ids the server has issued. |
| App.DeleteButtonShown | bloglist-frontend/src/components/Blog.jsx:51-61 | A post's delete button is rendered exactly when a user is signed in and is the post's creator. |
| App.InitialForm | bloglist-frontend/src/App.jsx:13-19 | The form starts with the five keys, all empty. |
| App.Client.constructor | bloglist-frontend/src/App.jsx:11-20 | The first render holds no posts, no user, no token, no message and no pending timer. |
| App.Client.Show | bloglist-frontend/src/App.jsx:72-73 | Showing a message puts it on screen and schedules one more 3500 ms clear. |
| App.Client.Expire | bloglist-frontend/src/App.jsx:64 | A firing timer blanks whatever message is on screen and is no longer pending. |
| App.Client.LoadInitialBlogs | bloglist-frontend/src/App.jsx:27-34 | The list held becomes the server's list sorted by likes; a rejected fetch leaves it as it was. The held ids stay issued ones. |
| App.Client.RestoreSession | bloglist-frontend/src/App.jsx:36-43 | A saved session becomes the signed-in user and the service token; with none saved nothing changes. |
| App.Client.HandleChange | bloglist-frontend/src/App.jsx:45-48 | The named input takes the new value and every other key keeps its value. |
| App.Client.HandleLogin | bloglist-frontend/src/App.jsx:50-66 | On success the session is saved under `loggedBlogappUser`, the user and token are set, and the success message shows. On failure only the failure message shows. Either way one clear is scheduled and the invariant holds. |
| App.Client.HandleLogout | bloglist-frontend/src/App.jsx:68-74 | The saved session, the user and the token are all gone, the message shows, and one clear is scheduled. |
| BlogView.WriteLike | bloglist-frontend/src/components/Blog.jsx:18-21 | A like is written exactly when the fetch and the update get through and the post is still on the server; the server's copy gains one like. |
| BlogView.HandleLike | bloglist-frontend/src/components/Blog.jsx:16-31 | After a like that got through and a successful refetch, the list held is the server's list sorted; on any failure the list is kept and the failure message shows. One clear is scheduled either way. |
| BlogView.FindAfterReplace | bloglist-frontend/src/components/Blog.jsx:19-21 | After an update the post is found again as the record that was sent. |
| BlogView.ReplaceKeepsIds | bloglist-frontend/src/components/Blog.jsx:21 | An update changes no post's id. |
| BlogView.LikeEffect | bloglist-frontend/src/components/Blog.jsx:18-22 | A like raises the server-side count of that post by exactly one, keeps the ids, and leaves every other post in place. |
| BlogView.HandleDelete | bloglist-frontend/src/components/Blog.jsx:33-50 | Without confirmation nothing changes. With it, a delete that got through plus a refetch gives the server's other posts sorted; any failure keeps the list and shows the failure message. |
| BlogView.DeleteEffect | bloglist-frontend/src/components/Blog.jsx:37-42 | After a delete the list held is exactly the server's posts with another id; the deleted id is gone. |
| BlogForm.ClearedBlogForm | bloglist-frontend/src/components/BlogForm.jsx:40-44 | The form after a submit has only the three blog keys, all empty. |
| BlogForm.SubmitBlog | bloglist-frontend/src/components/BlogForm.jsx:18-38 | A create that got through adds the returned post to the list held and re-sorts it; the post's id is absent from both the server's old list and the list held, and the post is held exactly once. A failed create keeps the list and shows the error's message. |
| BlogForm.HoldCreated | bloglist-frontend/src/components/BlogForm.jsx:26-34 | The list held gains the new post, re-sorted, and holds it exactly once; the success message shows and one clear is scheduled. |
| BlogForm.AddBlog | bloglist-frontend/src/components/BlogForm.jsx:16-45 | The whole submit: a create that got through puts the returned post on the server and holds it exactly once in the re-sorted list. Its id is absent from the server's list and from the list held. A failed create keeps the list and shows the error's message. The form is emptied either way. |
| BlogForm.CreatePlacement | bloglist-frontend/src/components/BlogForm.jsx:26-27 | The created post lands after every post with at least as many likes and before every post with fewer; the rest of the list keeps its order. |
| BlogForm.CreateKeepsIssued | bloglist-frontend/src/components/BlogForm.jsx:25-27 | A create whose id is the server's next id, over a list of issued ids, yields a sorted list of issued ids that holds the new post exactly once. |
| BlogForm.CreatedHeldOnce | bloglist-frontend/src/components/BlogForm.jsx:25-27 | A post with a fresh id is held exactly once after a create. |
| Scenarios.CreateScenario | bloglist-endtoendtesting/tests/example.spec.js:94-103 | Signing in and creating a post lists that one post with the form's fields and no likes, and shows "Blog added successfully". |
| Scenarios.LikeScenario | bloglist-endtoendtesting/tests/example.spec.js:105-116 | A new post liked once shows one like, on the list and on the server. |
| Scenarios.DeleteScenario | bloglist-endtoendtesting/tests/example.spec.js:118-129 | A new post deleted with the prompt confirmed is gone from the list and from the server. |
| Scenarios.StaleDeleteThenCreateScenario | bloglist-frontend/src/components/BlogForm.jsx:25-29 | After a delete whose refetch fails, the deleted post is still held. A create then gets a different id, and the new post is held exactly once beside the stale one. |
| Scenarios.DeleteThenCreateScenario | bloglist-frontend/src/components/BlogForm.jsx:25-29 | After a post is deleted and the list refetched, a new post gets a different id and is the only post held. |
| Scenarios.OnlyCreatorScenario | bloglist-endtoendtesting/tests/example.spec.js:131-148 | Another user signed in is not offered the delete button; the creator is. |
| Scenarios.OrderingScenario | bloglist-endtoendtesting/tests/example.spec.js:150-199 | Posts with 3, 4 and 0 likes in creation order are listed with 4, 3 and 0 likes. |
| Scenarios.StaleClearScenario | bloglist-frontend/src/App.jsx:63-74 | A sign-in followed by a sign-out: the sign-in's timer fires first and blanks the sign-out message while the sign-out's own timer is still pending. |
| Scenarios.ReloadScenario | bloglist-frontend/src/App.jsx:36-66 | After a sign-in, a reloaded client restores the same user and token from storage. |
| Scenarios.LogoutReloadScenario | bloglist-frontend/src/App.jsx:36-74 | After a sign-out, a reloaded client shows the login form. |

## Left out

- Rendering: JSX layout, `Togglable` and `toggleVisibility`, `LoginForm`, the `Notification` component, the text of the confirm prompt with its `trim`, and `key={index}`. Only the decisions they render (which screen, whether the delete button shows, which message) are modelled.
- `console.log(blog.id)` in `handleDelete` has no effect on state.
- The login and blog services themselves are not part of this model. The login service is a function from credentials to an optional session. The blog service is `Remote.BlogStore`, whose update replaces by id, whose delete removes by id and whose create hands out fresh ids. Ownership checks on the server are folded into the `Network` input of each call.
- The blog service's handling of the token is not shown; `Client.token` is the raw value last passed to `setToken`.
- JSON encoding and decoding of the saved session: the storage maps the key to the decoded session record.
- Asynchrony: each handler runs to completion, its calls in source order. Two handlers interleaving, and the stale `blogs` prop a `BlogForm` closure may hold, are not modelled.
- Wall-clock time: timers are kept by delay and fire in whatever order `Expire` is called; the model does not order them by time.
- App.Client.LoadInitialBlogs: a rejected initial fetch is an unhandled rejection in the source; the model only records that the list stays as it was.
- BlogForm.AddBlog: the owner of a created post is an input standing for the account the token names; the model does not derive it from the token.
