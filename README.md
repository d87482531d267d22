# Blog list application: the root controller

This project models the root controller of a single-page blog list
application, the `App` component of `BlogListApplication-Frontend/src/App.jsx`.
The controller owns the list of blogs, the current user, a transient
message, and the username and password inputs. Its handlers log in and
out, create, like and remove blogs. Its view shows the login form when no
one is logged in, and otherwise the blog list sorted by likes, descending.

The model has three modules:

- `Blogs` (`blogs.dfy`): the records (`Blog`, `User`, `Owner`) and the three
  list transformations the handlers use. These are lookup by id (`find`),
  replacement by id (`map`) and deletion by id (`filter`). Each is a
  recursive function, with lemmas about it.
- `Sorting` (`sorting.dfy`): the display order `blogsSorted`. It is a stable
  insertion sort by likes, descending, because `Array.prototype.sort` is
  stable. A lemma shows it is the only list that is sorted by likes and keeps
  tied blogs in their input order.
- `Controller` (`controller.dfy`): the class `App`. Its fields are the
  component's state, plus three fields for what lives outside it: the
  browser's stored session (`session`), the token last handed to the blog
  service (`token`), and the open/closed state of the "New Blog" panel
  (`formVisible`). Each handler is a method whose `ensures` gives the whole
  new state. Each method also keeps `Valid()`: a logged-in user is the
  stored session, and its token is the blog service's token; and while no
  one is logged in the panel is closed. `Render` is
  the view as a function of the state. `Scenario` is a verified sequence of calls:
  blogs with 3 and 5 likes are shown as [5, 3]. Liking the first keeps that
  order. After logout the view is the login form, and a reload does not
  restore the session.

Service calls are parameters:

- `HandleLogin` takes the login service as a function from credentials to
  an optional user. `None` means the call rejected.
- `AddBlog` takes the create call as a function from the draft to an
  optional blog.
- `AddLike` takes `updateOk`, whether the update call resolved.
- `RemoveBlog` takes `confirmed`, the answer to `window.confirm`, and
  `removeOk`, whether the delete call resolved.

## Behaviour of the code worth knowing

- `blogs` stays in fetch and insertion order; only the rendered copy is
  sorted, on every render (line 108). `Render` shows `SortByLikes(blogs)`.
- A like or remove for an id no blog carries throws at lines 86-90 and
  97-100, so `AddLike` and `RemoveBlog` require `HasId`.
- A successful create calls `toggleVisibility()` (line 71), so `AddBlog`
  flips `formVisible`. The form can only be submitted while the panel is
  open, so the flip closes it.
- A failed login leaves `user` as it was (lines 46-51).
- `addBlog` reads `user.username` inside its `try` (lines 62-69). With no
  user this throws, and the `catch` shows the create error. `AddBlog`
  models this as the failure path.
- `addLike` raises `likes` on the looked-up object itself, before the
  update call (line 90). If that call rejects, `setBlogs` never runs, but the
  first matching entry in `blogs` already has one more like. `AddLike` with
  `updateOk == false` states that for an entry no other entry shares.
- Logout does not reset the blog service's token (lines 54-57), so `token`
  keeps its value.
- While no one is logged in, only the login form is rendered (lines
  110-121), so the panel is unmounted and its open state is lost.
  `HandleLogout` therefore closes the panel, which is the state it mounts in
  at the next login.

## Model

| member | source | states |
|---|---|---|
| `Blogs.FindIndex` | BlogListApplication-Frontend/src/App.jsx:86 | the result is the position of the first blog with the id; it is absent exactly when no blog carries the id |
| `Blogs.ReplaceById` | BlogListApplication-Frontend/src/App.jsx:93 | the length is unchanged; every entry with the id becomes the updated record, every other entry stays at its position |
| `Blogs.RemoveById` | BlogListApplication-Frontend/src/App.jsx:104 | no entry with the id remains; every other blog keeps its multiplicity; the list does not grow |
| `Blogs.FindAfterReplace` | BlogListApplication-Frontend/src/App.jsx:85-93 | after a like, looking the id up again finds the same position |
| `Blogs.ReplaceAbsent` | BlogListApplication-Frontend/src/App.jsx:93 | replacing an id no blog carries leaves the list unchanged |
| `Blogs.RemoveKeepsOrder` | BlogListApplication-Frontend/src/App.jsx:104 | the remaining entries are a subsequence of the old list, so their relative order is kept |
| `Blogs.RemoveAbsent` | BlogListApplication-Frontend/src/App.jsx:104 | removing an id no blog carries leaves the list unchanged |
| `Blogs.RemoveShortens` | BlogListApplication-Frontend/src/App.jsx:96-105 | removing an id some blog carries makes the list strictly shorter |
| `Sorting.Insert` | BlogListApplication-Frontend/src/App.jsx:108 | inserting adds exactly one entry, keeps a sorted list sorted, and puts the new entry ahead of every entry with equal likes |
| `Sorting.SortByLikes` | BlogListApplication-Frontend/src/App.jsx:108 | `blogsSorted` is a permutation of `blogs`; consecutive entries have non-increasing likes; entries with equal likes keep their order from `blogs` |
| `Sorting.SortedPairwise` | BlogListApplication-Frontend/src/App.jsx:108 | in a list sorted by likes, no later entry has more likes than an earlier one |
| `Sorting.SortedUnique` | BlogListApplication-Frontend/src/App.jsx:108 | two sorted lists that agree on the order of each like count's entries are equal |
| `Sorting.StableSortIsUnique` | BlogListApplication-Frontend/src/App.jsx:108 | any list sorted by likes that keeps ties in input order is `SortByLikes` of the input |
| `Sorting.SortSorted` | BlogListApplication-Frontend/src/App.jsx:108 | a list already sorted by likes is displayed unchanged |
| `Sorting.TwoByLikes` | BlogListApplication-Frontend/src/App.jsx:108 | of two blogs, the one with more likes is displayed first, in either input order |
| `Controller.App.constructor` | BlogListApplication-Frontend/src/App.jsx:13-18 | the initial state: no blogs, empty inputs, no user, no message, panel closed |
| `Controller.App.LoadBlogs` | BlogListApplication-Frontend/src/App.jsx:20-22 | the fetched list replaces `blogs`; nothing else changes |
| `Controller.App.RestoreSession` | BlogListApplication-Frontend/src/App.jsx:24-31 | a stored session becomes the user and its token the blog service's token; with none, nothing changes |
| `Controller.App.UsernameChange` | BlogListApplication-Frontend/src/App.jsx:117 | the username input takes the typed value; nothing else changes |
| `Controller.App.PasswordChange` | BlogListApplication-Frontend/src/App.jsx:118 | the password input takes the typed value; nothing else changes |
| `Controller.App.HandleLogin` | BlogListApplication-Frontend/src/App.jsx:33-52 | on success the returned user is the user, the stored session and the token source, and both inputs are ""; on failure only the message changes, to "Wrong Username or Password" |
| `Controller.App.HandleLogout` | BlogListApplication-Frontend/src/App.jsx:54-57 | user and stored session become absent and the panel is closed (it is unmounted while logged out); blogs, inputs, message and token are untouched |
| `Controller.App.AddBlog` | BlogListApplication-Frontend/src/App.jsx:59-83 | on success exactly one blog is appended, owned by {username, name, id} of the current user (`OwnerOf`); earlier entries stay; the panel toggles; the message `CreatedMessage` names title and author. On failure blogs are unchanged and the message is "Error could not create blog" |
| `Controller.App.AddLike` | BlogListApplication-Frontend/src/App.jsx:85-94 | the length is unchanged; every entry with the id becomes the first match with likes + 1 (`Liked`), others stay at their positions; if the update rejects, only the first match has its likes raised |
| `Controller.App.RemoveBlog` | BlogListApplication-Frontend/src/App.jsx:96-106 | returns the confirmation text `RemovePrompt` naming title and author; a confirmed, resolved delete leaves no entry with the id and keeps the others in order; otherwise blogs are unchanged |
| `Controller.App.TogglePanel` | BlogListApplication-Frontend/src/App.jsx:123-132 | the panel's button exists only in the logged-in view, so a user is required; the panel's open state flips; nothing else changes |
| `Controller.App.MessageExpired` | BlogListApplication-Frontend/src/App.jsx:48-50 | a message timer firing clears the message; nothing else changes |
| `Controller.App.Render` | BlogListApplication-Frontend/src/App.jsx:108-143 | with no user only the login view, with the message and inputs; otherwise the user's name and the blog list as a sorted, stable permutation of `blogs` |

## Left out

- React rendering, JSX and hooks. `useEffect` is modelled as two methods, `LoadBlogs` and `RestoreSession`. The two effects are not ordered, and either order is a valid call sequence.
- The presentational components `Blog`, `BlogForm`, `LoginForm`, `Notification` and `Togglable` are not part of this model. The panel is the boolean `formVisible`, and `TogglePanel` stands for its own button.
- HTTP calls of the blog and login services, including `setToken`. Their results are parameters, and the token is the field `token`.
- `window.localStorage` with `JSON.stringify`/`JSON.parse`. This is the field `session`, holding the user record itself. The round trip through JSON is taken as the identity on that record.
- The 5-second `setTimeout` on messages. `MessageExpired` is one timer firing, at any time. The race between overlapping timers is callers' sequencing of `MessageExpired`, not modelled as time.
- Interleaving of async handlers that captured an older `blogs` is concurrency, and is not modelled. Each handler runs to completion on the current state.
- Object aliasing: records are values. The in-place `likes += 1` (line 90) is stated in `AddLike` for the failed update, on the first matching entry only.
- AddLike: when several entries carry the same id, the `map` at line 93 puts one shared object at each of them, and a later rejected like raises all of them; the model raises only the first. Ids are assigned by the server, so they do not repeat in practice.
- AddLike: requires that some blog has the id, because the source throws on a lookup miss (lines 86-90).
- RemoveBlog: requires that some blog has the id, because the source throws on a lookup miss (lines 97-100).
- AddBlog: a blog carries only the six fields id, title, author, url, likes and user. Extra fields the server returns, kept by the spread at line 63, are not modelled.
- Likes are unbounded integers; JavaScript's floating-point numbers past 2^53 are not modelled.
- The failed update and delete calls are not propagated as rejections; the model states only that the state is as described.
