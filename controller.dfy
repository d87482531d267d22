/**
 * The root controller of the blog list application (the `App` component):
 * its state, its event handlers as state-changing methods, and the view it
 * renders as a function of that state.
 *
 * The service calls are parameters: `login` stands for the login service
 * (credentials to a user, or `None` when it rejects), `create` for the
 * blog service's create call, and the booleans `updateOk` and `removeOk`
 * for whether the update and delete calls resolved. The browser's session
 * store is the field `session`, the token last handed to the blog service
 * is `token`, and the answer to the confirmation dialog is `confirmed`.
 */
module Controller {
  import opened Blogs
  import opened Sorting

  const LOGIN_FAILED := "Wrong Username or Password"
  const CREATE_FAILED := "Error could not create blog"

  /** The fields the blog form submits. */
  datatype Draft = Draft(title: string, author: string, url: string)

  /** What the component renders. */
  datatype View =
    | LoginView(message: Option<string>, username: string, password: string)
    | BlogsView(name: string, message: Option<string>, formVisible: bool, list: seq<Blog>)

  /** The success notice after a blog was created. */
  function CreatedMessage(b: Blog): string {
    "A new blog " + b.title + " By " + b.author
  }

  /** The text of the confirmation dialog before a delete. */
  function RemovePrompt(b: Blog): string {
    "Remove Blog " + b.title + " By " + b.author
  }

  class App {
    var blogs: seq<Blog>
    var username: string
    var password: string
    var user: Option<User>
    var message: Option<string>
    /** Whether the "New Blog" panel is open. */
    var formVisible: bool
    /** The record stored under the key "loggedBlogListAppUser", if any. */
    var session: Option<User>
    /** The token the blog service attaches to its calls. */
    var token: Option<string>

    /**
     * A logged-in user is the one in the session store, and its token is the
     * one the blog service holds. While no one is logged in the panel is not
     * mounted, so it is closed.
     */
    ghost predicate Valid()
      reads this
    {
      && (user.Some? ==> session == user && token == Some(user.value.token))
      && (user.None? ==> !formVisible)
    }

    /** First render, before either effect has run; `stored` is what the session store holds. */
    constructor (stored: Option<User>)
      ensures Valid()
      ensures blogs == [] && username == "" && password == ""
      ensures user == None && message == None && !formVisible
      ensures session == stored && token == None
    {
      blogs := [];
      username := "";
      password := "";
      user := None;
      message := None;
      formVisible := false;
      session := stored;
      token := None;
    }

    /** The first effect: the fetched list replaces the empty one. */
    method LoadBlogs(fetched: seq<Blog>)
      requires Valid()
      modifies this
      ensures Valid()
      ensures blogs == fetched
      ensures username == old(username) && password == old(password) && user == old(user)
      ensures message == old(message) && formVisible == old(formVisible)
      ensures session == old(session) && token == old(token)
    {
      blogs := fetched;
    }

    /** The second effect: a stored session is restored as the current user. */
    method RestoreSession()
      requires Valid()
      modifies this
      ensures Valid()
      ensures old(session).Some? ==> user == old(session) && token == Some(old(session).value.token)
      ensures old(session).None? ==> user == old(user) && token == old(token)
      ensures blogs == old(blogs) && username == old(username) && password == old(password)
      ensures message == old(message) && formVisible == old(formVisible) && session == old(session)
    {
      if session.Some? {
        user := session;
        token := Some(session.value.token);
      }
    }

    method UsernameChange(value: string)
      requires Valid()
      modifies this
      ensures Valid()
      ensures username == value
      ensures blogs == old(blogs) && password == old(password) && user == old(user)
      ensures message == old(message) && formVisible == old(formVisible)
      ensures session == old(session) && token == old(token)
    {
      username := value;
    }

    method PasswordChange(value: string)
      requires Valid()
      modifies this
      ensures Valid()
      ensures password == value
      ensures blogs == old(blogs) && username == old(username) && user == old(user)
      ensures message == old(message) && formVisible == old(formVisible)
      ensures session == old(session) && token == old(token)
    {
      password := value;
    }

    /**
     * Sends the current credentials. On success the returned user is stored,
     * its token handed to the blog service, and both inputs cleared; on
     * failure only the message changes.
     */
    method HandleLogin(login: (string, string) -> Option<User>)
      requires Valid()
      modifies this
      ensures Valid()
      ensures var response := login(old(username), old(password));
        if response.Some? then
          && user == response && session == response
          && token == Some(response.value.token)
          && username == "" && password == ""
          && message == old(message)
        else
          && user == old(user) && session == old(session) && token == old(token)
          && username == old(username) && password == old(password)
          && message == Some(LOGIN_FAILED)
      ensures blogs == old(blogs) && formVisible == old(formVisible)
    {
      var response := login(username, password);
      match response
      case Some(u) =>
        session := Some(u);
        token := Some(u.token);
        user := Some(u);
        username := "";
        password := "";
      case None =>
        message := Some(LOGIN_FAILED);
    }

    /**
     * Forgets the user and the stored session; the blog service keeps its
     * token. The login view does not contain the panel, so the panel is
     * unmounted and comes back closed at the next login.
     */
    method HandleLogout()
      requires Valid()
      modifies this
      ensures Valid()
      ensures user == None && session == None && !formVisible
      ensures blogs == old(blogs) && username == old(username) && password == old(password)
      ensures message == old(message) && token == old(token)
    {
      session := None;
      user := None;
      formVisible := false;
    }

    /**
     * Creates a blog from the draft. On success the created blog, owned by
     * the current user, is appended, the panel toggled and the notice set.
     * A failed create, or a missing user (whose fields the handler reads
     * inside the same `try`), leaves the list alone and sets the error text.
     */
    method AddBlog(draft: Draft, create: Draft -> Option<Blog>)
      requires Valid()
      modifies this
      ensures Valid()
      ensures var created := create(draft);
        if created.Some? && old(user).Some? then
          && |blogs| == |old(blogs)| + 1
          && blogs[..|old(blogs)|] == old(blogs)
          && blogs[|old(blogs)|] == created.value.(user := OwnerOf(old(user).value))
          && blogs[|old(blogs)|].user == Owner(old(user).value.username, old(user).value.name, old(user).value.id)
          && formVisible == !old(formVisible)
          && message == Some(CreatedMessage(created.value))
        else
          && blogs == old(blogs) && formVisible == old(formVisible)
          && message == Some(CREATE_FAILED)
      ensures username == old(username) && password == old(password) && user == old(user)
      ensures session == old(session) && token == old(token)
    {
      var created := create(draft);
      if created.Some? && user.Some? {
        var withUser := created.value.(user := OwnerOf(user.value));
        blogs := blogs + [withUser];
        formVisible := !formVisible;
        message := Some(CreatedMessage(withUser));
      } else {
        message := Some(CREATE_FAILED);
      }
    }

    /**
     * Raises the likes of the first blog with the id by one. The raise
     * happens on that entry in the list itself before the update call; when
     * the call resolves every entry with the id becomes the raised record,
     * and when it rejects nothing else happens.
     */
    method AddLike(id: string, updateOk: bool)
      requires Valid()
      requires HasId(blogs, id)
      modifies this
      ensures Valid()
      ensures |blogs| == |old(blogs)|
      ensures var k := FindIndex(old(blogs), id).value;
        var updated := Liked(old(blogs)[k]);
        && updated.likes == old(blogs)[k].likes + 1
        && (updateOk ==>
              forall i :: 0 <= i < |blogs| ==>
                blogs[i] == if old(blogs)[i].id == id then updated else old(blogs)[i])
        && (!updateOk ==> blogs == old(blogs)[k := updated])
      ensures username == old(username) && password == old(password) && user == old(user)
      ensures message == old(message) && formVisible == old(formVisible)
      ensures session == old(session) && token == old(token)
    {
      var k := FindIndex(blogs, id).value;
      var updated := Liked(blogs[k]);
      if updateOk {
        blogs := ReplaceById(blogs, id, updated);
      } else {
        blogs := blogs[k := updated];
      }
    }

    /**
     * Asks to remove the first blog with the id and returns the question.
     * Only a confirmed removal whose delete call resolves drops the entries
     * with that id.
     */
    method RemoveBlog(id: string, confirmed: bool, removeOk: bool) returns (prompt: string)
      requires Valid()
      requires HasId(blogs, id)
      modifies this
      ensures Valid()
      ensures prompt == RemovePrompt(old(blogs)[FindIndex(old(blogs), id).value])
      ensures confirmed && removeOk ==>
        && !HasId(blogs, id)
        && |blogs| < |old(blogs)|
        && IsSubsequence(blogs, old(blogs))
        && forall b :: multiset(blogs)[b] == if b.id == id then 0 else multiset(old(blogs))[b]
      ensures !(confirmed && removeOk) ==> blogs == old(blogs)
      ensures username == old(username) && password == old(password) && user == old(user)
      ensures message == old(message) && formVisible == old(formVisible)
      ensures session == old(session) && token == old(token)
    {
      var k := FindIndex(blogs, id).value;
      prompt := RemovePrompt(blogs[k]);
      if confirmed && removeOk {
        RemoveKeepsOrder(blogs, id);
        RemoveShortens(blogs, id);
        blogs := RemoveById(blogs, id);
      }
    }

    /** The panel's own "New Blog" / "cancel" button, shown only to a logged-in user. */
    method TogglePanel()
      requires Valid()
      requires user.Some?
      modifies this
      ensures Valid()
      ensures formVisible == !old(formVisible)
      ensures blogs == old(blogs) && username == old(username) && password == old(password)
      ensures user == old(user) && message == old(message)
      ensures session == old(session) && token == old(token)
    {
      formVisible := !formVisible;
    }

    /** A message timer fires; it clears whatever message is showing. */
    method MessageExpired()
      requires Valid()
      modifies this
      ensures Valid()
      ensures message == None
      ensures blogs == old(blogs) && username == old(username) && password == old(password)
      ensures user == old(user) && formVisible == old(formVisible)
      ensures session == old(session) && token == old(token)
    {
      message := None;
    }

    /**
     * The rendered view: only the login form while no one is logged in,
     * otherwise the blog list in display order.
     */
    function Render(): (v: View)
      reads this
      ensures v.LoginView? <==> user.None?
      ensures v.LoginView? ==> v.message == message && v.username == username && v.password == password
      ensures v.BlogsView? ==>
        && v.name == user.value.name && v.message == message && v.formVisible == formVisible
        && multiset(v.list) == multiset(blogs) && SortedByLikes(v.list)
        && forall k :: WithLikes(v.list, k) == WithLikes(blogs, k)
    {
      match user
      case None => LoginView(message, username, password)
      case Some(u) => BlogsView(u.name, message, formVisible, SortByLikes(blogs))
    }
  }

  /** Two blogs with 3 and 5 likes are shown 5 first; liking the first keeps that order. */
  method Scenario(owner: Owner, u: User)
  {
    var b1 := Blog("1", "First", "Ann", "a.example", 3, owner);
    var b2 := Blog("2", "Second", "Bob", "b.example", 5, owner);
    var app := new App(Some(u));
    app.LoadBlogs([b1, b2]);
    app.RestoreSession();
    assert app.user == Some(u);
    TwoByLikes(b1, b2);
    assert app.Render().list == [b2, b1];
    app.AddLike("1", true);
    assert app.blogs == [Liked(b1), b2];
    assert app.blogs[0].likes == 4;
    TwoByLikes(Liked(b1), b2);
    assert app.Render().list == [b2, Liked(b1)];
    app.HandleLogout();
    assert app.Render().LoginView?;
    var reloaded := new App(app.session);
    reloaded.RestoreSession();
    assert reloaded.user == None;
  }
}
