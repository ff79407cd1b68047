/** The request handlers of the blog and the authorization and ownership rules
    they enforce, over an in-memory copy of the database. */
module Blog {
  import opened Tables
  import opened Forms

  /** Who sends the request: nobody logged in, or the user with this id. */
  datatype Identity = Anonymous | Authenticated(id: int)

  datatype LoginError = NoAccount | WrongPassword

  /** The templates the handlers render or redirect to, with what they are given. */
  datatype Page =
    | AllPostsPage
    | LoginPage
    | RegisterPage
    | PostPage(postId: int)
    | MakePostPage
    | EditPostPage(prefilled: Post)
    | AdminPage(choices: seq<Choice>)
    | AdminsPage(listed: seq<User>)

  datatype Response =
    | Redirect(to: Page)
    | Render(page: Page)
    | LoginFailed(error: LoginError)  // the login page shown again with an error message
    | Forbidden                       // abort(403)
    | NotFound                        // abort(404)
    | ServerError                     // the commit broke a UNIQUE constraint

  /** The query "the first user whose email is `email`" over the rows `us`. */
  function FirstWithEmail(us: seq<User>, email: string): (r: Option<User>)
    ensures r.Some? ==> r.value in us && r.value.email == email
    ensures r.None? <==> forall u :: u in us ==> u.email != email
  {
    if us == [] then None
    else if us[0].email == email then Some(us[0])
    else
      assert forall u :: u in us ==> u == us[0] || u in us[1..];
      FirstWithEmail(us[1..], email)
  }

  /** The query finds the one user holding an email when emails are unique. */
  lemma FirstWithEmailFindsOwner(us: seq<User>, u: User)
    requires u in us
    requires forall i, j :: 0 <= i < j < |us| ==> us[i].email != us[j].email
    ensures FirstWithEmail(us, u.email) == Some(u)
  {
  }

  /** The database: the users, blog_posts and comments tables keyed by id, and
      the next id each table hands out. */
  class Site {
    var users: map<int, User>
    var posts: map<int, Post>
    var comments: map<int, Comment>
    var nextUserId: int
    var nextPostId: int
    var nextCommentId: int

    /** Keys are the rows' ids, below the next id; users are never deleted, so
        their ids are exactly 1 .. nextUserId - 1; foreign keys to users hold;
        the UNIQUE columns are unique. */
    ghost predicate Valid()
      reads this
    {
      && nextUserId >= 1 && nextPostId >= 1 && nextCommentId >= 1
      && (forall id :: id in users <==> 1 <= id < nextUserId)
      && (forall id :: id in users ==> users[id].id == id)
      && (forall id :: id in posts ==> posts[id].id == id && 1 <= id < nextPostId && posts[id].authorId in users)
      && (forall id :: id in comments ==> comments[id].id == id && 1 <= id < nextCommentId && comments[id].authorId in users)
      && EmailsUnique(users)
      && TitlesUnique(posts)
      && TextsUnique(comments)
    }

    /** The session holds nobody or a user that exists. */
    ghost predicate Known(who: Identity)
      reads this
    {
      who.Authenticated? ==> who.id in users
    }

    ghost predicate EmailTaken(email: string)
      reads this
    {
      exists id :: id in users && users[id].email == email
    }

    /** The user registered with `email`. */
    ghost function Owner(email: string): User
      reads this
      requires EmailTaken(email)
    {
      var id :| id in users && users[id].email == email; users[id]
    }

    predicate TitleTaken(title: string)
      reads this
    {
      exists id | id in posts :: posts[id].title == title
    }

    predicate TitleTakenByOther(title: string, postId: int)
      reads this
    {
      exists id | id in posts && id != postId :: posts[id].title == title
    }

    predicate TextTaken(text: string)
      reads this
    {
      exists id | id in comments :: comments[id].text == text
    }

    /** The empty database. */
    constructor ()
      ensures Valid()
      ensures users == map[] && posts == map[] && comments == map[]
      ensures nextUserId == 1 && nextPostId == 1 && nextCommentId == 1
    {
      users, posts, comments := map[], map[], map[];
      nextUserId, nextPostId, nextCommentId := 1, 1, 1;
    }

    /** All rows of `users`, in id order. */
    function UserList(): (r: seq<User>)
      reads this
      requires Valid()
      ensures |r| == nextUserId - 1
      ensures forall i :: 0 <= i < |r| ==> r[i] == users[i + 1]
      ensures forall u :: u in r <==> u.id in users && users[u.id] == u
      ensures forall i, j :: 0 <= i < j < |r| ==> r[i].email != r[j].email
    {
      var us, n := users, nextUserId - 1;
      var r := seq(n, i requires 0 <= i < n => us[i + 1]);
      assert forall u: User :: u.id in users && users[u.id] == u ==> r[u.id - 1] == u;
      r
    }

    /** The admin form offers every user of the database except user id 1. */
    lemma AdminChoicesOfferOthers(id: int)
      requires Valid() && id in users && id != 1
      ensures ChoiceOf(users[id]) in AdminChoices(UserList())
    {
      var us := UserList();
      assert us[id - 1] == users[id];
      AdminChoicesAt(us, id - 1);
    }

    /** Every choice of the admin form is a user of the database other than id 1. */
    lemma AdminChoicesAreOthers(c: Choice)
      requires Valid() && c in AdminChoices(UserList())
      ensures c.value in users && c.value != 1 && c == ChoiceOf(users[c.value])
    {
    }

    /** The admin form offers one choice per user, less user id 1 once it exists. */
    lemma AdminChoicesCountOfSite()
      requires Valid()
      ensures |AdminChoices(UserList())| == if nextUserId > 1 then nextUserId - 2 else 0
    {
      var us := UserList();
      assert IdsDistinct(us) by {
        forall i, j | 0 <= i < j < |us| ensures us[i].id != us[j].id {
          assert us[i] == users[i + 1] && us[j] == users[j + 1];
        }
      }
      AdminChoicesCount(us);
      if nextUserId > 1 {
        assert us[0].id == 1;
      } else {
        assert !HasSuperAdmin(us);
      }
    }

    /** The `admin_only` gate: the request goes on (None) for user id 1 or an
        admin, and is answered with 403 otherwise. */
    method AdminOnly(who: Identity) returns (r: Option<Response>)
      requires Valid() && who.Authenticated? && who.id in users
      ensures r.None? <==> who.id == 1 || users[who.id].isAdmin
      ensures r.Some? ==> r.value == Forbidden
    {
      if who.id != 1 && !users[who.id].isAdmin {
        return Some(Forbidden);
      }
      return None;
    }

    /** Registration: the email is looked up first; a new user is never an admin
        and becomes the session user. */
    method Register(who: Identity, validated: bool, name: string, email: string, password: string,
                    hash: string -> string)
      returns (resp: Response, session: Identity)
      requires Valid()
      modifies this
      ensures Valid()
      ensures !validated ==> resp == Render(RegisterPage) && session == who && unchanged(this)
      ensures validated && old(EmailTaken(email)) ==>
                resp == Redirect(LoginPage) && session == who && unchanged(this)
      ensures validated && !old(EmailTaken(email)) ==>
                var id := old(nextUserId);
                && id !in old(users)
                && users == old(users)[id := User(id, name, email, hash(password), false)]
                && nextUserId == id + 1
                && posts == old(posts) && comments == old(comments)
                && nextPostId == old(nextPostId) && nextCommentId == old(nextCommentId)
                && resp == Redirect(AllPostsPage) && session == Authenticated(id)
    {
      session := who;
      if !validated {
        return Render(RegisterPage), session;
      }
      var existing := FirstWithEmail(UserList(), email);
      if existing.None? {
        var id := nextUserId;
        users := users[id := User(id, name, email, hash(password), false)];
        nextUserId := id + 1;
        return Redirect(AllPostsPage), Authenticated(id);
      } else {
        assert users[existing.value.id].email == email;
        return Redirect(LoginPage), session;
      }
    }

    /** Login has three outcomes: no account with that email, a wrong password,
        or a new session for the account's owner. It changes no table. */
    method Login(who: Identity, validated: bool, email: string, password: string,
                 check: (string, string) -> bool)
      returns (resp: Response, session: Identity)
      requires Valid()
      ensures !validated ==> resp == Render(LoginPage) && session == who
      ensures validated && !EmailTaken(email) ==> resp == LoginFailed(NoAccount) && session == who
      ensures validated && EmailTaken(email) && !check(Owner(email).passwordHash, password) ==>
                resp == LoginFailed(WrongPassword) && session == who
      ensures validated && EmailTaken(email) && check(Owner(email).passwordHash, password) ==>
                resp == Redirect(AllPostsPage) && session == Authenticated(Owner(email).id)
    {
      session := who;
      if !validated {
        return Render(LoginPage), session;
      }
      var found := FirstWithEmail(UserList(), email);
      if found.None? {
        return LoginFailed(NoAccount), session;
      }
      var user := found.value;
      assert user == Owner(email);
      if check(user.passwordHash, password) {
        return Redirect(AllPostsPage), Authenticated(user.id);
      }
      return LoginFailed(WrongPassword), session;
    }

    /** Viewing a post and commenting on it. */
    method ShowPost(who: Identity, postId: int, validated: bool, text: string) returns (resp: Response)
      requires Valid() && Known(who)
      modifies this
      ensures Valid()
      ensures postId !in old(posts) ==> resp == NotFound && unchanged(this)
      ensures postId in old(posts) && !validated ==> resp == Render(PostPage(postId)) && unchanged(this)
      ensures postId in old(posts) && validated && who.Anonymous? ==>
                resp == Redirect(LoginPage) && unchanged(this)
      ensures postId in old(posts) && validated && who.Authenticated? && old(TextTaken(text)) ==>
                resp == ServerError && unchanged(this)
      ensures postId in old(posts) && validated && who.Authenticated? && !old(TextTaken(text)) ==>
                var id := old(nextCommentId);
                && id !in old(comments)
                && comments == old(comments)[id := Comment(id, text, postId, who.id)]
                && nextCommentId == id + 1
                && users == old(users) && posts == old(posts)
                && nextUserId == old(nextUserId) && nextPostId == old(nextPostId)
                && resp == Render(PostPage(postId))
    {
      if postId !in posts {
        return NotFound;
      }
      if validated {
        if who.Authenticated? {
          if TextTaken(text) {
            return ServerError;
          }
          var id := nextCommentId;
          comments := comments[id := Comment(id, text, postId, who.id)];
          nextCommentId := id + 1;
        } else {
          return Redirect(LoginPage);
        }
      }
      return Render(PostPage(postId));
    }

    /** Creating a post, behind the admin gate; its author is the requester,
        whatever the form holds. */
    method AddNewPost(who: Identity, validated: bool, title: string, subtitle: string, body: string,
                      imgUrl: string, date: string)
      returns (resp: Response)
      requires Valid() && who.Authenticated? && who.id in users
      modifies this
      ensures Valid()
      ensures !(who.id == 1 || old(users)[who.id].isAdmin) ==> resp == Forbidden && unchanged(this)
      ensures (who.id == 1 || old(users)[who.id].isAdmin) && !validated ==>
                resp == Render(MakePostPage) && unchanged(this)
      ensures (who.id == 1 || old(users)[who.id].isAdmin) && validated && old(TitleTaken(title)) ==>
                resp == ServerError && unchanged(this)
      ensures (who.id == 1 || old(users)[who.id].isAdmin) && validated && !old(TitleTaken(title)) ==>
                var id := old(nextPostId);
                && id !in old(posts)
                && posts == old(posts)[id := Post(id, title, subtitle, date, body, imgUrl, who.id)]
                && nextPostId == id + 1
                && users == old(users) && comments == old(comments)
                && nextUserId == old(nextUserId) && nextCommentId == old(nextCommentId)
                && resp == Redirect(AllPostsPage)
    {
      var denied := AdminOnly(who);
      if denied.Some? {
        return denied.value;
      }
      if !validated {
        return Render(MakePostPage);
      }
      if TitleTaken(title) {
        return ServerError;
      }
      var id := nextPostId;
      posts := posts[id := Post(id, title, subtitle, date, body, imgUrl, who.id)];
      nextPostId := id + 1;
      return Redirect(AllPostsPage);
    }

    /** Editing a post: the admin gate, then 404 for a missing post, then 403
        unless the requester is the post's author. Title, subtitle, image URL
        and body are overwritten and the author is set to the requester, which
        the authorship check makes the author it already had. */
    method EditPost(who: Identity, postId: int, validated: bool, title: string, subtitle: string,
                    imgUrl: string, body: string)
      returns (resp: Response)
      requires Valid() && who.Authenticated? && who.id in users
      modifies this
      ensures Valid()
      ensures !(who.id == 1 || old(users)[who.id].isAdmin) ==> resp == Forbidden && unchanged(this)
      ensures (who.id == 1 || old(users)[who.id].isAdmin) && postId !in old(posts) ==>
                resp == NotFound && unchanged(this)
      ensures (who.id == 1 || old(users)[who.id].isAdmin) && postId in old(posts) ==>
                if who.id != old(posts)[postId].authorId then
                  resp == Forbidden && unchanged(this)
                else if !validated then
                  resp == Render(EditPostPage(old(posts)[postId])) && unchanged(this)
                else if old(TitleTakenByOther(title, postId)) then
                  resp == ServerError && unchanged(this)
                else
                  && posts == old(posts)[postId := old(posts)[postId].(title := title, subtitle := subtitle,
                                                                        imgUrl := imgUrl, body := body,
                                                                        authorId := who.id)]
                  && posts[postId].authorId == old(posts)[postId].authorId
                  && posts[postId].date == old(posts)[postId].date
                  && users == old(users) && comments == old(comments)
                  && nextUserId == old(nextUserId) && nextPostId == old(nextPostId)
                  && nextCommentId == old(nextCommentId)
                  && resp == Redirect(PostPage(postId))
    {
      var denied := AdminOnly(who);
      if denied.Some? {
        return denied.value;
      }
      if postId !in posts {
        return NotFound;
      }
      var post := posts[postId];
      if who.id != post.authorId {
        return Forbidden;
      }
      if !validated {
        return Render(EditPostPage(post));
      }
      if TitleTakenByOther(title, postId) {
        return ServerError;
      }
      posts := posts[postId := post.(title := title, subtitle := subtitle, imgUrl := imgUrl, body := body,
                                     authorId := who.id)];
      return Redirect(PostPage(postId));
    }

    /** Deleting a post, behind the admin gate only: any admin may delete any post. */
    method DeletePost(who: Identity, postId: int) returns (resp: Response)
      requires Valid() && who.Authenticated? && who.id in users
      modifies this
      ensures Valid()
      ensures !(who.id == 1 || old(users)[who.id].isAdmin) ==> resp == Forbidden && unchanged(this)
      ensures (who.id == 1 || old(users)[who.id].isAdmin) && postId !in old(posts) ==>
                resp == NotFound && unchanged(this)
      ensures (who.id == 1 || old(users)[who.id].isAdmin) && postId in old(posts) ==>
                && posts == old(posts) - {postId}
                && users == old(users) && comments == old(comments)
                && nextUserId == old(nextUserId) && nextPostId == old(nextPostId)
                && nextCommentId == old(nextCommentId)
                && resp == Redirect(AllPostsPage)
    {
      var denied := AdminOnly(who);
      if denied.Some? {
        return denied.value;
      }
      if postId !in posts {
        return NotFound;
      }
      posts := posts - {postId};
      return Redirect(AllPostsPage);
    }

    /** The promote page (`/admin/add`): past the admin gate, everyone but
        user id 1 gets 404; a validated form makes the chosen user an admin. */
    method AdminAdd(who: Identity, validated: bool, theId: int) returns (resp: Response)
      requires Valid() && who.Authenticated? && who.id in users
      modifies this
      ensures Valid()
      ensures !(who.id == 1 || old(users)[who.id].isAdmin) ==> resp == Forbidden && unchanged(this)
      ensures old(users)[who.id].isAdmin && who.id != 1 ==> resp == NotFound && unchanged(this)
      ensures who.id == 1 && !validated ==> resp == Render(AdminPage(old(AdminChoices(UserList())))) && unchanged(this)
      ensures who.id == 1 && validated && theId !in old(users) ==> resp == NotFound && unchanged(this)
      ensures who.id == 1 && validated && theId in old(users) ==>
                && users == old(users)[theId := old(users)[theId].(isAdmin := true)]
                && posts == old(posts) && comments == old(comments)
                && nextUserId == old(nextUserId) && nextPostId == old(nextPostId)
                && nextCommentId == old(nextCommentId)
                && resp == Render(AdminPage(old(AdminChoices(UserList()))))
    {
      var denied := AdminOnly(who);
      if denied.Some? {
        return denied.value;
      }
      if who.id != 1 {
        return NotFound;
      }
      var choices := AdminChoices(UserList());
      if validated {
        if theId !in users {
          return NotFound;
        }
        users := users[theId := users[theId].(isAdmin := true)];
      }
      return Render(AdminPage(choices));
    }

    /** The demote page (`/admin/remove`): as the promote page, but a
        validated form takes the chosen user's admin flag away. */
    method AdminRemove(who: Identity, validated: bool, theId: int) returns (resp: Response)
      requires Valid() && who.Authenticated? && who.id in users
      modifies this
      ensures Valid()
      ensures !(who.id == 1 || old(users)[who.id].isAdmin) ==> resp == Forbidden && unchanged(this)
      ensures old(users)[who.id].isAdmin && who.id != 1 ==> resp == NotFound && unchanged(this)
      ensures who.id == 1 && !validated ==> resp == Render(AdminPage(old(AdminChoices(UserList())))) && unchanged(this)
      ensures who.id == 1 && validated && theId !in old(users) ==> resp == NotFound && unchanged(this)
      ensures who.id == 1 && validated && theId in old(users) ==>
                && users == old(users)[theId := old(users)[theId].(isAdmin := false)]
                && posts == old(posts) && comments == old(comments)
                && nextUserId == old(nextUserId) && nextPostId == old(nextPostId)
                && nextCommentId == old(nextCommentId)
                && resp == Render(AdminPage(old(AdminChoices(UserList()))))
    {
      var denied := AdminOnly(who);
      if denied.Some? {
        return denied.value;
      }
      if who.id != 1 {
        return NotFound;
      }
      var choices := AdminChoices(UserList());
      if validated {
        if theId !in users {
          return NotFound;
        }
        users := users[theId := users[theId].(isAdmin := false)];
      }
      return Render(AdminPage(choices));
    }

    /** The listing of all users, shown to user id 1 only; it changes nothing. */
    method Admins(who: Identity) returns (resp: Response)
      requires Valid() && who.Authenticated? && who.id in users
      ensures !(who.id == 1 || users[who.id].isAdmin) ==> resp == Forbidden
      ensures users[who.id].isAdmin && who.id != 1 ==> resp == NotFound
      ensures who.id == 1 ==> resp.Render? && resp.page.AdminsPage?
      ensures who.id == 1 ==> forall u :: u in resp.page.listed <==> u.id in users && users[u.id] == u
      ensures who.id == 1 ==> forall i, j :: 0 <= i < j < |resp.page.listed| ==>
                                  resp.page.listed[i].id != resp.page.listed[j].id
    {
      var denied := AdminOnly(who);
      if denied.Some? {
        return denied.value;
      }
      if who.id != 1 {
        return NotFound;
      }
      return Render(AdminsPage(UserList()));
    }
  }
}
