/** Request sequences run against a fresh database, with the outcomes the
    handlers' contracts imply. */
module Scenarios {
  import opened Tables
  import opened Blog

  /** Registering twice with one email creates one user; the second attempt
      is sent to the login page. */
  method DuplicateRegistration(hash: string -> string) returns (second: Response, userCount: int)
    ensures second == Redirect(LoginPage)
    ensures userCount == 1
  {
    var site := new Site();
    var first, session := site.Register(Anonymous, true, "Ayse", "ayse@example.org", "pw", hash);
    assert site.users[1].email == "ayse@example.org";
    second, session := site.Register(Anonymous, true, "Ayse", "ayse@example.org", "other", hash);
    userCount := |site.users.Keys|;
  }

  /** A freshly registered user logs in with the password they registered,
      given that the check accepts every password against its own hash. */
  method RegisterThenLogin(hash: string -> string, check: (string, string) -> bool)
    returns (resp: Response, session: Identity)
    requires forall p :: check(hash(p), p)
    ensures resp == Redirect(AllPostsPage) && session == Authenticated(1)
  {
    var site := new Site();
    var registered, s := site.Register(Anonymous, true, "Ayse", "ayse@example.org", "pw", hash);
    assert site.users[1].email == "ayse@example.org";
    assert site.Owner("ayse@example.org") == site.users[1];
    resp, session := site.Login(s, true, "ayse@example.org", "pw", check);
  }

  /** A member (id 2) cannot create a post until user id 1 promotes them; the
      post they then create is theirs. */
  method PromotionScenario(hash: string -> string) returns (before: Response, after: Response, author: int)
    ensures before == Forbidden
    ensures after == Redirect(AllPostsPage)
    ensures author == 2
  {
    var site := new Site();
    var r, owner := site.Register(Anonymous, true, "Owner", "owner@example.org", "pw1", hash);
    assert site.users[1].email == "owner@example.org";
    var member;
    r, member := site.Register(Anonymous, true, "Ayse", "ayse@example.org", "pw2", hash);
    before := site.AddNewPost(member, true, "Hello", "First post", "Body", "https://example.org/a.png", "today");
    r := site.AdminAdd(owner, true, 2);
    after := site.AddNewPost(member, true, "Hello", "First post", "Body", "https://example.org/a.png", "today");
    author := site.posts[1].authorId;
  }

  /** An admin (id 3) may not edit a post of another admin (id 2): the edit
      is refused with 403 and the post keeps its author. The same admin may
      delete that post. */
  method ForeignEditScenario(hash: string -> string)
    returns (edit: Response, author: int, delete: Response, postGone: bool)
    ensures edit == Forbidden
    ensures author == 2
    ensures delete == Redirect(AllPostsPage)
    ensures postGone
  {
    var site := new Site();
    var r, owner := site.Register(Anonymous, true, "Owner", "owner@example.org", "pw1", hash);
    assert site.users[1].email == "owner@example.org";
    var a;
    r, a := site.Register(Anonymous, true, "Ayse", "ayse@example.org", "pw2", hash);
    assert site.users[2].email == "ayse@example.org";
    var b;
    r, b := site.Register(Anonymous, true, "Burak", "burak@example.org", "pw3", hash);
    r := site.AdminAdd(owner, true, 2);
    r := site.AdminAdd(owner, true, 3);
    r := site.AddNewPost(a, true, "Hello", "First post", "Body", "https://example.org/a.png", "today");
    edit := site.EditPost(b, 1, true, "Taken over", "Sub", "https://example.org/b.png", "New body");
    author := site.posts[1].authorId;
    delete := site.DeletePost(b, 1);
    postGone := 1 !in site.posts;
  }

  /** An anonymous visitor's comment is not stored; the comment of a logged-in
      user is, on that post and under that user. */
  method CommentScenario(hash: string -> string)
    returns (anonymous: Response, signedIn: Response, stored: Comment)
    ensures anonymous == Redirect(LoginPage)
    ensures signedIn == Render(PostPage(1))
    ensures stored == Comment(1, "Nice post", 1, 1)
  {
    var site := new Site();
    var r, owner := site.Register(Anonymous, true, "Owner", "owner@example.org", "pw1", hash);
    r := site.AddNewPost(owner, true, "Hello", "First post", "Body", "https://example.org/a.png", "today");
    anonymous := site.ShowPost(Anonymous, 1, true, "Nice post");
    assert site.comments == map[];
    signedIn := site.ShowPost(owner, 1, true, "Nice post");
    stored := site.comments[1];
  }
}
