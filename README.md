# Blog authorization and data ownership, in Dafny

This project models the part of the red-blog Flask application that decides who may
do what to the blog's data. Three tables are involved: users, blog posts and comments.
The model covers how each request handler reads and changes these tables in place.

- `tables.dfy` (module `Tables`) holds the rows of `users`, `blog_posts` and `comments`,
  and the UNIQUE constraints on `users.email`, `blog_posts.title` and `comments.text`.
- `forms.dfy` (module `Forms`) holds the choice list that `AdminForm` builds. It lists
  the users the super-admin (user id 1) may promote or demote, in input order, and
  never lists id 1.
- `blog.dfy` (module `Blog`) holds class `Site`: the three tables as maps from id to row,
  plus the next id for each table.
  - `Site.Valid()` is the database invariant: keys are ids, user ids are exactly
    `1 .. nextUserId - 1`, authors exist, and UNIQUE columns are unique.
  - Each request handler is a method that takes the requesting identity
    (`Anonymous` or `Authenticated(id)`).
  - Each handler returns the response: redirect, rendered page, login error, 403, 404,
    or a server error when the commit would break a UNIQUE constraint.
  - Each handler's postcondition gives the whole new state for every branch.
  - `register` and `login` also return the new session identity.
- `scenarios.dfy` (module `Scenarios`) replays request sequences on a fresh database
  and states the outcomes the handlers' contracts imply.

Password hashing and checking are parameters of the handlers: `hash: string -> string`
and `check: (string, string) -> bool`. The same goes for the creation date of a post and
for whether a submitted form validated (`validated`). Everything else the code does on
these paths is modelled, except what "## Left out" lists.

Editing never reassigns a post. `edit_post` answers 403 unless the requester already
is the post's author (main.py:230, 249-250), so the assignment at main.py:243 writes
back the author the post already had. `EditPost` proves the author unchanged, and
`ForeignEditScenario` shows that an admin editing another admin's post gets 403.

## Model

| member | source | states |
|---|---|---|
| `Blog.Site.constructor` | main.py:100-101 | The freshly created database has empty tables, and every table's next id is 1, so the first registered user gets id 1. |
| `Blog.Site.AdminOnly` | main.py:114-122 | The gate lets the request through exactly when the requester is user id 1 or has the admin flag; otherwise the answer is 403. |
| `Blog.Site.Register` | main.py:125-145 | Without a validated form, the register page is rendered and nothing changes. If the email is already taken: redirect to login, store and session unchanged. Otherwise exactly one user is added (under a fresh id, with that name and email, the password's hash and `isAdmin` false), nothing else changes, and the session becomes that user. The database invariant is kept. |
| `Blog.Site.Login` | main.py:148-167 | No table changes. Three outcomes: no account with that email gives "no account"; the email's owner with a failing password check gives "wrong password"; a passing check redirects to the post list with the session set to that owner. Without a validated form, the login page is rendered. |
| `Blog.FirstWithEmail` | main.py:153-154 | The lookup by email returns a row holding that email, and returns nothing exactly when no row holds it. |
| `Blog.FirstWithEmailFindsOwner` | main.py:63 | When emails are unique, the lookup returns the one user holding the email. |
| `Blog.Site.ShowPost` | main.py:183-203 | A missing post gives 404. A form that did not validate re-renders the post. An anonymous valid comment redirects to login and adds nothing. A comment text already taken fails the commit and adds nothing. Otherwise exactly one comment is added, with this post id and the requester as author, and nothing else changes. |
| `Blog.Site.AddNewPost` | main.py:206-223 | Behind the gate, so a non-admin who is not id 1 gets 403 and nothing changes. Otherwise a validated form with a new title adds exactly one post, under a fresh id, whose author is the requester; the other posts, users and comments are untouched. A title already taken fails the commit and leaves the store unchanged. |
| `Blog.Site.EditPost` | main.py:226-250 | Checks run in order, each leaving the store unchanged on failure: the gate (403), a missing post (404), a requester who is not the author (403). A form that did not validate renders the edit page prefilled with the post. A validated form overwrites title, subtitle, image URL and body, sets the author to the requester (the author it already had), keeps the date, and leaves every other post and table untouched. |
| `Blog.Site.DeletePost` | main.py:253-259 | Behind the gate, with no authorship check: any admin removes exactly the post with that id, and users and comments are untouched. A missing id gives 404. |
| `Blog.Site.AdminAdd` | main.py:304-318 | A non-admin who is not id 1 gets 403, and an admin who is not id 1 gets 404. For id 1, a validated form sets the target's admin flag to true and changes nothing else; a missing target gives 404. The page shows the choices built from the users before the change. |
| `Blog.Site.AdminRemove` | main.py:321-335 | As `AdminAdd`, but the target's admin flag is set to false. |
| `Blog.Site.Admins` | main.py:338-346 | Changes nothing. A non-admin who is not id 1 gets 403, and an admin who is not id 1 gets 404. User id 1 gets a listing that holds every user of the database, each once, and nothing else. |
| `Blog.Site.UserList` | main.py:342-343 | The select over `users` yields every row of the table, in id order, each once; their emails are pairwise distinct. |
| `Blog.Site.AdminChoicesOfferOthers` | main.py:308-310 | The admin form built from the database offers every user except user id 1. |
| `Blog.Site.AdminChoicesAreOthers` | main.py:308-310 | Every choice the admin form offers is the choice of an existing user other than id 1. |
| `Blog.Site.AdminChoicesCountOfSite` | main.py:308-310 | The admin form offers one choice per user, minus one once user id 1 exists. |
| `Forms.AdminChoices` | forms.py:46-49 | No choice has value 1. Every choice is the pair (id, "name (email)") of some input user whose id is not 1. There are at most as many choices as users. |
| `Forms.AdminChoicesLength` | forms.py:48 | There are exactly as many choices as input users whose id is not 1. |
| `Forms.AdminChoicesAt` | forms.py:48 | Call the number of input users before position `i` whose ids are not 1 the rank of `i`. The choice for the user at `i`, if that user's id is not 1, sits at index rank(`i`) of the choice list. |
| `Forms.AdminChoicesKeepOrder` | forms.py:48 | Two users other than id 1 appear among the choices in the same order as in the input. |
| `Forms.AdminChoicesDistinct` | forms.py:48 | With distinct input ids, no value is offered twice. Together with `AdminChoicesAt`, each such user appears exactly once. |
| `Forms.AdminChoicesCount` | forms.py:48 | With distinct input ids, the number of choices is the number of users, less one when id 1 is among them. |
| `Scenarios.DuplicateRegistration` | main.py:129-144 | Registering twice with one email leaves one user, and the second attempt is redirected to login. |
| `Scenarios.RegisterThenLogin` | main.py:131-157 | A user who just registered can log in with the same password, given a check that accepts every password against its own hash. |
| `Scenarios.PromotionScenario` | main.py:206-221 | User 2 gets 403 when creating a post. After user 1 promotes user 2, the same request creates the post with author 2. |
| `Scenarios.ForeignEditScenario` | main.py:226-259 | Admin 3 editing admin 2's post gets 403, and the post keeps author 2. Admin 3 may still delete that post. |
| `Scenarios.CommentScenario` | main.py:185-202 | An anonymous comment is redirected to login and not stored. A logged-in user's comment is stored with that post and that author. |

## Left out

- Flask routing, template rendering and flashed messages are abstracted to the `Page`
  and `Response` values. This includes the flashed error the login page shows on a GET.
- The session machinery behind `login_user` and `logout_user` is replaced by an explicit
  identity. Handlers receive the identity and `Register`/`Login` return the new one.
  `logout` (main.py:170-173) only resets it to anonymous and has no member.
- The `print` in the gate (main.py:117) is console output.
- Werkzeug's salted PBKDF2 hash and its check are the parameters `hash` and `check`.
  A random salt is not modelled: `hash` is one fixed function.
- `date.today().strftime` is the parameter `date`.
- WTForms validation, including the `DataRequired`/`URL` validators, is the boolean input
  `validated`. WTForms' rule that a select field only validates one of its choices is
  therefore not modelled. With that rule, a validated admin form never names id 1 or a
  missing user. The model keeps the 404 for a missing target that the code writes, and
  it lets a validated form name user id 1, so in the model user 1 can change its own flag.
- `int(request.form["the_user"])` failing on a non-numeric value is not modelled: the
  target is an `int` input.
- The admin-gated handlers require an authenticated requester. An anonymous request
  would fail at `print(current_user.is_admin)` (main.py:117), since the anonymous user
  has no `is_admin`, before the gate's test at main.py:118.
- `get_all_posts` (main.py:176-180) and `about` (main.py:262-264) render without reading
  identity or changing data. `contact` and `send_mail` (main.py:267-301) are mail I/O.
- The stray `author_id = db.Column(...)` assignments (main.py:236, 244) are not modelled.
  Only the assignment of the author at main.py:243 is.
- Blog.Site.DeletePost: leaves the post's comments in place, so a comment may refer to
  a deleted post. The ORM's own handling is not modelled: SQLAlchemy clears a deleted
  parent's foreign key in its children, and the non-nullable `post_id` column would
  refuse that at commit.
- Ids come from one increasing counter per table, as a database sequence hands them out.
  SQLite's default row ids may reuse the id of a deleted last post; that is
  not modelled. Users are never deleted, so their ids are 1, 2, 3, … either way.
- `db.select(User)` has no ORDER BY. The model lists users in id order, which is
  SQLite's table-scan order.
- Column lengths (`String(250)`, `String(1000)`) are not enforced.
- Races between concurrent requests, for example two registrations with the same email,
  are not modelled. Each handler runs on its own.
