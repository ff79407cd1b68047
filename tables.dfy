/** The rows of the blog's three database tables (`users`, `blog_posts`,
    `comments`) and the UNIQUE constraints declared on their columns. */
module Tables {

  datatype Option<T> = None | Some(value: T)

  /** A row of `users`. The raw password is never stored, only its hash. */
  datatype User = User(id: int, name: string, email: string, passwordHash: string, isAdmin: bool)

  /** A row of `blog_posts`; `authorId` refers to `users.id`. */
  datatype Post = Post(
    id: int,
    title: string,
    subtitle: string,
    date: string,
    body: string,
    imgUrl: string,
    authorId: int)

  /** A row of `comments`; `postId` refers to `blog_posts.id`, `authorId` to `users.id`. */
  datatype Comment = Comment(id: int, text: string, postId: int, authorId: int)

  /** `users.email` is UNIQUE. */
  ghost predicate EmailsUnique(users: map<int, User>) {
    forall a, b :: a in users && b in users && users[a].email == users[b].email ==> a == b
  }

  /** `blog_posts.title` is UNIQUE. */
  ghost predicate TitlesUnique(posts: map<int, Post>) {
    forall a, b :: a in posts && b in posts && posts[a].title == posts[b].title ==> a == b
  }

  /** `comments.text` is UNIQUE. */
  ghost predicate TextsUnique(comments: map<int, Comment>) {
    forall a, b :: a in comments && b in comments && comments[a].text == comments[b].text ==> a == b
  }
}
