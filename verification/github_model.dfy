/** The tracker records the relay reads: an issue or a pull request and its author. */
module GithubModel {

  /** Rust's `u32`, the width of the tracker-assigned number. */
  type U32 = n: nat | n < 0x1_0000_0000

  /** The author of an issue or pull request. */
  datatype User = User(htmlUrl: string, login: string, avatarUrl: string)

  /** An issue or a pull request. Both variants carry the same seven fields under the same
      names, so every consumer reads them without looking at which variant it was given. */
  datatype TrackedItem =
    | Issue(htmlUrl: string, title: string, body: string, state: string,
            createdAt: string, number: U32, user: User)
    | PullRequest(htmlUrl: string, title: string, body: string, state: string,
                  createdAt: string, number: U32, user: User)
  {
    /** The same fields under the other variant. */
    function OtherKind(): (t: TrackedItem)
      ensures t.Issue? != this.Issue?
      ensures t.htmlUrl == htmlUrl && t.title == title && t.body == body && t.state == state
      ensures t.createdAt == createdAt && t.number == number && t.user == user
    {
      match this
      case Issue(u, t, b, s, c, n, a) => PullRequest(u, t, b, s, c, n, a)
      case PullRequest(u, t, b, s, c, n, a) => Issue(u, t, b, s, c, n, a)
    }
  }
}
