/**
 * The `User` entity of the `domain` package and its one method, `GetURL`,
 * which fills in the profile URL lazily through a pointer receiver.
 */
module DomainUser {

  /** Go's `uint64`. */
  type uint64 = x: int | 0 <= x < 0x1_0000_0000_0000_0000

  /** `domain.User`, a value: Go copies it on assignment and on return. */
  datatype User = User(
    id: uint64,
    email: string,
    username: string,
    name: string,
    url: string,
    profileImgURL: string,
    location: string,
    description: string,
    isMe: bool,
    followersCount: int,
    followingCount: int,
    twitterName: string,
    facebookName: string)

  /** `domain.User{}`, the zero value. */
  const ZeroUser: User := User(0, "", "", "", "", "", "", "", false, 0, 0, "", "")

  /** The public profile path of a username. */
  function ProfilePath(username: string): string
  {
    "/@" + username
  }

  /** The user as `GetURL` leaves it. */
  function AfterGetURL(u: User): (r: User)
    ensures r == u.(url := r.url)
    ensures r.url != ""
    ensures u.url == "" ==> r.url == ProfilePath(u.username)
    ensures u.url != "" ==> r == u
  {
    if |u.url| == 0 then u.(url := ProfilePath(u.username)) else u
  }

  /** A second call of `GetURL` changes nothing. */
  lemma AfterGetURLIdempotent(u: User)
    ensures AfterGetURL(AfterGetURL(u)) == AfterGetURL(u)
  {
  }

  /** A `*User`: the one place where a user is updated in place. */
  class UserRef {
    var user: User

    constructor (u: User)
      ensures user == u
    {
      user := u;
    }

    /**
     * `GetURL()`: returns the profile path of the username, and stores it as
     * the URL when the URL is empty. A non-empty URL is kept even when it
     * differs from the returned path.
     */
    method GetURL() returns (url: string)
      modifies this
      ensures url == ProfilePath(old(user).username)
      ensures user == AfterGetURL(old(user))
    {
      if |user.url| == 0 {
        user := user.(url := ProfilePath(user.username));
      }
      url := ProfilePath(user.username);
    }
  }

  /** Calling `GetURL` twice returns the same path and leaves the state one call leaves. */
  method GetURLTwice(p: UserRef) returns (first: string, second: string)
    modifies p
    ensures first == second == ProfilePath(old(p.user).username)
    ensures p.user == AfterGetURL(old(p.user))
  {
    first := p.GetURL();
    second := p.GetURL();
    AfterGetURLIdempotent(old(p.user));
  }
}
