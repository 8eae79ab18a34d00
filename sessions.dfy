/**
 * The one session entry both the chat server and the authentication module
 * read and write: `session['user_id']`.
 */
module Sessions {
  import opened Wrappers

  /**
   * The shapes the stored value can take: a string (`auth_user_<id>` after a
   * login), an integer (the older form of a login), or anything else.
   */
  datatype SessionValue = Text(s: string) | Integer(n: int) | OtherValue

  /** The client's signed session cookie, reduced to its `user_id` entry (`None` when absent). */
  class Session {
    var userId: Option<SessionValue>

    constructor (v: Option<SessionValue>)
      ensures userId == v
    {
      userId := v;
    }
  }
}
