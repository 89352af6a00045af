/**
 * The rejection message table (`REJECTION_MESSAGES`, docs/app.js) and the
 * lookup `REJECTION_MESSAGES[action] || default` in `showRejectionModal`.
 */
module Rejection {
  import opened Wrappers

  const RejectionMessages: map<string, string> := map[
    "like" := "いいね機能は人間には許可されていません",
    "reply" := "返信機能は人間には許可されていません",
    "share" := "共有機能は人間には許可されていません",
    "follow" := "フォロー機能は人間には許可されていません"
  ]

  /** The generic denial shown when the table gives nothing usable. */
  const DefaultRejection := "このアクションは許可されていません"

  /** Property access on the table: `undefined` (here `None`) for a name it lacks. */
  function Lookup(action: string): Option<string>
  {
    if action in RejectionMessages then Some(RejectionMessages[action]) else None
  }

  /** JavaScript's `x || y` on a string-or-undefined: `x` when it is a non-empty string, else `y`. */
  function OrElse(x: Option<string>, y: string): string
  {
    if x.Some? && x.value != "" then x.value else y
  }

  /**
   * The message the modal shows for `action`: the table's entry for the four
   * named actions, the generic denial for every other name. The entries are
   * non-empty, so `||` never replaces a table entry by the default.
   */
  function RejectionMessage(action: string): (msg: string)
    ensures action in {"like", "reply", "share", "follow"} ==> msg == RejectionMessages[action]
    ensures action !in {"like", "reply", "share", "follow"} ==> msg == DefaultRejection
    ensures msg != ""
  {
    OrElse(Lookup(action), DefaultRejection)
  }

  /** Every table entry is a specific message, distinct from the generic one. */
  lemma TableEntriesAreSpecific()
    ensures forall a :: a in RejectionMessages ==> RejectionMessages[a] != "" && RejectionMessages[a] != DefaultRejection
    ensures RejectionMessages.Keys == {"like", "reply", "share", "follow"}
  {
  }
}
