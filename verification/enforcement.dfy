/** The enforcement step of the bot (bot.py, `handle_spam_action`): delete the
    offending message, then ban its author.

    Both platform calls sit in one `try` block whose handler only logs, so a
    failure of either call ends the action without raising, and a failed
    delete means the ban is never attempted. Whether each call succeeds is
    decided by the platform; it is a parameter here. */
module Enforcement {

  /** A Telegram Bot API call the bot makes. */
  datatype Command =
    | DeleteMessage(chatId: int, messageId: int)
    | BanChatMember(chatId: int, userId: int)

  /** The calls attempted, in order, and which of them succeeded. */
  datatype Enforcement = Enforcement(attempted: seq<Command>, deleted: bool, banned: bool)

  /** `handle_spam_action(chat_id, message_id, user_id)`; `deleteOk` and
      `banOk` say whether the platform accepts each call. */
  function HandleSpamAction(chatId: int, messageId: int, userId: int, deleteOk: bool, banOk: bool): (r: Enforcement)
    // the delete is always attempted, and first
    ensures |r.attempted| >= 1 && r.attempted[0] == DeleteMessage(chatId, messageId)
    ensures |r.attempted| == if deleteOk then 2 else 1
    // the ban is attempted exactly when the delete went through, and only after it
    ensures BanChatMember(chatId, userId) in r.attempted <==> deleteOk
    ensures forall i :: 0 <= i < |r.attempted| && r.attempted[i].BanChatMember? ==> i > 0 && r.deleted
    // nothing else is attempted, and the delete only once
    ensures forall c :: c in r.attempted ==> c == DeleteMessage(chatId, messageId) || c == BanChatMember(chatId, userId)
    ensures forall i :: 0 < i < |r.attempted| ==> r.attempted[i] == BanChatMember(chatId, userId)
    ensures r.deleted == deleteOk
    ensures r.banned <==> deleteOk && banOk
  {
    if deleteOk then
      Enforcement([DeleteMessage(chatId, messageId), BanChatMember(chatId, userId)], true, banOk)
    else
      Enforcement([DeleteMessage(chatId, messageId)], false, false)
  }

  /** Each call is attempted at most once. */
  lemma AttemptsAreDistinct(chatId: int, messageId: int, userId: int, deleteOk: bool, banOk: bool)
    ensures var a := HandleSpamAction(chatId, messageId, userId, deleteOk, banOk).attempted;
      forall i, j :: 0 <= i < j < |a| ==> a[i] != a[j]
  {
  }

  /** A refused delete leaves the author unbanned, whatever the ban would
      have done. */
  lemma FailedDeleteSkipsBan(chatId: int, messageId: int, userId: int, banOk: bool)
    ensures HandleSpamAction(chatId, messageId, userId, false, banOk).attempted == [DeleteMessage(chatId, messageId)]
    ensures !HandleSpamAction(chatId, messageId, userId, false, banOk).banned
  {
  }
}
