/** Concrete runs of the bot: a spam message reported and removed, an
    innocent message reported and kept, a repeated report, a failing
    classifier, an ignored reaction and a report about an unknown message. */
module Scenarios {
  import opened Wrappers
  import opened Text
  import opened Classifier
  import opened Enforcement
  import opened Bot

  const SpamText: string := "Пишите в лс, 200$ в день"
  const SpamMessage: Message := Message(1, 1, Some(9), SpamText, "")

  const InnocentText: string := "See you at 5pm"
  const InnocentMessage: Message := Message(1, 2, Some(9), InnocentText, "")

  /** A pile-of-poo reaction on message `id` of chat `chat`. */
  function Report(chat: int, id: int): Event
  {
    ReactionUpdate(Some(MessageReaction(chat, id, [Emoji(Trigger)])))
  }

  /** An oracle under which the platform accepts every call. */
  function Answer(reply: Completion): Oracle
  {
    Oracle(reply, true, true)
  }

  /** A message with a text or a caption arrives and is reported at once:
      the classifier is asked about it, and what follows is up to the
      verdict. */
  lemma ReportAfterArrival(t: Template, m: Message, o: Oracle)
    requires HasTextOrCaption(m)
    ensures var s1 := Step(t, Init(), MessageUpdate(Some(m)), o).state;
      var r := Step(t, s1, Report(m.chat, m.id), o);
      && r.request == Some(Request(KeyOf(m), BuildPrompt(t, Content(m))))
      && r.commands == Enforce(KeyOf(m), m, IsSpamVerdict(CallChatGpt(o.completion)), o)
  {
    NewMessageIsCached(t, Init(), m, o);
  }

  // Built from two pieces so that proofs about it reason on the pieces,
  // never on one long literal compared character by character.
  const YesReply: string := "Yes" + ", this is spam."
  const NoReply: string := "No."

  lemma YesReplyIsSpam()
    ensures IsSpamVerdict(CallChatGpt(Completed(YesReply)))
  {
    PaddedYesIsSpam([], "Yes", ", this is spam.");
    assert [] + "Yes" == "Yes";
  }

  lemma NoReplyIsNotSpam()
    ensures !IsSpamVerdict(CallChatGpt(Completed(NoReply)))
  {
    OtherAnswerIsNotSpam(NoReply);
  }

  /** A reported spam message is sent to the classifier, which calls it
      spam; the bot deletes message 1 of chat 1 and bans user 9. */
  lemma SpamIsRemoved(t: Template)
    ensures var o := Answer(Completed(YesReply));
      var s1 := Step(t, Init(), MessageUpdate(Some(SpamMessage)), o).state;
      var r := Step(t, s1, Report(1, 1), o);
      && r.request == Some(Request(Key(1, 1), BuildPrompt(t, SpamText)))
      && r.commands == [DeleteMessage(1, 1), BanChatMember(1, 9)]
  {
    var o := Answer(Completed(YesReply));
    ReportAfterArrival(t, SpamMessage, o);
    YesReplyIsSpam();
    assert HandleSpamAction(1, 1, 9, true, true).attempted == [DeleteMessage(1, 1), BanChatMember(1, 9)];
  }

  /** The prompt of that request quotes the reported text verbatim, for the
      prompt the bot uses. */
  lemma SpamPromptQuotesText()
    ensures QuotedContent(SourceTemplate, BuildPrompt(SourceTemplate, SpamText)) == Some(SpamText)
  {
    PromptRoundTrip(SourceTemplate, SpamText, BuildPrompt(SourceTemplate, SpamText));
  }

  /** A reported message the classifier calls innocent is left alone. */
  lemma InnocentIsKept(t: Template)
    ensures var o := Answer(Completed(NoReply));
      var s1 := Step(t, Init(), MessageUpdate(Some(InnocentMessage)), o).state;
      var r := Step(t, s1, Report(1, 2), o);
      && r.request == Some(Request(Key(1, 2), BuildPrompt(t, InnocentText)))
      && r.commands == []
  {
    var o := Answer(Completed(NoReply));
    ReportAfterArrival(t, InnocentMessage, o);
    NoReplyIsNotSpam();
  }

  /** Two reports of the same message: one request, one enforcement. */
  lemma SecondReportIsIgnored(t: Template)
    ensures var o := Answer(Completed(YesReply));
      var s1 := Step(t, Init(), MessageUpdate(Some(SpamMessage)), o).state;
      var s2 := Step(t, s1, Report(1, 1), o).state;
      Step(t, s2, Report(1, 1), o) == Outcome(s2, None, [])
  {
  }

  /** When the classifier cannot be reached the reported message stays. */
  lemma UnreachableClassifierRemovesNothing(t: Template)
    ensures var s1 := Step(t, Init(), MessageUpdate(Some(SpamMessage)), Answer(Failed)).state;
      var r := Step(t, s1, Report(1, 1), Answer(Failed));
      r.request.Some? && r.commands == []
  {
    ReportAfterArrival(t, SpamMessage, Answer(Failed));
    FailOpen();
  }

  /** A thumbs-up does not ask the classifier anything. */
  lemma OtherEmojiIsIgnored(t: Template)
    ensures var o := Answer(Completed(YesReply));
      var s1 := Step(t, Init(), MessageUpdate(Some(SpamMessage)), o).state;
      var thumbsUp := ReactionUpdate(Some(MessageReaction(1, 1, [Emoji("\U{1F44D}"), Emoji(Trigger)])));
      Step(t, s1, thumbsUp, o) == Outcome(s1, None, [])
  {
  }

  /** A report about a message that was never cached asks nothing, does
      nothing, and keeps the message from ever being looked at again. */
  lemma UnknownMessageIsSkipped(t: Template)
    ensures var o := Answer(Completed(YesReply));
      var s1 := Step(t, Init(), MessageUpdate(Some(SpamMessage)), o).state;
      var r := Step(t, s1, Report(1, 3), o);
      && r.request == None && r.commands == []
      && Key(1, 3) in r.state.checked
  {
    var o := Answer(Completed(YesReply));
    var s1 := Step(t, Init(), MessageUpdate(Some(SpamMessage)), o).state;
    assert s1.cache.entries == map[Key(1, 1) := SpamMessage];
  }

  /** A message with neither text nor caption is never cached. */
  lemma MediaOnlyMessageIsNotCached(t: Template)
    ensures var photo := Message(1, 4, Some(9), "", "");
      Step(t, Init(), MessageUpdate(Some(photo)), Answer(Failed)).state == Init()
  {
  }
}
