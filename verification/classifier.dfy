/** The spam classifier of the bot (bot.py, `build_prompt`, `call_chatgpt`
    and the verdict test of `handle_reaction`).

    The wording of the prompt is data: a `Template` holding the sentences of
    `build_prompt`, the EXAMPLE_SPAM list and the list of spam traits, with
    `SourceTemplate` the one the bot uses. The language model itself is
    outside the model: its answer to a prompt is an oracle `Completion`. */
module Classifier {
  import opened Text
  import opened Wrappers

  /** The fixed text of every prompt; `examples` and `traits` are quoted as
      bullet lines, in list order. */
  datatype Template = Template(
    introduction: string,
    examplesHeading: string,
    examples: seq<string>,
    traitsHeading: string,
    traits: seq<string>,
    question: string,
    instruction: string)

  /** The sentences of `build_prompt`, EXAMPLE_SPAM and the trait list. */
  const SourceTemplate: Template := Template(
    "You are a Telegram group moderation bot trained to detect and filter spam messages.",
    "The following messages are real examples of spam banned from the group:",
    [
      "Здравствуйте, возьму 3 человек, 170 долларов в день. Пишите плюс в личные сообщения, расскажу подробности",
      "Ищем пару ответственных людей (от 18 лет) для удаленной деятельности (легально). Подробности — в личные сообщения!",
      "Хочешь получать дополнительный доход? Можно зарабатывать до 19 000₽ в день без сложностей. Заинтересован? Пиши в личные сообщения",
      "Здравствуйте, 700 долларов за 3 дня. Пишите старт в личные сообщения, расскажу детали",
      "!!!! Всем привет, ищу партнеров для удаленного сотрудничества в сфере криптовалюты, 21+. За подробностями в лс",
      "Всем привет! Для тех, кто хочет зарабатывать дополнительно, есть возможность получить от 200 долларов в день. Пишите в личку, если заинтересованы!",
      "Всем привет! Для тех, кто хочет зарабатывать дополнительно, есть возможность получить от 200 долларов в день. Пишите в личку, если заинтересованы!"
    ],
    "Spam in this group typically includes messages with one or more of the following traits:",
    [
      "Promises of high income with little to no effort",
      "Vague job offers or business opportunities",
      "Encouragement to message privately (e.g., 'пишите в лс', 'пиши в личные сообщения')",
      "References to cryptocurrency or earnings in USD/RUB",
      "Excessive use of emojis or exclamation marks",
      "Artificial urgency (e.g., 'только сегодня', 'осталось 2 места')",
      "More than 12 emojis is *always* spam"
    ],
    "Determine whether the following message is spam:",
    "Reply with a single word: YES if it is spam, or NO if it is not.")

  /** Each entry as a bullet line `- <entry>`. */
  function Bulleted(entries: seq<string>): (r: seq<string>)
    ensures |r| == |entries|
    ensures forall i :: 0 <= i < |entries| ==> r[i] == "- " + entries[i]
  {
    seq(|entries|, i requires 0 <= i < |entries| => "- " + entries[i])
  }

  /** `build_prompt(message_text)` */
  function BuildPrompt(t: Template, messageText: string): string
  {
    t.introduction + "\n"
    + t.examplesHeading + "\n"
    + Join(Bulleted(t.examples), "\n") + "\n\n"
    + t.traitsHeading + "\n"
    + Join(Bulleted(t.traits), "\n") + "\n\n"
    + t.question + "\n\"" + messageText + "\"\n\n"
    + t.instruction
  }

  /** Everything of a prompt before the message text; it ends with the
      opening double quote. */
  function ContentOpening(t: Template): string
  {
    t.introduction + "\n"
    + t.examplesHeading + "\n"
    + Join(Bulleted(t.examples), "\n") + "\n\n"
    + t.traitsHeading + "\n"
    + Join(Bulleted(t.traits), "\n") + "\n\n"
    + t.question + "\n\""
  }

  /** Everything of a prompt after the message text; it starts with the
      closing double quote. */
  function ContentClosing(t: Template): string
  {
    "\"\n\n" + t.instruction
  }

  /** The message text quoted in a prompt, if `prompt` has the shape of one. */
  function QuotedContent(t: Template, prompt: string): (r: Option<string>)
    ensures r.Some? ==> |ContentOpening(t)| + |r.value| + |ContentClosing(t)| == |prompt|
  {
    var n := |prompt|;
    var opening := ContentOpening(t);
    var closing := ContentClosing(t);
    if |opening| + |closing| <= n && prompt[..|opening|] == opening && prompt[n - |closing|..] == closing
    then Some(prompt[|opening|..n - |closing|])
    else None
  }

  /** The prompt holds the message text verbatim, between double quotes. */
  lemma PromptQuotesContent(t: Template, messageText: string)
    ensures BuildPrompt(t, messageText) == ContentOpening(t) + messageText + ContentClosing(t)
    ensures ContentOpening(t)[|ContentOpening(t)| - 1] == '"' && ContentClosing(t)[0] == '"'
  {
  }

  /** The message text can be read back from the prompt, and a prompt is
      determined by the text it quotes. */
  lemma PromptRoundTrip(t: Template, messageText: string, prompt: string)
    ensures QuotedContent(t, BuildPrompt(t, messageText)) == Some(messageText)
    ensures QuotedContent(t, prompt) == Some(messageText) ==> prompt == BuildPrompt(t, messageText)
  {
    PromptQuotesContent(t, messageText);
    var opening := ContentOpening(t);
    var closing := ContentClosing(t);
    var p := opening + messageText + closing;
    assert p[..|opening|] == opening;
    assert p[|p| - |closing|..] == closing;
    assert p[|opening|..|p| - |closing|] == messageText;
    if QuotedContent(t, prompt) == Some(messageText) {
      var n := |prompt|;
      assert prompt == prompt[..|opening|] + prompt[|opening|..n - |closing|] + prompt[n - |closing|..];
    }
  }

  /** The prompt before the list of examples. */
  function ExamplesIntro(t: Template): string
  {
    t.introduction + "\n" + t.examplesHeading + "\n"
  }

  /** The prompt after the list of examples. */
  function ExamplesOutro(t: Template, messageText: string): string
  {
    "\n\n"
    + t.traitsHeading + "\n"
    + Join(Bulleted(t.traits), "\n") + "\n\n"
    + t.question + "\n\"" + messageText + "\"\n\n"
    + t.instruction
  }

  lemma PromptAroundExamples(t: Template, messageText: string)
    ensures BuildPrompt(t, messageText) == ExamplesIntro(t) + Join(Bulleted(t.examples), "\n") + ExamplesOutro(t, messageText)
  {
  }

  /** The prompt up to the line of example `i`: the introduction, the
      examples heading and the lines of all earlier examples. */
  function TextBeforeExample(t: Template, i: nat): string
    requires i <= |t.examples|
  {
    ExamplesIntro(t) + JoinBefore(Bulleted(t.examples), "\n", i)
  }

  /** The prompt after the line of example `i`. */
  function TextAfterExample(t: Template, i: nat, messageText: string): string
    requires i < |t.examples|
  {
    JoinAfter(Bulleted(t.examples), "\n", i) + ExamplesOutro(t, messageText)
  }

  /** The prompt lists every example as a line `- <example>` of its own (a
      line break right before and right after it), in list order: the text
      before the line of example `i + 1` is the text before the line of
      example `i`, then that line. */
  lemma PromptListsExamples(t: Template, messageText: string, i: nat)
    requires i < |t.examples|
    ensures BuildPrompt(t, messageText) == TextBeforeExample(t, i) + "- " + t.examples[i] + TextAfterExample(t, i, messageText)
    ensures TextBeforeExample(t, i)[|TextBeforeExample(t, i)| - 1] == '\n'
    ensures TextAfterExample(t, i, messageText)[0] == '\n'
    ensures TextBeforeExample(t, i + 1) == TextBeforeExample(t, i) + "- " + t.examples[i] + "\n"
  {
    var lines := Bulleted(t.examples);
    var intro := ExamplesIntro(t);
    var outro := ExamplesOutro(t, messageText);
    JoinSplitAt(lines, "\n", i);
    PromptAroundExamples(t, messageText);
    var before := JoinBefore(lines, "\n", i);
    var after := JoinAfter(lines, "\n", i);
    SplitAround(intro, before, "- ", t.examples[i], after, outro);
    Regroup(intro, before, "- " + t.examples[i], "\n");
    assert "- " + t.examples[i] == lines[i];
    if i > 0 {
      assert before[|before| - 1] == '\n';
    }
    assert intro[|intro| - 1] == '\n';
    assert outro[0] == '\n';
  }

  lemma SplitAround(a: string, b: string, c: string, d: string, e: string, f: string)
    ensures a + (b + (c + d) + e) + f == (a + b) + c + d + (e + f)
  {
  }

  /** The oracle answer of the language model for one request. */
  datatype Completion =
    | Completed(content: string)   // the text of the first choice
    | Failed                       // any exception, including a missing content

  /** `call_chatgpt(prompt)`: the stripped answer, or "NO" on any failure.
      Either way the result neither starts nor ends with whitespace. */
  function CallChatGpt(completion: Completion): (r: string)
    ensures r == [] || (!IsSpace(r[0]) && !IsSpace(r[|r| - 1]))
    ensures completion.Completed? ==> r == Strip(completion.content)
    ensures completion.Failed? ==> r == "NO"
  {
    match completion
    case Completed(content) => Strip(content)
    case Failed => "NO"
  }

  /** A three-letter word that reads "yes" ignoring case. */
  predicate YesInAnyCase(w: string)
  {
    |w| == 3 && w[0] in "yY" && w[1] in "eE" && w[2] in "sS"
  }

  /** `result.lower().startswith("yes")`: the verdict is spam exactly when
      the answer starts with "yes" in any letter case. */
  predicate IsSpamVerdict(result: string): (b: bool)
    ensures b <==> |result| >= 3 && YesInAnyCase(result[..3])
  {
    var low := Lower(result);
    assert |result| >= 3 ==> low[..3] == [low[0], low[1], low[2]];
    StartsWith(low, "yes")
  }

  /** Fail-open: a failed classifier call never yields a spam verdict. */
  lemma FailOpen()
    ensures CallChatGpt(Failed) == "NO"
    ensures !IsSpamVerdict(CallChatGpt(Failed))
  {
  }

  /** Any answer that is whitespace, then "yes" in any letter case, then
      anything at all, is a spam verdict. */
  lemma PaddedYesIsSpam(pre: string, yes: string, rest: string)
    requires AllSpace(pre) && YesInAnyCase(yes)
    ensures IsSpamVerdict(CallChatGpt(Completed(pre + yes + rest)))
  {
    var t := yes + rest;
    assert pre + yes + rest == pre + t;
    assert !IsSpace(t[2]) && t[..3] == yes;
    TrimLeftPadded(pre, t);
    TrimRightKeepsNonSpace(t, 2);
    var r := TrimRight(t);
    PrefixOfPrefix(t, r, 3);
  }

  /** An answer whose first character is neither whitespace nor a "y" in
      any case is not a spam verdict. */
  lemma OtherAnswerIsNotSpam(content: string)
    requires |content| > 0 && !IsSpace(content[0]) && content[0] !in "yY"
    ensures !IsSpamVerdict(CallChatGpt(Completed(content)))
  {
    TrimLeftPadded([], content);
    assert [] + content == content;
    TrimRightKeepsNonSpace(content, 0);
    var r := TrimRight(content);
    assert r[0] == content[0];
  }

  /** The answer is whitespace up to index `i`, then "yes" in any case. */
  ghost predicate PaddedYesAt(content: string, i: int)
  {
    0 <= i <= |content| - 3 && AllSpace(content[..i]) && YesInAnyCase(content[i..i + 3])
  }

  /** Conversely, every spam verdict comes from such an answer. */
  lemma SpamAnswerIsPaddedYes(content: string)
    requires IsSpamVerdict(CallChatGpt(Completed(content)))
    ensures exists i :: PaddedYesAt(content, i)
  {
    var l := TrimLeft(content);
    var r := TrimRight(l);
    PaddedYesFromTrim(content, l, r);
  }

  lemma PaddedYesFromTrim(content: string, l: string, r: string)
    requires |l| <= |content| && l == content[|content| - |l|..] && AllSpace(content[..|content| - |l|])
    requires |r| <= |l| && r == l[..|r|]
    requires |r| >= 3 && YesInAnyCase(r[..3])
    ensures PaddedYesAt(content, |content| - |l|)
  {
    var i := |content| - |l|;
    PrefixOfPrefix(l, r, 3);
    PrefixOfSuffix(content, i, 3);
  }

  /** `rstrip()` keeps every character up to the last non-whitespace one. */
  lemma {:induction false} TrimRightKeepsNonSpace(t: string, j: nat)
    requires j < |t| && !IsSpace(t[j])
    ensures j < |TrimRight(t)|
    decreases |t|
  {
    if IsSpace(t[|t| - 1]) {
      TrimRightKeepsNonSpace(t[..|t| - 1], j);
    }
  }

  lemma PrefixOfPrefix(t: string, r: string, k: nat)
    requires |r| <= |t| && r == t[..|r|] && k <= |r|
    ensures r[..k] == t[..k]
  {
  }

  lemma PrefixOfSuffix(s: string, i: nat, k: nat)
    requires i + k <= |s|
    ensures s[i..][..k] == s[i..i + k]
  {
  }
}
