/** The event handlers of the bot (bot.py, `handle_new_message`,
    `handle_reaction` and the handler registration of the main block) as a
    pure step function from a state and one incoming update to the next
    state and the outgoing requests.

    The module-level globals `message_cache` and `checked_message_ids` are
    the `State`. Everything the outside world decides while one update is
    handled (the language model's answer, whether the platform accepts the
    delete and the ban) is an `Oracle` parameter. The prompt wording is a
    `Template` parameter; the bot itself uses `SourceTemplate`. */
module Bot {
  import opened Wrappers
  import opened OrderedCache
  import opened Classifier
  import opened Enforcement

  /** `(chat.id, message_id)`: a message is identified within its chat. */
  datatype Key = Key(chat: int, id: int)

  /** The fields of a Telegram message the bot reads. A missing text or
      caption is the empty string (Python treats `None` and `""` alike in
      `text or caption`); `author` is `from_user.id`, absent for messages
      sent on behalf of a chat. */
  datatype Message = Message(chat: int, id: int, author: Option<int>, text: string, caption: string)

  function KeyOf(m: Message): Key
  {
    Key(m.chat, m.id)
  }

  /** `filters.TEXT | filters.CAPTION` */
  predicate HasTextOrCaption(m: Message)
  {
    m.text != "" || m.caption != ""
  }

  /** `text or caption or ""`: the text, or else the caption. */
  function Content(m: Message): (r: string)
    ensures r == "" <==> !HasTextOrCaption(m)
    ensures r == m.text || r == m.caption
    ensures m.text != "" ==> r == m.text
  {
    if m.text != "" then m.text else m.caption
  }

  /** One entry of `new_reaction`; only a plain emoji has an `emoji` field. */
  datatype Reaction =
    | Emoji(symbol: string)
    | CustomEmoji(customEmojiId: string)
    | Paid

  /** The pile-of-poo emoji U+1F4A9 that asks for a spam check. */
  const Trigger: string := "\U{1F4A9}"

  /** A `MessageReactionUpdated`: the message reacted to and the reactions
      now set on it. */
  datatype MessageReaction = MessageReaction(chat: int, messageId: int, newReaction: seq<Reaction>)

  /** The first reaction is the trigger emoji. Any other first reaction
      stops the handler: a different emoji by the early return, a custom or
      paid reaction by the missing `emoji` attribute, both before anything
      is changed. */
  predicate IsTrigger(r: MessageReaction)
  {
    |r.newReaction| > 0 && r.newReaction[0] == Emoji(Trigger)
  }

  /** An update as the handlers receive it; either payload may be absent. */
  datatype Event =
    | MessageUpdate(message: Option<Message>)
    | ReactionUpdate(reaction: Option<MessageReaction>)

  /** What the outside world decides while one update is handled: the
      language model's reply to the prompt, and whether the platform accepts
      the delete and the ban. */
  datatype Oracle = Oracle(completion: Completion, deleteOk: bool, banOk: bool)

  /** The prompt sent to the language model about the message `key`. */
  datatype Request = Request(key: Key, prompt: string)

  datatype State = State(cache: Cache<Key, Message>, checked: set<Key>)

  /** What handling one update does: the next state, the request to the
      language model if one is made, and the platform calls that follow its
      answer, in the order they are made. */
  datatype Outcome = Outcome(state: State, request: Option<Request>, commands: seq<Command>)

  /** The state at start-up: both globals empty. */
  function Init(): (s: State)
    ensures Inv(s) && s.checked == {}
    ensures s.cache.Len() == 0 && s.cache.entries == map[]
  {
    State(Empty(), {})
  }

  /** What the handlers keep true of the state: the cache is a well-formed
      ordered dictionary within its capacity, every entry is stored under
      its own key, and every cached message has a text or a caption. */
  ghost predicate Inv(s: State)
  {
    && s.cache.Valid()
    && s.cache.Len() <= MaxCacheSize
    && (forall k :: k in s.cache.entries ==> KeyOf(s.cache.entries[k]) == k)
    && (forall k :: k in s.cache.entries ==> HasTextOrCaption(s.cache.entries[k]))
  }

  /** `handle_new_message`: remember the message under its key, evicting
      the oldest entry when the cache outgrows its capacity. */
  function HandleNewMessage(s: State, message: Option<Message>): (r: State)
    ensures r.checked == s.checked
    ensures message.None? ==> r == s
    ensures message.Some? ==> r.cache == Record(s.cache, KeyOf(message.value), message.value)
  {
    match message
    case None => s
    case Some(m) => s.(cache := Record(s.cache, KeyOf(m), m))
  }

  /** The platform calls made once the classifier has judged message `m`,
      stored under `key`: on a spam verdict the message is deleted and its
      author banned. A message without an author makes `from_user.id`
      raise, which ends the handler before any platform call. */
  function Enforce(key: Key, m: Message, spam: bool, o: Oracle): (r: seq<Command>)
    ensures r == [] <==> !spam || m.author.None?
    ensures r != [] ==> r[0] == DeleteMessage(key.chat, key.id)
    ensures forall i :: 0 < i < |r| ==> r[i].BanChatMember?
    ensures forall c :: c in r ==> c.chatId == key.chat
  {
    if spam && m.author.Some? then
      HandleSpamAction(key.chat, key.id, m.author.value, o.deleteOk, o.banOk).attempted
    else
      []
  }

  /** The key a reaction is about. */
  function ReactionKey(r: MessageReaction): Key
  {
    Key(r.chat, r.messageId)
  }

  /** `handle_reaction`: only a trigger reaction leads anywhere. */
  function HandleReaction(t: Template, s: State, reaction: Option<MessageReaction>, o: Oracle): (r: Outcome)
    // a reaction never touches the cache, and only ever adds to the checked set
    ensures r.state.cache == s.cache
    ensures s.checked <= r.state.checked
    // anything but a trigger reaction is ignored
    ensures reaction.None? || !IsTrigger(reaction.value) ==> r == Outcome(s, None, [])
  {
    if reaction.None? || !IsTrigger(reaction.value) then Outcome(s, None, [])
    else CheckOnce(t, s, ReactionKey(reaction.value), o)
  }

  /** The rest of `handle_reaction` for the message `key`. The key is marked
      as checked before the cache is consulted, so a message is looked at
      no more than once, even when it was not in the cache. */
  function CheckOnce(t: Template, s: State, key: Key, o: Oracle): (r: Outcome)
    ensures r.state.cache == s.cache
    ensures r.state.checked == s.checked + {key}
    // the classifier is asked exactly about an unchecked, cached message ...
    ensures r.request.Some? <==> key !in s.checked && key in s.cache.entries
    // ... with a prompt that quotes its content
    ensures r.request.Some? ==> r.request.value == Request(key, BuildPrompt(t, Content(s.cache.entries[key])))
    // and no platform call is made without asking the classifier first
    ensures r.request.None? ==> r.commands == []
  {
    if key in s.checked then Outcome(s, None, [])
    else
      var s' := s.(checked := s.checked + {key});
      match Get(s.cache, key)
      case None => Outcome(s', None, [])
      case Some(m) =>
        var result := CallChatGpt(o.completion);
        Outcome(s', Some(Request(key, BuildPrompt(t, Content(m)))), Enforce(key, m, IsSpamVerdict(result), o))
  }

  /** A message reacted to a second time is not classified again. */
  lemma ReactionIsIdempotent(t: Template, s: State, reaction: Option<MessageReaction>, o1: Oracle, o2: Oracle)
    ensures var s1 := HandleReaction(t, s, reaction, o1).state;
      HandleReaction(t, s1, reaction, o2) == Outcome(s1, None, [])
  {
  }

  /** On a spam verdict about a message with an author, the bot first
      deletes the message and then, only if the delete went through, bans
      its author. */
  lemma SpamVerdictEnforces(t: Template, s: State, key: Key, user: int, o: Oracle)
    requires key !in s.checked && key in s.cache.entries
    requires s.cache.entries[key].author == Some(user)
    requires IsSpamVerdict(CallChatGpt(o.completion))
    ensures CheckOnce(t, s, key, o).commands ==
      [DeleteMessage(key.chat, key.id)] + (if o.deleteOk then [BanChatMember(key.chat, user)] else [])
  {
    var m := s.cache.entries[key];
    assert CheckOnce(t, s, key, o).commands == Enforce(key, m, true, o);
    EnforceOnSpam(key, m, user, o);
  }

  lemma EnforceOnSpam(key: Key, m: Message, user: int, o: Oracle)
    requires m.author == Some(user)
    ensures Enforce(key, m, true, o) ==
      [DeleteMessage(key.chat, key.id)] + (if o.deleteOk then [BanChatMember(key.chat, user)] else [])
  {
    var a := HandleSpamAction(key.chat, key.id, user, o.deleteOk, o.banOk).attempted;
    if o.deleteOk {
      assert a == [DeleteMessage(key.chat, key.id), BanChatMember(key.chat, user)];
    } else {
      assert a == [DeleteMessage(key.chat, key.id)];
    }
  }

  /** Without a spam verdict no platform call is made. */
  lemma NoSpamVerdictSparesMessage(t: Template, s: State, key: Key, o: Oracle)
    requires !IsSpamVerdict(CallChatGpt(o.completion))
    ensures CheckOnce(t, s, key, o).commands == []
  {
  }

  /** Fail-open: when the language model cannot be reached, no platform call
      is made. */
  lemma FailedClassifierSparesMessage(t: Template, s: State, reaction: Option<MessageReaction>, o: Oracle)
    requires o.completion.Failed?
    ensures HandleReaction(t, s, reaction, o).commands == []
  {
    if reaction.Some? && IsTrigger(reaction.value) {
      FailOpen();
      NoSpamVerdictSparesMessage(t, s, ReactionKey(reaction.value), o);
    }
  }

  /** The dispatcher: a message update reaches `handle_new_message` only
      when the message has a text or a caption; reaction updates always
      reach `handle_reaction`. */
  function Step(t: Template, s: State, ev: Event, o: Oracle): (r: Outcome)
    ensures ev.MessageUpdate? ==> r.request.None? && r.commands == [] && r.state.checked == s.checked
    ensures ev.MessageUpdate? && (ev.message.None? || !HasTextOrCaption(ev.message.value)) ==> r.state == s
    ensures ev.ReactionUpdate? ==> r.state.cache == s.cache
  {
    match ev
    case MessageUpdate(message) =>
      if message.Some? && HasTextOrCaption(message.value)
      then Outcome(HandleNewMessage(s, message), None, [])
      else Outcome(s, None, [])
    case ReactionUpdate(reaction) => HandleReaction(t, s, reaction, o)
  }

  /** Every step keeps the state invariant. */
  lemma StepPreservesInv(t: Template, s: State, ev: Event, o: Oracle)
    requires Inv(s)
    ensures Inv(Step(t, s, ev, o).state)
  {
    if ev.MessageUpdate? && ev.message.Some? && HasTextOrCaption(ev.message.value) {
      var m := ev.message.value;
      var c := Record(s.cache, KeyOf(m), m);
      forall k | k in c.entries
        ensures KeyOf(c.entries[k]) == k && HasTextOrCaption(c.entries[k])
      {
        if k != KeyOf(m) {
          assert c.entries[k] == s.cache.entries[k];
        }
      }
    }
  }

  /** A message with a text or a caption is cached until evicted: right
      after it arrives it can be looked up under its key. */
  lemma NewMessageIsCached(t: Template, s: State, m: Message, o: Oracle)
    requires Inv(s) && HasTextOrCaption(m)
    ensures Get(Step(t, s, MessageUpdate(Some(m)), o).state.cache, KeyOf(m)) == Some(m)
  {
  }

  /** The new state never depends on what the language model answers or on
      whether the platform accepts the delete and the ban. */
  lemma StepStateIgnoresOracle(t: Template, s: State, ev: Event, o1: Oracle, o2: Oracle)
    ensures Step(t, s, ev, o1).state == Step(t, s, ev, o2).state
  {
  }

  /** An update together with the outside world's answers while it is
      handled. */
  datatype Input = Input(event: Event, oracle: Oracle)

  /** What a run of updates does: the final state, and all requests to the
      language model and all platform calls, each in the order made. */
  datatype Trace = Trace(state: State, requests: seq<Request>, commands: seq<Command>)

  /** A trace followed by one more step. */
  function Extend(prev: Trace, next: Outcome): (r: Trace)
    ensures |r.requests| == |prev.requests| + (if next.request.Some? then 1 else 0)
    ensures r.requests[..|prev.requests|] == prev.requests
    ensures next.request.Some? ==> r.requests[|prev.requests|] == next.request.value
    ensures r.commands == prev.commands + next.commands
    ensures r.state == next.state
  {
    Trace(next.state, prev.requests + (if next.request.Some? then [next.request.value] else []), prev.commands + next.commands)
  }

  /** Handling a sequence of updates one after the other. */
  function Run(t: Template, s: State, inputs: seq<Input>): Trace
    decreases |inputs|
  {
    if inputs == [] then Trace(s, [], [])
    else
      var n := |inputs|;
      var prev := Run(t, s, inputs[..n - 1]);
      Extend(prev, Step(t, prev.state, inputs[n - 1].event, inputs[n - 1].oracle))
  }

  /** Every run keeps the state invariant. */
  lemma {:induction false} RunPreservesInv(t: Template, s: State, inputs: seq<Input>)
    requires Inv(s)
    ensures Inv(Run(t, s, inputs).state)
    decreases |inputs|
  {
    if inputs != [] {
      var n := |inputs|;
      RunPreservesInv(t, s, inputs[..n - 1]);
      StepPreservesInv(t, Run(t, s, inputs[..n - 1]).state, inputs[n - 1].event, inputs[n - 1].oracle);
    }
  }

  /** Each update asks the classifier at most once. */
  lemma {:induction false} RunStepsInOrder(t: Template, s: State, inputs: seq<Input>)
    ensures |Run(t, s, inputs).requests| <= |inputs|
    decreases |inputs|
  {
    if inputs != [] {
      RunStepsInOrder(t, s, inputs[..|inputs| - 1]);
    }
  }

  /** Handling `a` and then `b` is handling `a + b`: the second run starts
      from the state the first left, and the requests and platform calls of
      the two runs follow each other. */
  lemma {:induction false} RunComposes(t: Template, s: State, a: seq<Input>, b: seq<Input>)
    ensures var first := Run(t, s, a);
      var second := Run(t, first.state, b);
      && Run(t, s, a + b).state == second.state
      && Run(t, s, a + b).requests == first.requests + second.requests
      && Run(t, s, a + b).commands == first.commands + second.commands
    decreases |b|
  {
    var first := Run(t, s, a);
    if b == [] {
      assert a + b == a;
      assert first.requests + [] == first.requests;
      assert first.commands + [] == first.commands;
    } else {
      var n := |b|;
      var front := b[..n - 1];
      assert (a + b)[..|a + b| - 1] == a + front;
      assert (a + b)[|a + b| - 1] == b[n - 1];
      RunComposes(t, s, a, front);
      var mid := Run(t, first.state, front);
      var next := Step(t, mid.state, b[n - 1].event, b[n - 1].oracle);
      ExtendAppends(first, mid, next);
    }
  }

  lemma ExtendAppends(first: Trace, mid: Trace, next: Outcome)
    ensures var whole := Trace(mid.state, first.requests + mid.requests, first.commands + mid.commands);
      && Extend(whole, next).requests == first.requests + Extend(mid, next).requests
      && Extend(whole, next).commands == first.commands + Extend(mid, next).commands
  {
    var extra := if next.request.Some? then [next.request.value] else [];
    assert (first.requests + mid.requests) + extra == first.requests + (mid.requests + extra);
    assert (first.commands + mid.commands) + next.commands == first.commands + (mid.commands + next.commands);
  }

  /** The keys of a sequence of requests. */
  function RequestKeys(requests: seq<Request>): (ks: seq<Key>)
    ensures |ks| == |requests|
    ensures forall i :: 0 <= i < |requests| ==> ks[i] == requests[i].key
  {
    seq(|requests|, i requires 0 <= i < |requests| => requests[i].key)
  }

  /** No message of the trace was sent to the classifier twice, none that
      was checked at the start, and each one sent is checked at the end. */
  ghost predicate ClassifiedAtMostOnce(initial: set<Key>, r: Trace)
  {
    && NoRepeats(RequestKeys(r.requests))
    && (forall i :: 0 <= i < |r.requests| ==> r.requests[i].key !in initial && r.requests[i].key in r.state.checked)
    && initial <= r.state.checked
  }

  /** A step asks the classifier about a message only if it was not checked
      before, and marks it checked; it never unmarks anything. */
  ghost predicate FreshRequest(s: State, r: Outcome)
  {
    && s.checked <= r.state.checked
    && (r.request.Some? ==> r.request.value.key !in s.checked && r.request.value.key in r.state.checked)
  }

  lemma StepRequestIsFresh(t: Template, s: State, ev: Event, o: Oracle)
    ensures FreshRequest(s, Step(t, s, ev, o))
  {
  }

  /** A message is sent to the classifier at most once, however many
      reactions it receives and however often it is cached again: along any
      run, no key is classified twice, none that was already checked at the
      start, and every classified key ends up checked. */
  lemma {:induction false} RunClassifiesAtMostOnce(t: Template, s: State, inputs: seq<Input>)
    ensures ClassifiedAtMostOnce(s.checked, Run(t, s, inputs))
    decreases |inputs|
  {
    if inputs == [] {
      assert RequestKeys([]) == [];
    } else {
      var n := |inputs|;
      RunClassifiesAtMostOnce(t, s, inputs[..n - 1]);
      StepKeepsAtMostOnce(t, s.checked, Run(t, s, inputs[..n - 1]), inputs[n - 1]);
    }
  }

  lemma StepKeepsAtMostOnce(t: Template, initial: set<Key>, prev: Trace, input: Input)
    requires ClassifiedAtMostOnce(initial, prev)
    ensures ClassifiedAtMostOnce(initial, Extend(prev, Step(t, prev.state, input.event, input.oracle)))
  {
    StepRequestIsFresh(t, prev.state, input.event, input.oracle);
    ExtendKeepsAtMostOnce(initial, prev, Step(t, prev.state, input.event, input.oracle));
  }

  lemma ExtendKeepsAtMostOnce(initial: set<Key>, prev: Trace, next: Outcome)
    requires ClassifiedAtMostOnce(initial, prev)
    requires FreshRequest(prev.state, next)
    ensures ClassifiedAtMostOnce(initial, Extend(prev, next))
  {
    var r := Extend(prev, next);
    var ks := RequestKeys(r.requests);
    var n := |prev.requests|;
    assert ks[..n] == RequestKeys(prev.requests);
    if next.request.Some? {
      var k := next.request.value.key;
      assert ks[n] == k;
      forall i | 0 <= i < n ensures ks[..n][i] != k {
        assert ks[..n][i] == prev.requests[i].key;
      }
      assert ks[..|ks| - 1] == ks[..n];
    } else {
      assert ks == ks[..n];
    }
  }

  /** Every platform call of a step belongs to the request of that step: it
      targets the chat of the classified message, a delete targets that
      message, and only the first call can be a delete. */
  ghost predicate CommandsFollowRequest(r: Outcome)
  {
    && (forall i :: 0 <= i < |r.commands| ==>
          && r.request.Some?
          && r.commands[i].chatId == r.request.value.key.chat
          && (r.commands[i].DeleteMessage? ==> r.commands[i].messageId == r.request.value.key.id))
    && (forall i :: 0 < i < |r.commands| ==> r.commands[i].BanChatMember?)
  }

  lemma CheckOnceCommandsFollowRequest(t: Template, s: State, key: Key, o: Oracle)
    ensures CommandsFollowRequest(CheckOnce(t, s, key, o))
    ensures CheckOnce(t, s, key, o).commands != [] ==> CheckOnce(t, s, key, o).request.value.key == key
  {
    var r := CheckOnce(t, s, key, o);
    if r.request.Some? {
      var m := s.cache.entries[key];
      assert r.commands == Enforce(key, m, IsSpamVerdict(CallChatGpt(o.completion)), o);
      EnforcementFollowsRequest(r, key);
    }
  }

  lemma EnforcementFollowsRequest(r: Outcome, key: Key)
    requires r.request.Some? && r.request.value.key == key
    requires r.commands != [] ==> r.commands[0] == DeleteMessage(key.chat, key.id)
    requires forall i :: 0 < i < |r.commands| ==> r.commands[i].BanChatMember?
    requires forall c :: c in r.commands ==> c.chatId == key.chat
    ensures CommandsFollowRequest(r)
  {
    forall i | 0 <= i < |r.commands|
      ensures r.commands[i].chatId == key.chat
      ensures r.commands[i].DeleteMessage? ==> r.commands[i].messageId == key.id
    {
      assert r.commands[i] in r.commands;
    }
  }

  lemma StepCommandsFollowRequest(t: Template, s: State, ev: Event, o: Oracle)
    ensures CommandsFollowRequest(Step(t, s, ev, o))
  {
    if ev.ReactionUpdate? && ev.reaction.Some? && IsTrigger(ev.reaction.value) {
      CheckOnceCommandsFollowRequest(t, s, ReactionKey(ev.reaction.value), o);
    }
  }

  /** No message of the trace is deleted twice, and each message deleted
      was sent to the classifier. */
  ghost predicate DeletedAtMostOnce(r: Trace)
  {
    && (forall i :: 0 <= i < |r.commands| && r.commands[i].DeleteMessage? ==>
          Key(r.commands[i].chatId, r.commands[i].messageId) in RequestKeys(r.requests))
    && (forall i, j :: 0 <= i < j < |r.commands| && r.commands[i].DeleteMessage? ==> r.commands[j] != r.commands[i])
  }

  /** Enforcement happens at most once per message: along any run, no
      `DeleteMessage` call is made twice, and only messages that were sent to
      the classifier are deleted. */
  lemma {:induction false} RunDeletesAtMostOnce(t: Template, s: State, inputs: seq<Input>)
    ensures DeletedAtMostOnce(Run(t, s, inputs))
    decreases |inputs|
  {
    if inputs != [] {
      var n := |inputs|;
      var prev := Run(t, s, inputs[..n - 1]);
      var input := inputs[n - 1];
      RunDeletesAtMostOnce(t, s, inputs[..n - 1]);
      RunClassifiesAtMostOnce(t, s, inputs[..n - 1]);
      StepKeepsDeletedAtMostOnce(t, s.checked, prev, input);
    }
  }

  lemma StepKeepsDeletedAtMostOnce(t: Template, initial: set<Key>, prev: Trace, input: Input)
    requires ClassifiedAtMostOnce(initial, prev) && DeletedAtMostOnce(prev)
    ensures DeletedAtMostOnce(Extend(prev, Step(t, prev.state, input.event, input.oracle)))
  {
    StepRequestIsFresh(t, prev.state, input.event, input.oracle);
    StepCommandsFollowRequest(t, prev.state, input.event, input.oracle);
    ExtendKeepsDeletedAtMostOnce(initial, prev, Step(t, prev.state, input.event, input.oracle));
  }

  lemma ExtendKeepsDeletedAtMostOnce(initial: set<Key>, prev: Trace, next: Outcome)
    requires ClassifiedAtMostOnce(initial, prev) && DeletedAtMostOnce(prev)
    requires FreshRequest(prev.state, next) && CommandsFollowRequest(next)
    ensures DeletedAtMostOnce(Extend(prev, next))
  {
    var r := Extend(prev, next);
    var n := |prev.commands|;
    var ks := RequestKeys(r.requests);
    var pks := RequestKeys(prev.requests);
    forall i | 0 <= i < |pks| ensures pks[i] in ks {
      assert ks[i] == pks[i];
    }
    if next.commands != [] {
      assert next.commands[0].chatId == next.request.value.key.chat;
      var k := next.request.value.key;
      assert ks[|prev.requests|] == k;
      assert k !in pks by {
        forall i | 0 <= i < |pks| ensures pks[i] != k {
          assert pks[i] == prev.requests[i].key;
        }
      }
      forall i | 0 <= i < |r.commands| && r.commands[i].DeleteMessage?
        ensures Key(r.commands[i].chatId, r.commands[i].messageId) in ks
      {
        if i >= n {
          assert r.commands[i] == next.commands[i - n];
        } else {
          assert r.commands[i] == prev.commands[i];
        }
      }
      forall i, j | 0 <= i < j < |r.commands| && r.commands[i].DeleteMessage?
        ensures r.commands[j] != r.commands[i]
      {
        if j < n {
          assert r.commands[i] == prev.commands[i] && r.commands[j] == prev.commands[j];
        } else if i < n {
          assert r.commands[i] == prev.commands[i];
          assert r.commands[j] == next.commands[j - n];
        } else {
          assert r.commands[j] == next.commands[j - n];
        }
      }
    } else {
      assert r.commands == prev.commands;
    }
  }
}
