/**
 * The chat pane of one exchange: the prompt sent to the chatbot, the handling
 * of one participant message (the soft-limit rule, auto-dismissal, the
 * chatbot reply), the start of an exchange, and the merge of the exchange's
 * cue message into the thread.
 */
module MessagesPane {
  import opened Types

  datatype Role = System | AssistantRole | UserRole

  /** One entry of a chatbot prompt. */
  datatype ChatEntry = ChatEntry(role: Role, content: string)

  /** The fixed system instruction that opens every prompt. */
  const InterviewPrompt: string :=
    "Vous êtes un chatbot qui conduit une interview avec une personne qui vient d’assister à un concert de musique électroacoustique. Vous posez une question principale et continuez avec d’autres questions afin de préciser les réponses données."

  /** A thread message as a prompt entry: assistant when an assistant sent it, user otherwise. */
  function EntryOf(m: Message): (e: ChatEntry)
    ensures e.content == m.content
    ensures e.role == AssistantRole <==> m.sender.agentType == Assistant
    ensures e.role != System
  {
    ChatEntry(if m.sender.agentType == Assistant then AssistantRole else UserRole, m.content)
  }

  /**
   * The prompt for a new message: the system entry, one entry per earlier
   * message of the thread in order, and the new message as a user entry.
   */
  function Prompt(thread: seq<Message>, userMessage: Message): (p: seq<ChatEntry>)
    ensures |p| == |thread| + 2
    ensures p[0] == ChatEntry(System, InterviewPrompt)
    ensures forall k :: 0 <= k < |thread| ==> p[k + 1] == EntryOf(thread[k])
    ensures p[|thread| + 1] == ChatEntry(UserRole, userMessage.content)
  {
    [ChatEntry(System, InterviewPrompt)]
      + seq(|thread|, k requires 0 <= k < |thread| => EntryOf(thread[k]))
      + [ChatEntry(UserRole, userMessage.content)]
  }

  /** Only the first entry of a prompt has the system role. */
  lemma PromptSystemOnlyFirst(thread: seq<Message>, userMessage: Message, k: int)
    requires 0 < k < |thread| + 2
    ensures Prompt(thread, userMessage)[k].role != System
  {
    if k <= |thread| {
      assert Prompt(thread, userMessage)[k] == EntryOf(thread[k - 1]);
    }
  }

  /** `buildPrompt`: pushes the system entry, each thread message, then the new message. */
  method BuildPrompt(thread: seq<Message>, userMessage: Message) returns (p: seq<ChatEntry>)
    ensures p == Prompt(thread, userMessage)
  {
    p := [ChatEntry(System, InterviewPrompt)];
    var i := 0;
    while i < |thread|
      invariant 0 <= i <= |thread|
      invariant |p| == i + 1 && p[0] == ChatEntry(System, InterviewPrompt)
      invariant forall k :: 0 <= k < i ==> p[k + 1] == EntryOf(thread[k])
    {
      var msg := thread[i];
      var msgRole := if msg.sender.agentType == Assistant then AssistantRole else UserRole;
      p := p + [ChatEntry(msgRole, msg.content)];
      i := i + 1;
    }
    p := p + [ChatEntry(UserRole, userMessage.content)];
  }

  /** The agent the chatbot's messages and the cue message are attributed to. */
  const Interviewer: Agent := Agent("1", Assistant, None, "Interviewer")

  /** The message a participant sends. */
  function ParticipantMessage(id: string, content: string, participantId: string): (m: Message)
    ensures m.id == id && m.content == content && m.sender.id == participantId && m.sender.agentType == User
    ensures m.sentAt.None?
  {
    Message(id, content, Agent(participantId, User, None, "User"), None)
  }

  /** The message holding a chatbot completion. */
  function InterviewerMessage(id: string, content: string): (m: Message)
    ensures m.id == id && m.content == content && m.sender == Interviewer
    ensures m.sentAt.None?
  {
    Message(id, content, Interviewer, None)
  }

  /**
   * The soft-limit test, run with the count of messages sent before this one:
   * a non-zero limit is reached when this message makes the count reach it.
   */
  predicate LimitReached(softLimit: int, previousCount: int)
  {
    softLimit != 0 && previousCount + 2 > softLimit
  }

  /** A zero soft limit never fires; otherwise it fires exactly from the message that brings the count to the limit. */
  lemma LimitMeaning(softLimit: int, previousCount: int)
    ensures softLimit == 0 ==> !LimitReached(softLimit, previousCount)
    ensures softLimit != 0 ==> (LimitReached(softLimit, previousCount) <==> previousCount + 1 >= softLimit)
  {
  }

  datatype Status = Idle | Loading

  datatype CommentKind = ParticipantComment | AssistantComment

  /** A call the pane makes outside itself. */
  datatype PaneCall =
    | PostComment(kind: CommentKind, content: string)
    | ChatbotRequest(prompt: seq<ChatEntry>)
    | NextExchange

  /** What the chatbot request yields: a completion, or a rejected promise. */
  datatype ChatbotReply = Completion(text: string) | Rejected

  /** The pane's state: its copy of the exchange, the thread, the sent-message count and the loading status. */
  datatype PaneState = PaneState(exchange: Exchange, messages: seq<Message>, sentMessageCount: int, status: Status)

  /** One send: the state afterwards and the calls made, in order. */
  datatype SendResult = SendResult(state: PaneState, calls: seq<PaneCall>)

  /** The inputs of one send besides the state: the text, the fresh ids, the time and the chatbot's reply. */
  datatype Send = Send(content: string, newId: string, replyId: string, now: Timestamp, reply: ChatbotReply)

  /**
   * `saveNewMessage` as the source writes it. The participant's message is
   * posted as a comment and appended, and the count goes up by one. When the
   * limit is reached the exchange is completed; with auto-dismissal it is
   * also dismissed, the status returns to idle, the count restarts at 0 and
   * the interaction moves on; without it the status stays loading. Below
   * the limit the chatbot gets the prompt built from the thread before the
   * new message; a completion is appended and posted, and the status
   * returns to idle either way.
   */
  function SendStepAsWritten(s: PaneState, participantId: string, autoDismiss: bool, send: Send): (r: SendResult)
    ensures LimitReached(s.exchange.softLimit, s.sentMessageCount) && !autoDismiss ==> r.state.status == Loading
  {
    var newMessage := ParticipantMessage(send.newId, send.content, participantId);
    var posted := [PostComment(ParticipantComment, send.content)];
    var messages := s.messages + [newMessage];
    if LimitReached(s.exchange.softLimit, s.sentMessageCount) then
      var completed := s.exchange.(completed := true, completedAt := Some(send.now));
      if autoDismiss then
        SendResult(
          PaneState(completed.(dismissed := true, dismissedAt := Some(send.now)), messages, 0, Idle),
          posted + [NextExchange])
      else
        SendResult(PaneState(completed, messages, s.sentMessageCount + 1, Loading), posted)
    else
      var request := posted + [ChatbotRequest(Prompt(s.messages, newMessage))];
      match send.reply
      case Completion(text) =>
        SendResult(
          PaneState(s.exchange, messages + [InterviewerMessage(send.replyId, text)], s.sentMessageCount + 1, Idle),
          request + [PostComment(AssistantComment, text)])
      case Rejected =>
        SendResult(PaneState(s.exchange, messages, s.sentMessageCount + 1, Idle), request)
  }

  /**
   * `saveNewMessage` with the status returned to idle on every path,
   * including a completion without auto-dismissal.
   */
  function SendStep(s: PaneState, participantId: string, autoDismiss: bool, send: Send): (r: SendResult)
    ensures r.state.status == Idle
    ensures |r.calls| >= 1 && r.calls[0] == PostComment(ParticipantComment, send.content)
    ensures |r.state.messages| >= |s.messages| + 1
    ensures r.state.messages[..|s.messages| + 1] == s.messages + [ParticipantMessage(send.newId, send.content, participantId)]
    ensures LimitReached(s.exchange.softLimit, s.sentMessageCount) ==>
      && |r.state.messages| == |s.messages| + 1
      && r.state.exchange.completed && r.state.exchange.completedAt == Some(send.now)
      && (forall c :: c in r.calls ==> !c.ChatbotRequest?)
      && (autoDismiss ==>
            r.state.exchange == s.exchange.(completed := true, completedAt := Some(send.now),
                                            dismissed := true, dismissedAt := Some(send.now))
            && r.state.sentMessageCount == 0
            && r.calls == [PostComment(ParticipantComment, send.content), NextExchange])
      && (!autoDismiss ==> r.state.exchange == s.exchange.(completed := true, completedAt := Some(send.now))
                           && r.state.sentMessageCount == s.sentMessageCount + 1 && NextExchange !in r.calls)
    ensures !LimitReached(s.exchange.softLimit, s.sentMessageCount) ==>
      && r.state.exchange == s.exchange
      && r.state.sentMessageCount == s.sentMessageCount + 1
      && |r.calls| >= 2
      && r.calls[1] == ChatbotRequest(Prompt(s.messages, ParticipantMessage(send.newId, send.content, participantId)))
      && NextExchange !in r.calls
      && (send.reply.Completion? ==>
            r.state.messages == s.messages + [ParticipantMessage(send.newId, send.content, participantId),
                                              InterviewerMessage(send.replyId, send.reply.text)]
            && PostComment(AssistantComment, send.reply.text) in r.calls)
      && (send.reply.Rejected? ==> |r.state.messages| == |s.messages| + 1 && |r.calls| == 2)
  {
    var r := SendStepAsWritten(s, participantId, autoDismiss, send);
    r.(state := r.state.(status := Idle))
  }

  /** The two versions differ only in the status left after a completion without auto-dismissal. */
  lemma StatusStaysLoadingAsWritten(s: PaneState, participantId: string, send: Send)
    requires LimitReached(s.exchange.softLimit, s.sentMessageCount)
    ensures SendStepAsWritten(s, participantId, false, send).state.status == Loading
    ensures SendStep(s, participantId, false, send).state.status == Idle
    ensures SendStep(s, participantId, false, send).state
         == SendStepAsWritten(s, participantId, false, send).state.(status := Idle)
  {
  }

  /** `dismissed` implies `completed`, which implies `started`. */
  predicate FlagsOrdered(e: Exchange)
  {
    (e.dismissed ==> e.completed) && (e.completed ==> e.started)
  }

  /** Sending into a started exchange keeps the order of its flags. */
  lemma SaveKeepsFlagsOrdered(s: PaneState, participantId: string, autoDismiss: bool, send: Send)
    requires FlagsOrdered(s.exchange) && s.exchange.started
    ensures FlagsOrdered(SendStep(s, participantId, autoDismiss, send).state.exchange)
    ensures SendStep(s, participantId, autoDismiss, send).state.exchange.started
  {
  }

  /** No message of the thread carries a send time. */
  predicate Undated(messages: seq<Message>)
  {
    forall k :: 0 <= k < |messages| ==> messages[k].sentAt.None?
  }

  /** A send adds only messages without a send time, so a thread without send times keeps having none. */
  lemma SendKeepsUndated(s: PaneState, participantId: string, autoDismiss: bool, send: Send)
    requires Undated(s.messages)
    ensures Undated(SendStepAsWritten(s, participantId, autoDismiss, send).state.messages)
    ensures Undated(SendStep(s, participantId, autoDismiss, send).state.messages)
  {
    var r := SendStepAsWritten(s, participantId, autoDismiss, send).state.messages;
    forall k | 0 <= k < |r| ensures r[k].sentAt.None? {
      if k < |s.messages| {
        assert r[k] == s.messages[k];
      }
    }
  }

  /** Several sends in a row, each on the state the previous one left. */
  function SendAll(s: PaneState, participantId: string, autoDismiss: bool, sends: seq<Send>): (r: PaneState)
    ensures |r.messages| >= |s.messages| + |sends|
    decreases |sends|
  {
    if |sends| == 0 then s
    else SendAll(SendStep(s, participantId, autoDismiss, sends[0]).state, participantId, autoDismiss, sends[1..])
  }

  /**
   * Starting from a count of 0 with a positive soft limit L, the first L - 1
   * messages leave the exchange as it was and the count at L - 1, and the
   * next message completes the exchange.
   */
  lemma {:induction false} SoftLimitBudget(s: PaneState, participantId: string, autoDismiss: bool, sends: seq<Send>, last: Send)
    requires s.exchange.softLimit > 0
    requires 0 <= s.sentMessageCount
    requires s.sentMessageCount + |sends| == s.exchange.softLimit - 1
    ensures SendAll(s, participantId, autoDismiss, sends).exchange == s.exchange
    ensures SendAll(s, participantId, autoDismiss, sends).sentMessageCount == s.exchange.softLimit - 1
    ensures SendStep(SendAll(s, participantId, autoDismiss, sends), participantId, autoDismiss, last).state.exchange.completed
    decreases |sends|
  {
    if |sends| > 0 {
      var next := SendStep(s, participantId, autoDismiss, sends[0]).state;
      assert !LimitReached(s.exchange.softLimit, s.sentMessageCount);
      SoftLimitBudget(next, participantId, autoDismiss, sends[1..], last);
    } else {
      assert LimitReached(s.exchange.softLimit, s.sentMessageCount);
    }
  }

  /** `startExchange` run by its effect: only when the pane is writable and the exchange is not yet started. */
  function StartExchange(readOnly: bool, e: Exchange, now: Timestamp): (r: Exchange)
    ensures r.started == (e.started || !readOnly)
    ensures readOnly || e.started ==> r == e
    ensures !readOnly && !e.started ==> r.startedAt == Some(now)
    ensures r.(started := e.started, startedAt := e.startedAt) == e
  {
    if !readOnly && !e.started then e.(started := true, startedAt := Some(now)) else e
  }

  /** Running the start effect again changes nothing. */
  lemma StartExchangeIdempotent(readOnly: bool, e: Exchange, t1: Timestamp, t2: Timestamp)
    ensures StartExchange(readOnly, StartExchange(readOnly, e, t1), t2) == StartExchange(readOnly, e, t1)
  {
  }

  /** Starting keeps the flags ordered. */
  lemma StartKeepsFlagsOrdered(readOnly: bool, e: Exchange, now: Timestamp)
    requires FlagsOrdered(e)
    ensures FlagsOrdered(StartExchange(readOnly, e, now))
  {
  }

  /** The message showing the exchange's cue, keyed by the exchange id. */
  function CueMessage(e: Exchange): (m: Message)
    ensures m.id == e.id && m.content == e.cue && m.sender == Interviewer
    ensures m.sentAt.None?
  {
    Message(e.id, e.cue, Interviewer, None)
  }

  /** Some message of `s` has id `id`. */
  predicate HasId(s: seq<Message>, id: string)
  {
    exists k :: 0 <= k < |s| && s[k].id == id
  }

  /** No two messages of `s` share an id. */
  predicate DistinctIds(s: seq<Message>)
  {
    forall i, j :: 0 <= i < j < |s| ==> s[i].id != s[j].id
  }

  /**
   * `_.uniqBy(s, 'id')` with the ids in `seen` already taken: keeps the first
   * message of each id, in order.
   */
  function UniqFrom(s: seq<Message>, seen: set<string>): seq<Message>
    decreases |s|
  {
    if |s| == 0 then []
    else if s[0].id in seen then UniqFrom(s[1..], seen)
    else [s[0]] + UniqFrom(s[1..], seen + {s[0].id})
  }

  /**
   * What `UniqFrom` keeps: messages of `s` only, no more of them than `s`
   * has, and none with an id that was already seen.
   */
  lemma {:induction false} UniqFromKeeps(s: seq<Message>, seen: set<string>)
    ensures |UniqFrom(s, seen)| <= |s|
    ensures forall x :: x in UniqFrom(s, seen) ==> x in s
    ensures forall k :: 0 <= k < |UniqFrom(s, seen)| ==> UniqFrom(s, seen)[k].id !in seen
    decreases |s|
  {
    if |s| > 0 {
      var tail := s[1..];
      if s[0].id in seen {
        UniqFromKeeps(tail, seen);
      } else {
        var seen' := seen + {s[0].id};
        UniqFromKeeps(tail, seen');
        var rest := UniqFrom(tail, seen');
        var r := [s[0]] + rest;
        assert UniqFrom(s, seen) == r;
        forall k | 0 <= k < |r| ensures r[k].id !in seen {
          if k > 0 {
            assert r[k] == rest[k - 1];
          }
        }
      }
    }
  }

  /** The messages `UniqFrom` keeps have pairwise distinct ids. */
  lemma {:induction false} UniqFromDistinctIds(s: seq<Message>, seen: set<string>)
    ensures DistinctIds(UniqFrom(s, seen))
    decreases |s|
  {
    if |s| > 0 {
      var tail := s[1..];
      if s[0].id in seen {
        UniqFromDistinctIds(tail, seen);
      } else {
        var seen' := seen + {s[0].id};
        UniqFromDistinctIds(tail, seen');
        UniqFromKeeps(tail, seen');
        var rest := UniqFrom(tail, seen');
        var r := [s[0]] + rest;
        assert UniqFrom(s, seen) == r;
        forall i, j | 0 <= i < j < |r| ensures r[i].id != r[j].id {
          assert r[j] == rest[j - 1];
          if i > 0 {
            assert r[i] == rest[i - 1];
          }
        }
      }
    }
  }

  /** Every id of `s` that was not seen before is kept. */
  lemma {:induction false} UniqFromCovers(s: seq<Message>, seen: set<string>)
    ensures forall k :: 0 <= k < |s| ==> s[k].id in seen || HasId(UniqFrom(s, seen), s[k].id)
    decreases |s|
  {
    if |s| > 0 {
      var tail := s[1..];
      assert forall k :: 1 <= k < |s| ==> s[k] == tail[k - 1];
      if s[0].id in seen {
        UniqFromCovers(tail, seen);
      } else {
        var seen' := seen + {s[0].id};
        UniqFromCovers(tail, seen');
        var rest := UniqFrom(tail, seen');
        var r := [s[0]] + rest;
        assert UniqFrom(s, seen) == r;
        forall k | 0 <= k < |s| && s[k].id !in seen
          ensures HasId(r, s[k].id)
        {
          if k > 0 && s[k].id != s[0].id {
            assert tail[k - 1].id !in seen';
            var j :| 0 <= j < |rest| && rest[j].id == s[k].id;
            assert r[j + 1].id == s[k].id;
          } else {
            assert r[0].id == s[0].id;
          }
        }
      }
    }
  }

  /**
   * `idx` lists, in increasing order, the positions in `s` of the messages
   * of `r`; each is the first position of its id in `s`, and that id is not
   * in `seen`.
   */
  predicate FirstOccurrences(s: seq<Message>, seen: set<string>, r: seq<Message>, idx: seq<int>)
  {
    && |idx| == |r|
    && (forall k :: 0 <= k < |idx| ==> 0 <= idx[k] < |s| && r[k] == s[idx[k]] && s[idx[k]].id !in seen)
    && (forall k, j :: 0 <= k < |idx| && 0 <= j < idx[k] ==> s[j].id != s[idx[k]].id)
    && (forall k1, k2 :: 0 <= k1 < k2 < |idx| ==> idx[k1] < idx[k2])
  }

  /** The positions `idx` of `tail`, counted in `s` with one more element in front. */
  function Shifted(idx: seq<int>): (r: seq<int>)
    ensures |r| == |idx| && forall k :: 0 <= k < |idx| ==> r[k] == idx[k] + 1
  {
    seq(|idx|, k requires 0 <= k < |idx| => idx[k] + 1)
  }

  /** A skipped head whose id was seen: the positions in the tail, shifted by one, serve for the whole list. */
  lemma FirstOccurrencesSkip(s: seq<Message>, seen: set<string>, rest: seq<Message>, idx': seq<int>)
    requires |s| > 0 && s[0].id in seen
    requires FirstOccurrences(s[1..], seen, rest, idx')
    ensures FirstOccurrences(s, seen, rest, Shifted(idx'))
  {
    var tail := s[1..];
    var idx := Shifted(idx');
    forall k | 0 <= k < |idx| ensures 0 <= idx[k] < |s| && rest[k] == s[idx[k]] && s[idx[k]].id !in seen {
      assert s[idx[k]] == tail[idx'[k]];
    }
    forall k, j | 0 <= k < |idx| && 0 <= j < idx[k] ensures s[j].id != s[idx[k]].id {
      assert s[idx[k]] == tail[idx'[k]];
      if j > 0 {
        assert s[j] == tail[j - 1];
      }
    }
  }

  /** A kept head: position 0, then the positions in the tail shifted by one. */
  lemma FirstOccurrencesKeep(s: seq<Message>, seen: set<string>, rest: seq<Message>, idx': seq<int>)
    requires |s| > 0 && s[0].id !in seen
    requires FirstOccurrences(s[1..], seen + {s[0].id}, rest, idx')
    ensures FirstOccurrences(s, seen, [s[0]] + rest, [0] + Shifted(idx'))
  {
    var tail := s[1..];
    var r := [s[0]] + rest;
    var idx := [0] + Shifted(idx');
    forall k | 0 <= k < |idx| ensures 0 <= idx[k] < |s| && r[k] == s[idx[k]] && s[idx[k]].id !in seen {
      if k > 0 {
        assert r[k] == rest[k - 1] && s[idx[k]] == tail[idx'[k - 1]];
      }
    }
    forall k, j | 0 <= k < |idx| && 0 <= j < idx[k] ensures s[j].id != s[idx[k]].id {
      assert s[idx[k]] == tail[idx'[k - 1]];
      if j > 0 {
        assert s[j] == tail[j - 1];
      }
    }
    forall k1, k2 | 0 <= k1 < k2 < |idx| ensures idx[k1] < idx[k2] {
      if k1 > 0 {
        assert idx[k1] == idx'[k1 - 1] + 1;
      }
    }
  }

  /** `UniqFrom` keeps the first message of each id not yet seen, in input order. */
  lemma {:induction false} UniqFromFirst(s: seq<Message>, seen: set<string>)
    ensures exists idx :: FirstOccurrences(s, seen, UniqFrom(s, seen), idx)
    decreases |s|
  {
    if |s| == 0 {
      assert FirstOccurrences(s, seen, UniqFrom(s, seen), []);
    } else if s[0].id in seen {
      UniqFromFirst(s[1..], seen);
      var idx' :| FirstOccurrences(s[1..], seen, UniqFrom(s[1..], seen), idx');
      FirstOccurrencesSkip(s, seen, UniqFrom(s[1..], seen), idx');
      assert FirstOccurrences(s, seen, UniqFrom(s, seen), Shifted(idx'));
    } else {
      var seen' := seen + {s[0].id};
      UniqFromFirst(s[1..], seen');
      var idx' :| FirstOccurrences(s[1..], seen', UniqFrom(s[1..], seen'), idx');
      FirstOccurrencesKeep(s, seen, UniqFrom(s[1..], seen'), idx');
      assert FirstOccurrences(s, seen, UniqFrom(s, seen), [0] + Shifted(idx'));
    }
  }

  /**
   * `_.uniqBy(s, 'id')`: the first message of every id of `s`, in the order
   * of `s`, and nothing else.
   */
  function UniqById(s: seq<Message>): (r: seq<Message>)
    ensures DistinctIds(r)
    ensures forall x :: x in r ==> x in s
    ensures forall k :: 0 <= k < |s| ==> HasId(r, s[k].id)
    ensures exists idx :: FirstOccurrences(s, {}, r, idx)
  {
    UniqFromKeeps(s, {});
    UniqFromDistinctIds(s, {});
    UniqFromCovers(s, {});
    UniqFromFirst(s, {});
    UniqFrom(s, {})
  }

  /** A list whose ids are distinct and not yet seen passes through unchanged. */
  lemma {:induction false} UniqFromDistinct(s: seq<Message>, seen: set<string>)
    requires DistinctIds(s)
    requires forall k :: 0 <= k < |s| ==> s[k].id !in seen
    ensures UniqFrom(s, seen) == s
    decreases |s|
  {
    if |s| > 0 {
      var tail := s[1..];
      assert DistinctIds(tail) by {
        forall i, j | 0 <= i < j < |tail| ensures tail[i].id != tail[j].id {
          assert tail[i] == s[i + 1] && tail[j] == s[j + 1];
        }
      }
      forall k | 0 <= k < |tail| ensures tail[k].id !in seen + {s[0].id} {
        assert tail[k] == s[k + 1];
      }
      UniqFromDistinct(tail, seen + {s[0].id});
      assert [s[0]] + tail == s;
    }
  }

  /** Appending a message whose id is already present to a list of distinct ids: `uniqBy` gives the list back. */
  lemma {:induction false} UniqFromAppendPresent(s: seq<Message>, seen: set<string>, x: Message)
    requires DistinctIds(s)
    requires forall k :: 0 <= k < |s| ==> s[k].id !in seen
    requires x.id in seen || HasId(s, x.id)
    ensures UniqFrom(s + [x], seen) == s
    decreases |s|
  {
    if |s| == 0 {
      assert [x] == s + [x];
      assert [x][1..] == [];
    } else {
      var tail := s[1..];
      assert (s + [x])[1..] == tail + [x];
      assert DistinctIds(tail) by {
        forall i, j | 0 <= i < j < |tail| ensures tail[i].id != tail[j].id {
          assert tail[i] == s[i + 1] && tail[j] == s[j + 1];
        }
      }
      forall k | 0 <= k < |tail| ensures tail[k].id !in seen + {s[0].id} {
        assert tail[k] == s[k + 1];
      }
      if x.id !in seen && x.id != s[0].id {
        var k :| 0 <= k < |s| && s[k].id == x.id;
        assert tail[k - 1].id == x.id;
      }
      UniqFromAppendPresent(tail, seen + {s[0].id}, x);
      assert [s[0]] + tail == s;
    }
  }

  /**
   * The cue effect: the cue message is added to the thread unless a message
   * with the exchange's id is already there, and duplicate ids are dropped.
   */
  function MergeCue(messages: seq<Message>, e: Exchange): (r: seq<Message>)
    ensures DistinctIds(r) && HasId(r, e.id)
    ensures forall x :: x in r ==> x in messages || x == CueMessage(e)
  {
    var r := UniqById(messages + [CueMessage(e)]);
    assert (messages + [CueMessage(e)])[|messages|].id == e.id;
    r
  }

  /** After the merge exactly one message carries the exchange's id. */
  lemma MergeCueSingleCue(messages: seq<Message>, e: Exchange)
    ensures var r := MergeCue(messages, e);
      exists j :: 0 <= j < |r| && r[j].id == e.id && (forall k :: 0 <= k < |r| && k != j ==> r[k].id != e.id)
  {
    var r := MergeCue(messages, e);
    var j :| 0 <= j < |r| && r[j].id == e.id;
    assert forall k :: 0 <= k < |r| && k != j ==> r[k].id != e.id;
  }

  /** A thread of distinct ids without the cue just gets the cue message at the end. */
  lemma MergeCueAppends(messages: seq<Message>, e: Exchange)
    requires DistinctIds(messages) && !HasId(messages, e.id)
    ensures MergeCue(messages, e) == messages + [CueMessage(e)]
  {
    var s := messages + [CueMessage(e)];
    assert DistinctIds(s) by {
      forall i, j | 0 <= i < j < |s| ensures s[i].id != s[j].id {
        if j < |messages| {
          assert s[i] == messages[i] && s[j] == messages[j];
        } else {
          assert s[i] == messages[i];
        }
      }
    }
    UniqFromDistinct(s, {});
  }

  /** Running the cue effect again adds nothing. */
  lemma MergeCueIdempotent(messages: seq<Message>, e: Exchange)
    ensures MergeCue(MergeCue(messages, e), e) == MergeCue(messages, e)
  {
    var r := MergeCue(messages, e);
    UniqFromAppendPresent(r, {}, CueMessage(e));
  }

  /**
   * The pane's state as the component holds it. The chatbot request runs to
   * completion inside `SaveNewMessage`, with its outcome given as a
   * parameter; the calls the pane makes are kept in a ghost log.
   */
  class Pane {
    const participantId: string
    const readOnly: bool
    const autoDismiss: bool
    var exchange: Exchange
    var messages: seq<Message>
    var sentMessageCount: int
    var status: Status
    ghost var calls: seq<PaneCall>

    function State(): PaneState
      reads this
    {
      PaneState(exchange, messages, sentMessageCount, status)
    }

    /** A pane with nothing in session storage: the given exchange, no messages, a count of 0, idle. */
    constructor(participantId: string, readOnly: bool, autoDismiss: bool, exchangeProp: Exchange)
      ensures this.participantId == participantId && this.readOnly == readOnly && this.autoDismiss == autoDismiss
      ensures State() == PaneState(exchangeProp, [], 0, Idle) && calls == []
    {
      this.participantId := participantId;
      this.readOnly := readOnly;
      this.autoDismiss := autoDismiss;
      exchange := exchangeProp;
      messages := [];
      sentMessageCount := 0;
      status := Idle;
      calls := [];
    }

    /** The cue effect for a new exchange prop: merge its cue message and take the prop as the exchange. */
    method ReceiveExchange(exchangeProp: Exchange)
      modifies this
      ensures messages == MergeCue(old(messages), exchangeProp) && exchange == exchangeProp
      ensures sentMessageCount == old(sentMessageCount) && status == old(status) && calls == old(calls)
    {
      messages := MergeCue(messages, exchangeProp);
      exchange := exchangeProp;
    }

    /** The start effect. */
    method StartExchangeEffect(now: Timestamp)
      modifies this
      ensures exchange == StartExchange(readOnly, old(exchange), now)
      ensures messages == old(messages) && sentMessageCount == old(sentMessageCount)
      ensures status == old(status) && calls == old(calls)
    {
      if !readOnly && !exchange.started {
        var updatedExchange := exchange;
        updatedExchange := updatedExchange.(started := true);
        updatedExchange := updatedExchange.(startedAt := Some(now));
        exchange := updatedExchange;
      }
    }

    /**
     * `saveNewMessage`, step by step: the closure's exchange, thread and count
     * are the values before the send; the count update queued with `c + 1` is
     * overridden by the later reset to 0.
     */
    method SaveNewMessage(send: Send)
      modifies this
      ensures State() == SendStep(old(State()), participantId, autoDismiss, send).state
      ensures calls == old(calls) + SendStep(old(State()), participantId, autoDismiss, send).calls
    {
      ghost var s0 := State();
      ghost var calls0 := calls;
      var thread := messages;
      var previousCount := sentMessageCount;
      status := Loading;
      var newMessage := ParticipantMessage(send.newId, send.content, participantId);
      calls := calls + [PostComment(ParticipantComment, send.content)];
      messages := messages + [newMessage];
      sentMessageCount := sentMessageCount + 1;
      if LimitReached(exchange.softLimit, previousCount) {
        var newExchange := exchange;
        newExchange := newExchange.(completed := true);
        newExchange := newExchange.(completedAt := Some(send.now));
        if autoDismiss {
          newExchange := newExchange.(dismissed := true);
          newExchange := newExchange.(dismissedAt := Some(send.now));
          exchange := newExchange;
          status := Idle;
          sentMessageCount := 0;
          calls := calls + [NextExchange];
        } else {
          exchange := newExchange;
          status := Idle;
        }
        assert SendStepAsWritten(s0, participantId, autoDismiss, send).state.(status := Idle) == State();
        assert calls == calls0 + SendStepAsWritten(s0, participantId, autoDismiss, send).calls;
      } else {
        var prompt := BuildPrompt(thread, newMessage);
        calls := calls + [ChatbotRequest(prompt)];
        match send.reply {
          case Completion(text) =>
            var response := InterviewerMessage(send.replyId, text);
            calls := calls + [PostComment(AssistantComment, text)];
            messages := messages + [response];
          case Rejected =>
        }
        status := Idle;
        assert SendStepAsWritten(s0, participantId, autoDismiss, send).state.(status := Idle) == State();
        assert calls == calls0 + SendStepAsWritten(s0, participantId, autoDismiss, send).calls;
      }
    }
  }
}
