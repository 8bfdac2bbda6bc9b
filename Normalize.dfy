/** The per-record normaliser of `ChatExporter.read_chat_history`: each decoded
    `composerData` record becomes a session with its kept messages, its number
    of user questions and its number of chat turns, or is skipped. */
module Normalize {
  import opened Json
  import opened Text

  /** Stands in for a user message that carries only an attachment. */
  const Placeholder: string := "(用户插入了附件📎)"

  /** The title of a record that has neither `title` nor `name`. */
  const DefaultTitle: string := "未命名会话"

  /** Keys whose truthy value counts as attachment evidence. */
  const AttachmentKeys: seq<string> :=
    ["attachments", "files", "images", "additional_data", "terminal_selections", "terminalSelections"]

  /** Words whose presence in the printed form of a message counts as
      attachment evidence. */
  const AttachmentMarks: seq<string> :=
    ["terminal", "additional_data", "attachments", "file_contents", "attached_files"]

  datatype Message = Message(role: Value, content: string)

  /** What one conversation item does: abort the whole record (a truthy
      content that is not a string has no `strip`), add nothing, or add a
      message. */
  datatype Step = Raises | Skip | Keep(message: Message)

  /** `role in ["1", 1, "user"]`; `True == 1` makes `True` a user role too. */
  predicate IsUserRole(role: Value) {
    role == Str("1") || role == Str("user") || EqualsInt(role, 1)
  }

  /** `role in ["2", 2, "assistant"]`. */
  predicate IsAssistantRole(role: Value) {
    role == Str("2") || role == Str("assistant") || EqualsInt(role, 2)
  }

  lemma RolesDisjoint(role: Value)
    ensures !(IsUserRole(role) && IsAssistantRole(role))
  {
  }

  /** `msg.get('role') or msg.get('type') or ('user' if msg.get('isUser') else 'assistant')`:
      the first truthy of `role` and `type`, else a role read from `isUser`;
      never falsy. */
  function ResolveRole(m: map<string, Value>): (role: Value)
    ensures Truthy(role)
    ensures Truthy(Get(m, "role")) ==> role == m["role"]
    ensures !Truthy(Get(m, "role")) && Truthy(Get(m, "type")) ==> role == m["type"]
    ensures !Truthy(Get(m, "role")) && !Truthy(Get(m, "type")) && Truthy(Get(m, "isUser")) ==> role == Str("user")
    ensures !Truthy(Get(m, "role")) && !Truthy(Get(m, "type")) && !Truthy(Get(m, "isUser")) ==> role == Str("assistant")
  {
    Or(Or(Get(m, "role"), Get(m, "type")), if Truthy(Get(m, "isUser")) then Str("user") else Str("assistant"))
  }

  /** `msg.get('content') or msg.get('text') or msg.get('message', '')`. */
  function ResolveContent(m: map<string, Value>): (content: Value)
    ensures Truthy(Get(m, "content")) ==> content == m["content"]
    ensures !Truthy(Get(m, "content")) && Truthy(Get(m, "text")) ==> content == m["text"]
    ensures !Truthy(Get(m, "content")) && !Truthy(Get(m, "text")) && "message" in m ==> content == m["message"]
    ensures !Truthy(Get(m, "content")) && !Truthy(Get(m, "text")) && "message" !in m ==> content == Str("")
  {
    Or(Or(Get(m, "content"), Get(m, "text")), GetOr(m, "message", Str("")))
  }

  /** Attachment evidence: a truthy attachment field, or one of the marker
      words in `shown`, the printed form `str(msg)` of the message. */
  predicate HasAttachment(m: map<string, Value>, shown: string) {
    || (exists i :: 0 <= i < |AttachmentKeys| && Truthy(Get(m, AttachmentKeys[i])))
    || (exists i :: 0 <= i < |AttachmentMarks| && Contains(shown, AttachmentMarks[i]))
  }

  /** The evidence is the `or`-chain of the source, key by key and word by word. */
  lemma HasAttachmentChain(m: map<string, Value>, shown: string)
    ensures HasAttachment(m, shown) <==>
      || Truthy(Get(m, "attachments")) || Truthy(Get(m, "files")) || Truthy(Get(m, "images"))
      || Truthy(Get(m, "additional_data")) || Truthy(Get(m, "terminal_selections"))
      || Truthy(Get(m, "terminalSelections"))
      || Contains(shown, "terminal") || Contains(shown, "additional_data") || Contains(shown, "attachments")
      || Contains(shown, "file_contents") || Contains(shown, "attached_files")
  {
    assert AttachmentKeys[0] == "attachments" && AttachmentKeys[1] == "files" && AttachmentKeys[2] == "images";
    assert AttachmentKeys[3] == "additional_data" && AttachmentKeys[4] == "terminal_selections";
    assert AttachmentKeys[5] == "terminalSelections";
    assert AttachmentMarks[0] == "terminal" && AttachmentMarks[1] == "additional_data";
    assert AttachmentMarks[2] == "attachments" && AttachmentMarks[3] == "file_contents";
    assert AttachmentMarks[4] == "attached_files";
  }

  /** `not content or content.strip() == ''` for a content that does not raise. */
  predicate BlankContent(content: Value) {
    !Truthy(content) || (content.Str? && Strip(content.s) == "")
  }

  /** One dictionary item of the conversation. */
  function NormalizeMessage(m: map<string, Value>, shown: string): (step: Step)
    ensures var c := ResolveContent(m);
      step.Raises? <==> Truthy(c) && !c.Str?
    ensures step.Keep? ==> step.message.role == ResolveRole(m) && step.message.content != ""
    ensures var c, role := ResolveContent(m), ResolveRole(m);
      (!step.Raises? && BlankContent(c) && HasAttachment(m, shown) && IsUserRole(role)
       ==> step == Keep(Message(role, Placeholder)))
    ensures var c, role := ResolveContent(m), ResolveRole(m);
      (c.Str? && c.s != "" && !(BlankContent(c) && HasAttachment(m, shown) && IsUserRole(role))
       ==> step == Keep(Message(role, c.s)))
    ensures var c, role := ResolveContent(m), ResolveRole(m);
      !Truthy(c) && !(HasAttachment(m, shown) && IsUserRole(role)) ==> step == Skip
  {
    var role, content := ResolveRole(m), ResolveContent(m);
    if Truthy(content) && !content.Str? then Raises
    else if BlankContent(content) && HasAttachment(m, shown) && IsUserRole(role) then Keep(Message(role, Placeholder))
    else if Truthy(content) then Keep(Message(role, content.s))
    else Skip
  }

  /** One item of the conversation list: items that are not dictionaries are
      passed over; `show` gives the printed form of an item. */
  function StepOf(item: Value, show: Value -> string): Step {
    if item.Obj? then NormalizeMessage(item.fields, show(item)) else Skip
  }

  // ---------------------------------------------------------------------
  // Specification of the conversation loop

  /** The messages kept from `items`, or None when one of them raises. */
  function Kept(items: seq<Value>, show: Value -> string): Option<seq<Message>> {
    if items == [] then Some([])
    else
      match Kept(items[..|items| - 1], show)
      case None => None
      case Some(ms) =>
        match StepOf(items[|items| - 1], show)
        case Raises => None
        case Skip => Some(ms)
        case Keep(m) => Some(ms + [m])
  }

  /** The `current_role` cursor: the kind of the last message whose role is
      a user or assistant role. */
  datatype Turn = NoTurn | UserTurn | AssistantTurn

  function LastKnown(ms: seq<Message>): Turn {
    if ms == [] then NoTurn
    else if IsUserRole(ms[|ms| - 1].role) then UserTurn
    else if IsAssistantRole(ms[|ms| - 1].role) then AssistantTurn
    else LastKnown(ms[..|ms| - 1])
  }

  /** The number of user messages. */
  function UserQuestions(ms: seq<Message>): nat {
    if ms == [] then 0
    else UserQuestions(ms[..|ms| - 1]) + (if IsUserRole(ms[|ms| - 1].role) then 1 else 0)
  }

  /** The number of assistant messages that answer a user message: their
      last predecessor with a known role is a user message. */
  function Answered(ms: seq<Message>): nat {
    if ms == [] then 0
    else
      var front := ms[..|ms| - 1];
      Answered(front) + (if IsAssistantRole(ms[|ms| - 1].role) && LastKnown(front) == UserTurn then 1 else 0)
  }

  /** One question and its answer count as two chat turns. */
  function ChatCount(ms: seq<Message>): nat {
    UserQuestions(ms) + Answered(ms)
  }

  lemma CountSnoc(ms: seq<Message>, m: Message)
    ensures UserQuestions(ms + [m]) == UserQuestions(ms) + (if IsUserRole(m.role) then 1 else 0)
    ensures Answered(ms + [m])
         == Answered(ms) + (if IsAssistantRole(m.role) && LastKnown(ms) == UserTurn then 1 else 0)
    ensures LastKnown(ms + [m])
         == if IsUserRole(m.role) then UserTurn else if IsAssistantRole(m.role) then AssistantTurn else LastKnown(ms)
  {
    assert (ms + [m])[..|ms|] == ms;
  }

  /** Each question is answered at most once: after an answer the cursor no
      longer points at a user message. */
  lemma {:induction false} AnsweredBound(ms: seq<Message>)
    ensures Answered(ms) + (if LastKnown(ms) == UserTurn then 1 else 0) <= UserQuestions(ms)
  {
    if ms != [] {
      AnsweredBound(ms[..|ms| - 1]);
      RolesDisjoint(ms[|ms| - 1].role);
    }
  }

  /** Every user message is a turn, and at most one answer follows it. */
  lemma CountBounds(ms: seq<Message>)
    ensures UserQuestions(ms) <= ChatCount(ms) <= 2 * UserQuestions(ms)
  {
    AnsweredBound(ms);
  }

  /** A second answer to the same question does not count: a question
      followed by two answers makes two turns. */
  lemma DoubleAnswer(q: string, a: string, b: string)
    ensures var ms := [Message(Str("user"), q), Message(Str("assistant"), a), Message(Str("assistant"), b)];
      UserQuestions(ms) == 1 && ChatCount(ms) == 2
  {
    var m0, m1, m2 := Message(Str("user"), q), Message(Str("assistant"), a), Message(Str("assistant"), b);
    CountSnoc([], m0);
    assert [] + [m0] == [m0];
    CountSnoc([m0], m1);
    CountSnoc([m0, m1], m2);
    assert [m0] + [m1] == [m0, m1] && [m0, m1] + [m2] == [m0, m1, m2];
  }

  /** A message whose role is neither a user nor an assistant role, such as
      "system", is kept like any other but moves neither counter nor the
      cursor. */
  lemma OtherRoleKept(c: string, shown: string, ms: seq<Message>)
    requires c != ""
    ensures var m := map["role" := Str("system"), "content" := Str(c)];
      NormalizeMessage(m, shown) == Keep(Message(Str("system"), c))
    ensures var ms' := ms + [Message(Str("system"), c)];
      UserQuestions(ms') == UserQuestions(ms) && ChatCount(ms') == ChatCount(ms) && LastKnown(ms') == LastKnown(ms)
  {
    var m := map["role" := Str("system"), "content" := Str(c)];
    assert ResolveRole(m) == Str("system");
    assert ResolveContent(m) == Str(c);
    CountSnoc(ms, Message(Str("system"), c));
  }

  lemma KeptSnoc(items: seq<Value>, n: nat, show: Value -> string)
    requires n < |items|
    ensures Kept(items[..n + 1], show)
         == match Kept(items[..n], show)
            case None => None
            case Some(ms) =>
              match StepOf(items[n], show)
              case Raises => None
              case Skip => Some(ms)
              case Keep(m) => Some(ms + [m])
  {
    assert items[..n + 1][..n] == items[..n];
  }

  /** Once an item raises, the record is lost whatever follows. */
  lemma {:induction false} KeptAbort(items: seq<Value>, n: nat, show: Value -> string)
    requires n <= |items| && Kept(items[..n], show) == None
    ensures Kept(items, show) == None
    decreases |items| - n
  {
    if n == |items| {
      assert items[..n] == items;
    } else {
      KeptSnoc(items, n, show);
      KeptAbort(items, n + 1, show);
    }
  }

  /** The messages a conversation keeps, with their counters. */
  datatype Tally = Tally(messages: seq<Message>, userQuestions: nat, chatCount: nat)

  function TallyOf(items: seq<Value>, show: Value -> string): Option<Tally> {
    match Kept(items, show)
    case None => None
    case Some(ms) => Some(Tally(ms, UserQuestions(ms), ChatCount(ms)))
  }

  /** The loop over the conversation: keeps messages and updates the two
      counters through the `current_role` cursor. */
  method CountConversation(items: seq<Value>, show: Value -> string) returns (tally: Option<Tally>)
    ensures tally == TallyOf(items, show)
  {
    var messages: seq<Message> := [];
    var userQuestions: nat := 0;
    var chatCount: nat := 0;
    var current := NoTurn;
    var i := 0;
    while i < |items|
      invariant 0 <= i <= |items|
      invariant Kept(items[..i], show) == Some(messages)
      invariant userQuestions == UserQuestions(messages) && chatCount == ChatCount(messages)
      invariant current == LastKnown(messages)
    {
      KeptSnoc(items, i, show);
      var step := StepOf(items[i], show);
      match step {
        case Raises =>
          KeptAbort(items, i + 1, show);
          return None;
        case Skip =>
        case Keep(m) =>
          CountSnoc(messages, m);
          messages := messages + [m];
          if IsUserRole(m.role) {
            userQuestions := userQuestions + 1;
            chatCount := chatCount + 1;
            current := UserTurn;
          } else if IsAssistantRole(m.role) {
            if current == UserTurn {
              chatCount := chatCount + 1;
            }
            current := AssistantTurn;
          }
      }
      i := i + 1;
    }
    assert items[..i] == items;
    tally := Some(Tally(messages, userQuestions, chatCount));
  }

  // ---------------------------------------------------------------------
  // Records

  datatype Session = Session(
    composerId: Value,
    version: Value,
    title: Value,
    messages: seq<Message>,
    userQuestions: nat,
    chatCount: nat)

  /** A record is lost to an exception, dropped for having no messages, or
      becomes a session. */
  datatype Outcome = Failed | Dropped | Added(session: Session)

  /** `data.get('title') or data.get('name', '未命名会话')`. */
  function TitleOf(d: map<string, Value>): (title: Value)
    ensures Truthy(Get(d, "title")) ==> title == d["title"]
    ensures !Truthy(Get(d, "title")) && "name" in d ==> title == d["name"]
    ensures !Truthy(Get(d, "title")) && "name" !in d ==> title == Str(DefaultTitle)
  {
    Or(Get(d, "title"), GetOr(d, "name", Str(DefaultTitle)))
  }

  /** The items the loop visits for `data.get('conversation', [])`, or None
      when `len` of it raises. Iterating a string or a dictionary yields
      strings only, which the loop passes over, so both give no items. */
  function ConversationOf(d: map<string, Value>): (items: Option<seq<Value>>)
    ensures "conversation" !in d ==> items == Some([])
    ensures "conversation" in d && d["conversation"].Arr? ==> items == Some(d["conversation"].items)
    ensures "conversation" in d && (d["conversation"].Str? || d["conversation"].Obj?) ==> items == Some([])
    ensures items == None <==> "conversation" in d && (d["conversation"].Null? || d["conversation"].Bool? || d["conversation"].Int?)
  {
    match GetOr(d, "conversation", Arr([]))
    case Arr(xs) => Some(xs)
    case Str(_) => Some([])
    case Obj(_) => Some([])
    case _ => None
  }

  /** What becomes of one record; None stands for a value that is not valid
      JSON. A record that is not a dictionary has no `keys` and is lost. */
  function RecordSpec(record: Option<Value>, show: Value -> string): Outcome {
    match record
    case None => Failed
    case Some(data) =>
      if !data.Obj? then Failed
      else
        var d := data.fields;
        match ConversationOf(d)
        case None => Failed
        case Some(items) =>
          match TallyOf(items, show)
          case None => Failed
          case Some(t) =>
            if t.messages == [] then Dropped
            else Added(Session(GetOr(d, "composerId", Str("")), GetOr(d, "_v", Int(0)), TitleOf(d),
                               t.messages, t.userQuestions, t.chatCount))
  }

  method NormalizeRecord(record: Option<Value>, show: Value -> string) returns (outcome: Outcome)
    ensures outcome == RecordSpec(record, show)
  {
    if record.None? || !record.value.Obj? {
      return Failed;
    }
    var d := record.value.fields;
    var conversation := ConversationOf(d);
    if conversation.None? {
      return Failed;
    }
    var tally := CountConversation(conversation.value, show);
    if tally.None? {
      return Failed;
    }
    var t := tally.value;
    if t.messages == [] {
      return Dropped;
    }
    outcome := Added(Session(GetOr(d, "composerId", Str("")), GetOr(d, "_v", Int(0)), TitleOf(d),
                             t.messages, t.userQuestions, t.chatCount));
  }

  /** The sessions of the records, in record order. */
  function SessionsOf(records: seq<Option<Value>>, show: Value -> string): seq<Session> {
    if records == [] then []
    else
      var front := SessionsOf(records[..|records| - 1], show);
      match RecordSpec(records[|records| - 1], show)
      case Added(s) => front + [s]
      case _ => front
  }

  /** The loop over the records of one database. */
  method ReadChatHistory(records: seq<Option<Value>>, show: Value -> string) returns (sessions: seq<Session>)
    ensures sessions == SessionsOf(records, show)
  {
    sessions := [];
    var i := 0;
    while i < |records|
      invariant 0 <= i <= |records|
      invariant sessions == SessionsOf(records[..i], show)
    {
      assert records[..i + 1][..i] == records[..i];
      var outcome := NormalizeRecord(records[i], show);
      if outcome.Added? {
        sessions := sessions + [outcome.session];
      }
      i := i + 1;
    }
    assert records[..i] == records;
  }

  // ---------------------------------------------------------------------
  // Properties of the sessions

  /** What every session the reader returns satisfies. */
  predicate ValidSession(s: Session) {
    && s.messages != []
    && (forall k :: 0 <= k < |s.messages| ==> s.messages[k].content != "")
    && s.userQuestions == UserQuestions(s.messages)
    && s.chatCount == ChatCount(s.messages)
  }

  lemma {:induction false} KeptNonEmpty(items: seq<Value>, show: Value -> string)
    requires Kept(items, show).Some?
    ensures forall k :: 0 <= k < |Kept(items, show).value| ==> Kept(items, show).value[k].content != ""
  {
    if items != [] {
      KeptNonEmpty(items[..|items| - 1], show);
    }
  }

  lemma RecordValid(record: Option<Value>, show: Value -> string)
    requires RecordSpec(record, show).Added?
    ensures ValidSession(RecordSpec(record, show).session)
  {
    var d := record.value.fields;
    KeptNonEmpty(ConversationOf(d).value, show);
  }

  /** A record becomes a session exactly when it keeps at least one message. */
  lemma RecordAddedIff(d: map<string, Value>, show: Value -> string)
    ensures RecordSpec(Some(Obj(d)), show).Added?
        <==> ConversationOf(d).Some? && Kept(ConversationOf(d).value, show).Some?
             && Kept(ConversationOf(d).value, show).value != []
  {
  }

  lemma {:induction false} SessionsValid(records: seq<Option<Value>>, show: Value -> string)
    ensures forall k :: 0 <= k < |SessionsOf(records, show)| ==> ValidSession(SessionsOf(records, show)[k])
  {
    if records != [] {
      var front := records[..|records| - 1];
      SessionsValid(front, show);
      if RecordSpec(records[|records| - 1], show).Added? {
        RecordValid(records[|records| - 1], show);
      }
    }
  }

  /** Sessions keep the order of their records. */
  lemma {:induction false} SessionsAppend(a: seq<Option<Value>>, b: seq<Option<Value>>, show: Value -> string)
    ensures SessionsOf(a + b, show) == SessionsOf(a, show) + SessionsOf(b, show)
  {
    if b == [] {
      assert a + b == a;
    } else {
      assert (a + b)[..|a + b| - 1] == a + b[..|b| - 1];
      SessionsAppend(a, b[..|b| - 1], show);
    }
  }

  lemma {:induction false} SessionsAtMostRecords(records: seq<Option<Value>>, show: Value -> string)
    ensures |SessionsOf(records, show)| <= |records|
  {
    if records != [] {
      SessionsAtMostRecords(records[..|records| - 1], show);
    }
  }
}
