/** The HTML bodies the exporter writes: `create_html_content` for the chat
    exports, the body of `export_summary` and of `export_current_summary`, and
    the `safe_title` file-name sanitiser. */
module Render {
  import opened Json
  import opened Text
  import opened CodeBlocks
  import opened Normalize

  /** The four command-line modes. */
  datatype Mode = Current | All | Summary | CurrentSummary

  /** `f"{v}"` for a session's title: strings as they are, integers in
      decimal, Python's spellings of booleans and None; lists and
      dictionaries through their printed form `show`. */
  function Display(v: Value, show: Value -> string): string {
    match v
    case Str(s) => s
    case Int(i) => IntToString(i)
    case Bool(b) => if b then "True" else "False"
    case Null => "None"
    case _ => show(v)
  }

  function Spaces(n: nat): (r: string)
    ensures |r| == n && forall k :: 0 <= k < n ==> r[k] == ' '
  {
    seq(n, _ => ' ')
  }

  const SessionOpen: string := "<div class=\"chat-session\">"
  const HeaderOpen: string := "<div class=\"chat-session-header\">"
  const DivClose: string := "</div>"

  /** A session block of the triple-quoted templates, indented by `indent`:
      header line and body line one level deeper. */
  function SessionBlock(indent: nat, header: string, body: string): string {
    "\n" + Spaces(indent) + SessionOpen + "\n"
    + Spaces(indent + 4) + HeaderOpen + header + DivClose + "\n"
    + Spaces(indent + 4) + body + "\n"
    + Spaces(indent) + DivClose + "\n" + Spaces(indent)
  }

  /** A block holding only a header, indented by `indent`. */
  function TotalsBlock(indent: nat, header: string): string {
    "\n" + Spaces(indent) + SessionOpen + "\n"
    + Spaces(indent + 4) + HeaderOpen + header + DivClose + "\n"
    + Spaces(indent) + DivClose + "\n" + Spaces(indent)
  }

  function UserDiv(text: string): string {
    "<div class=\"message user-message\">" + SafeHtml(text) + DivClose
  }

  function AssistantDiv(text: string): string {
    "<div class=\"message assistant-message\">" + SafeHtml(text) + DivClose
  }

  // ---------------------------------------------------------------------
  // create_html_content

  /** `role == "1" or role == 1`: the string "user" does not qualify. */
  predicate RendersAsUser(role: Value) {
    role == Str("1") || EqualsInt(role, 1)
  }

  /** `role == "2" or role == 2`. */
  predicate RendersAsAssistant(role: Value) {
    role == Str("2") || EqualsInt(role, 2)
  }

  predicate Renders(m: Message) {
    RendersAsUser(m.role) || RendersAsAssistant(m.role)
  }

  /** The message blocks of a session, in message order. */
  function MessageDivs(ms: seq<Message>): seq<string> {
    if ms == [] then []
    else
      var front, m := MessageDivs(ms[..|ms| - 1]), ms[|ms| - 1];
      if RendersAsUser(m.role) then front + [UserDiv(m.content)]
      else if RendersAsAssistant(m.role) then front + [AssistantDiv(m.content)]
      else front
  }

  /** The aggregate header of modes `all` and `summary`. */
  function AggregateBlocks(mode: Mode, n: nat): seq<string> {
    if mode == All || mode == Summary then [TotalsBlock(12, "总计：" + NatToString(n) + "组聊天记录")] else []
  }

  function SessionHeader(mode: Mode, s: Session, show: Value -> string): string {
    match mode
    case Current => "总计" + NatToString(s.chatCount) + "条聊天对话"
    case All => Display(s.title, show) + " " + "(总计" + NatToString(s.chatCount) + "条聊天对话)"
    case _ => Display(s.title, show) + " " + "(总计" + NatToString(s.userQuestions) + "条用户提问)"
  }

  /** The block of one session, or None when it has no message to show. */
  function Section(s: Session, mode: Mode, show: Value -> string): Option<string> {
    if s.messages == [] then None
    else
      var divs := MessageDivs(s.messages);
      if divs == [] then None else Some(SessionBlock(16, SessionHeader(mode, s, show), Concat(divs)))
  }

  function Sections(sessions: seq<Session>, mode: Mode, show: Value -> string): seq<string> {
    if sessions == [] then []
    else
      var front := Sections(sessions[..|sessions| - 1], mode, show);
      match Section(sessions[|sessions| - 1], mode, show)
      case Some(b) => front + [b]
      case None => front
  }

  /** What `create_html_content(sessions, mode)` returns. */
  function HtmlContent(sessions: seq<Session>, mode: Mode, show: Value -> string): string {
    Join(AggregateBlocks(mode, |sessions|) + Sections(sessions, mode, show), "\n")
  }

  /** The inner loop: one block per message with a numeric role. */
  method RenderMessages(ms: seq<Message>) returns (divs: seq<string>)
    ensures divs == MessageDivs(ms)
  {
    divs := [];
    var j := 0;
    while j < |ms|
      invariant 0 <= j <= |ms|
      invariant divs == MessageDivs(ms[..j])
    {
      assert ms[..j + 1][..j] == ms[..j];
      var m := ms[j];
      if RendersAsUser(m.role) {
        var html := ProcessCodeBlocks(m.content);
        divs := divs + ["<div class=\"message user-message\">" + html + DivClose];
      } else if RendersAsAssistant(m.role) {
        var html := ProcessCodeBlocks(m.content);
        divs := divs + ["<div class=\"message assistant-message\">" + html + DivClose];
      }
      j := j + 1;
    }
    assert ms[..j] == ms;
  }

  /** One session: skipped without messages or without a message to show. */
  method RenderSection(s: Session, mode: Mode, show: Value -> string) returns (section: Option<string>)
    ensures section == Section(s, mode, show)
  {
    if s.messages == [] {
      return None;
    }
    var divs := RenderMessages(s.messages);
    if divs == [] {
      return None;
    }
    section := Some(SessionBlock(16, SessionHeader(mode, s, show), Concat(divs)));
  }

  lemma SectionsSnoc(sessions: seq<Session>, i: nat, mode: Mode, show: Value -> string)
    requires i < |sessions|
    ensures Section(sessions[i], mode, show).None? ==>
      Sections(sessions[..i + 1], mode, show) == Sections(sessions[..i], mode, show)
    ensures Section(sessions[i], mode, show).Some? ==>
      Sections(sessions[..i + 1], mode, show) == Sections(sessions[..i], mode, show) + [Section(sessions[i], mode, show).value]
  {
    assert sessions[..i + 1][..i] == sessions[..i];
  }

  lemma AppendAssoc<T>(a: seq<T>, b: seq<T>, c: seq<T>)
    ensures (a + b) + c == a + (b + c)
  {
  }

  method CreateHtmlContent(sessions: seq<Session>, mode: Mode, show: Value -> string) returns (html: string)
    ensures html == HtmlContent(sessions, mode, show)
  {
    var content := AggregateBlocks(mode, |sessions|);
    var i := 0;
    while i < |sessions|
      invariant 0 <= i <= |sessions|
      invariant content == AggregateBlocks(mode, |sessions|) + Sections(sessions[..i], mode, show)
    {
      SectionsSnoc(sessions, i, mode, show);
      var section := RenderSection(sessions[i], mode, show);
      if section.Some? {
        AppendAssoc(AggregateBlocks(mode, |sessions|), Sections(sessions[..i], mode, show), [section.value]);
        content := content + [section.value];
      }
      i := i + 1;
    }
    assert sessions[..i] == sessions;
    html := Join(content, "\n");
  }

  /** A session gets a block exactly when one of its messages has a numeric role. */
  lemma {:induction false} MessageDivsEmptyIff(ms: seq<Message>)
    ensures MessageDivs(ms) == [] <==> forall k :: 0 <= k < |ms| ==> !Renders(ms[k])
  {
    if ms != [] {
      var front := ms[..|ms| - 1];
      MessageDivsEmptyIff(front);
      assert forall k :: 0 <= k < |front| ==> front[k] == ms[k];
    }
  }

  /** Each block shows one message, user or assistant by its role. */
  lemma {:induction false} MessageDivsFrom(ms: seq<Message>, d: string)
    requires d in MessageDivs(ms)
    ensures exists k :: 0 <= k < |ms| && Shows(d, ms[k])
  {
    var front := ms[..|ms| - 1];
    if d in MessageDivs(front) {
      MessageDivsFrom(front, d);
      var k :| 0 <= k < |front| && Shows(d, front[k]);
      assert front[k] == ms[k];
    } else {
      assert Shows(d, ms[|ms| - 1]);
    }
  }

  /** `d` is the block of message `m`. */
  predicate Shows(d: string, m: Message) {
    || (RendersAsUser(m.role) && d == UserDiv(m.content))
    || (!RendersAsUser(m.role) && RendersAsAssistant(m.role) && d == AssistantDiv(m.content))
  }

  /** Blocks keep the order of the messages. */
  lemma {:induction false} MessageDivsAppend(a: seq<Message>, b: seq<Message>)
    ensures MessageDivs(a + b) == MessageDivs(a) + MessageDivs(b)
  {
    if b == [] {
      assert a + b == a;
    } else {
      assert (a + b)[..|a + b| - 1] == a + b[..|b| - 1];
      MessageDivsAppend(a, b[..|b| - 1]);
    }
  }

  /** A message whose role is the string "user" or "assistant" gets no block. */
  lemma NamedRolesNotShown(c: string)
    ensures MessageDivs([Message(Str("user"), c)]) == []
    ensures MessageDivs([Message(Str("assistant"), c)]) == []
  {
    assert [Message(Str("user"), c)][..0] == [];
    assert [Message(Str("assistant"), c)][..0] == [];
  }

  lemma SectionIff(s: Session, mode: Mode, show: Value -> string)
    ensures Section(s, mode, show).Some? <==> exists k :: 0 <= k < |s.messages| && Renders(s.messages[k])
  {
    MessageDivsEmptyIff(s.messages);
  }

  /** At most one block per session, none for a session without a message
      with a numeric role. */
  lemma {:induction false} SectionsBound(sessions: seq<Session>, mode: Mode, show: Value -> string)
    ensures |Sections(sessions, mode, show)| <= |sessions|
    ensures Sections(sessions, mode, show) == []
        <==> forall i :: 0 <= i < |sessions| ==> Section(sessions[i], mode, show).None?
  {
    if sessions != [] {
      var front := sessions[..|sessions| - 1];
      SectionsBound(front, mode, show);
      assert forall i :: 0 <= i < |front| ==> front[i] == sessions[i];
    }
  }

  /** The aggregate header comes first in modes `all` and `summary`, and is
      absent otherwise. */
  lemma AggregateFirst(sessions: seq<Session>, mode: Mode, show: Value -> string)
    ensures mode == All || mode == Summary ==>
      StartsWith(HtmlContent(sessions, mode, show), TotalsBlock(12, "总计：" + NatToString(|sessions|) + "组聊天记录"))
    ensures mode == Current || mode == CurrentSummary ==>
      HtmlContent(sessions, mode, show) == Join(Sections(sessions, mode, show), "\n")
  {
    var blocks := AggregateBlocks(mode, |sessions|) + Sections(sessions, mode, show);
    if mode == All || mode == Summary {
      JoinFirst(blocks);
    } else {
      assert blocks == Sections(sessions, mode, show);
    }
  }

  lemma JoinFirst(parts: seq<string>)
    requires parts != []
    ensures StartsWith(Join(parts, "\n"), parts[0])
  {
    var j := Join(parts, "\n");
    if |parts| > 1 {
      assert j == parts[0] + ("\n" + Join(parts[1..], "\n"));
      assert j[..|parts[0]|] == parts[0];
    } else {
      assert j[..|parts[0]|] == parts[0];
    }
  }

  // ---------------------------------------------------------------------
  // export_summary and export_current_summary

  /** `sum(s.get('user_questions', 0) for s in chat_sessions)`. */
  function TotalQuestions(sessions: seq<Session>): nat {
    if sessions == [] then 0
    else TotalQuestions(sessions[..|sessions| - 1]) + sessions[|sessions| - 1].userQuestions
  }

  /** The contents of the user messages, role in `["1", 1, "user"]`. */
  function UserQuestionContents(ms: seq<Message>): seq<string> {
    if ms == [] then []
    else
      var front := UserQuestionContents(ms[..|ms| - 1]);
      if IsUserRole(ms[|ms| - 1].role) then front + [ms[|ms| - 1].content] else front
  }

  /** The question blocks: one per question that is not blank. */
  function QuestionDivs(qs: seq<string>): seq<string> {
    if qs == [] then []
    else
      var front := QuestionDivs(qs[..|qs| - 1]);
      if Strip(qs[|qs| - 1]) != "" then front + [UserDiv(qs[|qs| - 1])] else front
  }

  function SummarySection(s: Session, show: Value -> string): Option<string> {
    if s.messages == [] || s.userQuestions == 0 then None
    else
      var qs := UserQuestionContents(s.messages);
      if qs == [] then None
      else
        var header := Display(s.title, show) + " (总计" + NatToString(s.userQuestions) + "条用户提问)";
        Some(SessionBlock(16, header, Concat(QuestionDivs(qs))))
  }

  function SummarySections(sessions: seq<Session>, show: Value -> string): seq<string> {
    if sessions == [] then []
    else
      var front := SummarySections(sessions[..|sessions| - 1], show);
      match SummarySection(sessions[|sessions| - 1], show)
      case Some(b) => front + [b]
      case None => front
  }

  function SummaryTotals(sessions: seq<Session>): string {
    TotalsBlock(8, "总计：" + NatToString(|sessions|) + "组聊天记录，共" + NatToString(TotalQuestions(sessions)) + "条用户提问")
  }

  /** The body `export_summary` writes, or None when there is no session
      (nothing is written). */
  function SummaryContent(sessions: seq<Session>, show: Value -> string): Option<string> {
    if sessions == [] then None
    else Some(Join([SummaryTotals(sessions)] + SummarySections(sessions, show), "\n"))
  }

  method ExportSummaryContent(sessions: seq<Session>, show: Value -> string) returns (content: Option<string>)
    ensures content == SummaryContent(sessions, show)
  {
    if sessions == [] {
      return None;
    }
    var blocks := [SummaryTotals(sessions)];
    var i := 0;
    while i < |sessions|
      invariant 0 <= i <= |sessions|
      invariant blocks == [SummaryTotals(sessions)] + SummarySections(sessions[..i], show)
    {
      assert sessions[..i + 1][..i] == sessions[..i];
      var s := sessions[i];
      if s.messages != [] && s.userQuestions != 0 {
        var qs := UserQuestionContents(s.messages);
        if qs != [] {
          var header := Display(s.title, show) + " (总计" + NatToString(s.userQuestions) + "条用户提问)";
          blocks := blocks + [SessionBlock(16, header, Concat(QuestionDivs(qs)))];
        }
      }
      i := i + 1;
    }
    assert sessions[..i] == sessions;
    content := Some(Join(blocks, "\n"));
  }

  /** The body `export_current_summary` writes for the latest session, or
      None when there is no session or it has no user message. */
  function CurrentSummaryContent(sessions: seq<Session>): Option<string> {
    if sessions == [] then None
    else
      var s := sessions[|sessions| - 1];
      var qs := UserQuestionContents(s.messages);
      if qs == [] then None
      else Some(SessionBlock(16, "总计" + NatToString(s.userQuestions) + "条用户提问", Concat(QuestionDivs(qs))))
  }

  /** There is one question content per counted user question. */
  lemma {:induction false} QuestionContentsCount(ms: seq<Message>)
    ensures |UserQuestionContents(ms)| == UserQuestions(ms)
  {
    if ms != [] {
      QuestionContentsCount(ms[..|ms| - 1]);
    }
  }

  /** The total is the sum of the sessions' counts, in any split. */
  lemma {:induction false} TotalQuestionsAppend(a: seq<Session>, b: seq<Session>)
    ensures TotalQuestions(a + b) == TotalQuestions(a) + TotalQuestions(b)
  {
    if b == [] {
      assert a + b == a;
    } else {
      assert (a + b)[..|a + b| - 1] == a + b[..|b| - 1];
      TotalQuestionsAppend(a, b[..|b| - 1]);
    }
  }

  /** For the sessions the reader returns, a session appears in the summary
      exactly when it has a user question. */
  lemma SummarySectionIff(s: Session, show: Value -> string)
    requires ValidSession(s)
    ensures SummarySection(s, show).Some? <==> s.userQuestions > 0
  {
    QuestionContentsCount(s.messages);
  }

  /** ... and the current summary exists exactly when the latest session has one. */
  lemma CurrentSummaryIff(sessions: seq<Session>)
    requires sessions != [] && ValidSession(sessions[|sessions| - 1])
    ensures CurrentSummaryContent(sessions).Some? <==> sessions[|sessions| - 1].userQuestions > 0
  {
    QuestionContentsCount(sessions[|sessions| - 1].messages);
  }

  /** Blank questions are counted but get no block. */
  lemma {:induction false} QuestionDivsCount(qs: seq<string>)
    ensures |QuestionDivs(qs)| <= |qs|
    ensures QuestionDivs(qs) == [] <==> forall k :: 0 <= k < |qs| ==> Strip(qs[k]) == ""
  {
    if qs != [] {
      var front := qs[..|qs| - 1];
      QuestionDivsCount(front);
      assert forall k :: 0 <= k < |front| ==> front[k] == qs[k];
    }
  }

  // ---------------------------------------------------------------------
  // safe_title

  /** Characters that survive in a file name. */
  predicate TitleChar(c: char, isAlnum: char -> bool) {
    isAlnum(c) || c == ' ' || c == '_' || c == '-'
  }

  /** `"".join([c if c.isalnum() or c in " _-" else "_" for c in title])`;
      `isAlnum` is Python's `str.isalnum` for one character. */
  function SafeTitle(title: string, isAlnum: char -> bool): (r: string)
    ensures |r| == |title|
  {
    seq(|title|, k requires 0 <= k < |title| => if TitleChar(title[k], isAlnum) then title[k] else '_')
  }

  /** Every character of the result may appear in a file name; the allowed
      characters of the title are kept in place and the others become `_`. */
  lemma SafeTitleChars(title: string, isAlnum: char -> bool)
    ensures forall k :: 0 <= k < |title| ==> TitleChar(SafeTitle(title, isAlnum)[k], isAlnum)
    ensures forall k :: 0 <= k < |title| ==>
      (TitleChar(title[k], isAlnum) <==> SafeTitle(title, isAlnum)[k] == title[k])
  {
  }

  lemma SafeTitleIdempotent(title: string, isAlnum: char -> bool)
    ensures SafeTitle(SafeTitle(title, isAlnum), isAlnum) == SafeTitle(title, isAlnum)
  {
    SafeTitleChars(title, isAlnum);
  }
}
