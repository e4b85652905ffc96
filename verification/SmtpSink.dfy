/**
  `handle` of scripts/dev-smtp-sink.py: a connection of the mail sink as a state
  machine over the lines it receives, and any number of connections that append
  to one log.
 */
module SmtpSink {
  import opened Sequences
  import opened PyText

  datatype Message = Message(mailFrom: Option<string>, rcptTo: seq<string>, body: string)

  datatype State = State(isOpen: bool, mailFrom: Option<string>, rcptTo: seq<string>, inData: bool, dataLines: seq<string>)

  const START := State(true, None, [], false, [])

  /** upper(), on ASCII letters. */
  function Upper(s: string): (u: string)
    ensures |u| == |s|
  {
    seq(|s|, i requires 0 <= i < |s| => if 'a' <= s[i] <= 'z' then (s[i] as int - 32) as char else s[i])
  }

  datatype Verb = Hello | Mail | Rcpt | Data | Reset | Quit | Other

  function VerbOf(line: string): Verb {
    var upper := Upper(line);
    if StartsWith(upper, "EHLO") || StartsWith(upper, "HELO") then Hello
    else if StartsWith(upper, "MAIL FROM") then Mail
    else if StartsWith(upper, "RCPT TO") then Rcpt
    else if upper == "DATA" then Data
    else if StartsWith(upper, "RSET") then Reset
    else if StartsWith(upper, "QUIT") then Quit
    else Other
  }

  /** line[n:].strip() */
  function Argument(line: string, n: nat): string {
    RStrip(LStrip(if |line| < n then "" else line[n..]))
  }

  /** "\n".join(lines) */
  function JoinLines(lines: seq<string>): string {
    if lines == [] then ""
    else if |lines| == 1 then lines[0]
    else lines[0] + "\n" + JoinLines(lines[1..])
  }

  function Command(s: State, line: string): State {
    match VerbOf(line)
    case Mail => s.(mailFrom := Some(Argument(line, 10)))
    case Rcpt => s.(rcptTo := s.rcptTo + [Argument(line, 8)])
    case Data => s.(inData := true)
    case Reset => s.(mailFrom := None, rcptTo := [])
    case Quit => s.(isOpen := false)
    case Hello => s
    case Other => s
  }

  function Step(s: State, line: string): State {
    if !s.isOpen then s
    else if s.inData then
      if line == "." then START else s.(dataLines := s.dataLines + [line])
    else if line == "" then s.(isOpen := false)
    else Command(s, line)
  }

  /** What the line makes the connection append to the log. */
  function Captured(s: State, line: string): seq<Message> {
    if s.isOpen && s.inData && line == "." then [Message(s.mailFrom, s.rcptTo, JoinLines(s.dataLines))] else []
  }

  function Replies(s: State, line: string): seq<string> {
    if !s.isOpen then []
    else if s.inData then (if line == "." then ["250 OK"] else [])
    else if line == "" then []
    else match VerbOf(line)
      case Hello => ["250-sink", "250 8BITMIME"]
      case Data => ["354 End data with <CR><LF>.<CR><LF>"]
      case Quit => ["221 Bye"]
      case _ => ["250 OK"]
  }

  // ---------- verbs, arguments and replies, spelled out ----------

  /** The same letter, if letters of either case count as one. */
  predicate SameLetter(c: char, u: char) {
    c == u || ('a' <= c <= 'z' && c as int == u as int + 32)
  }

  /** The line begins with the word, in letters of any case. */
  predicate Begins(line: string, word: string) {
    |word| <= |line| && forall i :: 0 <= i < |word| ==> SameLetter(line[i], word[i])
  }

  predicate InCapitals(word: string) {
    forall i :: 0 <= i < |word| ==> word[i] == ' ' || 'A' <= word[i] <= 'Z'
  }

  lemma BeginsIs(line: string, word: string)
    requires InCapitals(word)
    ensures StartsWith(Upper(line), word) <==> Begins(line, word)
    ensures Upper(line) == word <==> Begins(line, word) && |line| == |word|
  {
    var u := Upper(line);
    if Begins(line, word) {
      assert u[..|word|] == word;
    }
    if StartsWith(u, word) {
      assert forall i :: 0 <= i < |word| ==> u[i] == word[i];
    }
    if |line| == |word| { assert u[..|word|] == u; }
  }

  /** What a line says, the first that applies. */
  lemma VerbIs(line: string)
    ensures VerbOf(line) ==
            if Begins(line, "EHLO") || Begins(line, "HELO") then Hello
            else if Begins(line, "MAIL FROM") then Mail
            else if Begins(line, "RCPT TO") then Rcpt
            else if Begins(line, "DATA") && |line| == 4 then Data
            else if Begins(line, "RSET") then Reset
            else if Begins(line, "QUIT") then Quit
            else Other
  {
    BeginsIs(line, "EHLO");
    BeginsIs(line, "HELO");
    BeginsIs(line, "MAIL FROM");
    BeginsIs(line, "RCPT TO");
    BeginsIs(line, "DATA");
    BeginsIs(line, "RSET");
    BeginsIs(line, "QUIT");
  }

  /** The argument is what follows the first `n` characters, without blanks around it. */
  lemma ArgumentIs(line: string, n: nat, before: string, argument: string, after: string)
    requires n <= |line| && line[n..] == before + argument + after && AllSpace(before) && AllSpace(after)
    requires argument != "" ==> !IsSpace(argument[0]) && !IsSpace(argument[|argument| - 1])
    ensures Argument(line, n) == argument
  {
    var t := line[n..];
    if argument == "" {
      assert forall i :: 0 <= i < |t| ==> IsSpace(t[i]);
      SpaceEndIs(t, 0, |t|);
    } else {
      assert forall i :: 0 <= i < |before| ==> t[i] == before[i];
      assert t[|before|] == argument[0];
      SpaceEndIs(t, 0, |before|);
      assert LStrip(t) == argument + after;
      StripsTo(argument, after);
    }
  }

  lemma StripsTo(body: string, after: string)
    requires body != "" && !IsSpace(body[|body| - 1]) && AllSpace(after)
    ensures RStrip(body + after) == body
  {
    var s := body + after;
    var r := RStrip(s);
    assert s[|body| - 1] == body[|body| - 1] && forall i :: |body| <= i < |s| ==> s[i] == after[i - |body|];
    assert r != "" ==> r[|r| - 1] == s[|r| - 1];
    assert s[..|body|] == body;
  }

  /** MAIL FROM and one more character, or RCPT TO and one more, and then the address. */
  lemma AddressesAre(s: State, mark: string, before: string, address: string, after: string)
    requires s.isOpen && !s.inData && AllSpace(before) && AllSpace(after)
    requires address != "" ==> !IsSpace(address[0]) && !IsSpace(address[|address| - 1])
    ensures var line := mark + (before + address + after);
            && (|mark| == 10 && Begins(mark, "MAIL FROM") ==> Step(s, line) == s.(mailFrom := Some(address)))
            && (|mark| == 8 && Begins(mark, "RCPT TO") ==> Step(s, line) == s.(rcptTo := s.rcptTo + [address]))
  {
    var rest := before + address + after;
    var line := mark + rest;
    assert line[|mark|..] == rest;
    ArgumentIs(line, |mark|, before, address, after);
    if |mark| == 10 && Begins(mark, "MAIL FROM") {
      MarkOpens(mark, rest, "MAIL FROM");
      Addressed(line);
    } else if |mark| == 8 && Begins(mark, "RCPT TO") {
      MarkOpens(mark, rest, "RCPT TO");
      Addressed(line);
    }
  }

  lemma Addressed(line: string)
    ensures Begins(line, "MAIL FROM") ==> VerbOf(line) == Mail
    ensures Begins(line, "RCPT TO") ==> VerbOf(line) == Rcpt
  {
    VerbIs(line);
    FirstLetter(line, "EHLO");
    FirstLetter(line, "HELO");
    FirstLetter(line, "MAIL FROM");
    FirstLetter(line, "RCPT TO");
  }

  lemma FirstLetter(line: string, word: string)
    requires word != ""
    ensures Begins(line, word) ==> line != "" && SameLetter(line[0], word[0])
  {
  }

  lemma MarkOpens(mark: string, rest: string, word: string)
    requires Begins(mark, word)
    ensures Begins(mark + rest, word) && (mark + rest)[0..|mark|] == mark
  {
  }

  /** What the other lines do outside a transfer, the first that applies. */
  lemma OtherCommandsAre(s: State, line: string)
    requires s.isOpen && !s.inData
    ensures line == "" ==> Step(s, line) == s.(isOpen := false)
    ensures line != "" && !Begins(line, "MAIL FROM") && !Begins(line, "RCPT TO") ==>
              Step(s, line) ==
              if Begins(line, "DATA") && |line| == 4 then s.(inData := true)
              else if Begins(line, "RSET") then s.(mailFrom := None, rcptTo := [])
              else if Begins(line, "QUIT") then s.(isOpen := false)
              else s
  {
    VerbIs(line);
    FirstLetter(line, "EHLO");
    FirstLetter(line, "HELO");
    FirstLetter(line, "DATA");
    FirstLetter(line, "RSET");
    FirstLetter(line, "QUIT");
  }

  /** The body's lines are separated by one line feed each: lines without any can be told apart again. */
  function SplitAtFeeds(s: string): (lines: seq<string>)
    ensures lines != []
  {
    if s == "" then [""]
    else
      var rest := SplitAtFeeds(s[1..]);
      if s[0] == '\n' then [""] + rest else [[s[0]] + rest[0]] + rest[1..]
  }

  lemma {:induction false} JoinedLinesSplit(lines: seq<string>)
    requires lines != [] && forall i, k :: 0 <= i < |lines| && 0 <= k < |lines[i]| ==> lines[i][k] != '\n'
    ensures SplitAtFeeds(JoinLines(lines)) == lines
  {
    if |lines| == 1 {
      NoFeeds(lines[0]);
    } else {
      var rest := lines[1..];
      assert forall i :: 0 <= i < |rest| ==> rest[i] == lines[i + 1];
      JoinedLinesSplit(rest);
      FirstFeed(lines[0], JoinLines(rest));
    }
  }

  lemma {:induction false} NoFeeds(line: string)
    requires forall k :: 0 <= k < |line| ==> line[k] != '\n'
    ensures SplitAtFeeds(line) == [line]
  {
    if line != "" {
      NoFeeds(line[1..]);
      assert [line[0]] + line[1..] == line;
    }
  }

  lemma {:induction false} FirstFeed(line: string, rest: string)
    requires forall k :: 0 <= k < |line| ==> line[k] != '\n'
    ensures SplitAtFeeds(line + "\n" + rest) == [line] + SplitAtFeeds(rest)
    decreases |line|
  {
    var s := line + "\n" + rest;
    if line == "" {
      assert s[1..] == rest;
    } else {
      assert s[1..] == line[1..] + "\n" + rest;
      FirstFeed(line[1..], rest);
      assert [line[0]] + line[1..] == line;
    }
  }

  /** Each line gets its reply: two lines for a greeting, a prompt for DATA, nothing for a body line, and the
      same word for everything else, reset and unknown commands included. */
  lemma RepliesAre(s: State, line: string)
    requires s.isOpen
    ensures s.inData ==> Replies(s, line) == if line == "." then ["250 OK"] else []
    ensures !s.inData && line != "" ==>
              Replies(s, line) ==
              if Begins(line, "EHLO") || Begins(line, "HELO") then ["250-sink", "250 8BITMIME"]
              else if Begins(line, "MAIL FROM") || Begins(line, "RCPT TO") then ["250 OK"]
              else if Begins(line, "DATA") && |line| == 4 then ["354 End data with <CR><LF>.<CR><LF>"]
              else if Begins(line, "RSET") then ["250 OK"]
              else if Begins(line, "QUIT") then ["221 Bye"]
              else ["250 OK"]
  {
    VerbIs(line);
  }

  // ---------- the handler ----------

  /** MESSAGES */
  class Log {
    var messages: seq<Message>

    constructor ()
      ensures messages == []
    {
      messages := [];
    }
  }

  /** The local variables of one call of the handler. */
  class Connection {
    var isOpen: bool
    var mailFrom: Option<string>
    var rcptTo: seq<string>
    var inData: bool
    var dataLines: seq<string>

    function Now(): State
      reads this
    {
      State(isOpen, mailFrom, rcptTo, inData, dataLines)
    }

    constructor ()
      ensures Now() == START
    {
      isOpen, mailFrom, rcptTo, inData, dataLines := true, None, [], false, [];
    }

    /** One turn of the handler's loop; the line has lost its line break. */
    method Receive(line: string, log: Log) returns (replies: seq<string>)
      modifies this, log
      ensures Now() == Step(old(Now()), line)
      ensures log.messages == old(log.messages) + Captured(old(Now()), line)
      ensures replies == Replies(old(Now()), line)
    {
      replies := [];
      if !isOpen {
        return;
      }
      if line == "" && !inData {
        isOpen := false;
        return;
      }
      if inData {
        if line == "." {
          log.messages := log.messages + [Message(mailFrom, rcptTo, JoinLines(dataLines))];
          inData, dataLines, mailFrom, rcptTo := false, [], None, [];
          replies := ["250 OK"];
        } else {
          dataLines := dataLines + [line];
        }
        return;
      }
      replies := ReceiveCommand(line);
    }

    method ReceiveCommand(line: string) returns (replies: seq<string>)
      requires isOpen && !inData && line != ""
      modifies this
      ensures Now() == Step(old(Now()), line) && replies == Replies(old(Now()), line)
    {
      replies := ["250 OK"];
      match VerbOf(line) {
        case Hello => replies := ["250-sink", "250 8BITMIME"];
        case Mail => mailFrom := Some(Argument(line, 10));
        case Rcpt => rcptTo := rcptTo + [Argument(line, 8)];
        case Data =>
          inData := true;
          replies := ["354 End data with <CR><LF>.<CR><LF>"];
        case Reset => mailFrom, rcptTo := None, [];
        case Quit =>
          replies := ["221 Bye"];
          isOpen := false;
        case Other =>
      }
    }
  }

  // ---------- the lines of one connection ----------

  function After(lines: seq<string>): State {
    if lines == [] then START else Step(After(lines[..|lines| - 1]), lines[|lines| - 1])
  }

  /** Part of a session: a command, or a mail transfer with its body. */
  datatype Item = Plain(line: string) | Transfer(opening: string, body: seq<string>)

  predicate NoDot(body: seq<string>) {
    forall i :: 0 <= i < |body| ==> body[i] != "."
  }

  predicate GoodItem(item: Item) {
    match item
    case Plain(line) => line != "" && !VerbOf(line).Data? && !VerbOf(line).Quit?
    case Transfer(opening, body) => VerbOf(opening).Data? && NoDot(body)
  }

  predicate GoodSession(session: seq<Item>) {
    forall i :: 0 <= i < |session| ==> GoodItem(session[i])
  }

  function PrintItem(item: Item): seq<string> {
    match item
    case Plain(line) => [line]
    case Transfer(opening, body) => [opening] + body + ["."]
  }

  function Print(session: seq<Item>): seq<string> {
    if session == [] then [] else Print(session[..|session| - 1]) + PrintItem(session[|session| - 1])
  }

  /** A transfer and a reset both end what came before. */
  predicate Ends(item: Item) {
    item.Transfer? || VerbOf(item.line).Reset?
  }

  /** The commands since the last transfer or reset. */
  function Pending(session: seq<Item>): seq<string> {
    if session == [] || Ends(session[|session| - 1]) then []
    else Pending(session[..|session| - 1]) + [session[|session| - 1].line]
  }

  /** The argument of the last MAIL. */
  function Sender(commands: seq<string>): Option<string> {
    if commands == [] then None
    else
      var last := commands[|commands| - 1];
      if VerbOf(last).Mail? then Some(Argument(last, 10)) else Sender(commands[..|commands| - 1])
  }

  /** The arguments of every RCPT. */
  function Recipients(commands: seq<string>): seq<string> {
    if commands == [] then []
    else
      var last := commands[|commands| - 1];
      Recipients(commands[..|commands| - 1]) + if VerbOf(last).Rcpt? then [Argument(last, 8)] else []
  }

  /** Between two items. */
  function Idle(session: seq<Item>): State {
    State(true, Sender(Pending(session)), Recipients(Pending(session)), false, [])
  }

  lemma AfterOne(lines: seq<string>, line: string)
    ensures After(lines + [line]) == Step(After(lines), line)
  {
    assert (lines + [line])[..|lines|] == lines;
  }

  lemma {:induction false} AfterBody(lines: seq<string>, opening: string, body: seq<string>)
    requires After(lines).isOpen && !After(lines).inData && After(lines).dataLines == []
    requires VerbOf(opening).Data? && NoDot(body)
    ensures After(lines + [opening] + body) == After(lines).(inData := true, dataLines := body)
  {
    if body == [] {
      assert lines + [opening] + body == lines + [opening];
      DataIsNotEmpty(opening);
      AfterOne(lines, opening);
    } else {
      var n := |body| - 1;
      assert lines + [opening] + body == (lines + [opening] + body[..n]) + [body[n]];
      AfterBody(lines, opening, body[..n]);
      AfterOne(lines + [opening] + body[..n], body[n]);
      assert body == body[..n] + [body[n]];
    }
  }

  lemma DataIsNotEmpty(line: string)
    requires VerbOf(line).Data? || VerbOf(line).Quit?
    ensures line != ""
  {
  }

  lemma PendingOne(session: seq<Item>, item: Item)
    ensures Pending(session + [item]) == if Ends(item) then [] else Pending(session) + [item.line]
  {
    assert (session + [item])[..|session|] == session;
  }

  lemma SenderOne(commands: seq<string>, line: string)
    ensures Sender(commands + [line]) == if VerbOf(line).Mail? then Some(Argument(line, 10)) else Sender(commands)
    ensures Recipients(commands + [line]) == Recipients(commands) + if VerbOf(line).Rcpt? then [Argument(line, 8)] else []
  {
    assert (commands + [line])[..|commands|] == commands;
  }

  lemma IdleStep(session: seq<Item>, line: string)
    requires GoodItem(Plain(line))
    ensures Step(Idle(session), line) == Idle(session + [Plain(line)])
  {
    PendingOne(session, Plain(line));
    SenderOne(Pending(session), line);
  }

  /** After the lines of a session the connection knows its pending commands and nothing else. */
  lemma {:induction false} SessionLeavesIdle(session: seq<Item>)
    requires GoodSession(session)
    ensures After(Print(session)) == Idle(session)
  {
    if session != [] {
      var front, item := session[..|session| - 1], session[|session| - 1];
      assert session == front + [item] && GoodItem(item);
      SessionLeavesIdle(front);
      match item {
        case Plain(line) =>
          AfterOne(Print(front), line);
          IdleStep(front, line);
        case Transfer(opening, body) => TransferLeavesIdle(front, opening, body);
      }
    }
  }

  lemma TransferLeavesIdle(front: seq<Item>, opening: string, body: seq<string>)
    requires GoodItem(Transfer(opening, body)) && After(Print(front)) == Idle(front)
    ensures After(Print(front) + PrintItem(Transfer(opening, body))) == Idle(front + [Transfer(opening, body)])
  {
    var lines := Print(front) + [opening] + body;
    AfterBody(Print(front), opening, body);
    AfterOne(lines, ".");
    Regroup(Print(front), [opening], body);
    Regroup(Print(front), [opening] + body, ["."]);
    PendingOne(front, Transfer(opening, body));
  }

  /** The lines are a session and an unfinished transfer. */
  ghost predicate InTransfer(lines: seq<string>, session: seq<Item>, opening: string, body: seq<string>) {
    GoodSession(session) && VerbOf(opening).Data? && NoDot(body) && lines == Print(session) + [opening] + body
  }

  ghost predicate BetweenItems(lines: seq<string>, session: seq<Item>) {
    GoodSession(session) && lines == Print(session)
  }

  lemma PrintOne(session: seq<Item>, item: Item)
    ensures Print(session + [item]) == Print(session) + PrintItem(item)
    ensures GoodSession(session) && GoodItem(item) ==> GoodSession(session + [item])
  {
    assert (session + [item])[..|session|] == session;
  }

  /** The lines are a session, with an unfinished transfer when the connection is inside DATA. */
  ghost predicate Parses(lines: seq<string>, inData: bool) {
    if inData then exists session: seq<Item>, opening: string, body: seq<string> :: InTransfer(lines, session, opening, body)
    else exists session: seq<Item> :: BetweenItems(lines, session)
  }

  lemma BodyLineParses(lines: seq<string>, line: string)
    requires Parses(lines, true)
    ensures Parses(lines + [line], line != ".")
  {
    var session: seq<Item>, opening: string, body: seq<string> :| InTransfer(lines, session, opening, body);
    if line == "." {
      TransferEnds(lines, session, opening, body);
    } else {
      TransferGrows(lines, session, opening, body, line);
    }
  }

  lemma TransferEnds(lines: seq<string>, session: seq<Item>, opening: string, body: seq<string>)
    requires InTransfer(lines, session, opening, body)
    ensures Parses(lines + ["."], false)
  {
    var item := Transfer(opening, body);
    PrintOne(session, item);
    Regroup(Print(session), [opening], body);
    Regroup(Print(session), [opening] + body, ["."]);
    assert BetweenItems(lines + ["."], session + [item]);
  }

  lemma TransferGrows(lines: seq<string>, session: seq<Item>, opening: string, body: seq<string>, line: string)
    requires InTransfer(lines, session, opening, body) && line != "."
    ensures Parses(lines + [line], true)
  {
    assert Print(session) + [opening] + body + [line] == Print(session) + [opening] + (body + [line]);
    assert InTransfer(lines + [line], session, opening, body + [line]);
  }

  lemma CommandLineParses(lines: seq<string>, line: string)
    requires Parses(lines, false) && line != "" && !VerbOf(line).Quit?
    ensures Parses(lines + [line], VerbOf(line).Data?)
  {
    var session: seq<Item> :| BetweenItems(lines, session);
    if VerbOf(line).Data? {
      assert InTransfer(lines + [line], session, line, []);
    } else {
      PrintOne(session, Plain(line));
      assert BetweenItems(lines + [line], session + [Plain(line)]);
    }
  }

  lemma StepKinds(s: State, line: string)
    requires Step(s, line).isOpen
    ensures s.isOpen
    ensures s.inData ==> Step(s, line).inData == (line != ".")
    ensures !s.inData ==> line != "" && !VerbOf(line).Quit? && Step(s, line).inData == VerbOf(line).Data?
  {
  }

  /** Whatever lines an open connection has received, they are a session, with an unfinished transfer
      exactly when the connection is inside DATA. */
  lemma {:induction false} LinesParse(lines: seq<string>)
    requires After(lines).isOpen
    ensures Parses(lines, After(lines).inData)
  {
    if lines == [] {
      assert BetweenItems(lines, []);
    } else {
      var front, line := lines[..|lines| - 1], lines[|lines| - 1];
      assert lines == front + [line];
      StepKinds(After(front), line);
      LinesParse(front);
      if After(front).inData {
        BodyLineParses(front, line);
      } else {
        CommandLineParses(front, line);
      }
    }
  }

  /** Outside DATA no body is kept. */
  lemma {:induction false} NoBodyOutsideData(lines: seq<string>)
    ensures !After(lines).inData ==> After(lines).dataLines == []
  {
    if lines != [] {
      NoBodyOutsideData(lines[..|lines| - 1]);
    }
  }

  /** The message that closes a transfer after a session. */
  function MessageOf(session: seq<Item>, body: seq<string>): Message {
    Message(Sender(Pending(session)), Recipients(Pending(session)), JoinLines(body))
  }

  lemma TransferState(lines: seq<string>, session: seq<Item>, opening: string, body: seq<string>)
    requires InTransfer(lines, session, opening, body)
    ensures After(lines) == Idle(session).(inData := true, dataLines := body)
  {
    SessionLeavesIdle(session);
    AfterBody(Print(session), opening, body);
  }

  /** A line makes the connection log a message exactly when it is the dot that ends a transfer, and the
      message has the last sender, all recipients since the last transfer or reset, and the body's lines. */
  lemma CapturedIff(lines: seq<string>, line: string, m: Message)
    ensures Captured(After(lines), line) == [m] <==>
            line == "." && exists session: seq<Item>, opening: string, body: seq<string> ::
              InTransfer(lines, session, opening, body) && m == MessageOf(session, body)
  {
    if Captured(After(lines), line) == [m] {
      LinesParse(lines);
      var session: seq<Item>, opening: string, body: seq<string> :| InTransfer(lines, session, opening, body);
      TransferState(lines, session, opening, body);
      assert Captured(After(lines), line) == [MessageOf(session, body)];
    }
    if line == "." {
      if session: seq<Item>, opening: string, body: seq<string> :|
          InTransfer(lines, session, opening, body) && m == MessageOf(session, body) {
        TransferState(lines, session, opening, body);
      }
    }
  }

  // ---------- several connections ----------

  /** A line arrives on one of the connections. */
  datatype Event = Event(conn: nat, line: string)

  datatype Server = Server(conns: map<nat, State>, log: seq<Message>)

  function StateOf(server: Server, conn: nat): State {
    if conn in server.conns then server.conns[conn] else START
  }

  function Deliver(server: Server, e: Event): Server {
    var s := StateOf(server, e.conn);
    Server(server.conns[e.conn := Step(s, e.line)], server.log + Captured(s, e.line))
  }

  function Run(events: seq<Event>): Server {
    if events == [] then Server(map[], []) else Deliver(Run(events[..|events| - 1]), events[|events| - 1])
  }

  /** The lines that one connection received. */
  function Own(events: seq<Event>, conn: nat): seq<string> {
    if events == [] then []
    else Own(events[..|events| - 1], conn) + if events[|events| - 1].conn == conn then [events[|events| - 1].line] else []
  }

  /** Connections do not see each other. */
  lemma {:induction false} ConnectionsAreIsolated(events: seq<Event>, conn: nat)
    ensures StateOf(Run(events), conn) == After(Own(events, conn))
  {
    if events != [] {
      var front, e := events[..|events| - 1], events[|events| - 1];
      ConnectionsAreIsolated(front, conn);
      if e.conn == conn {
        AfterOne(Own(front, conn), e.line);
      } else {
        assert Own(front, conn) + [] == Own(front, conn);
      }
    }
  }

  /** What each event, seen from its own connection, adds to the log. */
  function Logged(events: seq<Event>): seq<Message> {
    if events == [] then []
    else
      var front, e := events[..|events| - 1], events[|events| - 1];
      Logged(front) + Captured(After(Own(front, e.conn)), e.line)
  }

  /** However the connections are interleaved, the log is the messages of the events in their order, each
      determined by the lines of its own connection. */
  lemma {:induction false} LogIsPerConnection(events: seq<Event>)
    ensures Run(events).log == Logged(events)
  {
    if events != [] {
      var front, e := events[..|events| - 1], events[|events| - 1];
      LogIsPerConnection(front);
      ConnectionsAreIsolated(front, e.conn);
    }
  }

  /** Where a message of the log comes from. */
  ghost predicate ComesFrom(events: seq<Event>, i: nat, m: Message, session: seq<Item>, opening: string, body: seq<string>) {
    && i < |events| && events[i].line == "."
    && InTransfer(Own(events[..i], events[i].conn), session, opening, body) && m == MessageOf(session, body)
  }

  /** Every message of every run is a transfer of a single connection. */
  lemma {:induction false} MessagesAreTransfers(events: seq<Event>, k: nat)
    requires k < |Run(events).log|
    ensures exists i: nat, session: seq<Item>, opening: string, body: seq<string> ::
              ComesFrom(events, i, Run(events).log[k], session, opening, body)
  {
    var n := |events| - 1;
    var front, e := events[..n], events[n];
    var m := Run(events).log[k];
    if k < |Run(front).log| {
      MessagesAreTransfers(front, k);
      var i: nat, session: seq<Item>, opening: string, body: seq<string> :| ComesFrom(front, i, m, session, opening, body);
      assert front[..i] == events[..i];
      assert ComesFrom(events, i, m, session, opening, body);
    } else {
      ConnectionsAreIsolated(front, e.conn);
      var lines := Own(front, e.conn);
      assert Captured(After(lines), e.line) == [m];
      CapturedIff(lines, e.line, m);
      var session: seq<Item>, opening: string, body: seq<string> :|
        InTransfer(lines, session, opening, body) && m == MessageOf(session, body);
      assert ComesFrom(events, n, m, session, opening, body);
    }
  }

  /** Later events leave the messages of earlier ones as they are. */
  lemma {:induction false} LogOnlyGrows(events: seq<Event>, more: seq<Event>)
    ensures Run(events).log <= Run(events + more).log
  {
    if more == [] {
      assert events + more == events;
    } else {
      assert (events + more)[..|events + more| - 1] == events + more[..|more| - 1];
      LogOnlyGrows(events, more[..|more| - 1]);
    }
  }
}
