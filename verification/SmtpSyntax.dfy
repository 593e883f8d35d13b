/** How a mail server takes a command line apart, after section 4.1.1 of RFC 5321, and what it makes of the
    lines that the client writes. Blanks after the colon, which the grammar does not allow, are skipped as
    servers do; `Strict` says where there are none. */
module SmtpSyntax {
  import opened Options
  import opened Smtp

  datatype Command =
    | Helo(domain: string)
    | Ehlo(domain: string)
    | From(path: string)
    | To(path: string)
    | Data
    | Quit
    | Reset
    | Unknown

  predicate Starts(line: string, word: string) {
    |word| <= |line| && line[..|word|] == word
  }

  predicate Ended(line: string) {
    |line| >= 2 && line[|line| - 2..] == ['\r', '\n']
  }

  /** What stands before the first occurrence of a character, if there is one. */
  function Before(s: string, c: char): Option<string> {
    if s == "" then None
    else if s[0] == c then Some("")
    else
      match Before(s[1..], c)
      case Some(front) => Some([s[0]] + front)
      case None => None
  }

  /** A path in angle brackets, after any blanks. */
  function Path(s: string): Option<string> {
    if s == "" then None
    else if s[0] == ' ' then Path(s[1..])
    else if s[0] == '<' then Before(s[1..], '>')
    else None
  }

  function Understood(line: string): Command {
    if !Ended(line) then Unknown
    else
      var body := line[..|line| - 2];
      if body == "DATA" then Data
      else if body == "QUIT" then Quit
      else if body == "RSET" then Reset
      else if Starts(body, "HELO ") then Helo(body[5..])
      else if Starts(body, "EHLO ") then Ehlo(body[5..])
      else if Starts(body, "MAIL FROM:") && Path(body[10..]).Some? then From(Path(body[10..]).value)
      else if Starts(body, "RCPT TO:") && Path(body[8..]).Some? then To(Path(body[8..]).value)
      else Unknown
  }

  /** As the grammar has it, the path follows the colon directly. */
  predicate Strict(line: string) {
    && (Starts(line, "MAIL FROM:") ==> |line| > 10 && line[10] == '<')
    && (Starts(line, "RCPT TO:") ==> |line| > 8 && line[8] == '<')
  }

  lemma {:induction false} BeforeFirst(s: string, c: char, rest: string)
    ensures Before(s + [c] + rest, c).Some?
    ensures Before(s + [c] + rest, c) == Some(s) <==> c !in s
  {
    var t := s + [c] + rest;
    if s == "" {
      assert t[0] == c;
    } else {
      assert t[0] == s[0] && t[1..] == s[1..] + [c] + rest;
      BeforeFirst(s[1..], c, rest);
      assert s == [s[0]] + s[1..];
    }
  }

  lemma Line(body: string)
    ensures Ended(body + EOL) && (body + EOL)[..|body + EOL| - 2] == body
  {
  }

  lemma HelloUnderstood(esmtp: bool, domain: string)
    ensures Understood(Hello(esmtp, domain)) == if esmtp then Ehlo(domain) else Helo(domain)
  {
    var body := (if esmtp then "EHLO" else "HELO") + " " + domain;
    Line(body);
    assert body[..5] == if esmtp then "EHLO " else "HELO ";
    assert body[5..] == domain;
    assert body[0] == if esmtp then 'E' else 'H';
  }

  lemma PathUnderstood(path: string, rest: string)
    ensures Path(" <" + path + ">" + rest).Some?
    ensures Path(" <" + path + ">" + rest) == Some(path) <==> '>' !in path
  {
    var s := " <" + path + ">" + rest;
    assert s[1..] == "<" + path + ">" + rest;
    assert s[1..][1..] == path + ['>'] + rest;
    BeforeFirst(path, '>', rest);
  }

  /** The path comes through unless it holds a closing bracket itself. */
  lemma MailFromUnderstood(from: string)
    ensures Understood(MailFrom(from)) == From(from) <==> '>' !in from
    ensures !Strict(MailFrom(from))
  {
    hide Path;
    var body := "MAIL FROM: <" + from + ">";
    Line(body);
    PathUnderstood(from, "");
    assert body[..10] == "MAIL FROM:" && MailFrom(from)[..10] == "MAIL FROM:" && MailFrom(from)[10] == ' ';
    assert body[10..] == " <" + from + ">" + "";
    assert body[0] == 'M';
  }

  lemma RcptToUnderstood(address: string)
    ensures Understood(RcptTo(address, None)) == To(address) <==> '>' !in address
    ensures !Strict(RcptTo(address, None))
  {
    hide Path;
    var body := "RCPT TO: <" + address + ">";
    Line(body);
    PathUnderstood(address, "");
    assert body[..8] == "RCPT TO:" && RcptTo(address, None)[..8] == "RCPT TO:" && RcptTo(address, None)[8] == ' ';
    assert body[8..] == " <" + address + ">" + "";
    assert body[0] == 'R' && body[1] == 'C';
  }

  /** With a notification the path is written without brackets, which no server can understand. */
  lemma NotifiedNotUnderstood(address: string, flags: string)
    requires address != "" && address[0] !in " <"
    ensures Understood(RcptTo(address, Some(flags))) == Unknown
  {
    hide Path;
    var body := "RCPT TO: " + address + " " + flags;
    Line(body);
    assert body[..8] == "RCPT TO:" && body[0] == 'R' && body[1] == 'C';
    assert body[8..] == " " + address + (" " + flags);
    BarePath(address, " " + flags);
  }

  lemma BarePath(address: string, rest: string)
    requires address != "" && address[0] !in " <"
    ensures Path(" " + address + rest) == None
  {
    assert (" " + address + rest)[1..] == address + rest;
  }

  /** Unless the address brings its own. */
  lemma BracketedUnderstood(path: string, flags: string)
    requires '>' !in path
    ensures Understood(RcptTo("<" + path + ">", Some(flags))) == To(path)
  {
    hide Path;
    var body := "RCPT TO: " + ("<" + path + ">") + " " + flags;
    Line(body);
    assert body[..8] == "RCPT TO:" && body[0] == 'R' && body[1] == 'C';
    assert body[8..] == " <" + path + ">" + (" " + flags);
    PathUnderstood(path, " " + flags);
  }

  lemma OthersUnderstood()
    ensures Understood(DATA) == Data && Understood(QUIT) == Quit && Understood(RSET) == Reset
    ensures EOM == ['\r', '\n', '.', '\r', '\n']
  {
    Line("DATA");
    Line("QUIT");
    Line("RSET");
  }

  /** The whole script, as a server understands it: section 4.1.4 of RFC 5321, one recipient per address. */
  lemma ScriptUnderstood(mail: Mail, esmtp: bool)
    requires mail.notify.None? && '>' !in mail.from && forall a :: a in mail.addresses ==> '>' !in a
    ensures var s, n := Script(mail, esmtp), |mail.addresses|;
            && Understood(s[1]) == (if esmtp then Ehlo(mail.domain) else Helo(mail.domain))
            && Understood(s[2]) == From(mail.from)
            && (forall i :: 0 <= i < n ==> Understood(s[3 + i]) == To(mail.addresses[i]))
            && Understood(s[n + 3]) == Data && Understood(s[n + 6]) == Quit
  {
    hide Understood, Script;
    ScriptAt(mail, esmtp);
    HelloUnderstood(esmtp, mail.domain);
    MailFromUnderstood(mail.from);
    OthersUnderstood();
    forall i | 0 <= i < |mail.addresses|
      ensures Understood(Script(mail, esmtp)[3 + i]) == To(mail.addresses[i])
    {
      RcptToUnderstood(mail.addresses[i]);
    }
  }
}
