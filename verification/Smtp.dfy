/** What a dialogue with a mail server looks like from outside: turns, each a command and the lines read
    before the next command. */
module SmtpSpec {

  /** A line without its line end, or a read that failed. */
  datatype Reply = Line(text: string) | Failure

  /** The first turn, before any command, is the greeting. */
  datatype Turn = Turn(command: string, replies: seq<Reply>)

  const A_DASH := '-'
  const A_SPACE := ' '

  const GREETING_LIMIT: nat := 100
  const EHLO_LIMIT: nat := 1000

  // ---------- lines ----------

  predicate Blank(c: char) {
    c in " \t\n\r" || c == 0x0b as char || c == 0x0c as char
  }

  predicate IsDigit(c: char) {
    '0' <= c <= '9'
  }

  function Digits(s: string, n: nat): nat {
    if s == "" || !IsDigit(s[0]) then n else Digits(s[1..], 10 * n + Value(s[0]))
  }

  function Atoi(s: string): int {
    if s == "" then 0
    else if Blank(s[0]) then Atoi(s[1..])
    else if s[0] == '-' then 0 - Digits(s[1..], 0)
    else if s[0] == '+' then Digits(s[1..], 0)
    else Digits(s, 0)
  }

  /** A reply that is long enough to be taken apart. */
  predicate Readable(r: Reply) {
    r.Line? && |r.text| >= 5
  }

  function Code(r: Reply): int {
    if Readable(r) then Atoi(r.text[..3]) else -1
  }

  /** A line that announces another one. */
  predicate Dashed(r: Reply) {
    Readable(r) && r.text[3] == A_DASH
  }

  function Value(c: char): int {
    c as int - '0' as int
  }

  lemma DigitsStep(s: string, n: nat)
    ensures Digits(s, n) == if s == "" || !IsDigit(s[0]) then n else Digits(s[1..], 10 * n + Value(s[0]))
  {
  }

  lemma DigitsOfFew(s: string)
    requires |s| <= 2
    ensures Digits(s, 0) < 100
    ensures Atoi(s) < 100
  {
    hide Digits;
    DigitsStep(s, 0);
    if |s| >= 1 {
      DigitsStep(s[1..], 0);
      if IsDigit(s[0]) {
        DigitsStep(s[1..], Value(s[0]));
        if |s| == 2 && IsDigit(s[1]) {
          DigitsStep(s[1..][1..], 10 * Value(s[0]) + Value(s[1]));
        }
      }
      if |s| == 2 {
        DigitsStep(s[1..][1..], 0);
        if IsDigit(s[1]) {
          DigitsStep(s[1..][1..], Value(s[1]));
        }
      }
    }
  }

  lemma DigitsOfThree(s: string)
    requires |s| == 3
    ensures IsDigit(s[0]) && IsDigit(s[1]) && IsDigit(s[2]) ==>
      Digits(s, 0) == 100 * Value(s[0]) + 10 * Value(s[1]) + Value(s[2])
    ensures !(IsDigit(s[0]) && IsDigit(s[1]) && IsDigit(s[2])) ==> Digits(s, 0) < 100
  {
    hide Digits;
    DigitsStep(s, 0);
    if IsDigit(s[0]) {
      DigitsStep(s[1..], Value(s[0]));
      if IsDigit(s[1]) {
        DigitsStep(s[1..][1..], 10 * Value(s[0]) + Value(s[1]));
        if IsDigit(s[2]) {
          DigitsStep(s[1..][1..][1..], 100 * Value(s[0]) + 10 * Value(s[1]) + Value(s[2]));
        }
      }
    }
  }

  lemma AtoiOfThree(s: string)
    requires |s| == 3
    ensures if IsDigit(s[0]) && IsDigit(s[1]) && IsDigit(s[2])
            then Atoi(s) == 100 * Value(s[0]) + 10 * Value(s[1]) + Value(s[2])
            else Atoi(s) < 100
  {
    hide Digits;
    DigitsOfFew(s[1..]);
    DigitsOfThree(s);
    assert Digits(s[1..], 0) >= 0;
  }

  /** A code of three digits is recognised exactly when its digits stand at the beginning. */
  lemma CodeIs(r: Reply, a: nat, b: nat, c: nat)
    requires 1 <= a < 10 && b < 10 && c < 10
    ensures Code(r) == 100 * a + 10 * b + c <==>
              Readable(r) && Shows(r.text[0], a) && Shows(r.text[1], b) && Shows(r.text[2], c)
  {
    hide Atoi;
    if Readable(r) {
      AtoiOfThree(r.text[..3]);
    }
  }

  predicate Shows(c: char, digit: nat) {
    IsDigit(c) && Value(c) == digit
  }

  // ---------- replies ----------

  /** Lines read until one does not announce another, with a limit on the further lines. */
  predicate Block(g: seq<Reply>, limit: nat) {
    && 1 <= |g| <= limit + 1
    && (forall i :: 0 <= i < |g| - 1 ==> Dashed(g[i]))
    && (Dashed(g[|g| - 1]) ==> |g| == limit + 1)
  }

  /** A whole reply as a server sends it. */
  predicate Complete(g: seq<Reply>) {
    && |g| >= 1
    && (forall i :: 0 <= i < |g| - 1 ==> Dashed(g[i]))
    && Readable(g[|g| - 1]) && !Dashed(g[|g| - 1])
  }

  /** After HELO more lines are read only if the first accepts it. */
  predicate HelloBlock(g: seq<Reply>) {
    if |g| >= 1 && Code(g[0]) == 250 then Block(g, EHLO_LIMIT) else |g| == 1
  }

  /** At the end of the message more lines are read only if the first does not end the reply. */
  predicate EndBlock(g: seq<Reply>) {
    |g| >= 1 && (Complete([g[0]]) ==> |g| == 1)
  }

  /** How many lines the client reads in each turn. The message is sent in two pieces, of which the
      first (at the given place) is not answered; every other command gets one line read. */
  predicate Shaped(log: seq<Turn>, message: nat) {
    forall k :: 0 <= k < |log| ==> ShapedAt(log[k].replies, k, message)
  }

  predicate ShapedAt(g: seq<Reply>, k: nat, message: nat) {
    if k == 0 then Block(g, GREETING_LIMIT)
    else if k == 1 then HelloBlock(g)
    else if k == message then g == []
    else if k == message + 1 then EndBlock(g)
    else |g| == 1
  }

  /** All that was read, in order. */
  function Heard(log: seq<Turn>): seq<Reply> {
    if log == [] then [] else Heard(log[..|log| - 1]) + log[|log| - 1].replies
  }

  /** A server whose replies are complete, which stays within the limits, accepts HELO, and answers
      the end of the message with one line. */
  predicate Polite(replies: seq<seq<Reply>>, message: nat) {
    && message >= 2
    && (|replies| > 0 ==> |replies[0]| <= GREETING_LIMIT)
    && (|replies| > 1 ==> replies[1] != [] && Code(replies[1][0]) == 250 && |replies[1]| <= EHLO_LIMIT)
    && (|replies| > message + 1 ==> |replies[message + 1]| == 1)
    && (forall k :: 0 <= k < |replies| ==> if k == message then replies[k] == [] else Complete(replies[k]))
  }

  /** One line per command after HELO. */
  predicate OneLiners(replies: seq<seq<Reply>>, message: nat) {
    forall k :: 2 <= k < |replies| && k != message ==> |replies[k]| == 1
  }

  function Sent(replies: seq<seq<Reply>>): seq<Reply> {
    if replies == [] then [] else Sent(replies[..|replies| - 1]) + replies[|replies| - 1]
  }

  /** Two sequences that do not differ as far as both go. */
  predicate Agree(s: seq<Reply>, t: seq<Reply>) {
    forall i :: 0 <= i < |s| && i < |t| ==> s[i] == t[i]
  }

  /** A reply that is read greedily ends where the server ended it. */
  lemma OneReply(g: seq<Reply>, r: seq<Reply>, k: nat, message: nat, replies: seq<seq<Reply>>)
    requires ShapedAt(g, k, message) && Polite(replies, message) && OneLiners(replies, message)
              && k < |replies| && r == replies[k]
    requires Agree(g, r)
    ensures g == r
  {
    assert |g| <= |r|;
  }

  lemma AgreeBehind(a: seq<Reply>, s: seq<Reply>, t: seq<Reply>)
    requires Agree(a + s, a + t)
    ensures Agree(s, t)
  {
    forall i | 0 <= i < |s| && i < |t|
      ensures s[i] == t[i]
    {
      assert (a + s)[|a| + i] == (a + t)[|a| + i];
    }
  }

  lemma {:induction false} SentPrefix(replies: seq<seq<Reply>>, k: nat)
    requires k <= |replies|
    ensures Sent(replies[..k]) <= Sent(replies)
    decreases |replies|
  {
    if k == |replies| {
      assert replies[..k] == replies;
    } else {
      var front := replies[..|replies| - 1];
      SentPrefix(front, k);
      assert front[..k] == replies[..k];
    }
  }

  lemma {:induction false} InStep(log: seq<Turn>, replies: seq<seq<Reply>>, message: nat)
    requires |log| <= |replies| && Shaped(log, message) && Polite(replies, message) && OneLiners(replies, message)
    requires Agree(Heard(log), Sent(replies))
    ensures forall k :: 0 <= k < |log| ==> log[k].replies == replies[k]
    ensures Heard(log) == Sent(replies[..|log|])
    decreases |log|
  {
    hide ShapedAt, Polite, OneLiners;
    if log != [] {
      var n := |log| - 1;
      var g, r, h := log[n].replies, replies[n], Heard(log[..n]);
      InStep(log[..n], replies, message);
      SentPrefix(replies, n + 1);
      assert replies[..n + 1][..n] == replies[..n];
      assert Sent(replies[..n + 1]) == h + r;
      AgreeBehind(h, g, r);
      OneReply(g, r, n, message, replies);
    }
  }

  /** With a polite server, every turn holds exactly the reply to its own command if and only if the
      commands after HELO are answered by one line each. */
  lemma InStepExactlyWhen(log: seq<Turn>, replies: seq<seq<Reply>>, message: nat)
    requires |log| <= |replies| && Shaped(log, message) && Polite(replies, message)
    requires Agree(Heard(log), Sent(replies))
    ensures (forall k :: 0 <= k < |log| ==> log[k].replies == replies[k]) <==> OneLiners(replies[..|log|], message)
  {
    hide *;
    if OneLiners(replies[..|log|], message) {
      OneLinersKeepStep(log, replies, message);
    }
    if forall k :: 0 <= k < |log| ==> log[k].replies == replies[k] {
      OneLineEach(log, replies, message);
    }
  }

  lemma PolitePrefix(replies: seq<seq<Reply>>, message: nat, n: nat)
    requires n <= |replies| && Polite(replies, message)
    ensures Polite(replies[..n], message)
  {
    hide Complete, Code;
  }

  lemma AgreeShorter(s: seq<Reply>, t: seq<Reply>, u: seq<Reply>)
    requires Agree(s, t) && u <= t
    ensures Agree(s, u)
  {
  }

  lemma OneLinersKeepStep(log: seq<Turn>, replies: seq<seq<Reply>>, message: nat)
    requires |log| <= |replies| && Shaped(log, message) && Polite(replies, message)
    requires Agree(Heard(log), Sent(replies)) && OneLiners(replies[..|log|], message)
    ensures forall k :: 0 <= k < |log| ==> log[k].replies == replies[k]
  {
    hide *;
    PolitePrefix(replies, message, |log|);
    SentPrefix(replies, |log|);
    AgreeShorter(Heard(log), Sent(replies), Sent(replies[..|log|]));
    InStep(log, replies[..|log|], message);
  }

  lemma OneLineEach(log: seq<Turn>, replies: seq<seq<Reply>>, message: nat)
    requires |log| <= |replies| && Shaped(log, message) && Polite(replies, message)
    requires forall k :: 0 <= k < |log| ==> log[k].replies == replies[k]
    ensures OneLiners(replies[..|log|], message)
  {
  }
}

/** One session with a mail server, over a connection without authentication or encryption. */
module Smtp {
  import opened Options
  import opened SmtpSpec

  function Lower(c: char): char {
    if 'A' <= c <= 'Z' then (c as int + 32) as char else c
  }

  /** Does the word occur, upper and lower case being the same? */
  predicate Mentions(s: string, word: string) {
    exists i :: 0 <= i <= |s| - |word| && OccursAt(s, i, word)
  }

  predicate OccursAt(s: string, i: nat, word: string)
    requires i + |word| <= |s|
  {
    forall j :: 0 <= j < |word| ==> Lower(s[i + j]) == Lower(word[j])
  }

  predicate SpeaksEsmtp(r: Reply) {
    Readable(r) && Mentions(r.text[4..], "ESMTP")
  }

  /** Some lines, and what the client takes from them. */
  lemma CodeExamples()
    ensures Code(Line("220 mail ESMTP")) == 220 && Code(Line("250")) == -1 && Code(Failure) == -1
    ensures Code(Line("250-SIZE")) == 250 && Dashed(Line("250-SIZE"))
    ensures Code(Line("354 go on")) == 354 && !Dashed(Line("354 go on"))
  {
    hide Atoi;
    CodeIs(Line("220 mail ESMTP"), 2, 2, 0);
    CodeIs(Line("250-SIZE"), 2, 5, 0);
    CodeIs(Line("354 go on"), 3, 5, 4);
  }

  lemma EsmtpExamples()
    ensures SpeaksEsmtp(Line("220 my ESMTP")) && SpeaksEsmtp(Line("220 esmtp")) && !SpeaksEsmtp(Line("220 SMTP."))
  {
    assert "220 my ESMTP"[4..] == "my ESMTP" && "220 esmtp"[4..] == "esmtp" && "220 SMTP."[4..] == "SMTP.";
    assert OccursAt("my ESMTP", 3, "ESMTP") && OccursAt("esmtp", 0, "ESMTP");
    assert Lower("SMTP."[0]) != Lower("ESMTP"[0]);
  }

  // ---------- commands ----------

  const EOL := "\r\n"

  datatype Mail = Mail(from: string, addresses: seq<string>, domain: string, body: string, notify: Option<string>)

  function Hello(esmtp: bool, domain: string): string {
    (if esmtp then "EHLO" else "HELO") + " " + domain + EOL
  }

  function MailFrom(from: string): string {
    "MAIL FROM: <" + from + ">" + EOL
  }

  function RcptTo(address: string, notify: Option<string>): string {
    if notify.Some? then "RCPT TO: " + address + " " + notify.value + EOL else "RCPT TO: <" + address + ">" + EOL
  }

  function Recipients(mail: Mail): (cs: seq<string>)
    ensures |cs| == |mail.addresses|
  {
    seq(|mail.addresses|, i requires 0 <= i < |mail.addresses| => RcptTo(mail.addresses[i], mail.notify))
  }

  const DATA := "DATA" + EOL
  const EOM := EOL + "." + EOL
  const QUIT := "QUIT" + EOL
  const RSET := "RSET" + EOL

  /** The order of section 4.1.4 of RFC 5321; the empty string stands for the greeting. */
  function Script(mail: Mail, esmtp: bool): (cs: seq<string>)
    ensures |cs| == |mail.addresses| + 7
  {
    ["", Hello(esmtp, mail.domain), MailFrom(mail.from)] + Recipients(mail) + [DATA, mail.body, EOM, QUIT]
  }

  /** The place of the message in the script. */
  function MessageAt(mail: Mail): nat {
    |mail.addresses| + 4
  }

  /** A greeting that lets the dialogue go on. */
  predicate Greeted(g: seq<Reply>) {
    Complete(g) && Code(g[0]) == 220 && |g| <= GREETING_LIMIT
  }

  predicate AnyEsmtp(g: seq<Reply>) {
    exists i :: 0 <= i < |g| && SpeaksEsmtp(g[i])
  }

  lemma AnyEsmtpMore(g: seq<Reply>, r: Reply)
    ensures AnyEsmtp(g + [r]) <==> AnyEsmtp(g) || SpeaksEsmtp(r)
  {
    assert (g + [r])[|g|] == r;
    assert forall i :: 0 <= i < |g| ==> (g + [r])[i] == g[i];
  }

  /** A reply that cannot be read is taken for consent. */
  predicate NotRefused(r: Reply, code: int) {
    Readable(r) ==> Code(r) == code
  }

  /** Does the dialogue go on after the turn at some place of the script? */
  predicate Passed(g: seq<Reply>, k: nat, recipients: nat) {
    if k == 0 then Greeted(g)
    else if k == 1 || k == recipients + 4 then true
    else if g == [] then false
    else if k == recipients + 3 then NotRefused(g[0], 354)
    else if 3 <= k < recipients + 3 then NotRefused(g[0], 250)
    else Code(g[0]) == 250
  }

  /** So far the commands are those of the script, each turn has the lines that the client reads there,
      and all but the last let the dialogue go on. */
  predicate OnScript(log: seq<Turn>, mail: Mail, esmtp: bool) {
    && |log| <= |Script(mail, esmtp)|
    && forall k :: 0 <= k < |log| ==>
      && log[k].command == Script(mail, esmtp)[k]
      && ShapedAt(log[k].replies, k, MessageAt(mail))
      && (k < |log| - 1 ==> Passed(log[k].replies, k, |mail.addresses|))
  }

  predicate LastPassed(log: seq<Turn>, mail: Mail) {
    log != [] && Passed(log[|log| - 1].replies, |log| - 1, |mail.addresses|)
  }

  lemma OnScriptMore(log: seq<Turn>, mail: Mail, esmtp: bool, t: Turn)
    requires OnScript(log, mail, esmtp) && LastPassed(log, mail) && |log| < |Script(mail, esmtp)|
    requires t.command == Script(mail, esmtp)[|log|] && ShapedAt(t.replies, |log|, MessageAt(mail))
    ensures OnScript(log + [t], mail, esmtp)
    ensures LastPassed(log + [t], mail) <==> Passed(t.replies, |log|, |mail.addresses|)
  {
    hide Script, ShapedAt, Passed;
  }

  lemma OnScriptFirst(mail: Mail, esmtp: bool, g: seq<Reply>)
    requires Block(g, GREETING_LIMIT)
    ensures OnScript([Turn("", g)], mail, esmtp) && (LastPassed([Turn("", g)], mail) <==> Greeted(g))
  {
    hide Greeted, Block;
  }

  lemma ScriptAt(mail: Mail, esmtp: bool)
    ensures var s, n := Script(mail, esmtp), |mail.addresses|;
            && s[1] == Hello(esmtp, mail.domain) && s[2] == MailFrom(mail.from)
            && (forall i :: 0 <= i < n ==> s[3 + i] == RcptTo(mail.addresses[i], mail.notify))
            && s[n + 3] == DATA && s[n + 4] == mail.body && s[n + 5] == EOM && s[n + 6] == QUIT
  {
    hide Hello, MailFrom, RcptTo;
  }

  /** A whole conversation: a prefix of the script, or, after a refused recipient, a reset. */
  predicate Conversation(log: seq<Turn>, mail: Mail, forced: bool, esmtp: bool, refused: bool) {
    && log != []
    && (|log| > 1 ==> (esmtp <==> forced || AnyEsmtp(log[0].replies)))
    && if !refused then OnScript(log, mail, esmtp)
       else
         && 5 <= |log| <= |mail.addresses| + 4
         && OnScript(log[..|log| - 1], mail, esmtp) && !LastPassed(log[..|log| - 1], mail)
         && log[|log| - 1].command == RSET && |log[|log| - 1].replies| == 1
  }

  class Session {
    /** What the server will let the client read, one answer after another. */
    const server: nat -> Reply
    var heard: nat
    ghost var log: seq<Turn>
    var smtpCode: int
    var smtpSep: char
    var smtpLine: string
    var esmtp: bool

    ghost predicate Valid()
      reads this
    {
      && log != []
      && |Heard(log)| == heard
      && forall i :: 0 <= i < heard ==> Heard(log)[i] == server(i)
    }

    constructor (server: nat -> Reply)
      ensures Valid() && this.server == server && log == [Turn("", [])] && heard == 0
    {
      this.server, heard := server, 0;
      smtpCode, smtpSep, smtpLine, esmtp := 0, 0 as char, "", false;
      log := [Turn("", [])];
    }

    method Puts(text: string)
      requires Valid()
      modifies `log
      ensures Valid() && log == old(log) + [Turn(text, [])]
    {
      log := log + [Turn(text, [])];
      assert log[..|log| - 1] == old(log);
    }

    /** One line; -1 if it cannot be read or is too short. */
    method ReadSmtpLine() returns (rc: int, ghost r: Reply)
      requires Valid()
      modifies this
      ensures Valid() && log == Extended(old(log), r) && esmtp == old(esmtp)
      ensures rc == (if Readable(r) then 0 else -1) && smtpCode == Code(r)
      ensures if Readable(r) then smtpSep == r.text[3] && smtpLine == r.text[4..]
                else smtpSep == old(smtpSep) && smtpLine == ""
    {
      smtpLine, smtpCode := "", -1;
      var reply := server(heard);
      heard := heard + 1;
      r := reply;
      HeardOneMore(log, r);
      log := Extended(log, r);
      rc := -1;
      if reply.Line? && |reply.text| >= 5 {
        smtpCode := Atoi(reply.text[..3]);
        smtpSep := reply.text[3];
        smtpLine := reply.text[4..];
        rc := 0;
      }
    }

    /** The rest of a reply after its first line. */
    method ReadSmtpMultiLines(ghost before: seq<Turn>, ghost command: string, ghost first: Reply)
        returns (rc: int, ghost g: seq<Reply>)
      requires Valid() && log == before + [Turn(command, [first])]
      modifies this
      ensures Valid() && log == before + [Turn(command, g)] && esmtp == old(esmtp)
      ensures rc in {0, 1} && (rc == 0 ==> smtpSep == A_SPACE) && (rc == 1 ==> |g| == GREETING_LIMIT + 1)
      ensures g != [] && g[0] == first && (old(smtpSep) != A_DASH ==> g == [first])
      ensures old(smtpSep) == A_DASH && Dashed(first) ==> Block(g, GREETING_LIMIT)
    {
      g := [first];
      if smtpSep == A_DASH {
        var lcnt := 0;
        while true
          invariant Valid() && esmtp == old(esmtp) && lcnt + 1 == |g| <= GREETING_LIMIT
                      && log == before + [Turn(command, g)]
          invariant g[0] == first && forall i :: 0 < i < |g| ==> Dashed(g[i])
          decreases GREETING_LIMIT - lcnt
        {
          ghost var r;
          rc, r := ReadSmtpLine();
          ExtendedIs(before, command, g, r);
          g := g + [r];
          if rc < 0 {
            break;
          }
          lcnt := lcnt + 1;
          if lcnt >= 100 {
            return 1, g;
          }
          if smtpSep != A_DASH {
            break;
          }
        }
      }
      smtpSep := A_SPACE;
      rc := 0;
    }

    /** The greeting; it also decides between HELO and EHLO. */
    method ReadGreetings(forced: bool) returns (rc: int, ghost g: seq<Reply>)
      requires Valid() && log == [Turn("", [])]
      modifies this
      ensures Valid() && log == [Turn("", g)] && Block(g, GREETING_LIMIT)
      ensures rc in {0, -1} && (rc == 0 <==> Greeted(g))
      ensures rc == 0 ==> (esmtp <==> forced || AnyEsmtp(g))
    {
      hide Heard, Extended, Mentions, Atoi;
      ghost var r;
      rc, r := ReadSmtpLine();
      ExtendedIs([], "", [], r);
      g := [r];
      assert [] + [Turn("", g)] == [Turn("", g)] && [] + [r] == g && [] + [Turn("", [])] == [Turn("", [])];
      if rc < 0 {
        smtpSep := A_SPACE;
        return;
      }
      esmtp := forced;
      if smtpCode != 220 {
        rc, g := ReadSmtpMultiLines([], "", r);
        smtpSep := A_SPACE;
        return -1, g;
      }
      if SpeaksEsmtpNow() {
        esmtp := true;
      }
      AnyEsmtpMore([], r);
      if smtpSep == A_DASH {
        rc, g := MoreGreetings(forced, r);
      }
      smtpSep := A_SPACE;
    }

    /** Further lines of a greeting whose first line has been accepted. */
    method MoreGreetings(forced: bool, ghost first: Reply) returns (rc: int, ghost g: seq<Reply>)
      requires Valid() && log == [Turn("", [first])] && Code(first) == 220 && Dashed(first)
      requires esmtp <==> forced || AnyEsmtp([first])
      modifies this
      ensures Valid() && log == [Turn("", g)] && Block(g, GREETING_LIMIT) && rc in {0, -1} && g[0] == first
      ensures rc == 0 <==> Readable(g[|g| - 1]) && |g| <= GREETING_LIMIT
      ensures rc == 0 ==> (esmtp <==> forced || AnyEsmtp(g))
    {
      hide Heard, Extended, Mentions, Code, AnyEsmtp;
      g := [first];
      rc := 0;
      var lcnt := 0;
      while true
        invariant Valid() && lcnt + 1 == |g| <= GREETING_LIMIT && log == [] + [Turn("", g)]
        invariant g[0] == first && forall i :: 0 <= i < |g| ==> Dashed(g[i])
        invariant esmtp <==> forced || AnyEsmtp(g)
        decreases GREETING_LIMIT - lcnt
      {
        ghost var r;
        rc, r := ReadSmtpLine();
        ExtendedIs([], "", g, r);
        AnyEsmtpMore(g, r);
        g := g + [r];
        if rc < 0 {
          break;
        }
        lcnt := lcnt + 1;
        if lcnt >= 100 {
          rc := -1;
          break;
        }
        if SpeaksEsmtpNow() {
          esmtp := true;
        }
        if smtpSep != A_DASH {
          break;
        }
      }
      assert [] + [Turn("", g)] == [Turn("", g)];
    }

    predicate SpeaksEsmtpNow()
      reads this
    {
      Mentions(smtpLine, "ESMTP")
    }

    /** The server's capabilities are read but do not matter here. */
    method SayHelo(domain: string) returns (rc: int, ghost g: seq<Reply>)
      requires Valid()
      modifies this
      ensures Valid() && esmtp == old(esmtp) && log == old(log) + [Turn(Hello(esmtp, domain), g)]
      ensures HelloBlock(g)
      ensures rc == if Code(g[0]) == 250 && Readable(g[|g| - 1]) then 0 else -1
    {
      hide Heard, Extended, Atoi, Hello;
      ghost var before, command := log, Hello(esmtp, domain);
      Puts(Hello(esmtp, domain));
      ghost var r;
      rc, r := ReadSmtpLine();
      ExtendedIs(before, command, [], r);
      g := [] + [r];
      if smtpCode != 250 {
        return -1, g;
      }
      if smtpSep == A_DASH {
        var cnt := 0;
        while true
          invariant Valid() && cnt + 1 == |g| <= EHLO_LIMIT && log == before + [Turn(command, g)]
          invariant Code(g[0]) == 250 && esmtp == old(esmtp) && forall i :: 0 <= i < |g| ==> Dashed(g[i])
          decreases EHLO_LIMIT - cnt
        {
          rc, r := ReadSmtpLine();
          ExtendedIs(before, command, g, r);
          g := g + [r];
          cnt := cnt + 1;
          if cnt >= 1000 {
            break;
          }
          if rc < 0 || smtpSep != A_DASH {
            break;
          }
        }
      }
      smtpSep := A_SPACE;
    }

    /** A command that is answered by one line. */
    method Ask(text: string) returns (rc: int, ghost r: Reply)
      requires Valid()
      modifies this
      ensures Valid() && esmtp == old(esmtp) && log == old(log) + [Turn(text, [r])]
      ensures rc == (if Readable(r) then 0 else -1) && smtpCode == Code(r)
      ensures Dashed(r) ==> smtpSep == A_DASH
      ensures Readable(r) && !Dashed(r) ==> smtpSep != A_DASH
    {
      hide Heard, Extended, Atoi;
      ghost var before := log;
      Puts(text);
      rc, r := ReadSmtpLine();
      ExtendedIs(before, text, [], r);
      assert [] + [r] == [r];
    }

    method SmtpMailFrom(from: string) returns (rc: int, ghost r: Reply)
      requires Valid()
      modifies this
      ensures Valid() && esmtp == old(esmtp) && log == old(log) + [Turn(MailFrom(from), [r])]
      ensures rc == if Code(r) == 250 then 0 else -1
    {
      rc, r := Ask(MailFrom(from));
      rc := if smtpCode != 250 then -1 else 0;
    }

    method SmtpQuit() returns (rc: int, ghost r: Reply)
      requires Valid()
      modifies this
      ensures Valid() && esmtp == old(esmtp) && rc == 0 && log == old(log) + [Turn(QUIT, [r])]
    {
      rc, r := Ask(QUIT);
      rc := 0;
    }

    /** One command per recipient; a refusal resets the transaction. */
    method SmtpRcptTo(mail: Mail) returns (rc: int)
      requires Valid() && |log| == 3 && OnScript(log, mail, esmtp) && LastPassed(log, mail)
      modifies this
      ensures Valid() && esmtp == old(esmtp) && rc in {0, -1} && log != [] && log[0] == old(log[0])
      ensures rc == 0 ==> |log| == |mail.addresses| + 3 && OnScript(log, mail, esmtp) && LastPassed(log, mail)
      ensures rc == -1 ==>
        && 5 <= |log| <= |mail.addresses| + 4
        && OnScript(log[..|log| - 1], mail, esmtp) && !LastPassed(log[..|log| - 1], mail)
        && log[|log| - 1].command == RSET && |log[|log| - 1].replies| == 1
    {
      hide Heard, OnScript, Atoi, RcptTo;
      var l := 0;
      while l < |mail.addresses|
        invariant Valid() && l <= |mail.addresses| && |log| == l + 3 && log[0] == old(log[0])
        invariant esmtp == old(esmtp) && OnScript(log, mail, esmtp) && LastPassed(log, mail)
      {
        ghost var before, r := log, Failure;
        rc, r := Ask(RcptTo(mail.addresses[l], mail.notify));
        OnScriptMore(before, mail, esmtp, Turn(RcptTo(mail.addresses[l], mail.notify), [r]));
        if rc == 0 && smtpCode != 250 {
          before := log;
          rc, r := Ask(RSET);
          assert log[..|log| - 1] == before;
          return -1;
        }
        l := l + 1;
      }
      return 0;
    }

    method SmtpData() returns (rc: int, ghost r: Reply)
      requires Valid()
      modifies this
      ensures Valid() && esmtp == old(esmtp) && log == old(log) + [Turn(DATA, [r])]
      ensures rc == if NotRefused(r, 354) then 0 else -1
    {
      rc, r := Ask(DATA);
      rc := if rc == 0 && smtpCode != 354 then -1 else 0;
    }

    /** The end of the message; here an unreadable reply counts as a refusal. */
    method SmtpEom() returns (rc: int, ghost g: seq<Reply>)
      requires Valid()
      modifies this
      ensures Valid() && esmtp == old(esmtp) && log == old(log) + [Turn(EOM, g)]
      ensures EndBlock(g) && rc == (if Code(g[0]) == 250 then 0 else -1) && (rc == 0 ==> |g| == 1)
    {
      hide Heard, Extended, Atoi;
      ghost var r;
      rc, r := Ask(EOM);
      g := [r];
      if smtpCode != 250 {
        rc, g := ReadSmtpMultiLines(old(log), EOM, r);
        rc := -1;
      }
    }

    /** From the greeting to QUIT; `bodyRc` is what sending the message itself returns. */
    method Converse(mail: Mail, bodyRc: int, forced: bool) returns (rc: int, ghost refused: bool)
      requires Valid() && log == [Turn("", [])]
      modifies this
      ensures Valid() && Conversation(log, mail, forced, esmtp, refused)
      ensures rc == 0 <==> !refused && |log| == |Script(mail, esmtp)|
    {
      hide Heard, OnScript, LastPassed, Atoi, Hello, MailFrom, RcptTo,
          Script, Recipients, Block, HelloBlock, EndBlock, Greeted, AnyEsmtp;
      refused := false;
      ghost var g: seq<Reply>, r: Reply;
      rc, g := ReadGreetings(forced);
      OnScriptFirst(mail, esmtp, g);
      if rc < 0 {
        return;
      }
      ScriptAt(mail, esmtp);
      rc := Open(mail);
      if rc != 0 {
        return;
      }
      rc := SmtpRcptTo(mail);
      if rc != 0 {
        refused := true;
        return;
      }
      rc := Close(mail, bodyRc);
    }

    /** HELO, whose outcome is ignored, and MAIL. */
    method Open(mail: Mail) returns (rc: int)
      requires Valid() && |log| == 1 && OnScript(log, mail, esmtp) && LastPassed(log, mail)
      modifies this
      ensures Valid() && esmtp == old(esmtp) && |log| == 3 && log[0] == old(log[0]) && rc in {0, -1}
      ensures OnScript(log, mail, esmtp) && (rc == 0 <==> LastPassed(log, mail))
    {
      hide Heard, OnScript, LastPassed, Atoi, Hello, MailFrom, Script, HelloBlock, Greeted;
      ScriptAt(mail, esmtp);
      ghost var before, g, r := log, [], Failure;
      rc, g := SayHelo(mail.domain);
      OnScriptMore(before, mail, esmtp, Turn(Hello(esmtp, mail.domain), g));
      before := log;
      rc, r := SmtpMailFrom(mail.from);
      OnScriptMore(before, mail, esmtp, Turn(MailFrom(mail.from), [r]));
    }

    /** DATA, the message, its end, and QUIT, whose reply is ignored. */
    method Close(mail: Mail, bodyRc: int) returns (rc: int)
      requires Valid() && |log| == |mail.addresses| + 3 && OnScript(log, mail, esmtp) && LastPassed(log, mail)
      modifies this
      ensures Valid() && esmtp == old(esmtp) && |log| > |mail.addresses| + 3 && log[0] == old(log[0])
      ensures OnScript(log, mail, esmtp) && (rc == 0 <==> |log| == |Script(mail, esmtp)|)
    {
      hide Heard, OnScript, LastPassed, Atoi, Script, EndBlock, Greeted;
      ScriptAt(mail, esmtp);
      ghost var before, g, r := log, [], Failure;
      rc, r := SmtpData();
      OnScriptMore(before, mail, esmtp, Turn(DATA, [r]));
      if rc != 0 {
        return;
      }
      before := log;
      Puts(mail.body);
      OnScriptMore(before, mail, esmtp, Turn(mail.body, []));
      rc := bodyRc;
      if rc != 0 {
        return;
      }
      before := log;
      rc, g := SmtpEom();
      OnScriptMore(before, mail, esmtp, Turn(EOM, g));
      if rc != 0 {
        return;
      }
      before := log;
      var ignored;
      ignored, r := SmtpQuit();
      OnScriptMore(before, mail, esmtp, Turn(QUIT, [r]));
    }

    /** The whole session. The recipients, the sender and the domain must be given. */
    method SendTheMail(from: Option<string>, addresses: seq<string>, domain: Option<string>, body: string, bodyRc: int,
                       notify: Option<string>, forced: bool, connected: bool)
      returns (rc: int, ghost refused: bool)
      requires Valid() && log == [Turn("", [])]
      modifies this
      ensures Valid()
      ensures if addresses == [] || from.None? || domain.None? || !connected then rc == -1 && log == old(log)
              else
                var mail := Mail(from.value, addresses, domain.value, body, notify);
                Conversation(log, mail, forced, esmtp, refused) &&
                  (rc == 0 <==> !refused && |log| == |Script(mail, esmtp)|)
    {
      hide Conversation, Script;
      refused := false;
      if addresses == [] || from.None? || domain.None? || !connected {
        return -1, false;
      }
      rc, refused := Converse(Mail(from.value, addresses, domain.value, body, notify), bodyRc, forced);
    }
  }

  /** One more line read in the last turn. */
  ghost function Extended(log: seq<Turn>, r: Reply): seq<Turn>
    requires log != []
  {
    log[..|log| - 1] + [Turn(log[|log| - 1].command, log[|log| - 1].replies + [r])]
  }

  lemma ExtendedIs(before: seq<Turn>, command: string, g: seq<Reply>, r: Reply)
    ensures Extended(before + [Turn(command, g)], r) == before + [Turn(command, g + [r])]
  {
  }

  lemma HeardOneMore(log: seq<Turn>, r: Reply)
    requires log != []
    ensures Heard(Extended(log, r)) == Heard(log) + [r]
  {
    assert Extended(log, r)[..|log| - 1] == log[..|log| - 1];
  }

  // ---------- what a session means ----------

  lemma ConversationShaped(log: seq<Turn>, mail: Mail, forced: bool, esmtp: bool, refused: bool)
    requires Conversation(log, mail, forced, esmtp, refused)
    ensures Shaped(log, MessageAt(mail))
  {
    hide Block, HelloBlock, EndBlock, Script, Passed, LastPassed, AnyEsmtp;
    if refused {
      var main := log[..|log| - 1];
      forall k | 0 <= k < |log|
        ensures ShapedAt(log[k].replies, k, MessageAt(mail))
      {
        assert k < |main| ==> log[k] == main[k];
      }
    }
  }

  /** With a polite server every turn of a session, however it ends, holds the reply to its own command
      if and only if the commands after HELO are answered by one line each. */
  lemma SessionInStepExactlyWhen(log: seq<Turn>, mail: Mail, forced: bool, esmtp: bool,
      refused: bool, replies: seq<seq<Reply>>)
    requires Conversation(log, mail, forced, esmtp, refused) && |log| <= |replies| && Polite(replies, MessageAt(mail))
    requires Agree(Heard(log), Sent(replies))
    ensures (forall k :: 0 <= k < |log| ==> log[k].replies == replies[k]) <==>
              OneLiners(replies[..|log|], MessageAt(mail))
  {
    hide *;
    ConversationShaped(log, mail, forced, esmtp, refused);
    InStepExactlyWhen(log, replies, MessageAt(mail));
  }

  /** A session that returns 0, with such a server: the commands were those of the script, one RCPT per
      address in list order between MAIL and DATA, and the server's own replies to them were these. */
  lemma SuccessMeans(log: seq<Turn>, mail: Mail, forced: bool, esmtp: bool, replies: seq<seq<Reply>>)
    requires Conversation(log, mail, forced, esmtp, false) && |log| == |Script(mail, esmtp)| <= |replies|
    requires Polite(replies, MessageAt(mail)) && OneLiners(replies, MessageAt(mail))
    requires Agree(Heard(log), Sent(replies))
    ensures var n := |mail.addresses|;
            && |log| == n + 7
            && log[1].command == Hello(forced || AnyEsmtp(replies[0]), mail.domain)
            && log[2].command == MailFrom(mail.from)
            && (forall i :: 0 <= i < n ==> log[3 + i].command == RcptTo(mail.addresses[i], mail.notify))
            && log[n + 3].command == DATA && log[n + 4].command == mail.body
            && log[n + 5].command == EOM && log[n + 6].command == QUIT
            && Code(replies[0][0]) == 220 && Code(replies[1][0]) == 250 && Code(replies[2][0]) == 250
            && (forall k :: 3 <= k < n + 3 ==> Code(replies[k][0]) == 250)
            && Code(replies[n + 3][0]) == 354 && Code(replies[n + 5][0]) == 250
  {
    hide Heard, Sent, Agree, Block, HelloBlock, EndBlock, ShapedAt, Hello,
        MailFrom, RcptTo, AnyEsmtp, Script, Atoi, Polite, OneLiners;
    ConversationShaped(log, mail, forced, esmtp, false);
    OneLinersPrefix(replies, MessageAt(mail), |log|);
    OneLinersKeepStep(log, replies, MessageAt(mail));
    ScriptAt(mail, esmtp);
    var n := |mail.addresses|;
    forall k | 0 <= k < |log| && k != n + 4
      ensures replies[k] != [] && Readable(replies[k][0]) && (k == 1 ==> Code(replies[k][0]) == 250)
    {
      FirstIsReadable(replies, MessageAt(mail), k);
    }
    forall k | 0 <= k < |log| - 1
      ensures log[k].command == Script(mail, esmtp)[k] && Passed(replies[k], k, n)
    {
      assert log[k].replies == replies[k];
    }
    assert forall k :: 3 <= k < n + 3 ==> Passed(replies[k], k, n);
  }

  lemma OneLinersPrefix(replies: seq<seq<Reply>>, message: nat, n: nat)
    requires n <= |replies| && OneLiners(replies, message)
    ensures OneLiners(replies[..n], message)
  {
  }

  lemma FirstIsReadable(replies: seq<seq<Reply>>, message: nat, k: nat)
    requires Polite(replies, message) && k < |replies| && k != message
    ensures replies[k] != [] && Readable(replies[k][0]) && (k == 1 ==> Code(replies[k][0]) == 250)
  {
    hide Code;
    assert Complete(replies[k]);
  }
}
