/**
 The SMTP envelope written in front of a submitted message and stripped from a stored one.
 Stripping what was written in front of a message gives back exactly what stripping the
 message alone gives.
 */
module Envelope {
  import opened Basics

  const MAIL_FROM := "MAIL FROM:"
  const RCPT_TO := "RCPT TO:"

  // ---- writing -------------------------------------------------------------

  function RcptLines(recipients: seq<string>): string {
    if recipients == [] then "" else RCPT_TO + "<" + recipients[0] + ">\r\n" + RcptLines(recipients[1..])
  }

  function Header(from: string, recipients: seq<string>): string {
    MAIL_FROM + "<" + from + ">\r\n" + RcptLines(recipients) + "\r\n"
  }

  /** The message as it is sent, with the line the server will not add. */
  function Submitted(from: string, recipients: seq<string>, received: string, message: string): string {
    Header(from, recipients) + ("Received: " + received + "\r\n" + message)
  }

  // ---- stripping -----------------------------------------------------------

  predicate Strippable(d: string) {
    || (|d| > 10 && MAIL_FROM <= d)
    || (|d| > 8 && RCPT_TO <= d)
    || (|d| > 2 && (d[0] == '\n' || d[1] == '\n'))
  }

  /** The first newline, or the length of the text. */
  function Newline(d: string): (k: nat)
    ensures k <= |d|
    ensures k < |d| ==> d[k] == '\n'
    ensures forall i :: 0 <= i < k ==> d[i] != '\n'
  {
    if d == [] || d[0] == '\n' then 0 else 1 + Newline(d[1..])
  }

  /** The text after its first line, if that looks like an envelope line. */
  function AfterEnvelopeLine(d: string): (r: Option<string>)
    ensures r.Some? ==> |r.value| < |d|
  {
    var k := Newline(d);
    if Strippable(d) && k < |d| then Some(d[k + 1..]) else None
  }

  /** Lines go from the front as long as they look like an envelope. */
  function StripLines(d: string): (r: string)
    ensures |r| <= |d|
    decreases |d|
  {
    match AfterEnvelopeLine(d)
    case None => d
    case Some(rest) => StripLines(rest)
  }

  /** A zero is appended while the lines are stripped, and taken off again. */
  function Stripped(data: string): string {
    var d := StripLines(data + "\0");
    if d != "" && d[|d| - 1] == '\0' then d[..|d| - 1] else d
  }

  class ByteArray {
    var data: string

    constructor (data: string)
      ensures this.data == data
    {
      this.data := data;
    }

    method Append(c: char)
      modifies this
      ensures data == old(data) + [c]
    {
      data := data + [c];
    }

    method RemoveFront(length: nat)
      requires length <= |data|
      modifies this
      ensures data == old(data)[length..]
    {
      data := data[length..];
    }

    method RemoveLast()
      requires |data| > 0
      modifies this
      ensures data == old(data)[..|old(data)| - 1]
    {
      data := data[..|data| - 1];
    }
  }

  method FindNewline(d: string) returns (i: nat)
    ensures i == Newline(d)
  {
    i := 0;
    while i < |d| && d[i] != '\n'
      invariant 0 <= i <= |d| && Newline(d) == i + Newline(d[i..])
    {
      assert d[i..][1..] == d[i + 1..];
      i := i + 1;
    }
  }

  method StripEnvelope(ba: ByteArray)
    modifies ba
    ensures ba.data == Stripped(old(ba.data))
  {
    hide Strippable, Newline;
    ba.Append('\0');
    ghost var whole := ba.data;
    while Strippable(ba.data)
      invariant StripLines(ba.data) == StripLines(whole)
      decreases |ba.data|
    {
      var i := FindNewline(ba.data);
      if i == |ba.data| {
        break;
      }
      ba.RemoveFront(i + 1);
    }
    if |ba.data| > 0 && ba.data[|ba.data| - 1] == '\0' {
      ba.RemoveLast();
    }
  }

  method WriteSubmitted(from: string, recipients: seq<string>, received: string, message: string)
    returns (data: string)
    ensures data == Submitted(from, recipients, received, message)
  {
    data := MAIL_FROM + "<" + from + ">\r\n";
    ghost var first := data;
    var i := 0;
    while i < |recipients|
      invariant 0 <= i <= |recipients|
      invariant data + RcptLines(recipients[i..]) == first + RcptLines(recipients)
    {
      assert recipients[i..][1..] == recipients[i + 1..];
      var line := RCPT_TO + "<" + recipients[i] + ">\r\n";
      Regrouped(data, line, RcptLines(recipients[i + 1..]));
      data := data + line;
      i := i + 1;
    }
    assert recipients[|recipients|..] == [] && data + "" == data;
    data := data + "\r\n";
    data := data + ("Received: " + received + "\r\n");
    Regrouped(Header(from, recipients), "Received: " + received + "\r\n", message);
    data := data + message;
  }

  lemma Regrouped(a: string, b: string, c: string)
    ensures (a + b) + c == a + (b + c)
  {
  }

  // ---- the round trip ------------------------------------------------------

  predicate OneLine(s: string) {
    '\n' !in s
  }

  lemma NewlineAfter(line: string, rest: string)
    requires OneLine(line)
    ensures Newline(line + ("\n" + rest)) == |line| && (line + ("\n" + rest))[|line| + 1..] == rest
  {
    var d := line + ("\n" + rest);
    assert d[|line|] == '\n';
    assert forall i :: 0 <= i < |line| ==> d[i] == line[i];
  }

  lemma Starts(a: string, b: string)
    ensures a <= a + b
  {
  }

  /** A line that looks like an envelope goes. */
  lemma StripOne(line: string, rest: string)
    requires OneLine(line) && Strippable(line + ("\n" + rest))
    ensures StripLines(line + ("\n" + rest)) == StripLines(rest)
  {
    hide Strippable;
    NewlineAfter(line, rest);
  }

  lemma StripNamed(name: string, address: string, rest: string)
    requires (name == MAIL_FROM || name == RCPT_TO) && OneLine(address)
    ensures StripLines(name + "<" + address + ">\r\n" + rest) == StripLines(rest)
  {
    var line := name + "<" + address + ">\r";
    var tail := "<" + address + ">\r" + ("\n" + rest);
    Starts(name, tail);
    assert line + ("\n" + rest) == name + tail;
    assert name + "<" + address + ">\r\n" + rest == line + ("\n" + rest);
    assert OneLine(line);
    StripOne(line, rest);
  }

  lemma {:induction false} StripRecipients(recipients: seq<string>, rest: string)
    requires forall r <- recipients :: OneLine(r)
    ensures StripLines(RcptLines(recipients) + rest) == StripLines(rest)
  {
    hide StripLines;
    if recipients == [] {
      assert "" + rest == rest;
    } else {
      assert recipients[0] in recipients;
      var later := RcptLines(recipients[1..]);
      StripNamed(RCPT_TO, recipients[0], later + rest);
      StripRecipients(recipients[1..], rest);
      Regrouped(RCPT_TO + "<" + recipients[0] + ">\r\n", later, rest);
    }
  }

  lemma StripHeader(from: string, recipients: seq<string>, rest: string)
    requires OneLine(from) && (forall r <- recipients :: OneLine(r)) && rest != ""
    ensures StripLines(Header(from, recipients) + rest) == StripLines(rest)
  {
    hide StripLines;
    var first, lines := MAIL_FROM + "<" + from + ">\r\n", RcptLines(recipients);
    Regrouped(first + lines, "\r\n", rest);
    Regrouped(first, lines, "\r\n" + rest);
    StripNamed(MAIL_FROM, from, lines + ("\r\n" + rest));
    StripRecipients(recipients, "\r\n" + rest);
    assert "\r\n" + rest == "\r" + ("\n" + rest);
    StripOne("\r", rest);
  }

  // ---- reading the envelope ------------------------------------------------

  /** What an envelope line of that name holds between its angle brackets. */
  function Addressed(line: string, name: string): Option<string> {
    if |line| >= |name| + 3 && line[..|name| + 1] == name + "<" && line[|line| - 2..] == ">\r"
    then Some(line[|name| + 1..|line| - 2]) else None
  }

  datatype Letter = Letter(from: string, recipients: seq<string>, content: string)

  /** Reads recipient lines up to the empty one; `before` are the recipients read so far. */
  function ReadRecipients(from: string, before: seq<string>, d: string): Option<Letter>
    decreases |d|
  {
    var k := Newline(d);
    if k == |d| then None
    else if d[..k] == "\r" then Some(Letter(from, before, d[k + 1..]))
    else
      match Addressed(d[..k], RCPT_TO)
      case None => None
      case Some(recipient) => ReadRecipients(from, before + [recipient], d[k + 1..])
  }

  /** Reads an envelope line by line: the sender, the recipients, the empty line, the content. */
  function ReadLetter(d: string): Option<Letter> {
    var k := Newline(d);
    if k == |d| then None
    else
      match Addressed(d[..k], MAIL_FROM)
      case None => None
      case Some(from) => ReadRecipients(from, [], d[k + 1..])
  }

  /** One envelope line in front of more text. */
  lemma LineRead(name: string, address: string, rest: string)
    requires OneLine(name) && OneLine(address)
    ensures var d := name + "<" + address + ">\r\n" + rest;
            var k := Newline(d);
            && k < |d| && d[k + 1..] == rest
            && Addressed(d[..k], name) == Some(address) && d[..k] != "\r"
  {
    var line := name + "<" + address + ">\r";
    assert name + "<" + address + ">\r\n" + rest == line + ("\n" + rest);
    assert OneLine(line);
    NewlineAfter(line, rest);
    LineStart(line, "\n" + rest);
    assert line[..|name| + 1] == name + "<" && line[|line| - 2..] == ">\r";
    assert line[|name| + 1..|line| - 2] == address;
  }

  lemma LineStart(line: string, more: string)
    ensures (line + more)[..|line|] == line
  {
  }

  lemma EmptyLineRead(content: string)
    ensures var d := "\r\n" + content;
            Newline(d) == 1 && d[..1] == "\r" && d[2..] == content
  {
    assert "\r\n" + content == "\r" + ("\n" + content);
    NewlineAfter("\r", content);
    LineStart("\r", "\n" + content);
  }

  lemma NamesOneLine()
    ensures OneLine(MAIL_FROM) && OneLine(RCPT_TO)
  {
  }

  lemma RecipientsEnd(from: string, before: seq<string>, content: string)
    ensures ReadRecipients(from, before, "\r\n" + content) == Some(Letter(from, before, content))
  {
    hide Newline, Addressed;
    EmptyLineRead(content);
  }

  lemma RecipientRead(from: string, before: seq<string>, address: string, rest: string)
    requires OneLine(address)
    ensures ReadRecipients(from, before, RCPT_TO + "<" + address + ">\r\n" + rest) ==
            ReadRecipients(from, before + [address], rest)
  {
    hide Newline, Addressed, OneLine;
    NamesOneLine();
    LineRead(RCPT_TO, address, rest);
  }

  lemma RcptUnfold(recipients: seq<string>, rest: string)
    requires recipients != []
    ensures RcptLines(recipients) + rest ==
            RCPT_TO + "<" + recipients[0] + ">\r\n" + (RcptLines(recipients[1..]) + rest)
  {
    Regrouped(RCPT_TO + "<" + recipients[0] + ">\r\n", RcptLines(recipients[1..]), rest);
  }

  lemma NoRcpt(rest: string)
    ensures RcptLines([]) + rest == rest
  {
  }

  lemma {:induction false} RecipientsRead(from: string, before: seq<string>, recipients: seq<string>, content: string)
    requires forall r <- recipients :: OneLine(r)
    ensures ReadRecipients(from, before, RcptLines(recipients) + ("\r\n" + content)) ==
            Some(Letter(from, before + recipients, content))
    decreases recipients
  {
    hide ReadRecipients, RcptLines, OneLine;
    var rest := "\r\n" + content;
    if recipients == [] {
      NoRcpt(rest);
      RecipientsEnd(from, before, content);
      assert before + recipients == before;
    } else {
      assert recipients[0] in recipients;
      RcptUnfold(recipients, rest);
      RecipientRead(from, before, recipients[0], RcptLines(recipients[1..]) + rest);
      RecipientsRead(from, before + [recipients[0]], recipients[1..], content);
      assert before + [recipients[0]] + recipients[1..] == before + recipients;
    }
  }

  /**
   The envelope says who sends the message and to whom: read line by line it gives back the
   sender, all the recipients in order, and the content.
   */
  lemma EnvelopeReads(from: string, recipients: seq<string>, content: string)
    requires OneLine(from) && forall r <- recipients :: OneLine(r)
    ensures ReadLetter(Header(from, recipients) + content) == Some(Letter(from, recipients, content))
  {
    hide Newline, Addressed, OneLine, ReadRecipients;
    var first, lines := MAIL_FROM + "<" + from + ">\r\n", RcptLines(recipients);
    NamesOneLine();
    Regrouped(first + lines, "\r\n", content);
    Regrouped(first, lines, "\r\n" + content);
    LineRead(MAIL_FROM, from, lines + ("\r\n" + content));
    RecipientsRead(from, [], recipients, content);
    assert [] + recipients == recipients;
  }

  /** What the client submits is addressed to everyone it was meant for. */
  lemma SubmittedReads(from: string, recipients: seq<string>, received: string, message: string)
    requires OneLine(from) && forall r <- recipients :: OneLine(r)
    ensures ReadLetter(Submitted(from, recipients, received, message)) ==
            Some(Letter(from, recipients, "Received: " + received + "\r\n" + message))
  {
    hide Header, ReadLetter;
    EnvelopeReads(from, recipients, "Received: " + received + "\r\n" + message);
  }

  // ---- stripping undoes writing --------------------------------------------

  /**
   For senders and recipients without newlines, stripping removes exactly the envelope:
   what remains is what stripping the content alone leaves, and it is the content itself
   unless that starts like an envelope line.
   */
  lemma EnvelopeRoundTrip(from: string, recipients: seq<string>, content: string)
    requires OneLine(from) && forall r <- recipients :: OneLine(r)
    ensures Stripped(Header(from, recipients) + content) == Stripped(content)
    ensures Stripped(Header(from, recipients) + content) == content
            <==> !(Strippable(content + "\0") && '\n' in content)
  {
    hide Strippable, StripLines, Header;
    Regrouped(Header(from, recipients), content, "\0");
    StripHeader(from, recipients, content + "\0");
    StrippedIff(content);
  }

  lemma StrippedIff(content: string)
    ensures Stripped(content) == content <==> !(Strippable(content + "\0") && '\n' in content)
  {
    hide Strippable, Newline;
    var d := content + "\0";
    var k := Newline(d);
    NewlineIn(content);
    assert d[|d| - 1] == '\0' && d[..|d| - 1] == content;
    if Strippable(d) && k < |d| {
      var rest := d[k + 1..];
      LastStays(rest);
      assert |StripLines(rest)| <= |rest|;
    }
  }

  lemma NewlineIn(content: string)
    ensures '\n' in content <==> Newline(content + "\0") < |content + "\0"|
  {
    var d := content + "\0";
    if '\n' in content {
      var i :| 0 <= i < |content| && content[i] == '\n';
      assert d[i] == '\n';
    }
  }

  /** The zero at the end is never stripped with the lines. */
  lemma {:induction false} LastStays(d: string)
    requires d != "" && d[|d| - 1] == '\0'
    ensures StripLines(d) != "" && StripLines(d)[|StripLines(d)| - 1] == '\0'
    decreases |d|
  {
    hide Strippable;
    var k := Newline(d);
    if Strippable(d) && k < |d| { LastStays(d[k + 1..]); }
  }

  /** What the client submits always comes back whole, headed by its own line. */
  lemma SubmittedRoundTrip(from: string, recipients: seq<string>, received: string, message: string)
    requires OneLine(from) && forall r <- recipients :: OneLine(r)
    ensures Stripped(Submitted(from, recipients, received, message)) == "Received: " + received + "\r\n" + message
  {
    hide Header, Stripped;
    var content := "Received: " + received + "\r\n" + message;
    EnvelopeRoundTrip(from, recipients, content);
    assert content[0] == 'R' && content[1] == 'e';
    assert (content + "\0")[0] == 'R' && (content + "\0")[1] == 'e';
  }

  /** A message that opens with an empty line loses it along with the envelope. */
  lemma BlankLineLost(from: string, recipients: seq<string>)
    requires OneLine(from) && forall r <- recipients :: OneLine(r)
    ensures Stripped(Header(from, recipients) + "\nHi") == "Hi"
  {
    hide Header;
    EnvelopeRoundTrip(from, recipients, "\nHi");
    assert "\nHi" + "\0" == "\nHi\0" && "\nHi\0"[1..] == "Hi\0";
    assert Newline("\nHi\0") == 0;
    assert !(MAIL_FROM <= "Hi\0") && !(RCPT_TO <= "Hi\0");
    assert StripLines("\nHi\0") == StripLines("Hi\0") == "Hi\0";
  }
}
