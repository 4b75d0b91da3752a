/**
 * The Redis protocol client (sendCommand, readResponse and readLine in
 * internal/middleware/redis.go): what it writes, and where it stops reading.
 */
module Resp {
  import opened Wrappers
  import opened Text

  const CRLF: string := "\r\n"

  // ---------------------------------------------------------------- writing commands

  function Bulk(arg: string): string {
    "$" + Decimal(|arg|) + CRLF + arg + CRLF
  }

  function Bulks(args: seq<string>): string {
    if args == [] then "" else Bulks(args[..|args| - 1]) + Bulk(args[|args| - 1])
  }

  function Command(args: seq<string>): string {
    "*" + Decimal(|args|) + CRLF + Bulks(args)
  }

  method Encode(args: seq<string>) returns (buf: string)
    ensures buf == Command(args)
  {
    buf := "*" + Decimal(|args|) + CRLF;
    for i := 0 to |args|
      invariant buf == "*" + Decimal(|args|) + CRLF + Bulks(args[..i])
    {
      assert args[..i + 1][..i] == args[..i];
      buf := buf + ("$" + Decimal(|args[i]|) + CRLF + args[i] + CRLF);
    }
    assert args[..|args|] == args;
  }

  function Commands(cs: seq<seq<string>>): string {
    if cs == [] then "" else Command(cs[0]) + Commands(cs[1..])
  }

  // ---------------------------------------------------------------- the grammar, read from the left

  datatype Read<T> = Read(value: T, rest: string)

  /** The digits a text starts with. */
  function LeadingDigits(s: string): (d: string)
    ensures d <= s && forall c :: c in d ==> IsDigit(c)
  {
    if s != "" && IsDigit(s[0]) then [s[0]] + LeadingDigits(s[1..]) else ""
  }

  /** A number and the line end after it. */
  function DecodeNumber(s: string): (r: Option<Read<nat>>)
    ensures r.Some? ==> |r.value.rest| < |s|
  {
    var digits := LeadingDigits(s);
    var after := s[|digits|..];
    if digits == "" || !(CRLF <= after) then None else Some(Read(DigitsValue(digits), after[2..]))
  }

  /** One bulk string: its length, then that many bytes, then a line end. */
  function DecodeBulk(s: string): (r: Option<Read<string>>)
    ensures r.Some? ==> |r.value.rest| < |s|
  {
    if s == "" || s[0] != '$' then None
    else
      var head := DecodeNumber(s[1..]);
      if head.None? then None
      else
        var Read(n, body) := head.value;
        if n > |body| || !(CRLF <= body[n..]) then None else Some(Read(body[..n], body[n + 2..]))
  }

  function DecodeBulks(n: nat, s: string): (r: Option<Read<seq<string>>>)
    ensures r.Some? ==> |r.value.rest| <= |s|
  {
    if n == 0 then Some(Read([], s))
    else
      var first := DecodeBulk(s);
      if first.None? then None
      else
        var others := DecodeBulks(n - 1, first.value.rest);
        if others.None? then None else Some(Read([first.value.value] + others.value.value, others.value.rest))
  }

  function DecodeCommand(s: string): (r: Option<Read<seq<string>>>)
    ensures r.Some? ==> |r.value.rest| < |s|
  {
    if s == "" || s[0] != '*' then None
    else
      var head := DecodeNumber(s[1..]);
      if head.None? then None else DecodeBulks(head.value.value, head.value.rest)
  }

  /** A whole stream of commands. */
  function DecodeCommands(s: string): Option<seq<seq<string>>>
    decreases |s|
  {
    if s == "" then Some([])
    else
      var first := DecodeCommand(s);
      if first.None? then None
      else
        var others := DecodeCommands(first.value.rest);
        if others.None? then None else Some([first.value.value] + others.value)
  }

  // ---------------------------------------------------------------- decoding undoes encoding

  lemma {:induction false} LeadingDigitsOf(digits: string, after: string)
    requires forall c :: c in digits ==> IsDigit(c)
    requires after == "" || !IsDigit(after[0])
    ensures LeadingDigits(digits + after) == digits
  {
    if digits == "" {
      assert digits + after == after;
    } else {
      assert (digits + after)[0] == digits[0] && (digits + after)[1..] == digits[1..] + after;
      assert digits[0] in digits;
      LeadingDigitsOf(digits[1..], after);
    }
  }

  lemma NumberRoundTrip(n: nat, rest: string)
    ensures DecodeNumber(Decimal(n) + CRLF + rest) == Some(Read(n, rest))
  {
    var s := Decimal(n) + CRLF + rest;
    assert s == Decimal(n) + (CRLF + rest);
    LeadingDigitsOf(Decimal(n), CRLF + rest);
    assert s[|Decimal(n)|..] == CRLF + rest;
    assert (CRLF + rest)[..2] == CRLF;
    DecimalRoundTrip(n);
  }

  lemma BodyRoundTrip(arg: string, rest: string)
    ensures var body := arg + CRLF + rest; body[..|arg|] == arg && CRLF <= body[|arg|..] && body[|arg| + 2..] == rest
  {
    assert (arg + CRLF + rest)[|arg|..] == CRLF + rest;
  }

  lemma BulkRoundTrip(arg: string, rest: string)
    ensures DecodeBulk(Bulk(arg) + rest) == Some(Read(arg, rest))
  {
    var s, body := Bulk(arg) + rest, arg + CRLF + rest;
    assert s == ['$'] + (Decimal(|arg|) + CRLF + body);
    NumberRoundTrip(|arg|, body);
    BodyRoundTrip(arg, rest);
  }

  lemma {:induction false} BulksFront(args: seq<string>)
    requires args != []
    ensures Bulks(args) == Bulk(args[0]) + Bulks(args[1..])
  {
    var init, last := args[..|args| - 1], args[|args| - 1];
    if init == [] {
      assert args[1..] == [];
    } else {
      BulksFront(init);
      assert init[0] == args[0] && init[1..] == args[1..][..|args| - 2];
      assert Bulk(args[0]) + Bulks(init[1..]) + Bulk(last) == Bulk(args[0]) + (Bulks(init[1..]) + Bulk(last));
    }
  }

  /** One bulk string first, the others after it. */
  lemma DecodeFirstBulk(n: nat, arg: string, args: seq<string>, after: string, rest: string)
    requires DecodeBulks(n, after) == Some(Read(args, rest))
    ensures DecodeBulks(n + 1, Bulk(arg) + after) == Some(Read([arg] + args, rest))
  {
    BulkRoundTrip(arg, after);
  }

  lemma {:induction false} BulksRoundTrip(args: seq<string>, rest: string)
    ensures DecodeBulks(|args|, Bulks(args) + rest) == Some(Read(args, rest))
  {
    if args == [] {
      assert Bulks(args) + rest == rest;
    } else {
      var first, others := Bulk(args[0]), Bulks(args[1..]);
      BulksFront(args);
      assert (first + others) + rest == first + (others + rest);
      BulksRoundTrip(args[1..], rest);
      DecodeFirstBulk(|args| - 1, args[0], args[1..], others + rest, rest);
      HeadAndTail(args);
    }
  }

  /** A command reads back as its arguments, whatever bytes they hold and whatever follows. */
  lemma CommandRoundTrip(args: seq<string>, rest: string)
    ensures DecodeCommand(Command(args) + rest) == Some(Read(args, rest))
  {
    var s := Command(args) + rest;
    assert s[0] == '*' && s[1..] == Decimal(|args|) + CRLF + (Bulks(args) + rest);
    NumberRoundTrip(|args|, Bulks(args) + rest);
    BulksRoundTrip(args, rest);
  }

  /** And so does every sequence of commands. */
  lemma {:induction false} CommandsRoundTrip(cs: seq<seq<string>>)
    ensures DecodeCommands(Commands(cs)) == Some(cs)
  {
    if cs != [] {
      CommandRoundTrip(cs[0], Commands(cs[1..]));
      CommandsRoundTrip(cs[1..]);
      HeadAndTail(cs);
    }
  }

  // ---------------------------------------------------------------- reading replies

  datatype Outcome = Fine | Failed(message: string)

  /** A line without its end, or None when the input ends first. */
  function Line(input: string): (r: Option<Read<string>>)
    ensures r.Some? <==> '\n' in input
  {
    if input == "" then None
    else if input[0] == '\n' then Some(Read("", input[1..]))
    else
      var others := Line(input[1..]);
      if others.None? then None else Some(Read([input[0]] + others.value.value, others.value.rest))
  }

  /** A line whose first part is already read. */
  function Ahead(buf: string, r: Option<Read<string>>): Option<Read<string>> {
    if r.None? then None else Some(Read(buf + r.value.value, r.value.rest))
  }

  lemma AheadOfNothing(r: Option<Read<string>>)
    ensures Ahead("", r) == r
  {
    if r.Some? { assert "" + r.value.value == r.value.value; }
  }

  lemma AheadStep(buf: string, input: string)
    requires input != "" && input[0] != '\n'
    ensures Ahead(buf, Line(input)) == Ahead(buf + [input[0]], Line(input[1..]))
  {
    var others := Line(input[1..]);
    if others.Some? {
      assert buf + ([input[0]] + others.value.value) == buf + [input[0]] + others.value.value;
    }
  }

  lemma AheadEnd(buf: string, input: string)
    requires input != "" && input[0] == '\n'
    ensures Ahead(buf, Line(input)) == Some(Read(buf, input[1..]))
  {
    assert buf + "" == buf;
  }

  function WithoutCR(line: string): string {
    if line != "" && line[|line| - 1] == '\r' then line[..|line| - 1] else line
  }

  /** strconv.Atoi with its error dropped: 0 for anything but a signed number. */
  function Atoi(s: string): int {
    if s != "" && (s[0] == '-' || s[0] == '+') then
      (if s[0] == '-' then -1 else 1) * Digits(s[1..])
    else Digits(s)
  }

  function Digits(s: string): nat {
    if forall c :: c in s ==> IsDigit(c) then DigitsValue(s) else 0
  }

  /** Dropping the first n bytes, or all there are. */
  function Skip(input: string, n: nat): string {
    if n <= |input| then input[n..] else ""
  }

  /** What readLine returns, and the input it leaves. */
  function NextLine(input: string): Read<Option<string>> {
    var next := Line(input);
    if next.None? then Read(None, "") else Read(Some(WithoutCR(next.value.value)), next.value.rest)
  }

  function Response(input: string): Read<Outcome> {
    var Read(next, rest) := NextLine(input);
    if next.None? then Read(Failed("EOF"), "")
    else
      var line := next.value;
      if line == "" then Read(Failed("empty response"), rest)
      else if line[0] == '-' then Read(Failed("redis error: " + line[1..]), rest)
      else if line[0] == '$' && Atoi(line[1..]) > 0 then Read(Fine, Skip(rest, Atoi(line[1..]) + 2))
      else Read(Fine, rest)
  }

  class Connection {
    var sent: string
    var incoming: string

    constructor (incoming: string)
      ensures sent == "" && this.incoming == incoming
    {
      this.sent, this.incoming := "", incoming;
    }

    /** One byte at a time, up to the end of the line. */
    method ReadLine() returns (line: Option<string>)
      modifies this`incoming
      ensures Read(line, incoming) == NextLine(old(incoming))
    {
      var buf := "";
      ghost var input := incoming;
      AheadOfNothing(Line(input));
      while incoming != ""
        invariant Line(input) == Ahead(buf, Line(incoming))
        decreases |incoming|
      {
        if incoming[0] == '\n' { AheadEnd(buf, incoming); } else { AheadStep(buf, incoming); }
        var b := incoming[0];
        incoming := incoming[1..];
        if b == '\n' {
          if |buf| > 0 && buf[|buf| - 1] == '\r' { buf := buf[..|buf| - 1]; }
          return Some(buf);
        }
        buf := buf + [b];
      }
      line := None;
    }

    method ReadResponse() returns (r: Outcome)
      modifies this`incoming
      ensures Read(r, incoming) == Response(old(incoming))
    {
      var next := ReadLine();
      if next.None? { return Failed("EOF"); }
      var line := next.value;
      if |line| == 0 { return Failed("empty response"); }
      match line[0]
      case '+' => r := Fine;
      case ':' => r := Fine;
      case '-' => r := Failed("redis error: " + line[1..]);
      case '$' =>
        var n := Atoi(line[1..]);
        if n > 0 { incoming := Skip(incoming, n + 2); }
        r := Fine;
      case _ => r := Fine;
    }

    /** `accepted` is how many bytes the network takes before it fails. */
    method SendCommand(args: seq<string>, accepted: nat) returns (r: Outcome)
      modifies this
      ensures accepted >= |Command(args)| ==>
        sent == old(sent) + Command(args) && Read(r, incoming) == Response(old(incoming))
      ensures accepted < |Command(args)| ==>
        sent == old(sent) + Command(args)[..accepted] && incoming == old(incoming) && r == Failed("write")
    {
      var buf := Encode(args);
      if accepted < |buf| {
        sent := sent + buf[..accepted];
        return Failed("write");
      }
      sent := sent + buf;
      r := ReadResponse();
    }
  }

  // ---------------------------------------------------------------- replies and their boundaries

  datatype Reply =
    | Simple(text: string)
    | Error(text: string)
    | Integer(text: string)
    | BulkReply(data: string)
    | NullBulk
    | ArrayReply(items: Replies)
    | NullArray

  datatype Replies = Nil | Cons(head: Reply, tail: Replies)

  predicate IsLine(reply: Reply) {
    reply.Simple? || reply.Error? || reply.Integer?
  }

  /** The text of a line-shaped reply holds no line feed. */
  predicate WellFormed(reply: Reply) {
    IsLine(reply) ==> '\n' !in reply.text
  }

  function Count(items: Replies): nat {
    match items case Nil => 0 case Cons(_, tail) => 1 + Count(tail)
  }

  function Wire(reply: Reply): string {
    match reply
    case Simple(text) => "+" + text + CRLF
    case Error(text) => "-" + text + CRLF
    case Integer(text) => ":" + text + CRLF
    case BulkReply(data) => Bulk(data)
    case NullBulk => "$-1" + CRLF
    case ArrayReply(items) => "*" + Decimal(Count(items)) + CRLF + WireAll(items)
    case NullArray => "*-1" + CRLF
  }

  function WireAll(items: Replies): string {
    match items case Nil => "" case Cons(head, tail) => Wire(head) + WireAll(tail)
  }

  function Meaning(reply: Reply): Outcome {
    if reply.Error? then Failed("redis error: " + reply.text) else Fine
  }

  lemma {:induction false} LineOf(text: string, rest: string)
    requires '\n' !in text
    ensures Line(text + "\n" + rest) == Some(Read(text, rest))
  {
    var input := text + "\n" + rest;
    if text != "" {
      assert input[0] == text[0] && input[1..] == text[1..] + "\n" + rest;
      LineOf(text[1..], rest);
      assert [text[0]] + text[1..] == text;
    } else {
      assert input[0] == '\n' && input[1..] == rest;
    }
  }

  lemma LineOfCRLF(text: string, rest: string)
    requires '\n' !in text
    ensures NextLine(text + CRLF + rest) == Read(Some(text), rest)
  {
    assert text + CRLF + rest == (text + "\r") + "\n" + rest;
    LineOf(text + "\r", rest);
    assert (text + "\r")[..|text|] == text;
  }

  lemma AtoiOfDecimal(n: nat)
    ensures Atoi(Decimal(n)) == n && '\n' !in Decimal(n)
  {
    assert !IsDigit('\n') && !IsDigit('-') && !IsDigit('+') && Decimal(n)[0] in Decimal(n);
    DecimalRoundTrip(n);
  }

  /** A sign and digits give a signed number, and anything that is not all digits after the sign gives 0. */
  lemma AtoiOfText(digits: string)
    ensures (forall c :: c in digits ==> IsDigit(c)) ==>
              Atoi(digits) == DigitsValue(digits) == Atoi("+" + digits) && Atoi("-" + digits) + DigitsValue(digits) == 0
    ensures !(forall c :: c in digits ==> IsDigit(c)) ==>
              Atoi("+" + digits) == 0 && Atoi("-" + digits) == 0
              && (digits[0] != '+' && digits[0] != '-' ==> Atoi(digits) == 0)
  {
    assert ("+" + digits)[1..] == digits && ("-" + digits)[1..] == digits;
    if digits != "" { assert digits[0] in digits && !IsDigit('+') && !IsDigit('-'); }
  }

  /** What follows a "$" line with a good length. */
  lemma ResponseOfBulk(n: nat, body: string)
    ensures Response("$" + Decimal(n) + CRLF + body) == Read(Fine, if n > 0 then Skip(body, n + 2) else body)
  {
    var line := "$" + Decimal(n);
    AtoiOfDecimal(n);
    assert '\n' !in line by { assert line[0] == '$'; }
    LineOfCRLF(line, body);
    assert line[1..] == Decimal(n);
  }

  lemma BulkHead(data: string, rest: string)
    ensures Response(Bulk(data) + rest) == Read(Fine, if data == "" then CRLF + rest else rest)
  {
    var n, body := |data|, data + CRLF + rest;
    assert Bulk(data) + rest == "$" + Decimal(n) + CRLF + body;
    ResponseOfBulk(n, body);
    if n > 0 { assert body[n + 2..] == rest; } else { assert body == CRLF + rest; }
  }

  /** What the reader leaves of a reply: the line end of an empty bulk, and the elements of an array. */
  function Leftover(reply: Reply): string {
    match reply
    case BulkReply(data) => if data == "" then CRLF else ""
    case ArrayReply(items) => WireAll(items)
    case _ => ""
  }

  lemma LeftoverIff(reply: Reply)
    ensures Leftover(reply) == "" <==> reply != BulkReply("") && (reply.ArrayReply? ==> reply.items.Nil?)
  {
    if reply.ArrayReply? && reply.items.Cons? { WireIsNotEmpty(reply.items.head); }
  }

  lemma WireIsNotEmpty(reply: Reply)
    ensures Wire(reply) != ""
  {
  }

  /** A line whose first character is none of those the reader looks at. */
  lemma ReadsOtherLine(line: string, rest: string)
    requires line != "" && '\n' !in line && line[0] != '-' && line[0] != '$'
    ensures Response(line + CRLF + rest) == Read(Fine, rest)
  {
    LineOfCRLF(line, rest);
  }

  lemma ReadsLineReply(reply: Reply, rest: string)
    requires IsLine(reply) && WellFormed(reply)
    ensures Response(Wire(reply) + rest) == Read(Meaning(reply), rest)
  {
    var line := (if reply.Simple? then "+" else if reply.Error? then "-" else ":") + reply.text;
    assert Wire(reply) + rest == line + CRLF + rest;
    LineOfCRLF(line, rest);
    assert line[1..] == reply.text;
  }

  lemma ReadsArray(items: Replies, rest: string)
    ensures Response(Wire(ArrayReply(items)) + rest) == Read(Fine, WireAll(items) + rest)
  {
    var line := "*" + Decimal(Count(items));
    AtoiOfDecimal(Count(items));
    assert line[0] == '*' && '\n' !in line;
    assert Wire(ArrayReply(items)) + rest == line + CRLF + (WireAll(items) + rest);
    ReadsOtherLine(line, WireAll(items) + rest);
  }

  /** The reader takes a reply for what it is, and leaves its leftover before what follows. */
  lemma ReadsReply(reply: Reply, rest: string)
    requires WellFormed(reply)
    ensures Response(Wire(reply) + rest) == Read(Meaning(reply), Leftover(reply) + rest)
  {
    assert "" + rest == rest;
    match reply
    case BulkReply(data) => BulkHead(data, rest);
    case NullBulk =>
      LineOfCRLF("$-1", rest);
      assert "$-1"[1..] == "-1" && "-1"[1..] == "1";
    case ArrayReply(items) => ReadsArray(items, rest);
    case NullArray => ReadsOtherLine("*-1", rest);
    case _ => ReadsLineReply(reply, rest);
  }

  /** Byte by byte, what a one-line reply gives. */
  lemma LineBytes(text: string, rest: string)
    requires '\n' !in text
    ensures Response("+" + text + "\r\n" + rest) == Read(Fine, rest)
    ensures Response(":" + text + "\r\n" + rest) == Read(Fine, rest)
    ensures Response("-" + text + "\r\n" + rest) == Read(Failed("redis error: " + text), rest)
  {
    ReadsLineReply(Simple(text), rest);
    ReadsLineReply(Integer(text), rest);
    ReadsLineReply(Error(text), rest);
  }

  /** Without a line end there is no reply, and an empty line is none. */
  lemma NoReplyBytes(text: string, rest: string)
    requires '\n' !in text
    ensures Response(text) == Read(Failed("EOF"), "")
    ensures Response("\r\n" + rest) == Read(Failed("empty response"), rest)
  {
    EmptyLine(rest);
  }

  lemma NullBulkBytes(rest: string)
    ensures Response("$-1" + "\r\n" + rest) == Read(Fine, rest)
  {
    ReadsReply(NullBulk, rest);
    assert Leftover(NullBulk) + rest == rest;
  }

  /** An empty bulk leaves its second line end. */
  lemma ZeroBulkBytes(rest: string)
    ensures Response("$0\r\n\r\n" + rest) == Read(Fine, "\r\n" + rest)
  {
    BulkHead("", rest);
    assert Decimal(0) == "0" && Bulk("") == "$0\r\n\r\n";
  }

  /** A bulk with data is taken whole, whatever bytes it holds. */
  lemma BulkBytes(data: string, rest: string)
    requires data != ""
    ensures Response("$" + Decimal(|data|) + "\r\n" + data + "\r\n" + rest) == Read(Fine, rest)
  {
    BulkHead(data, rest);
  }

  /** The bytes of a command of two parts, as of AUTH or SELECT. */
  lemma CommandBytes(name: string, arg: string)
    ensures Command([name, arg])
         == "*2\r\n" + ("$" + Decimal(|name|) + "\r\n" + name + "\r\n") + ("$" + Decimal(|arg|) + "\r\n" + arg + "\r\n")
  {
    assert [name, arg][..1] == [name] && [name][..0] == [];
    assert Bulks([name]) == Bulk(name);
    assert Decimal(2) == "2";
  }

  // ---------------------------------------------------------------- whole conversations

  function Stream(replies: seq<Reply>): string {
    if replies == [] then "" else Wire(replies[0]) + Stream(replies[1..])
  }

  /** The results of n commands, read one after the other. */
  function Results(n: nat, input: string): seq<Outcome> {
    if n == 0 then [] else [Response(input).value] + Results(n - 1, Response(input).rest)
  }

  function Meanings(replies: seq<Reply>): (r: seq<Outcome>)
    ensures |r| == |replies| && forall i :: 0 <= i < |replies| ==> r[i] == Meaning(replies[i])
  {
    seq(|replies|, i requires 0 <= i < |replies| => Meaning(replies[i]))
  }

  predicate AllWellFormed(replies: seq<Reply>) {
    forall i :: 0 <= i < |replies| ==> WellFormed(replies[i])
  }

  /** An empty bulk is at most the last reply. */
  predicate NoEmptyBulkBeforeLast(replies: seq<Reply>) {
    forall i :: 0 <= i < |replies| - 1 ==> replies[i] != BulkReply("")
  }

  /** An input that starts with a bare line end gives an empty response. */
  lemma EmptyLine(rest: string)
    ensures Response(CRLF + rest) == Read(Failed("empty response"), rest)
  {
    LineOfCRLF("", rest);
    assert "" + CRLF + rest == CRLF + rest;
  }

  lemma MeaningIsNotEmptyResponse(reply: Reply)
    ensures Meaning(reply) != Failed("empty response")
  {
    assert "redis error: "[0] == 'r' && "empty response"[0] == 'e';
  }

  lemma ResultsAfterEmptyBulk(others: seq<Reply>)
    requires others != []
    ensures Results(|others|, CRLF + Stream(others)) != Meanings(others)
  {
    EmptyLine(Stream(others));
    MeaningIsNotEmptyResponse(others[0]);
    assert Meanings(others)[0] == Meaning(others[0]);
  }

  lemma MeaningsStep(replies: seq<Reply>)
    requires replies != []
    ensures Meanings(replies) == [Meaning(replies[0])] + Meanings(replies[1..])
  {
  }

  lemma NoEmptyBulkStep(replies: seq<Reply>)
    requires |replies| > 1
    ensures NoEmptyBulkBeforeLast(replies) <==> replies[0] != BulkReply("") && NoEmptyBulkBeforeLast(replies[1..])
  {
    assert forall i :: 0 <= i < |replies[1..]| ==> replies[1..][i] == replies[i + 1];
    assert forall i :: 1 <= i < |replies| ==> replies[i] == replies[1..][i - 1];
  }

  lemma SameTail<T>(x: T, s: seq<T>, t: seq<T>)
    ensures [x] + s == [x] + t <==> s == t
  {
    assert ([x] + s)[1..] == s && ([x] + t)[1..] == t;
  }

  /** After the first reply the others are read from what it leaves. */
  lemma ResultsStep(replies: seq<Reply>)
    requires AllWellFormed(replies) && replies != []
    ensures Results(|replies|, Stream(replies)) == Meanings(replies)
      <==> Results(|replies| - 1, Leftover(replies[0]) + Stream(replies[1..])) == Meanings(replies[1..])
  {
    var others := Stream(replies[1..]);
    ReadsReply(replies[0], others);
    MeaningsStep(replies);
    SameTail(Meaning(replies[0]), Results(|replies| - 1, Response(Wire(replies[0]) + others).rest),
        Meanings(replies[1..]));
  }

  /** What is left of the input after n responses. */
  function Remaining(n: nat, input: string): string {
    if n == 0 then input else Remaining(n - 1, Response(input).rest)
  }

  /** Each command finds the reader at the start of its own reply. */
  ghost predicate BoundariesKept(replies: seq<Reply>) {
    forall k: nat :: k < |replies| ==> AtBoundary(replies, k)
  }

  predicate AtBoundary(replies: seq<Reply>, k: nat)
    requires k < |replies|
  {
    Remaining(k, Stream(replies)) == Stream(replies[k..])
  }

  /** Only the last reply may leave something. */
  predicate NothingLeftBeforeLast(replies: seq<Reply>) {
    forall i :: 0 <= i < |replies| - 1 ==> Leftover(replies[i]) == ""
  }

  lemma BoundaryStep(replies: seq<Reply>, k: nat)
    requires AllWellFormed(replies) && k + 1 < |replies| && Leftover(replies[0]) == ""
    ensures AtBoundary(replies, k + 1) <==> AtBoundary(replies[1..], k)
  {
    ReadsReply(replies[0], Stream(replies[1..]));
    assert "" + Stream(replies[1..]) == Stream(replies[1..]) && replies[k + 1..] == replies[1..][k..];
  }

  lemma BoundaryLost(replies: seq<Reply>)
    requires AllWellFormed(replies) && |replies| > 1 && Leftover(replies[0]) != ""
    ensures !AtBoundary(replies, 1)
  {
    ReadsReply(replies[0], Stream(replies[1..]));
    assert Remaining(1, Stream(replies)) == Remaining(0, Response(Stream(replies)).rest);
    assert |Remaining(1, Stream(replies))| > |Stream(replies[1..])|;
  }

  lemma LeftStep(replies: seq<Reply>)
    requires |replies| > 1
    ensures NothingLeftBeforeLast(replies) <==> Leftover(replies[0]) == "" && NothingLeftBeforeLast(replies[1..])
  {
    assert forall i :: 0 <= i < |replies[1..]| ==> replies[1..][i] == replies[i + 1];
    assert forall i :: 1 <= i < |replies| ==> replies[i] == replies[1..][i - 1];
  }

  /**
   * Every command finds its own reply exactly when no reply but the last is an empty bulk or an array with
   * elements.
   */
  lemma {:induction false} BoundariesKeptIff(replies: seq<Reply>)
    requires AllWellFormed(replies)
    ensures BoundariesKept(replies) <==> NothingLeftBeforeLast(replies)
  {
    if |replies| > 0 { assert AtBoundary(replies, 0) by { assert replies[0..] == replies; } }
    if |replies| > 1 {
      LeftStep(replies);
      if Leftover(replies[0]) != "" {
        BoundaryLost(replies);
      } else {
        BoundariesKeptIff(replies[1..]);
        forall k: nat | k < |replies[1..]| { BoundaryStep(replies, k); }
        BoundariesShift(replies);
      }
    }
  }

  lemma BoundariesShift(replies: seq<Reply>)
    requires |replies| > 1 && AtBoundary(replies, 0)
    requires forall k: nat :: k < |replies[1..]| ==> (AtBoundary(replies, k + 1) <==> AtBoundary(replies[1..], k))
    ensures BoundariesKept(replies) <==> BoundariesKept(replies[1..])
  {
    if BoundariesKept(replies[1..]) {
      forall k: nat | k < |replies| ensures AtBoundary(replies, k) {
        if k > 0 { assert AtBoundary(replies[1..], k - 1) && AtBoundary(replies, k - 1 + 1); }
      }
    }
    if BoundariesKept(replies) {
      forall k: nat | k < |replies[1..]| ensures AtBoundary(replies[1..], k) { assert AtBoundary(replies, k + 1); }
    }
  }

  /** Then the k-th result is the meaning of the k-th reply, for every k. */
  lemma {:induction false} ResultsMatch(replies: seq<Reply>)
    requires AllWellFormed(replies) && NothingLeftBeforeLast(replies)
    ensures Results(|replies|, Stream(replies)) == Meanings(replies)
  {
    if |replies| > 0 { ResultsStep(replies); }
    if |replies| > 1 {
      LeftStep(replies);
      assert "" + Stream(replies[1..]) == Stream(replies[1..]);
      ResultsMatch(replies[1..]);
    }
  }

  /** No reply is an array with elements, whose elements could pass for the replies to come. */
  predicate NoElements(replies: seq<Reply>) {
    forall i :: 0 <= i < |replies| && replies[i].ArrayReply? ==> replies[i].items.Nil?
  }

  /**
   * Without elements, the k-th result is the meaning of the k-th reply exactly when no reply but the last is an
   * empty bulk.
   */
  lemma {:induction false} ResultsMatchIff(replies: seq<Reply>)
    requires AllWellFormed(replies) && NoElements(replies)
    ensures Results(|replies|, Stream(replies)) == Meanings(replies) <==> NoEmptyBulkBeforeLast(replies)
  {
    if |replies| > 0 { ResultsStep(replies); }
    if |replies| > 1 {
      NoEmptyBulkStep(replies);
      if replies[0] == BulkReply("") {
        ResultsAfterEmptyBulk(replies[1..]);
      } else {
        LeftoverIff(replies[0]);
        assert "" + Stream(replies[1..]) == Stream(replies[1..]);
        ResultsMatchIff(replies[1..]);
      }
    }
  }
}
