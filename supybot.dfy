/** The Supybot IRC log parser: log lines in, one item per message out.

    Each line is a timestamp, two blanks and a message; a message is either
    a comment `<nick> body` or a server message `*** nick ...`. Blank lines
    are skipped, and the first line that is neither stops the parse with an
    error naming its (1-based) line number. */
module Supybot {
  import opened Wrappers
  import opened Seqs
  import opened Text
  import opened SupybotPatterns

  /** `TCOMMENT` and `TSERVER`. */
  datatype ItemType = Comment | Server

  function TypeName(t: ItemType): (name: string)
    ensures name == "comment" <==> t == Comment
    ensures name == "server" <==> t == Server
  {
    match t
    case Comment => "comment"
    case Server => "server"
  }

  /** The dictionary `_build_item` returns. */
  datatype Item = Item(timestamp: string, itemType: ItemType, nick: string, body: string)

  /** The two `ParseError` causes, each with the line number it quotes. */
  datatype ParseError = DateExpected(line: nat) | InvalidMessage(line: nat)

  function ErrorLine(e: ParseError): nat {
    match e
    case DateExpected(n) => n
    case InvalidMessage(n) => n
  }

  /** `line.rstrip('\n')`: every newline at the end goes, nothing else does. */
  function RStripNewlines(line: string): (r: string)
    ensures |r| <= |line| && r == line[..|r|]
    ensures forall i :: |r| <= i < |line| ==> line[i] == '\n'
    ensures r == [] || r[|r| - 1] != '\n'
  {
    if line != [] && line[|line| - 1] == '\n' then RStripNewlines(line[..|line| - 1]) else line
  }

  /** `_parse_supybot_timestamp`: the timestamp and the message of a line,
      or "date expected" on line `nline`. */
  function ParseTimestamp(line: string, nline: nat): (r: Result<Stamped, ParseError>)
    ensures r.Failure? <==> MatchTimestamp(line).None?
    ensures r.Failure? ==> r.error == DateExpected(nline)
    ensures r.Success? ==> Some(r.value) == MatchTimestamp(line)
  {
    match MatchTimestamp(line)
    case None => Failure(DateExpected(nline))
    case Some(st) => Success(st)
  }

  /** A classified message: its type, its nick and its stripped body. */
  datatype Message = Message(itemType: ItemType, nick: string, body: string)

  /** `_parse_supybot_msg`: a comment if the comment pattern matches, else a
      server message if the server pattern does, else "invalid message" on
      line `nline`. The body comes back stripped of outer whitespace. */
  function ParseMessage(msg: string, nline: nat): (r: Result<Message, ParseError>)
    ensures r.Failure? <==> MatchComment(msg).None? && MatchServer(msg).None?
    ensures r.Failure? ==> r.error == InvalidMessage(nline)
    ensures r.Success? && r.value.itemType == Comment ==>
              MatchComment(msg).Some? && r.value.nick == MatchComment(msg).value.nick &&
              r.value.body == Strip(MatchComment(msg).value.body)
    ensures r.Success? && r.value.itemType == Server ==>
              MatchComment(msg).None? && MatchServer(msg).Some? &&
              r.value.nick == MatchServer(msg).value.nick &&
              r.value.body == Strip(MatchServer(msg).value.body)
  {
    match MatchComment(msg)
    case Some(c) => Success(Message(Comment, c.nick, Strip(c.body)))
    case None =>
      match MatchServer(msg)
      case Some(c) => Success(Message(Server, c.nick, Strip(c.body)))
      case None => Failure(InvalidMessage(nline))
  }

  /** What one line of the stream gives: nothing, an item or an error. */
  datatype LineOutcome = Skip | Emit(item: Item) | Fail(error: ParseError)

  /** One turn of the loop in `parse`, for the raw line `raw` read as line
      number `nline`. */
  function ParseLine(raw: string, nline: nat): LineOutcome {
    var line := RStripNewlines(raw);
    if IsBlank(line) then Skip
    else
      match ParseTimestamp(line, nline)
      case Failure(e) => Fail(e)
      case Success(st) =>
        match ParseMessage(st.msg, nline)
        case Failure(e) => Fail(e)
        case Success(m) => Emit(Item(st.ts, m.itemType, m.nick, m.body))
  }

  /** A line gives nothing exactly when it is blank once its ending
      newlines are gone. */
  lemma ParseLineSkips(raw: string, nline: nat)
    ensures ParseLine(raw, nline).Skip? <==> IsBlank(RStripNewlines(raw))
  {
  }

  /** An error names the line it was raised on, and it is "date expected"
      exactly when a non-blank line lacks the timestamp. */
  lemma ParseLineErrors(raw: string, nline: nat)
    ensures var r := ParseLine(raw, nline);
            && (r.Fail? ==> ErrorLine(r.error) == nline)
            && (r.Fail? && r.error.DateExpected? <==>
                  !IsBlank(RStripNewlines(raw)) && MatchTimestamp(RStripNewlines(raw)).None?)
  {
  }

  /** An item carries a timestamp of the right shape and a body with no
      whitespace at either end. */
  lemma ParseLineItems(raw: string, nline: nat)
    ensures var r := ParseLine(raw, nline);
            r.Emit? ==>
              && TimestampShape(r.item.timestamp)
              && (r.item.body == [] || (!IsSpace(r.item.body[0]) && !IsSpace(r.item.body[|r.item.body| - 1])))
  {
    var line := RStripNewlines(raw);
    if !IsBlank(line) && MatchTimestamp(line).Some? {
      MatchTimestampSound(line);
      MessageTrimmed(MatchTimestamp(line).value.msg, nline);
    }
  }

  lemma MessageTrimmed(msg: string, nline: nat)
    ensures var r := ParseMessage(msg, nline);
            r.Success? ==> r.value.body == [] || (!IsSpace(r.value.body[0]) && !IsSpace(r.value.body[|r.value.body| - 1]))
  {
  }

  /** What a run of `parse` over `lines` gives when `nline` lines were read
      before: the items yielded, the error that stopped it if any, and how
      many lines it read. */
  datatype Outcome = Outcome(items: seq<Item>, error: Option<ParseError>, consumed: nat)

  /** What each line of `lines` gives, the first being read as line `nline + 1`. */
  function LineOutcomes(lines: seq<string>, nline: nat): (outs: seq<LineOutcome>)
    ensures |outs| == |lines|
    decreases |lines|
  {
    if lines == [] then [] else [ParseLine(lines[0], nline + 1)] + LineOutcomes(lines[1..], nline + 1)
  }

  /** The loop of `parse` over what its lines give: the items up to the
      first rejected line, whose error stops it. */
  function Tally(outs: seq<LineOutcome>): (o: Outcome)
    ensures o.consumed <= |outs|
    ensures o.error.None? ==> o.consumed == |outs|
    ensures o.error.Some? ==> o.consumed >= 1
  {
    if outs == [] then Outcome([], None, 0)
    else
      match outs[0]
      case Fail(e) => Outcome([], Some(e), 1)
      case Skip =>
        var o := Tally(outs[1..]);
        Outcome(o.items, o.error, o.consumed + 1)
      case Emit(item) =>
        var o := Tally(outs[1..]);
        Outcome([item] + o.items, o.error, o.consumed + 1)
  }

  /** What `parse` gives for `lines` when `nline` lines were read before. */
  function ParseLog(lines: seq<string>, nline: nat): Outcome {
    Tally(LineOutcomes(lines, nline))
  }

  /** `o` run after `items` were yielded and `read` lines were read. */
  function After(items: seq<Item>, read: nat, o: Outcome): Outcome {
    Outcome(items + o.items, o.error, read + o.consumed)
  }

  /** `SupybotParser`: the stream still to be read and the count of lines
      read so far. */
  class SupybotParser {
    var stream: seq<string>
    var nline: nat

    constructor (stream: seq<string>)
      ensures this.stream == stream && nline == 0
    {
      this.stream := stream;
      nline := 0;
    }

    /** One turn of the loop of `parse`: the next line of the stream is
        read, counted in `nline` and parsed. `outs` are what the lines of
        `lines` give when the first is line `start + 1`, and `read` of them
        were read before. */
    method ParseNext(ghost lines: seq<string>, ghost start: nat, ghost outs: seq<LineOutcome>, ghost read: nat)
      returns (outcome: LineOutcome)
      requires outs == LineOutcomes(lines, start)
      requires read < |lines| && stream == lines[read..] && nline == start + read
      modifies this
      ensures stream == lines[read + 1..] && nline == start + read + 1
      ensures outcome == outs[read]
    {
      LineOutcomeAt(lines, start, read);
      var line := stream[0];
      stream := stream[1..];
      nline := nline + 1;
      outcome := ParseLine(line, nline);
    }

    /** `parse`, run until the stream ends or a line is rejected: the items
        yielded, the error raised if any, the lines left unread, and
        `nline` advanced by every line read, the rejected one included. */
    method Parse() returns (items: seq<Item>, error: Option<ParseError>)
      modifies this
      ensures var o := ParseLog(old(stream), old(nline));
              && items == o.items && error == o.error
              && nline == old(nline) + o.consumed
              && stream == old(stream)[o.consumed..]
    {
      ghost var outs := LineOutcomes(stream, nline);
      ghost var read: nat := 0;
      items := [];
      error := None;
      assert After([], 0, Tally(outs)) == Tally(outs);
      while stream != []
        invariant read <= |outs| && stream == old(stream)[read..] && nline == old(nline) + read
        invariant Tally(outs) == After(items, read, Tally(outs[read..]))
        decreases |stream|
      {
        TallyStep(outs, items, read);
        var outcome := ParseNext(old(stream), old(nline), outs, read);
        read := read + 1;
        match outcome
        case Skip =>
        case Emit(item) =>
          items := items + [item];
        case Fail(e) =>
          error := Some(e);
          return;
      }
      assert items + [] == items;
    }
  }

  /** The line read as number `nline + k + 1` gives the `k`-th outcome. */
  lemma {:induction false} LineOutcomeAt(lines: seq<string>, nline: nat, k: nat)
    requires k < |lines|
    ensures LineOutcomes(lines, nline)[k] == ParseLine(lines[k], nline + k + 1)
    decreases k
  {
    if k > 0 {
      LineOutcomeAt(lines[1..], nline + 1, k - 1);
      assert lines[1..][k - 1] == lines[k];
    }
  }

  /** One turn of the loop in `parse`: the next line gives nothing, an item
      or the error that ends the parse. */
  lemma TallyStep(outs: seq<LineOutcome>, items: seq<Item>, read: nat)
    requires read < |outs|
    requires Tally(outs) == After(items, read, Tally(outs[read..]))
    ensures var later := Tally(outs[read + 1..]);
            match outs[read]
            case Skip => Tally(outs) == After(items, read + 1, later)
            case Emit(item) => Tally(outs) == After(items + [item], read + 1, later)
            case Fail(e) => Tally(outs) == Outcome(items, Some(e), read + 1)
  {
    var later := Tally(outs[read + 1..]);
    assert outs[read..][1..] == outs[read + 1..];
    match outs[read]
    case Skip =>
    case Emit(item) =>
      ConcatAssoc(items, [item], later.items);
    case Fail(e) =>
      assert items + [] == items;
  }

  // ---------------------------------------------------------------------
  // What the parser promises

  /** Numbering carries over from one part of a log to the next. */
  lemma {:induction false} LineOutcomesAppend(a: seq<string>, b: seq<string>, nline: nat)
    ensures LineOutcomes(a + b, nline) == LineOutcomes(a, nline) + LineOutcomes(b, nline + |a|)
    decreases |a|
  {
    if a == [] {
      assert a + b == b;
    } else {
      assert (a + b)[0] == a[0] && (a + b)[1..] == a[1..] + b;
      LineOutcomesAppend(a[1..], b, nline + 1);
      ConcatAssoc([ParseLine(a[0], nline + 1)], LineOutcomes(a[1..], nline + 1), LineOutcomes(b, nline + |a|));
    }
  }

  /** The loop over two runs of lines: if the first has no rejected line,
      the second carries on after it; if it has one, the second is never
      looked at. */
  lemma {:induction false} TallyAppend(a: seq<LineOutcome>, b: seq<LineOutcome>)
    ensures var first := Tally(a);
            Tally(a + b) == if first.error.None? then After(first.items, |a|, Tally(b)) else first
    decreases |a|
  {
    if a == [] {
      assert a + b == b;
      assert After([], 0, Tally(b)) == Tally(b);
    } else {
      assert (a + b)[0] == a[0] && (a + b)[1..] == a[1..] + b;
      TallyAppend(a[1..], b);
      var tail := Tally(a[1..]);
      match a[0]
      case Fail(e) =>
      case Skip =>
      case Emit(item) =>
        if tail.error.None? {
          ConcatAssoc([item], tail.items, Tally(b).items);
        }
    }
  }

  /** A log read in two parts: if the first part parses, the second is
      parsed after it with the line count it left; if not, the error of the
      first part is the error of the whole and the second is never read. */
  lemma ParseLogAppend(a: seq<string>, b: seq<string>, nline: nat)
    ensures var first := ParseLog(a, nline);
            ParseLog(a + b, nline) ==
              if first.error.None? then After(first.items, |a|, ParseLog(b, nline + |a|)) else first
  {
    LineOutcomesAppend(a, b, nline);
    TallyAppend(LineOutcomes(a, nline), LineOutcomes(b, nline + |a|));
  }

  /** The items of the outcomes that are items, in order. */
  function Emitted(outs: seq<LineOutcome>): seq<Item> {
    if outs == [] then []
    else (match outs[0] case Emit(item) => [item] case _ => []) + Emitted(outs[1..])
  }

  /** `parse` yields an item for every line read that gives one, in the
      order of the lines, whether or not a later line stops it. */
  lemma {:induction false} TallyYieldsEmitted(outs: seq<LineOutcome>)
    ensures Tally(outs).items == Emitted(outs[..Tally(outs).consumed])
    decreases |outs|
  {
    var o := Tally(outs);
    if outs != [] {
      TallyYieldsEmitted(outs[1..]);
      var k := Tally(outs[1..]).consumed;
      assert outs[..o.consumed][0] == outs[0];
      if !outs[0].Fail? {
        assert outs[..o.consumed][1..] == outs[1..][..k];
      } else {
        assert outs[..o.consumed][1..] == [];
      }
    } else {
      assert outs[..0] == [];
    }
  }

  /** The loop stops exactly at the first rejected line: every line before
      it gave an item or nothing, and a run stops early only there. */
  lemma {:induction false} TallyStopsAtRejected(outs: seq<LineOutcome>)
    ensures var o := Tally(outs);
            (o.error.None? <==> forall i :: 0 <= i < |outs| ==> !outs[i].Fail?)
            && (o.error.Some? ==> outs[o.consumed - 1] == Fail(o.error.value))
            && forall i :: 0 <= i < o.consumed - 1 ==> !outs[i].Fail?
    decreases |outs|
  {
    var o := Tally(outs);
    if outs != [] {
      TallyStopsAtRejected(outs[1..]);
      var r := Tally(outs[1..]);
      if !outs[0].Fail? {
        assert o.consumed == r.consumed + 1;
        forall i | 1 <= i < |outs| ensures outs[i] == outs[1..][i - 1] { }
      }
    }
  }

  /** The error names the line that was rejected, counting from one, and
      that line is the first that could not be parsed. */
  lemma ErrorNamesRejectedLine(lines: seq<string>, nline: nat)
    requires ParseLog(lines, nline).error.Some?
    ensures var o := ParseLog(lines, nline);
            && ErrorLine(o.error.value) == nline + o.consumed
            && ParseLine(lines[o.consumed - 1], nline + o.consumed) == Fail(o.error.value)
            && forall i :: 0 <= i < o.consumed - 1 ==> !ParseLine(lines[i], nline + i + 1).Fail?
  {
    var outs := LineOutcomes(lines, nline);
    var o := Tally(outs);
    TallyStopsAtRejected(outs);
    LineOutcomeAt(lines, nline, o.consumed - 1);
    ParseLineErrors(lines[o.consumed - 1], nline + o.consumed);
    forall i | 0 <= i < o.consumed - 1 ensures !ParseLine(lines[i], nline + i + 1).Fail? {
      LineOutcomeAt(lines, nline, i);
    }
  }

  /** The number of lines among `lines` that are not blank once their ending
      newlines are gone. */
  function NonBlankCount(lines: seq<string>): (n: nat)
    ensures n <= |lines|
  {
    if lines == [] then 0
    else (if IsBlank(RStripNewlines(lines[0])) then 0 else 1) + NonBlankCount(lines[1..])
  }

  /** A log that parses to its end gives one item per non-blank line: blank
      lines are counted but give nothing. */
  lemma {:induction false} OneItemPerLine(lines: seq<string>, nline: nat)
    requires ParseLog(lines, nline).error.None?
    ensures |ParseLog(lines, nline).items| == NonBlankCount(lines)
    decreases |lines|
  {
    if lines != [] {
      var outs := LineOutcomes(lines, nline);
      assert outs[1..] == LineOutcomes(lines[1..], nline + 1);
      ParseLineSkips(lines[0], nline + 1);
      OneItemPerLine(lines[1..], nline + 1);
    }
  }

  /** Blank lines, the empty one included, give nothing. */
  lemma BlankLinesSkipped(nline: nat)
    ensures ParseLine("", nline) == Skip
    ensures ParseLine(" \t \r", nline) == Skip
    ensures ParseLine("   \n", nline) == Skip
  {
    assert RStripNewlines("   \n") == "   ";
  }

  // ---------------------------------------------------------------------
  // Log lines written out from items, and read back

  /** An item that a log line can carry unchanged: a timestamp of the right
      shape and a one-line body without outer whitespace; a comment's nick
      has no `!`, `>` or newline, a server message's body starts with a nick
      without `!` or whitespace and a blank. */
  predicate Writable(item: Item) {
    && TimestampShape(item.timestamp)
    && item.body != [] && NoNewline(item.body)
    && !IsSpace(item.body[0]) && !IsSpace(item.body[|item.body| - 1])
    && match item.itemType
       case Comment =>
         forall i :: 0 <= i < |item.nick| ==>
           item.nick[i] != '!' && item.nick[i] != '>' && item.nick[i] != '\n'
       case Server =>
         && |item.nick| + 1 < |item.body|
         && item.body[..|item.nick|] == item.nick
         && IsSpace(item.body[|item.nick|])
         && forall i :: 0 <= i < |item.nick| ==> item.nick[i] != '!' && !IsSpace(item.nick[i])
  }

  /** The message part of the log line Supybot writes for an item. */
  function MessageText(item: Item): string {
    match item.itemType
    case Comment => "<" + item.nick + "> " + item.body
    case Server => "*** " + item.body
  }

  /** The log line Supybot writes for an item. */
  function LogLine(item: Item): string {
    item.timestamp + "  " + MessageText(item)
  }

  /** The message of a writable item is a one-line message. */
  lemma MessageTextOneLine(item: Item)
    requires Writable(item)
    ensures MessageText(item) != [] && NoNewline(MessageText(item))
    ensures MessageText(item)[|MessageText(item)| - 1] == item.body[|item.body| - 1]
  {
    var msg := MessageText(item);
    match item.itemType
    case Comment =>
      forall i | 0 <= i < |msg| ensures msg[i] != '\n' {
        if 1 <= i <= |item.nick| {
          assert msg[i] == item.nick[i - 1];
        } else if i >= |item.nick| + 3 {
          assert msg[i] == item.body[i - |item.nick| - 3];
        }
      }
    case Server =>
      forall i | 0 <= i < |msg| ensures msg[i] != '\n' {
        if i >= 4 {
          assert msg[i] == item.body[i - 4];
        }
      }
  }

  /** The message of a writable comment is read back as that comment. */
  lemma CommentMessageRoundTrip(item: Item, nline: nat)
    requires Writable(item) && item.itemType == Comment
    ensures ParseMessage(MessageText(item), nline) == Success(Message(Comment, item.nick, item.body))
  {
    assert MessageText(item) == "<" + item.nick + ">" + [' '] + item.body;
    CommentRoundTrip(item.nick, ' ', item.body);
    StripKeeps(item.body);
  }

  /** The message of a writable server item is read back as that item. */
  lemma ServerMessageRoundTrip(item: Item, nline: nat)
    requires Writable(item) && item.itemType == Server
    ensures ParseMessage(MessageText(item), nline) == Success(Message(Server, item.nick, item.body))
  {
    var k := |item.nick|;
    var rest := item.body[k + 1..];
    assert item.body == item.nick + [item.body[k]] + rest;
    assert MessageText(item) == "***" + [' '] + item.nick + [item.body[k]] + rest;
    assert NoNewline(rest) by {
      forall i | 0 <= i < |rest| ensures rest[i] != '\n' {
        assert rest[i] == item.body[k + 1 + i];
      }
    }
    assert !MatchComment(MessageText(item)).Some?;
    ServerRoundTrip(' ', item.nick, item.body[k], rest);
    StripKeeps(item.body);
  }

  /** Every writable item is read back from its log line as it was. */
  lemma LogLineRoundTrip(item: Item, nline: nat)
    requires Writable(item)
    ensures ParseLine(LogLine(item), nline) == Emit(item)
  {
    var line := LogLine(item);
    var msg := MessageText(item);
    MessageTextOneLine(item);
    assert line[|line| - 1] == msg[|msg| - 1];
    assert RStripNewlines(line) == line;
    assert !IsBlank(line) by {
      assert line[0] == item.timestamp[0];
      assert Fits(item.timestamp[0], TimestampTemplate[0]);
    }
    TimestampRoundTrip(item.timestamp, "  ", msg);
    match item.itemType
    case Comment => CommentMessageRoundTrip(item, nline);
    case Server => ServerMessageRoundTrip(item, nline);
  }
}
