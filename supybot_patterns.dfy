/** The four line patterns of the Supybot log parser, written out as the
    matchers Python's backtracking `re` engine makes of them.

    All four are compiled with `re.VERBOSE`, so the layout whitespace inside
    the timestamp pattern is not part of it, and all are applied with
    `match`, so they are anchored at the start. In them `.` is any character
    but a newline, `\s` is a character for which `str.isspace()` holds and
    `$` matches at the end or just before a newline that ends the text. */
module SupybotPatterns {
  import opened Wrappers
  import opened Text

  predicate NoNewline(s: string) {
    forall i :: 0 <= i < |s| ==> s[i] != '\n'
  }

  /** Text without a newline stays so when a character other than a newline
      is put in front of it. */
  lemma NoNewlineCons(s: string, p: nat, q: nat)
    requires p < q <= |s| && s[p] != '\n' && NoNewline(s[p + 1..q])
    ensures NoNewline(s[p..q])
  {
    forall i | p < i < q ensures s[i] != '\n' {
      assert s[i] == s[p + 1..q][i - p - 1];
    }
  }

  /** Part of a text without a newline has none either. */
  lemma NoNewlineInside(s: string, p: nat, q: nat, hi: nat)
    requires p <= q <= hi <= |s| && NoNewline(s[p..hi])
    ensures NoNewline(s[p..q])
  {
    forall i | p <= i < q ensures s[i] != '\n' {
      assert s[i] == s[p..hi][i - p];
    }
  }

  /** `.+$` matches all of `t`: one or more characters other than a newline,
      and at most a single newline after them. */
  predicate RestOfLine(t: string) {
    |t| >= 1 &&
    (NoNewline(t) || (|t| >= 2 && t[|t| - 1] == '\n' && NoNewline(t[..|t| - 1])))
  }

  /** What `.+` captured when `.+$` matched `t`: `t` without its ending newline. */
  function LineText(t: string): (r: string)
    requires RestOfLine(t)
    ensures r != [] && NoNewline(r)
    ensures t == r || t == r + "\n"
  {
    if NoNewline(t) then t else t[..|t| - 1]
  }

  /** The first newline at or after `i`, or the end of `s`: how far `.*`
      (and the lazy `.*?`) can reach from `i`. */
  function NewlineFrom(s: string, i: nat): (r: nat)
    requires i <= |s|
    ensures i <= r <= |s| && NoNewline(s[i..r])
    ensures r < |s| ==> s[r] == '\n'
    decreases |s| - i
  {
    if i == |s| || s[i] == '\n' then i
    else
      var r := NewlineFrom(s, i + 1);
      NoNewlineCons(s, i, r);
      r
  }

  // ---------------------------------------------------------------------
  // The nick group `(?P<nick>(.*?)(!.*)?)` and what must follow it

  /** What follows the nick: `>\s(?P<body>.+)$` in the comment pattern,
      `\s.+` and the end of the line in the server pattern. */
  datatype Separator = CommentClose | ServerSpace

  /** The text after the nick matches the separator when the nick ends at `q`. */
  predicate SeparatorAt(kind: Separator, s: string, q: nat) {
    match kind
    case CommentClose =>
      q + 1 < |s| && s[q] == '>' && IsSpace(s[q + 1]) && RestOfLine(s[q + 2..])
    case ServerSpace =>
      q < |s| && IsSpace(s[q]) && RestOfLine(s[q + 1..])
  }

  /** The greedy `(!.*)` once `!` was read just before `lo`: `.*` first takes
      everything up to `hi` and gives it back one character at a time, so the
      nick ends at the LAST place in `[lo, hi]` where the separator matches. */
  function GreedyBangEnd(kind: Separator, s: string, lo: nat, hi: nat): (r: Option<nat>)
    ensures r.Some? ==> lo <= r.value <= hi && SeparatorAt(kind, s, r.value)
    ensures r.Some? ==> forall q :: r.value < q <= hi ==> !SeparatorAt(kind, s, q)
    ensures r.None? ==> forall q :: lo <= q <= hi ==> !SeparatorAt(kind, s, q)
    decreases hi
  {
    if hi < lo then None
    else if SeparatorAt(kind, s, hi) then Some(hi)
    else if hi == lo then None
    else GreedyBangEnd(kind, s, lo, hi - 1)
  }

  /** Where the nick group ends when the lazy `(.*?)` has reached `p`: the
      optional `(!.*)` is tried first, then left out, and only then does
      `(.*?)` take one more character (never a newline). */
  function NickEnd(kind: Separator, s: string, p: nat): (r: Option<nat>)
    requires p <= |s|
    ensures r.Some? ==> p <= r.value <= |s| && SeparatorAt(kind, s, r.value)
    ensures r.Some? ==> NoNewline(s[p..r.value])
    decreases |s| - p
  {
    var hi := if p < |s| then NewlineFrom(s, p + 1) else p;
    var bang := if p < |s| && s[p] == '!' then GreedyBangEnd(kind, s, p + 1, hi) else None;
    if bang.Some? then
      NoNewlineInside(s, p + 1, bang.value, hi);
      NoNewlineCons(s, p, bang.value);
      bang
    else if SeparatorAt(kind, s, p) then Some(p)
    else if p < |s| && s[p] != '\n' then
      var r := NickEnd(kind, s, p + 1);
      if r.Some? then NoNewlineCons(s, p, r.value); r else r
    else None
  }

  /** The nick group finds an end whenever there is a separator that no
      newline stands between. */
  lemma {:induction false} NickEndComplete(kind: Separator, s: string, p: nat, q: nat)
    requires p <= q <= |s| && SeparatorAt(kind, s, q) && NoNewline(s[p..q])
    ensures NickEnd(kind, s, p).Some?
    decreases q - p
  {
    if p < q && !SeparatorAt(kind, s, p) {
      assert s[p] == s[p..q][0];
      assert s[p + 1..q] == s[p..q][1..];
      NickEndComplete(kind, s, p + 1, q);
    }
  }

  /** A nick without `!` is the text up to the first separator. */
  lemma {:induction false} NickEndFirst(kind: Separator, s: string, p: nat, q: nat)
    requires p <= q <= |s| && SeparatorAt(kind, s, q) && NoNewline(s[p..q])
    requires forall i :: p <= i < q ==> s[i] != '!' && !SeparatorAt(kind, s, i)
    ensures NickEnd(kind, s, p) == Some(q)
    decreases q - p
  {
    if p < q {
      assert s[p] == s[p..q][0];
      assert s[p + 1..q] == s[p..q][1..];
      NickEndFirst(kind, s, p + 1, q);
    }
  }

  /** A nick that contains `!` runs to the last separator on its line:
      `<a!b> c> d` has the nick `a!b> c`. */
  lemma BangNickRunsToLastSeparator()
    ensures NickEnd(CommentClose, "<a!b> c> d", 1) == Some(7)
  {
    var s := "<a!b> c> d";
    assert !SeparatorAt(CommentClose, s, 1);
    assert s[2] == '!' && NewlineFrom(s, 3) == 10;
    assert SeparatorAt(CommentClose, s, 7);
  }

  // ---------------------------------------------------------------------
  // The four patterns

  /** `\d{4}-\d{2}-\d{2}T\d{2}:\d{2}:\d{2}[\+\-]\d{4}`, position by position:
      `d` stands for a digit, `#` for a sign, anything else for itself. */
  const TimestampTemplate := "dddd-dd-ddTdd:dd:dd#dddd"

  predicate Fits(c: char, t: char) {
    if t == 'd' then IsDigit(c) else if t == '#' then c == '+' || c == '-' else c == t
  }

  predicate TimestampShape(ts: string) {
    |ts| == |TimestampTemplate| &&
    forall i :: 0 <= i < |ts| ==> Fits(ts[i], TimestampTemplate[i])
  }

  /** The two groups of a timestamp match. */
  datatype Stamped = Stamped(ts: string, msg: string)

  /** The timestamp pattern `^(?P<ts>…)\s\s(?P<msg>.+)$`. */
  function MatchTimestamp(line: string): Option<Stamped> {
    var n := |TimestampTemplate|;
    if |line| >= n + 2 && TimestampShape(line[..n]) && AllSpace(line[n..n + 2])
       && RestOfLine(line[n + 2..])
    then Some(Stamped(line[..n], LineText(line[n + 2..])))
    else None
  }

  /** A timestamp match splits the line into a timestamp of the right shape,
      two blanks and a one-line message (and perhaps the newline after it). */
  lemma MatchTimestampSound(line: string)
    requires MatchTimestamp(line).Some?
    ensures var r := MatchTimestamp(line).value;
            && TimestampShape(r.ts) && r.msg != [] && NoNewline(r.msg)
            && exists sep :: |sep| == 2 && AllSpace(sep) &&
                 (line == r.ts + sep + r.msg || line == r.ts + sep + r.msg + "\n")
  {
    var n := |TimestampTemplate|;
    var r := MatchTimestamp(line).value;
    assert line == r.ts + line[n..n + 2] + line[n + 2..];
  }

  /** The nick and the (unstripped) body captured by a message pattern. */
  datatype Captured = Captured(nick: string, body: string)

  /** The comment pattern `^<(?P<nick>(.*?)(!.*)?)>\s(?P<body>.+)$`. */
  function MatchComment(msg: string): Option<Captured> {
    if |msg| >= 1 && msg[0] == '<' then
      match NickEnd(CommentClose, msg, 1)
      case None => None
      case Some(q) => Some(Captured(msg[1..q], LineText(msg[q + 2..])))
    else None
  }

  /** A comment match splits the message into `<`, the nick, `>`, a blank and
      a one-line body (and perhaps the newline after it). */
  lemma MatchCommentSound(msg: string)
    requires MatchComment(msg).Some?
    ensures var r := MatchComment(msg).value;
            && r.body != [] && NoNewline(r.nick) && NoNewline(r.body)
            && exists c :: IsSpace(c) &&
                 (msg == "<" + r.nick + ">" + [c] + r.body ||
                  msg == "<" + r.nick + ">" + [c] + r.body + "\n")
  {
    var q := NickEnd(CommentClose, msg, 1).value;
    var r := MatchComment(msg).value;
    assert msg == "<" + r.nick + ">" + [msg[q + 1]] + msg[q + 2..];
  }

  /** The server pattern `^\*\*\*\s(?P<body>(?P<nick>(.*?)(!.*)?)\s.+)$`:
      the body group holds the nick as well. */
  function MatchServer(msg: string): Option<Captured> {
    if |msg| >= 4 && msg[..3] == "***" && IsSpace(msg[3]) then
      match NickEnd(ServerSpace, msg, 4)
      case None => None
      case Some(q) => Some(Captured(msg[4..q], msg[4..q] + [msg[q]] + LineText(msg[q + 1..])))
    else None
  }

  /** A server match's body is the nick, a blank and at least one more
      character, all on one line. */
  lemma MatchServerBody(msg: string)
    requires MatchServer(msg).Some?
    ensures var r := MatchServer(msg).value;
            && NoNewline(r.nick)
            && exists c, rest :: IsSpace(c) && rest != [] && NoNewline(rest) &&
                 r.body == r.nick + [c] + rest
  {
    var q := NickEnd(ServerSpace, msg, 4).value;
    var nick := msg[4..q];
    var c := msg[q];
    var rest := LineText(msg[q + 1..]);
    assert MatchServer(msg).value == Captured(nick, nick + [c] + rest);
    assert IsSpace(c) && rest != [] && NoNewline(rest);
  }

  /** A server match splits the message into `***`, a blank and the body
      (and perhaps the newline after it). */
  lemma MatchServerSound(msg: string)
    requires MatchServer(msg).Some?
    ensures var r := MatchServer(msg).value;
            && |msg| >= 4 && msg[..3] == "***" && IsSpace(msg[3])
            && (msg[4..] == r.body || msg[4..] == r.body + "\n")
  {
    var q := NickEnd(ServerSpace, msg, 4).value;
    var t := msg[q + 1..];
    assert msg[4..] == msg[4..q] + [msg[q]] + t;
  }

  /** The empty-line pattern `^\s*$`. */
  predicate IsBlank(line: string) {
    AllSpace(line)
  }

  // ---------------------------------------------------------------------
  // The patterns against the log lines they are meant for

  /** A timestamp, two blanks and a one-line message are read back as they were. */
  lemma {:induction false} TimestampRoundTrip(ts: string, sep: string, msg: string)
    requires TimestampShape(ts) && |sep| == 2 && AllSpace(sep)
    requires msg != [] && NoNewline(msg)
    ensures MatchTimestamp(ts + sep + msg) == Some(Stamped(ts, msg))
  {
    var line := ts + sep + msg;
    var n := |TimestampTemplate|;
    assert line[..n] == ts && line[n..n + 2] == sep && line[n + 2..] == msg;
  }

  /** `<nick>`, a blank and a one-line body are read back as they were, for
      any nick without `!`, `>` or newline. */
  lemma {:induction false} CommentRoundTrip(nick: string, c: char, body: string)
    requires NoNewline(nick) && forall i :: 0 <= i < |nick| ==> nick[i] != '!' && nick[i] != '>'
    requires IsSpace(c) && body != [] && NoNewline(body)
    ensures MatchComment("<" + nick + ">" + [c] + body) == Some(Captured(nick, body))
  {
    var msg := "<" + nick + ">" + [c] + body;
    var q := |nick| + 1;
    assert msg[1..q] == nick && msg[q] == '>' && msg[q + 1] == c && msg[q + 2..] == body;
    forall i | 1 <= i < q ensures msg[i] != '!' && !SeparatorAt(CommentClose, msg, i) {
      assert msg[i] == nick[i - 1];
    }
    NickEndFirst(CommentClose, msg, 1, q);
  }

  /** `***`, a blank, a nick without whitespace or `!`, a blank and a
      one-line text are read back as that nick and a body that holds
      everything after the first blank. */
  lemma {:induction false} ServerRoundTrip(d: char, nick: string, c: char, rest: string)
    requires IsSpace(d) && IsSpace(c) && rest != [] && NoNewline(rest)
    requires forall i :: 0 <= i < |nick| ==> nick[i] != '!' && !IsSpace(nick[i])
    ensures MatchServer("***" + [d] + nick + [c] + rest) == Some(Captured(nick, nick + [c] + rest))
  {
    var msg := "***" + [d] + nick + [c] + rest;
    var q := |nick| + 4;
    assert msg[..3] == "***" && msg[3] == d;
    assert msg[4..q] == nick && msg[q] == c && msg[q + 1..] == rest;
    assert msg[4..] == nick + [c] + rest;
    assert NoNewline(msg[4..q]) by {
      forall i | 0 <= i < |nick| ensures nick[i] != '\n' {
        assert !IsSpace(nick[i]);
      }
    }
    forall i | 4 <= i < q ensures msg[i] != '!' && !SeparatorAt(ServerSpace, msg, i) {
      assert msg[i] == nick[i - 4];
    }
    NickEndFirst(ServerSpace, msg, 4, q);
  }

  /** A server message needs text after the nick: `*** X ` is not one. */
  lemma ServerNeedsText()
    ensures MatchServer("*** X ") == None
  {
    var msg := "*** X ";
    assert !SeparatorAt(ServerSpace, msg, 4);
    assert !SeparatorAt(ServerSpace, msg, 5);
    assert NewlineFrom(msg, 4) == 6;
  }

  /** No message is both a comment and a server message, so the order the
      parser tries the two patterns in does not change what a message gives. */
  lemma CommentServerDisjoint(msg: string)
    ensures !(MatchComment(msg).Some? && MatchServer(msg).Some?)
  {
    if |msg| >= 4 && msg[..3] == "***" {
      assert msg[0] == msg[..3][0] == '*';
    }
  }
}
