/**
 The Content-Length framing below the session (LSP 3.17, "Base Protocol", "Header Part"):
 writeMessage prints a frame, readLSPMessage parses one off a byte stream, and the proxy's
 reader prints the frame again with a canonical header. A char stands for a byte. The largest
 number of bytes the Go runtime allocates at once, `largest`, is a parameter.
 */
module Framing {
  import opened Wrappers
  import opened Decimal
  import opened Text

  /** Unallocatable: make([]byte, n) panics, which crashes the process. */
  datatype ReadError = EndOfStream | InvalidLength | MissingLength | Unallocatable
  datatype ReadResult = Frame(body: string) | Failed(error: ReadError)

  const LENGTH_PREFIX := "Content-Length:"

  // ----- text helpers of the reader

  /** The length of the first line without its newline, or |s| when no newline follows. */
  function LineLength(s: string): (n: nat)
    ensures n <= |s|
    ensures forall i :: 0 <= i < n ==> s[i] != '\n'
    ensures n < |s| ==> s[n] == '\n'
  {
    if s == "" || s[0] == '\n' then 0 else 1 + LineLength(s[1..])
  }

  // ----- printing

  function Header(length: nat): string {
    "Content-Length: " + Digits(length) + "\r\n\r\n"
  }

  function Encode(body: string): string {
    Header(|body|) + body
  }

  function EncodeAll(bodies: seq<string>): string {
    if bodies == [] then "" else Encode(bodies[0]) + EncodeAll(bodies[1..])
  }

  // ----- parsing

  datatype HeaderResult = HeaderPart(length: int, rest: string) | HeaderFailed(error: ReadError, rest: string)

  function ReadHeaders(s: string, length: int): (r: HeaderResult)
    ensures |r.rest| <= |s|
  {
    var n := LineLength(s);
    if n == |s| then HeaderFailed(EndOfStream, "")
    else
      var line, rest := TrimSpace(s[..n + 1]), s[n + 1..];
      if line == "" then HeaderPart(length, rest)
      else if LENGTH_PREFIX <= line then
        match ParseInt64(TrimSpace(line[|LENGTH_PREFIX|..]))
        case None => HeaderFailed(InvalidLength, rest)
        case Some(v) => ReadHeaders(rest, v)
      else ReadHeaders(rest, length)
  }

  /** One frame and the bytes behind it. */
  function ReadFrame(s: string, largest: nat): (r: (ReadResult, string))
    ensures r.0.Frame? ==> |r.1| < |s|
  {
    match ReadHeaders(s, 0)
    case HeaderFailed(e, rest) => (Failed(e), rest)
    case HeaderPart(length, rest) =>
      if length == 0 then (Failed(MissingLength), rest)
      else if length < 0 || length > largest then (Failed(Unallocatable), rest)
      else if |rest| < length then (Failed(EndOfStream), "")
      else (Frame(rest[..length]), rest[length..])
  }

  /** The bodies up to the first error, as the read loop of the session manager delivers them. */
  function ReadAll(s: string, largest: nat): (seq<string>, ReadError)
    decreases |s|
  {
    var (r, rest) := ReadFrame(s, largest);
    match r
    case Failed(e) => ([], e)
    case Frame(body) => var (bodies, e) := ReadAll(rest, largest); ([body] + bodies, e)
  }

  /** A buffered reader over a connection. */
  class ByteReader {
    var rest: string

    constructor (bytes: string)
      ensures rest == bytes
    {
      rest := bytes;
    }

    method ReadString() returns (line: Option<string>)
      modifies this
      ensures var n := LineLength(old(rest));
              if n == |old(rest)| then line == None && rest == ""
              else line == Some(old(rest)[..n + 1]) && rest == old(rest)[n + 1..]
    {
      var n := LineLength(rest);
      if n == |rest| {
        rest := "";
        return None;
      }
      line := Some(rest[..n + 1]);
      rest := rest[n + 1..];
    }

    method ReadLSPMessage(largest: nat) returns (r: ReadResult)
      modifies this
      ensures (r, rest) == ReadFrame(old(rest), largest)
    {
      var contentLength := 0;
      while true
        invariant ReadHeaders(old(rest), 0) == ReadHeaders(rest, contentLength)
        decreases |rest|
      {
        var line := ReadString();
        if line == None {
          return Failed(EndOfStream);
        }
        var text := TrimSpace(line.value);
        if text == "" {
          break;
        }
        if LENGTH_PREFIX <= text {
          match ParseInt64(TrimSpace(text[|LENGTH_PREFIX|..])) {
            case None => return Failed(InvalidLength);
            case Some(v) => contentLength := v;
          }
        }
      }
      if contentLength == 0 {
        return Failed(MissingLength);
      }
      if contentLength < 0 || contentLength > largest {
        return Failed(Unallocatable);
      }
      if |rest| < contentLength {
        rest := "";
        return Failed(EndOfStream);
      }
      r := Frame(rest[..contentLength]);
      rest := rest[contentLength..];
    }

    /** The proxy's reader returns the whole message, with the header rebuilt, in memory allocated once more. */
    method ReadProxyMessage(largest: nat) returns (r: ReadResult)
      modifies this
      ensures (r, rest) == Reframe(old(rest), largest)
    {
      r := ReadLSPMessage(largest);
      if r.Frame? {
        var message := Header(|r.body|) + r.body;
        r := if |message| <= largest then Frame(message) else Failed(Unallocatable);
      }
    }
  }

  function Reframe(s: string, largest: nat): (ReadResult, string) {
    var (r, rest) := ReadFrame(s, largest);
    if r.Frame? then (if |Encode(r.body)| <= largest then Frame(Encode(r.body)) else Failed(Unallocatable), rest)
    else (r, rest)
  }

  // ----- lines of the header

  lemma {:induction false} FirstLine(line: string, rest: string)
    requires '\n' !in line
    ensures LineLength(line + "\n" + rest) == |line|
    ensures (line + "\n" + rest)[..|line| + 1] == line + "\n"
    ensures (line + "\n" + rest)[|line| + 1..] == rest
  {
    if line != "" {
      FirstLine(line[1..], rest);
      assert (line + "\n" + rest)[1..] == line[1..] + "\n" + rest;
    }
  }

  lemma TrimLine(text: string, end: string)
    requires text != "" && !IsSpace(text[0]) && !IsSpace(text[|text| - 1])
    requires forall i :: 0 <= i < |end| ==> IsSpace(end[i])
    ensures TrimSpace(text + end) == text
    ensures TrimSpace(" " + text) == text
  {
    TrimTail(text, end);
    assert (text + end)[0] == text[0];
    assert (" " + text)[1..] == text;
    assert TrimLeft(" " + text) == TrimLeft(text) == text;
  }

  lemma {:induction false} TrimTail(text: string, end: string)
    requires text != "" && !IsSpace(text[|text| - 1])
    requires forall i :: 0 <= i < |end| ==> IsSpace(end[i])
    ensures TrimRight(text + end) == text
  {
    if end == "" {
      assert text + end == text;
    } else {
      var init := end[..|end| - 1];
      assert (text + end)[..|text + end| - 1] == text + init;
      TrimTail(text, init);
    }
  }

  /** A header line other than Content-Length is skipped. */
  lemma SkipsHeader(line: string, rest: string, length: int)
    requires '\n' !in line
    requires TrimSpace(line + "\n") != "" && !(LENGTH_PREFIX <= TrimSpace(line + "\n"))
    ensures ReadHeaders(line + "\n" + rest, length) == ReadHeaders(rest, length)
  {
    FirstLine(line, rest);
  }

  lemma ReadsLength(v: int, rest: string, length: int)
    requires IsInt64(v)
    ensures ReadHeaders("Content-Length: " + Printed(v) + "\r" + "\n" + rest, length) == ReadHeaders(rest, v)
  {
    var number := Printed(v);
    var text := "Content-Length: " + number;
    PrintedCharacters(v);
    LengthLine(number, text);
    FirstLine(text + "\r", rest);
    ParsesPrinted(v);
  }

  lemma LengthLine(number: string, text: string)
    requires number != "" && forall i :: 0 <= i < |number| ==> IsDigit(number[i]) || number[i] == '-'
    requires text == "Content-Length: " + number
    ensures '\n' !in text + "\r" && LENGTH_PREFIX <= text
    ensures TrimSpace(text + "\r" + "\n") == text && TrimSpace(text[|LENGTH_PREFIX|..]) == number
  {
    assert text[|text| - 1] == number[|number| - 1] && text[0] == 'C';
    TrimLine(text, "\r\n");
    assert text + "\r" + "\n" == text + "\r\n";
    assert text[|LENGTH_PREFIX|..] == " " + number;
    TrimLine(number, "");
  }

  lemma ReadsBlank(rest: string, length: int)
    ensures ReadHeaders("\r" + "\n" + rest, length) == HeaderPart(length, rest)
  {
    FirstLine("\r", rest);
    assert ("\r" + "\n")[1..] == "\n" && "\n"[1..] == "";
    assert TrimLeft("\r" + "\n") == TrimLeft("\n") == "";
  }

  function HeaderLines(lines: seq<string>): string {
    if lines == [] then "" else lines[0] + "\n" + HeaderLines(lines[1..])
  }

  predicate OtherHeaders(lines: seq<string>) {
    forall l :: l in lines ==>
      '\n' !in l && TrimSpace(l + "\n") != "" && !(LENGTH_PREFIX <= TrimSpace(l + "\n"))
  }

  lemma {:induction false} SkipsHeaders(lines: seq<string>, rest: string, length: int)
    requires OtherHeaders(lines)
    ensures ReadHeaders(HeaderLines(lines) + rest, length) == ReadHeaders(rest, length)
  {
    if lines == [] {
      assert HeaderLines(lines) + rest == rest;
    } else {
      assert lines[0] in lines;
      assert HeaderLines(lines) + rest == lines[0] + "\n" + (HeaderLines(lines[1..]) + rest);
      SkipsHeader(lines[0], HeaderLines(lines[1..]) + rest, length);
      SkipsHeaders(lines[1..], rest, length);
    }
  }

  /**
   What is read behind any header lines with a printed 64-bit length among them: the body exactly when
   the length is positive, can be allocated and the bytes are there, whatever they contain, and the reader
   then stops at the byte behind them. The code crashes exactly on a length that cannot be allocated,
   whether or not so many bytes follow.
   */
  lemma ReadsFrameWithHeaders(before: seq<string>, length: int, after: seq<string>, data: string, largest: nat)
    requires OtherHeaders(before) && OtherHeaders(after) && IsInt64(length)
    ensures var message := HeaderLines(before) + ("Content-Length: " + Printed(length) + "\r" + "\n" +
                                                  (HeaderLines(after) + ("\r" + "\n" + data)));
      var r := ReadFrame(message, largest);
      && (0 < length <= |data| && length <= largest ==> r == (Frame(data[..length]), data[length..]))
      && (|data| < length <= largest ==> r == (Failed(EndOfStream), ""))
      && (length == 0 ==> r == (Failed(MissingLength), data))
      && (length < 0 || length > largest ==> r == (Failed(Unallocatable), data))
  {
    var tail := "\r" + "\n" + data;
    SkipsHeaders(before, "Content-Length: " + Printed(length) + "\r" + "\n" + (HeaderLines(after) + tail), 0);
    ReadsLength(length, HeaderLines(after) + tail, 0);
    SkipsHeaders(after, tail, length);
    ReadsBlank(data, length);
  }

  /** Over all bytes: the readers crash exactly when the header part ends with a length that cannot be allocated. */
  lemma CrashesExactly(s: string, largest: nat)
    ensures ReadFrame(s, largest).0 == Failed(Unallocatable)
       <==> ReadHeaders(s, 0).HeaderPart? && !(0 <= ReadHeaders(s, 0).length <= largest)
  {
    HeaderErrors(s, 0);
  }

  lemma {:induction false} HeaderErrors(s: string, length: int)
    ensures var r := ReadHeaders(s, length);
      r.HeaderFailed? ==> r.error in {EndOfStream, InvalidLength}
    decreases |s|
  {
    var n := LineLength(s);
    if n < |s| {
      var line, rest := TrimSpace(s[..n + 1]), s[n + 1..];
      if line != "" && LENGTH_PREFIX <= line {
        match ParseInt64(TrimSpace(line[|LENGTH_PREFIX|..])) {
          case None =>
          case Some(v) => HeaderErrors(rest, v);
        }
      } else if line != "" {
        HeaderErrors(rest, length);
      }
    }
  }

  /** An input on which the readers crash. */
  lemma NegativeLengthInput(largest: nat)
    ensures ReadFrame("Content-Length: -1\r\n\r\n", largest) == (Failed(Unallocatable), "")
  {
    assert Printed(-1) == "-1";
    LengthAlone(-1, "-1", largest);
    assert "Content-Length: " + "-1" + "\r" + "\n" + "\r" + "\n" == "Content-Length: -1\r\n\r\n";
  }

  /** Another: a header with no more bytes behind it, for every length too large, up to 9223372036854775807. */
  lemma HugeLengthInput(length: nat, largest: nat)
    requires largest < length <= INT64_MAX
    ensures ReadFrame(Header(length), largest) == (Failed(Unallocatable), "")
  {
    LengthAlone(length, Digits(length), largest);
    assert "Content-Length: " + Digits(length) + "\r" + "\n" + "\r" + "\n" == Header(length);
  }

  lemma LengthAlone(length: int, printed: string, largest: nat)
    requires IsInt64(length) && printed == Printed(length) && !(0 <= length <= largest)
    ensures ReadFrame("Content-Length: " + printed + "\r" + "\n" + "\r" + "\n", largest)
         == (Failed(Unallocatable), "")
  {
    var tail := "\r" + "\n" + "";
    ReadsLength(length, tail, 0);
    ReadsBlank("", length);
    assert "Content-Length: " + printed + "\r" + "\n" + tail
        == "Content-Length: " + printed + "\r" + "\n" + "\r" + "\n";
  }

  lemma FrameBehindHeaders(s: string, body: string, rest: string, largest: nat)
    requires ReadHeaders(s, 0) == HeaderPart(|body|, body + rest) && |body| <= largest
    ensures ReadFrame(s, largest) == if body == "" then (Failed(MissingLength), rest) else (Frame(body), rest)
  {
    assert (body + rest)[..|body|] == body && (body + rest)[|body|..] == rest;
    assert body == "" ==> body + rest == rest;
  }

  lemma {:induction false} EncodedLines(body: string, rest: string)
    ensures Encode(body) + rest
         == "Content-Length: " + Digits(|body|) + "\r" + "\n" + ("\r" + "\n" + (body + rest))
  {
    var digits := Digits(|body|);
    assert "\r\n\r\n" == "\r" + "\n" + "\r" + "\n";
  }

  /** Reading undoes writing exactly for the bodies that are not empty and not too large to allocate. */
  lemma ReadsEncoded(body: string, rest: string, largest: nat)
    requires |body| <= INT64_MAX
    ensures 0 < |body| <= largest ==> ReadFrame(Encode(body) + rest, largest) == (Frame(body), rest)
    ensures body == "" ==> ReadFrame(Encode(body) + rest, largest) == (Failed(MissingLength), rest)
    ensures |body| > largest ==> ReadFrame(Encode(body) + rest, largest) == (Failed(Unallocatable), body + rest)
  {
    var tail := "\r" + "\n" + (body + rest);
    var message := Encode(body) + rest;
    EncodedLines(body, rest);
    ReadsLength(|body|, tail, 0);
    ReadsBlank(body + rest, |body|);
    if |body| <= largest {
      FrameBehindHeaders(message, body, rest, largest);
    }
  }

  predicate Sendable(bodies: seq<string>, largest: nat) {
    forall b :: b in bodies ==> 0 < |b| <= INT64_MAX && |b| <= largest
  }

  /** One frame of a stream, then what stands behind it. */
  lemma ReadsOneMore(body: string, bodies: seq<string>, rest: string, largest: nat)
    requires 0 < |body| <= INT64_MAX && |body| <= largest
    requires ReadAll(rest, largest) == (bodies, EndOfStream)
    ensures ReadAll(Encode(body) + rest, largest) == ([body] + bodies, EndOfStream)
  {
    ReadsEncoded(body, rest, largest);
  }

  /** A stream of frames is read back as exactly the bodies that were written, with nothing left over. */
  lemma {:induction false} ReadsAllEncoded(bodies: seq<string>, largest: nat)
    requires Sendable(bodies, largest)
    ensures ReadAll(EncodeAll(bodies), largest) == (bodies, EndOfStream)
  {
    if bodies == [] {
      assert ReadFrame("", largest) == (Failed(EndOfStream), "");
    } else {
      assert bodies[0] in bodies;
      ReadsAllEncoded(bodies[1..], largest);
      ReadsOneMore(bodies[0], bodies[1..], EncodeAll(bodies[1..]), largest);
      assert [bodies[0]] + bodies[1..] == bodies;
    }
  }

  /** What the proxy emits is a fixed point of the proxy's reader, and the session reads the same body off it. */
  lemma ReframeIdempotent(s: string, rest: string, largest: nat)
    requires Reframe(s, largest).0.Frame? && |s| <= INT64_MAX
    ensures Reframe(Reframe(s, largest).0.body + rest, largest) == (Reframe(s, largest).0, rest)
    ensures ReadFrame(Reframe(s, largest).0.body + rest, largest) == (ReadFrame(s, largest).0, rest)
  {
    ReadsEncoded(ReadFrame(s, largest).0.body, rest, largest);
  }

  lemma {:induction false} EncodeAllAppend(bodies: seq<string>, body: string)
    ensures EncodeAll(bodies + [body]) == EncodeAll(bodies) + Encode(body)
  {
    if bodies == [] {
      assert bodies + [body] == [body];
      assert [body][1..] == [];
    } else {
      assert (bodies + [body])[1..] == bodies[1..] + [body];
      EncodeAllAppend(bodies[1..], body);
    }
  }

  // ----- concurrent writers: header and body are two writes under one lock

  datatype Stage = Locked | HeaderWritten | BodyWritten
  datatype Holder = Free | Held(writer: nat, stage: Stage)
  datatype Writers = Writers(todo: map<nat, seq<string>>, holder: Holder, stream: string, sent: seq<(nat, string)>)

  ghost predicate WriterStep(s: Writers, t: Writers, w: nat) {
    && w in s.todo && s.todo[w] != []
    && var body := s.todo[w][0];
    || (s.holder == Free && t == s.(holder := Held(w, Locked)))
    || (s.holder == Held(w, Locked) && t == s.(holder := Held(w, HeaderWritten), stream := s.stream + Header(|body|)))
    || (s.holder == Held(w, HeaderWritten) && t == s.(holder := Held(w, BodyWritten), stream := s.stream + body))
    || (s.holder == Held(w, BodyWritten)
        && t == s.(holder := Free, todo := s.todo[w := s.todo[w][1..]], sent := s.sent + [(w, body)]))
  }

  function Bodies(sent: seq<(nat, string)>): seq<string> {
    if sent == [] then [] else Bodies(sent[..|sent| - 1]) + [sent[|sent| - 1].1]
  }

  /** What one writer has sent, in order. */
  function SentBy(sent: seq<(nat, string)>, w: nat): seq<string> {
    if sent == [] then []
    else SentBy(sent[..|sent| - 1], w) + if sent[|sent| - 1].0 == w then [sent[|sent| - 1].1] else []
  }

  /** What the lock holder has written of its current body. */
  function Unfinished(s: Writers): string {
    match s.holder
    case Free => ""
    case Held(w, stage) =>
      if w !in s.todo || s.todo[w] == [] || stage == Locked then ""
      else if stage == HeaderWritten then Header(|s.todo[w][0]|)
      else Encode(s.todo[w][0])
  }

  ghost predicate StreamOk(s: Writers) {
    && s.stream == EncodeAll(Bodies(s.sent)) + Unfinished(s)
    && (s.holder.Held? ==> s.holder.writer in s.todo && s.todo[s.holder.writer] != [])
  }

  ghost predicate PlanOk(plan: map<nat, seq<string>>, s: Writers) {
    && plan.Keys == s.todo.Keys
    && (forall w :: w in plan ==> SentBy(s.sent, w) + s.todo[w] == plan[w])
    && (forall p :: p in s.sent ==> p.0 in plan)
  }

  lemma HeaderThenBody(done: string, body: string)
    ensures done + Header(|body|) + body == done + Encode(body)
  {
  }

  /** The lock is given up: what was unfinished has become a whole frame. */
  lemma UnlockKeepsStream(s: Writers, t: Writers, w: nat)
    requires StreamOk(s) && WriterStep(s, t, w) && s.holder == Held(w, BodyWritten)
    ensures StreamOk(t)
  {
    var body := s.todo[w][0];
    assert t.sent == s.sent + [(w, body)] && Unfinished(t) == "";
    SentAppend(s.sent, w, body, w);
    EncodeAllAppend(Bodies(s.sent), body);
  }

  lemma StreamStaysOk(s: Writers, t: Writers, w: nat)
    requires StreamOk(s) && WriterStep(s, t, w)
    ensures StreamOk(t)
  {
    if s.holder == Held(w, BodyWritten) {
      UnlockKeepsStream(s, t, w);
    } else if s.holder == Held(w, HeaderWritten) {
      HeaderThenBody(EncodeAll(Bodies(s.sent)), s.todo[w][0]);
    }
  }

  lemma PlanStaysOk(plan: map<nat, seq<string>>, s: Writers, t: Writers, w: nat)
    requires PlanOk(plan, s) && WriterStep(s, t, w)
    ensures PlanOk(plan, t)
  {
    if s.holder == Held(w, BodyWritten) {
      forall v | v in plan
        ensures SentBy(t.sent, v) + t.todo[v] == plan[v]
      {
        SentAppend(s.sent, w, s.todo[w][0], v);
        if v == w {
          SentMoves(SentBy(s.sent, w), s.todo[w]);
        }
      }
    }
  }

  lemma SentAppend(sent: seq<(nat, string)>, w: nat, body: string, v: nat)
    ensures SentBy(sent + [(w, body)], v) == SentBy(sent, v) + if v == w then [body] else []
    ensures Bodies(sent + [(w, body)]) == Bodies(sent) + [body]
  {
    assert (sent + [(w, body)])[..|sent|] == sent;
  }

  lemma SentMoves(sent: seq<string>, todo: seq<string>)
    requires todo != []
    ensures (sent + [todo[0]]) + todo[1..] == sent + todo
  {
  }

  ghost predicate WritersRun(plan: map<nat, seq<string>>, run: seq<Writers>, schedule: seq<nat>) {
    && |run| == |schedule| + 1
    && run[0] == Writers(plan, Free, "", [])
    && forall i :: 0 <= i < |schedule| ==> WriterStep(run[i], run[i + 1], schedule[i])
  }

  lemma {:induction false} WritersRunKeeps(plan: map<nat, seq<string>>, run: seq<Writers>, schedule: seq<nat>, n: nat)
    requires WritersRun(plan, run, schedule) && n < |run|
    ensures StreamOk(run[n]) && PlanOk(plan, run[n])
  {
    if n > 0 {
      WritersRunKeeps(plan, run, schedule, n - 1);
      StreamStaysOk(run[n - 1], run[n], schedule[n - 1]);
      PlanStaysOk(plan, run[n - 1], run[n], schedule[n - 1]);
    }
  }

  /** As long as somebody has something to send, somebody can write. */
  lemma WritersNeverStuck(s: Writers)
    requires StreamOk(s) && exists w :: w in s.todo && s.todo[w] != []
    ensures exists t, w :: WriterStep(s, t, w)
  {
    match s.holder {
      case Free =>
        var w :| w in s.todo && s.todo[w] != [];
        assert WriterStep(s, s.(holder := Held(w, Locked)), w);
      case Held(w, stage) =>
        var body := s.todo[w][0];
        var t := match stage
                 case Locked => s.(holder := Held(w, HeaderWritten), stream := s.stream + Header(|body|))
                 case HeaderWritten => s.(holder := Held(w, BodyWritten), stream := s.stream + body)
                 case BodyWritten =>
                   s.(holder := Free, todo := s.todo[w := s.todo[w][1..]], sent := s.sent + [(w, body)]);
        assert WriterStep(s, t, w);
    }
  }

  lemma FreeStream(s: Writers)
    requires StreamOk(s) && s.holder == Free
    ensures s.stream == EncodeAll(Bodies(s.sent))
  {
  }

  /**
   Under every interleaving of the writers, whenever the lock is free the server reads whole
   bodies, in the order in which the lock was taken, each writer's bodies in its own order.
   */
  lemma ConcurrentWritersReadBack(plan: map<nat, seq<string>>, run: seq<Writers>, schedule: seq<nat>, n: nat,
                                  largest: nat)
    requires WritersRun(plan, run, schedule) && n < |run| && run[n].holder == Free
    requires forall w :: w in plan ==> Sendable(plan[w], largest)
    ensures ReadAll(run[n].stream, largest) == (Bodies(run[n].sent), EndOfStream)
    ensures forall w :: w in plan ==> SentBy(run[n].sent, w) <= plan[w]
  {
    WritersRunKeeps(plan, run, schedule, n);
    BodiesByWriter(plan, run[n], largest);
    ReadsAllEncoded(Bodies(run[n].sent), largest);
    FreeStream(run[n]);
  }

  lemma {:induction false} BodiesByWriter(plan: map<nat, seq<string>>, s: Writers, largest: nat)
    requires forall w :: w in plan ==> SentBy(s.sent, w) <= plan[w] && Sendable(plan[w], largest)
    requires forall p :: p in s.sent ==> p.0 in plan
    ensures Sendable(Bodies(s.sent), largest)
    decreases |s.sent|
  {
    if s.sent != [] {
      var init, last := s.sent[..|s.sent| - 1], s.sent[|s.sent| - 1];
      assert last in s.sent;
      forall w | w in plan
        ensures SentBy(init, w) <= plan[w]
      {
        assert SentBy(init, w) <= SentBy(s.sent, w);
      }
      BodiesByWriter(plan, s.(sent := init), largest);
      assert last.1 in SentBy(s.sent, last.0);
      assert last.1 in plan[last.0];
    }
  }
}
