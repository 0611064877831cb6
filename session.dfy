/** `GoalRecognizer.check_goals` of run_recognizer.py: one request to the
    recogniser process and the collection of its answer. The process is
    reduced to the lines its standard output will deliver and a trace of
    what is written to its standard input. The script runs under Python 3:
    `readline()` returns `bytes`, `b""` once the stream is exhausted, and
    `str(line)` is the `repr` of the bytes (`b'...'`). */
module Session {
  import opened Common
  import opened Text

  newtype Byte = x: int | 0 <= x < 256

  /** `b"x\n"`, the recogniser's end of answer. */
  const XLine: seq<Byte> := [120, 10]
  /** `b'EOF\n'`. */
  const EofLine: seq<Byte> := [69, 79, 70, 10]
  /** `b"r\r\n"`: ask for the recognition of the current observations. */
  const RecognizeCmd: seq<Byte> := [114, 13, 10]
  /** `b"x\r\n"`. */
  const StopCmd: seq<Byte> := [120, 13, 10]

  function Chr(b: Byte): char { (b as int) as char }

  function HexDigit(n: int): char
    requires 0 <= n < 16
  {
    "0123456789abcdef"[n]
  }

  /** One byte inside the quotes of `repr(bytes)`. */
  function EscapeByte(b: Byte, q: char): string
  {
    var c := Chr(b);
    if c == q || c == '\\' then ['\\', c]
    else if c == '\t' then "\\t"
    else if c == '\n' then "\\n"
    else if c == '\r' then "\\r"
    else if b < 32 || b >= 127 then "\\x" + [HexDigit(b as int / 16), HexDigit(b as int % 16)]
    else [c]
  }

  function Escaped(bs: seq<Byte>, q: char): string
  {
    if bs == [] then "" else EscapeByte(bs[0], q) + Escaped(bs[1..], q)
  }

  /** `repr` uses double quotes when the bytes hold a single quote and no
      double quote. */
  function QuoteOf(bs: seq<Byte>): char
  {
    if 39 in bs && 34 !in bs then '"' else '\''
  }

  /** `str(line)` for a `bytes` value. */
  function BytesRepr(bs: seq<Byte>): string
  {
    var q := QuoteOf(bs);
    "b" + [q] + Escaped(bs, q) + [q]
  }

  /** `str(line).replace('\'', '').replace('\\n', '')`. */
  function ReplyLine(bs: seq<Byte>): (r: string)
    ensures '\'' !in r
  {
    RemoveAll(RemoveChar(BytesRepr(bs), '\''), "\\n")
  }

  /** The text of printable bytes. */
  function Decoded(bs: seq<Byte>): string
  {
    if bs == [] then "" else [Chr(bs[0])] + Decoded(bs[1..])
  }

  predicate Plain(bs: seq<Byte>)
  {
    forall i :: 0 <= i < |bs| ==> 32 <= bs[i] < 127 && bs[i] != 39 && bs[i] != 34 && bs[i] != 92
  }

  lemma {:induction false} EscapedPlain(bs: seq<Byte>)
    requires Plain(bs)
    ensures Escaped(bs, '\'') == Decoded(bs)
    ensures '\'' !in Decoded(bs) && '\\' !in Decoded(bs)
  {
    if bs != [] {
      EscapedPlain(bs[1..]);
    }
  }

  lemma {:induction false} EscapedAppend(a: seq<Byte>, b: seq<Byte>, q: char)
    ensures Escaped(a + b, q) == Escaped(a, q) + Escaped(b, q)
  {
    if a == [] {
      assert a + b == b;
    } else {
      assert (a + b)[1..] == a[1..] + b;
      EscapedAppend(a[1..], b, q);
    }
  }

  lemma PlainRepr(bs: seq<Byte>)
    requires Plain(bs)
    ensures BytesRepr(bs + [10]) == "b'" + Decoded(bs) + "\\n'"
    ensures '\'' !in Decoded(bs) && '\\' !in Decoded(bs)
  {
    EscapedPlain(bs);
    assert Escaped([10], '\'') == "\\n";
    EscapedAppend(bs, [10], '\'');
    assert 39 !in bs + [10] by {
      forall i | 0 <= i < |bs + [10]| ensures (bs + [10])[i] != 39 {
        if i < |bs| {
          assert (bs + [10])[i] == bs[i];
        }
      }
    }
  }

  lemma UnquotePlain(t: string)
    requires '\'' !in t
    ensures RemoveChar("b'" + t + "\\n'", '\'') == "b" + t + "\\n"
  {
    var x := "b'" + t;
    RemoveCharAppend(x, "\\n'", '\'');
    RemoveCharAppend("b'", t, '\'');
    RemoveCharAbsent(t, '\'');
    UnquoteEnds();
  }

  lemma UnquoteEnds()
    ensures RemoveChar("b'", '\'') == "b" && RemoveChar("\\n'", '\'') == "\\n"
  {
    RemoveCharOnce("b", "", '\'');
    assert "b" + "'" + "" == "b'" && "b" + "" == "b";
    RemoveCharOnce("\\n", "", '\'');
    assert "\\n" + "'" + "" == "\\n'" && "\\n" + "" == "\\n";
  }

  /** A plain line of the recogniser, `text\n`, is reported as `b` followed
      by the text. */
  lemma PlainReplyLine(bs: seq<Byte>)
    requires Plain(bs)
    ensures ReplyLine(bs + [10]) == "b" + Decoded(bs)
  {
    var t := Decoded(bs);
    PlainRepr(bs);
    UnquotePlain(t);
    RemoveAllPrefix("b" + t, "\\n", "\\n");
    assert RemoveAll("\\n", "\\n") == "";
  }

  /** What the repr does with an apostrophe: `it's\n` is reported as
      `b"its"`, keeping the double quotes `repr` chose. */
  lemma ApostropheReplyLine(bs: seq<Byte>)
    requires bs == [105, 116, 39, 115, 10]
    ensures ReplyLine(bs) == "b\"its\""
  {
    ApostropheRepr(bs);
    ApostropheClean(BytesRepr(bs));
  }

  lemma ApostropheRepr(bs: seq<Byte>)
    requires bs == [105, 116, 39, 115, 10]
    ensures BytesRepr(bs) == "b\"it" + "'" + "s\\n\""
  {
    assert QuoteOf(bs) == '"';
    assert Escaped(bs[5..], '"') == "";
    assert Escaped(bs[4..], '"') == "\\n";
    assert Escaped(bs[3..], '"') == "s\\n";
    assert Escaped(bs[2..], '"') == "'s\\n";
    assert Escaped(bs[1..], '"') == "t's\\n";
    assert Escaped(bs, '"') == "it's\\n";
  }

  lemma ApostropheClean(r: string)
    requires r == "b\"it" + "'" + "s\\n\""
    ensures RemoveAll(RemoveChar(r, '\''), "\\n") == "b\"its\""
  {
    ApostropheDropped(r);
    ApostropheNewlineDropped("b\"its" + "\\n\"");
  }

  lemma ApostropheDropped(r: string)
    requires r == "b\"it" + "'" + "s\\n\""
    ensures RemoveChar(r, '\'') == "b\"its" + "\\n\""
  {
    RemoveCharOnce("b\"it", "s\\n\"", '\'');
    assert "b\"it" + "s\\n\"" == "b\"its" + "\\n\"";
  }

  lemma ApostropheNewlineDropped(t: string)
    requires t == "b\"its" + "\\n\""
    ensures RemoveAll(t, "\\n") == "b\"its\""
  {
    RemoveAllPrefix("b\"its", "\\n\"", "\\n");
    assert RemoveAll("\\n\"", "\\n") == "\"";
  }

  /** The outcome of one `check_goals` call over the lines the recogniser
      will deliver: the reported lines, how many lines were read, and whether
      `EOF` made the script send a second stop command. */
  datatype Exchange = Exchange(reply: seq<string>, consumed: nat, resync: bool) | Hang

  predicate IsEof(line: seq<Byte>) { line == EofLine }

  predicate IsX(line: seq<Byte>) { line == XLine }

  /** The lines after the first one, read at position `k` with `acc`
      collected so far. */
  function Follow(lines: seq<seq<Byte>>, k: nat, acc: seq<string>): Exchange
    decreases |lines| - k
  {
    if k >= |lines| then Hang
    else if IsEof(lines[k]) then Exchange(acc, k + 1, true)
    else if IsX(lines[k]) then Exchange(acc, k + 1, false)
    else Follow(lines, k + 1, acc + [ReplyLine(lines[k])])
  }

  /** The first line is not checked for `EOF`; when the stream ends before
      a terminator, `readline()` returns `b""` forever and the loop never
      ends. */
  function Listen(lines: seq<seq<Byte>>): Exchange
  {
    if lines == [] then Hang
    else if IsX(lines[0]) then Exchange([], 1, false)
    else Follow(lines, 1, [ReplyLine(lines[0])])
  }

  /** The reply: every line read before the terminating `x` (or `EOF`,
      which is not looked for on the first line), cleaned, in order. The call
      hangs exactly when no terminator comes. */
  lemma {:induction false} FollowHang(lines: seq<seq<Byte>>, k: nat, acc: seq<string>)
    requires 1 <= k <= |lines|
    ensures Follow(lines, k, acc).Hang?
            <==> forall i :: k <= i < |lines| ==> !IsEof(lines[i]) && !IsX(lines[i])
    decreases |lines| - k
  {
    if k < |lines| && !IsEof(lines[k]) && !IsX(lines[k]) {
      FollowHang(lines, k + 1, acc + [ReplyLine(lines[k])]);
    }
  }

  /** Where the scan stops: at the first terminator after position `k`. */
  lemma {:induction false} FollowEnd(lines: seq<seq<Byte>>, k: nat, acc: seq<string>)
    requires 1 <= k <= |lines|
    ensures var e := Follow(lines, k, acc);
            e.Exchange? ==>
              && k < e.consumed <= |lines|
              && (if e.resync then IsEof(lines[e.consumed - 1]) else IsX(lines[e.consumed - 1]))
              && (forall i :: k <= i < e.consumed - 1 ==> !IsEof(lines[i]) && !IsX(lines[i]))
    decreases |lines| - k
  {
    if k < |lines| && !IsEof(lines[k]) && !IsX(lines[k]) {
      FollowEnd(lines, k + 1, acc + [ReplyLine(lines[k])]);
    }
  }

  /** What the scan reports: every line before the terminator, cleaned. */
  lemma {:induction false} FollowReply(lines: seq<seq<Byte>>, k: nat, acc: seq<string>)
    requires 1 <= k <= |lines|
    requires |acc| == k && forall i :: 0 <= i < k ==> acc[i] == ReplyLine(lines[i])
    ensures var e := Follow(lines, k, acc);
            e.Exchange? ==>
              && e.consumed <= |lines|
              && |e.reply| == e.consumed - 1
              && (forall i :: 0 <= i < e.consumed - 1 ==> e.reply[i] == ReplyLine(lines[i]))
    decreases |lines| - k
  {
    if k < |lines| && !IsEof(lines[k]) && !IsX(lines[k]) {
      ExtendReplies(lines, k, acc);
      FollowReply(lines, k + 1, acc + [ReplyLine(lines[k])]);
    }
  }

  lemma ExtendReplies(lines: seq<seq<Byte>>, k: nat, acc: seq<string>)
    requires k < |lines|
    requires |acc| == k && forall i :: 0 <= i < k ==> acc[i] == ReplyLine(lines[i])
    ensures var a := acc + [ReplyLine(lines[k])];
            |a| == k + 1 && forall i :: 0 <= i < k + 1 ==> a[i] == ReplyLine(lines[i])
  {
  }

  lemma ListenSpec(lines: seq<seq<Byte>>)
    ensures Listen(lines).Hang?
            <==> (forall i :: 0 <= i < |lines| ==> !IsX(lines[i]))
                 && (forall i :: 1 <= i < |lines| ==> !IsEof(lines[i]))
    ensures var e := Listen(lines);
            e.Exchange? ==>
              && 1 <= e.consumed <= |lines|
              && |e.reply| == e.consumed - 1
              && (forall i :: 0 <= i < e.consumed - 1 ==> e.reply[i] == ReplyLine(lines[i]))
              && (if e.resync then IsEof(lines[e.consumed - 1]) else IsX(lines[e.consumed - 1]))
              && (e.resync ==> e.consumed >= 2)
              && (forall i :: 0 <= i < e.consumed - 1 ==> !IsX(lines[i]))
              && (forall i :: 1 <= i < e.consumed - 1 ==> !IsEof(lines[i]))
  {
    if lines != [] && !IsX(lines[0]) {
      FollowHang(lines, 1, [ReplyLine(lines[0])]);
      FollowEnd(lines, 1, [ReplyLine(lines[0])]);
      FollowReply(lines, 1, [ReplyLine(lines[0])]);
    }
  }

  datatype PipeEvent = Write(data: seq<Byte>) | Flush

  /** What every call writes before its first read. */
  const Request: seq<PipeEvent> := [Write(RecognizeCmd), Write(StopCmd), Flush]
  /** What an `EOF` line adds. */
  const Resync: seq<PipeEvent> := [Write(StopCmd), Flush]

  datatype Reply = Answered(lines: seq<string>) | Diverges

  /** The recogniser process: `trace` is what was written to its standard
      input, `pending` what its standard output has still to deliver. */
  class GoalRecognizer {
    var pending: seq<seq<Byte>>
    var trace: seq<PipeEvent>

    constructor (responses: seq<seq<Byte>>)
      ensures pending == responses && trace == []
    {
      pending := responses;
      trace := [];
    }

    /** `self.recognizer.stdout.readline()` on a stream that has a line. */
    method ReadLine() returns (line: seq<Byte>)
      requires pending != []
      modifies this
      ensures line == old(pending)[0] && pending == old(pending)[1..] && trace == old(trace)
    {
      line := pending[0];
      pending := pending[1..];
    }

    /** `check_goals()`. */
    method CheckGoals() returns (reply: Reply)
      modifies this
      ensures Listen(old(pending)).Hang? ==> reply == Diverges && pending == [] && trace == old(trace) + Request
      ensures Listen(old(pending)).Exchange? ==>
                var e := Listen(old(pending));
                e.consumed <= |old(pending)| && reply == Answered(e.reply) && pending == old(pending)[e.consumed..]
                && trace == old(trace) + Request + (if e.resync then Resync else [])
    {
      trace := trace + [Write(RecognizeCmd)];
      trace := trace + [Write(StopCmd)];
      trace := trace + [Flush];
      ghost var input := pending;
      ghost var before := trace;
      assert before == old(trace) + Request;
      if pending == [] {
        return Diverges;
      }
      var line := ReadLine();
      ghost var k := 1;
      var sp: seq<string> := [];
      assert sp + [ReplyLine(line)] == [ReplyLine(line)];
      while !IsX(line)
        invariant 1 <= k <= |input| && pending == input[k..] && line == input[k - 1]
        invariant trace == before
        invariant !IsX(line) ==> Listen(input) == Follow(input, k, sp + [ReplyLine(line)])
        invariant IsX(line) ==> Listen(input) == Exchange(sp, k, false)
        decreases |input| - k
      {
        sp := sp + [ReplyLine(line)];
        if pending == [] {
          return Diverges;
        }
        assert input[k..][1..] == input[k + 1..];
        line := ReadLine();
        k := k + 1;
        if IsEof(line) {
          trace := trace + [Write(StopCmd)];
          trace := trace + [Flush];
          assert trace == before + Resync;
          return Answered(sp);
        }
      }
      reply := Answered(sp);
    }
  }
}
