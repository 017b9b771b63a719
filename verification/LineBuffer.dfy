/** Reassembly of newline-terminated lines from a pipe read in arbitrary chunks
    (scripts/adapters/pi_rpc_adapter.py, _RpcClient._pop_line and _read_one).

    What becomes of a whole line afterwards (decoding, stripping, JSON) is not part of this model. */
module LineBuffer {
  import opened Wrappers
  import opened PacketCap

  const NEWLINE: Byte := 10

  /** bytes.find: the first occurrence, or -1. */
  function Find<T(==)>(s: seq<T>, x: T): (i: int)
    ensures -1 <= i < |s|
    ensures i >= 0 ==> s[i] == x && x !in s[..i]
    ensures i < 0 ==> x !in s
  {
    if s == [] then -1
    else if s[0] == x then 0
    else
      var i := Find(s[1..], x);
      assert i >= 0 ==> s[..i + 1] == [s[0]] + s[1..][..i];
      if i < 0 then -1 else i + 1
  }

  /** The segments of a stream that end with the separator, without it. */
  function Lines<T(==)>(s: seq<T>, sep: T): seq<seq<T>>
    decreases |s|
  {
    var i := Find(s, sep);
    if i < 0 then [] else [s[..i]] + Lines(s[i + 1..], sep)
  }

  /** What follows the last separator. */
  function Tail<T(==)>(s: seq<T>, sep: T): seq<T>
    decreases |s|
  {
    var i := Find(s, sep);
    if i < 0 then s else Tail(s[i + 1..], sep)
  }

  function Joined<T>(lines: seq<seq<T>>, sep: T): seq<T> {
    if lines == [] then [] else lines[0] + [sep] + Joined(lines[1..], sep)
  }

  predicate Unbroken<T(==)>(lines: seq<seq<T>>, sep: T) {
    forall i :: 0 <= i < |lines| ==> sep !in lines[i]
  }

  lemma Reassociate<T>(a: seq<T>, b: seq<T>, c: seq<T>)
    ensures a + b + c == a + (b + c)
  {
  }

  lemma JoinedCons<T>(first: seq<T>, more: seq<seq<T>>, sep: T)
    ensures Joined([first] + more, sep) == first + [sep] + Joined(more, sep)
  {
    assert ([first] + more)[1..] == more;
  }

  /** Cutting loses nothing. */
  lemma {:induction false} LinesRejoin<T>(s: seq<T>, sep: T)
    ensures Joined(Lines(s, sep), sep) + Tail(s, sep) == s
    decreases |s|
  {
    var i := Find(s, sep);
    if i < 0 {
      assert Lines(s, sep) == [] && Tail(s, sep) == s;
    } else {
      var first, rest := s[..i], s[i + 1..];
      assert s == first + [sep] + rest;
      var more, last := Lines(rest, sep), Tail(rest, sep);
      assert Lines(s, sep) == [first] + more && Tail(s, sep) == last;
      hide Lines, Tail, Find, Joined;
      LinesRejoin(rest, sep);
      JoinedCons(first, more, sep);
      Reassociate(first + [sep], Joined(more, sep), last);
    }
  }

  /** No line and no rest holds a separator. */
  lemma {:induction false} LinesAreUnbroken<T>(s: seq<T>, sep: T)
    ensures Unbroken(Lines(s, sep), sep) && sep !in Tail(s, sep)
    decreases |s|
  {
    var i := Find(s, sep);
    if i < 0 {
      assert Lines(s, sep) == [] && Tail(s, sep) == s;
    } else {
      var first, rest := s[..i], s[i + 1..];
      var more := Lines(rest, sep);
      assert Lines(s, sep) == [first] + more && Tail(s, sep) == Tail(rest, sep);
      assert sep !in first;
      hide Lines, Tail, Find;
      LinesAreUnbroken(rest, sep);
    }
  }

  lemma {:induction false} FindIs<T>(a: seq<T>, sep: T, b: seq<T>)
    requires sep !in a
    ensures Find(a + [sep] + b, sep) == |a|
  {
    var s := a + [sep] + b;
    if a == [] {
      assert s[0] == sep;
    } else {
      FindIs(a[1..], sep, b);
      assert s[1..] == a[1..] + [sep] + b;
      assert s[0] == a[0] && a[0] in a;
    }
  }

  /** There is only one way to cut a stream into unbroken lines and an unbroken rest. */
  lemma {:induction false} OnlyOneCut<T>(lines: seq<seq<T>>, rest: seq<T>, sep: T)
    requires Unbroken(lines, sep) && sep !in rest
    ensures Lines(Joined(lines, sep) + rest, sep) == lines && Tail(Joined(lines, sep) + rest, sep) == rest
    decreases |lines|
  {
    if lines == [] {
      assert Joined(lines, sep) + rest == rest;
    } else {
      var first := lines[0];
      var more := Joined(lines[1..], sep) + rest;
      OnlyOneCut(lines[1..], rest, sep);
      assert Joined(lines, sep) == first + [sep] + Joined(lines[1..], sep);
      Reassociate(first + [sep], Joined(lines[1..], sep), rest);
      hide Joined;
      FindIs(first, sep, more);
      var s := first + [sep] + more;
      assert s[..|first|] == first && s[|first| + 1..] == more;
      assert Lines(s, sep) == [first] + Lines(more, sep) && Tail(s, sep) == Tail(more, sep);
      hide Lines, Tail, Find;
    }
  }

  lemma {:induction false} JoinedConcat<T>(a: seq<seq<T>>, b: seq<seq<T>>, sep: T)
    ensures Joined(a + b, sep) == Joined(a, sep) + Joined(b, sep)
  {
    if a == [] {
      assert a + b == b;
    } else {
      JoinedConcat(a[1..], b, sep);
      assert (a + b)[1..] == a[1..] + b;
    }
  }

  // ---------------------------------------------------------------- the buffer

  function Pop(buf: seq<Byte>): (Option<seq<Byte>>, seq<Byte>) {
    var i := Find(buf, NEWLINE);
    if i < 0 then (None, buf) else (Some(buf[..i]), buf[i + 1..])
  }

  /** What one read does: the line it returns, the new buffer, and the bytes it took from the pipe. `ready` is
      what the pipe holds for it: nothing within the timeout, or a chunk, empty at end of file. */
  function Read(buf: seq<Byte>, ready: Option<seq<Byte>>): (Option<seq<Byte>>, seq<Byte>, seq<Byte>) {
    var (line, rest) := Pop(buf);
    if line.Some? then (line, rest, [])
    else if ready.None? || ready.value == [] then (None, buf, [])
    else
      var (line, rest) := Pop(buf + ready.value);
      (line, rest, ready.value)
  }

  class RpcClient {
    var buf: seq<Byte>

    constructor ()
      ensures buf == []
    {
      buf := [];
    }

    method PopLine() returns (line: Option<seq<Byte>>)
      modifies this
      ensures (line, buf) == Pop(old(buf))
    {
      var i := Find(buf, NEWLINE);
      if i < 0 {
        return None;
      }
      line := Some(buf[..i]);
      buf := buf[i + 1..];
    }

    method ReadOne(ready: Option<seq<Byte>>) returns (line: Option<seq<Byte>>, ghost taken: seq<Byte>)
      modifies this
      ensures (line, buf, taken) == Read(old(buf), ready)
    {
      taken := [];
      line := PopLine();
      if line.None? {
        if ready.None? || ready.value == [] {
          return;
        }
        taken := ready.value;
        buf := buf + ready.value;
        line := PopLine();
      }
    }
  }

  // ---------------------------------------------------------------- whole runs

  datatype Run = Run(buf: seq<Byte>, yielded: seq<seq<Byte>>, taken: seq<Byte>)

  /** The client after a sequence of reads. */
  function AfterReads(calls: seq<Option<seq<Byte>>>): Run {
    if calls == [] then Run([], [], [])
    else
      var r := AfterReads(calls[..|calls| - 1]);
      var (line, buf, taken) := Read(r.buf, calls[|calls| - 1]);
      Run(buf, r.yielded + (if line.Some? then [line.value] else []), r.taken + taken)
  }

  lemma PopTells(buf: seq<Byte>)
    ensures var (line, rest) := Pop(buf);
      && (line.Some? ==> NEWLINE !in line.value && buf == line.value + [NEWLINE] + rest)
      && (line.None? ==> rest == buf && NEWLINE !in buf)
  {
  }

  lemma ReadTells(buf: seq<Byte>, ready: Option<seq<Byte>>)
    ensures var (line, after, taken) := Read(buf, ready);
      && (line.Some? ==> NEWLINE !in line.value && buf + taken == line.value + [NEWLINE] + after)
      && (line.None? ==> after == buf + taken && NEWLINE !in after && taken == if ready.Some? then ready.value else [])
  {
    PopTells(buf);
    assert buf + [] == buf;
    if ready.Some? {
      PopTells(buf + ready.value);
    }
    hide Pop;
  }

  /** However the stream was chunked: yielded lines and buffer put together are everything read, and no yielded
      line holds a newline. */
  lemma {:induction false} NothingLost(calls: seq<Option<seq<Byte>>>)
    ensures var r := AfterReads(calls);
      Joined(r.yielded, NEWLINE) + r.buf == r.taken && Unbroken(r.yielded, NEWLINE)
  {
    if calls != [] {
      NothingLost(calls[..|calls| - 1]);
      var r := AfterReads(calls[..|calls| - 1]);
      var (line, buf, taken) := Read(r.buf, calls[|calls| - 1]);
      ReadTells(r.buf, calls[|calls| - 1]);
      Reassociate(Joined(r.yielded, NEWLINE), r.buf, taken);
      hide Read, Joined;
      if line.Some? {
        JoinedConcat(r.yielded, [line.value], NEWLINE);
        SingleLine(line.value);
        Reassociate(Joined(r.yielded, NEWLINE), line.value + [NEWLINE], buf);
      } else {
        assert r.yielded + [] == r.yielded;
      }
    }
  }

  lemma SingleLine(line: seq<Byte>)
    ensures Joined([line], NEWLINE) == line + [NEWLINE]
  {
    JoinedCons(line, [], NEWLINE);
    assert [line] + [] == [line];
    assert Joined<Byte>([], NEWLINE) == [];
  }

  /** However the stream was chunked: the yielded lines are the first newline-terminated segments of what was
      read, in order, the buffered ones come next, and the rest is the unfinished line. */
  lemma LinesAreSegments(calls: seq<Option<seq<Byte>>>)
    ensures var r := AfterReads(calls);
      && r.yielded + Lines(r.buf, NEWLINE) == Lines(r.taken, NEWLINE)
      && Tail(r.buf, NEWLINE) == Tail(r.taken, NEWLINE)
  {
    NothingLost(calls);
    hide AfterReads, Lines, Tail;
    var r := AfterReads(calls);
    LinesRejoin(r.buf, NEWLINE);
    LinesAreUnbroken(r.buf, NEWLINE);
    var all, rest := r.yielded + Lines(r.buf, NEWLINE), Tail(r.buf, NEWLINE);
    JoinedConcat(r.yielded, Lines(r.buf, NEWLINE), NEWLINE);
    assert r.taken == Joined(all, NEWLINE) + rest;
    OnlyOneCut(all, rest, NEWLINE);
  }

  /** Two clients that took the same bytes and have no whole line left have yielded the same lines. */
  lemma ChunkingIsInvisible(a: seq<Option<seq<Byte>>>, b: seq<Option<seq<Byte>>>)
    requires AfterReads(a).taken == AfterReads(b).taken
    requires NEWLINE !in AfterReads(a).buf && NEWLINE !in AfterReads(b).buf
    ensures AfterReads(a).yielded == AfterReads(b).yielded && AfterReads(a).buf == AfterReads(b).buf
  {
    LinesAreSegments(a);
    LinesAreSegments(b);
    var r, t := AfterReads(a), AfterReads(b);
    hide AfterReads;
    assert Lines(r.buf, NEWLINE) == [] && Lines(t.buf, NEWLINE) == [];
    assert Tail(r.buf, NEWLINE) == r.buf && Tail(t.buf, NEWLINE) == t.buf;
    assert r.yielded + [] == r.yielded && t.yielded + [] == t.yielded;
    hide Lines, Tail;
  }

  /** A read that finds no line tells that none is buffered, so reading until then drains the buffer. */
  lemma EmptyReadMeansDrained(buf: seq<Byte>, ready: Option<seq<Byte>>)
    ensures Read(buf, ready).0.None? <==> NEWLINE !in buf && (ready.Some? ==> NEWLINE !in ready.value)
    ensures Read(buf, ready).0.None? ==> NEWLINE !in Read(buf, ready).1
  {
    ReadTells(buf, ready);
    var (line, after, taken) := Read(buf, ready);
    assert taken == [] || (ready.Some? && taken == ready.value);
    hide Read, Find;
    if line.Some? {
      assert NEWLINE in line.value + [NEWLINE] + after;
      assert NEWLINE in buf + taken;
    }
  }

  // ---------------------------------------------------------------- text in UTF-8

  lemma NewlineByte(c: char)
    ensures NEWLINE in Utf8(c) <==> c == '\n'
    ensures Utf8('\n') == [NEWLINE]
  {
  }

  lemma {:induction false} NewlineBytes(text: string)
    ensures NEWLINE in Encode(text) <==> '\n' in text
  {
    if text != "" {
      NewlineByte(text[0]);
      NewlineBytes(text[1..]);
      hide Utf8;
      assert text == [text[0]] + text[1..];
    }
  }

  function EncodeAll(texts: seq<string>): seq<seq<Byte>> {
    seq(|texts|, i requires 0 <= i < |texts| => Encode(texts[i]))
  }

  lemma {:induction false} EncodedJoin(texts: seq<string>, rest: string)
    ensures Encode(Joined(texts, '\n') + rest) == Joined(EncodeAll(texts), NEWLINE) + Encode(rest)
  {
    if texts == [] {
      assert Joined(texts, '\n') + rest == rest;
    } else {
      var tail := Joined(texts[1..], '\n');
      var more, bytes := tail + rest, EncodeAll(texts);
      EncodedJoin(texts[1..], rest);
      assert bytes == [Encode(texts[0])] + EncodeAll(texts[1..]);
      assert texts == [texts[0]] + texts[1..];
      hide EncodeAll, Joined;
      EncodedLine(texts[0], more);
      JoinedCons(texts[0], texts[1..], '\n');
      JoinedCons(Encode(texts[0]), EncodeAll(texts[1..]), NEWLINE);
      hide Encode;
      Reassociate(texts[0] + "\n", tail, rest);
      Reassociate(Encode(texts[0]) + [NEWLINE], Joined(EncodeAll(texts[1..]), NEWLINE), Encode(rest));
    }
  }

  lemma EncodedLine(line: string, more: string)
    ensures Encode(line + "\n" + more) == Encode(line) + [NEWLINE] + Encode(more)
  {
    Reassociate(line, "\n", more);
    EncodeAppend(line, "\n" + more);
    NewlineByte('\n');
    assert ("\n" + more)[1..] == more;
    assert Encode("\n" + more) == [NEWLINE] + Encode(more);
    hide Encode, Utf8;
    Reassociate(Encode(line), [NEWLINE], Encode(more));
  }

  /** Cutting at newline bytes never splits a code point: the lines of encoded text are the encoded lines. */
  lemma LinesOfEncodedText(text: string)
    ensures Lines(Encode(text), NEWLINE) == EncodeAll(Lines(text, '\n'))
    ensures Tail(Encode(text), NEWLINE) == Encode(Tail(text, '\n'))
  {
    var lines, rest := Lines(text, '\n'), Tail(text, '\n');
    LinesRejoin(text, '\n');
    LinesAreUnbroken(text, '\n');
    EncodedJoin(lines, rest);
    hide Lines, Tail, Encode;
    forall i | 0 <= i < |lines|
      ensures NEWLINE !in EncodeAll(lines)[i]
    {
      NewlineBytes(lines[i]);
    }
    NewlineBytes(rest);
    OnlyOneCut(EncodeAll(lines), Encode(rest), NEWLINE);
  }
}
