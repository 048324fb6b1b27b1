/** Newline framing of the execution event stream (`ExecutionStream::into_events`):
    transport chunks are cut at arbitrary places, lines are not. */
module Framing {
  import opened Words
  import opened Wrappers

  const NEWLINE: Byte := 10
  const MAX_EVENT_BYTES: nat := 512 * 1024

  /** What the transport yields; the end of the sequence is the end of the body. */
  datatype Item = Chunk(bytes: seq<Byte>) | TransportFailed

  datatype ClientError = InvalidResponse | Transport

  /** What the consumer is handed. Nothing follows a `Fail`. */
  datatype Output<E> = Event(event: E) | Fail(error: ClientError)

  // ----- the newline split, one byte at a time -----

  /** The nonempty lines seen so far and the unterminated piece after them. */
  datatype Split = Split(lines: seq<seq<Byte>>, piece: seq<Byte>)

  const NOTHING := Split([], [])

  function SplitByte(c: Split, byte: Byte): Split {
    if byte != NEWLINE then c.(piece := c.piece + [byte])
    else Split(c.lines + NonEmpty(c.piece), [])
  }

  function SplitBytes(c: Split, bytes: seq<Byte>): Split {
    if |bytes| == 0 then c
    else SplitByte(SplitBytes(c, bytes[..|bytes| - 1]), bytes[|bytes| - 1])
  }

  function NonEmpty(line: seq<Byte>): seq<seq<Byte>> {
    if line == [] then [] else [line]
  }

  lemma {:induction false} SplitConcat(c: Split, s: seq<Byte>, t: seq<Byte>)
    ensures SplitBytes(c, s + t) == SplitBytes(SplitBytes(c, s), t)
  {
    if |t| == 0 {
      assert s + t == s;
    } else {
      SplitConcat(c, s, t[..|t| - 1]);
      assert (s + t)[..|s + t| - 1] == s + t[..|t| - 1];
    }
  }

  lemma {:induction false} SplitShift(c: Split, bytes: seq<Byte>)
    ensures var d := SplitBytes(Split([], c.piece), bytes);
            SplitBytes(c, bytes) == Split(c.lines + d.lines, d.piece)
  {
    if |bytes| == 0 {
      assert c.lines + [] == c.lines;
    } else {
      SplitShift(c, bytes[..|bytes| - 1]);
    }
  }

  lemma {:induction false} SplitPlain(c: Split, bytes: seq<Byte>)
    requires NEWLINE !in bytes
    ensures SplitBytes(c, bytes) == c.(piece := c.piece + bytes)
  {
    if |bytes| == 0 {
      assert c.piece + bytes == c.piece;
    } else {
      var front := bytes[..|bytes| - 1];
      SplitPlain(c, front);
      assert c.piece + bytes == (c.piece + front) + [bytes[|bytes| - 1]];
    }
  }

  // ----- what the stream owes its consumer -----

  /** The next item is taken in: a chunk that fits beside the pending piece. */
  predicate Fits(piece: seq<Byte>, items: seq<Item>) {
    && |items| > 0 && items[0].Chunk?
    && |piece| + |items[0].bytes| <= MAX_EVENT_BYTES
  }

  /** The frames owed: the lines of everything taken in and, at a regular end of
      the body, the unterminated last line. */
  function Frames(c: Split, items: seq<Item>): seq<seq<Byte>>
    decreases |items|
  {
    if items == [] then c.lines + NonEmpty(c.piece)
    else if Fits(c.piece, items) then Frames(SplitBytes(c, items[0].bytes), items[1..])
    else c.lines
  }

  /** How the stream stops after those frames; `None` is a regular end. */
  function Stop(c: Split, items: seq<Item>): Option<ClientError>
    decreases |items|
  {
    if items == [] then None
    else if Fits(c.piece, items) then Stop(SplitBytes(c, items[0].bytes), items[1..])
    else Some(if items[0].TransportFailed? then Transport else InvalidResponse)
  }

  /** Decodes frames up to the first one that does not decode. */
  function Decoded<E>(frames: seq<seq<Byte>>, stop: Option<ClientError>,
                      decode: seq<Byte> -> Option<E>): seq<Output<E>>
  {
    if |frames| == 0 then (match stop case None => [] case Some(error) => [Fail(error)])
    else match decode(frames[0])
      case None => [Fail(InvalidResponse)]
      case Some(event) => [Event(event)] + Decoded(frames[1..], stop, decode)
  }

  function Owed<E>(pending: seq<Byte>, items: seq<Item>, decode: seq<Byte> -> Option<E>)
    : seq<Output<E>>
  {
    var c := SplitBytes(NOTHING, pending);
    Decoded(Frames(c, items), Stop(c, items), decode)
  }

  lemma {:induction false} FramesShift(c: Split, items: seq<Item>)
    ensures Frames(c, items) == c.lines + Frames(Split([], c.piece), items)
    ensures Stop(c, items) == Stop(Split([], c.piece), items)
    decreases |items|
  {
    if items != [] && Fits(c.piece, items) {
      var bytes := items[0].bytes;
      SplitShift(c, bytes);
      FramesShift(SplitBytes(c, bytes), items[1..]);
      FramesShift(SplitBytes(Split([], c.piece), bytes), items[1..]);
    }
  }

  lemma SplitLine(line: seq<Byte>, rest: seq<Byte>)
    requires NEWLINE !in line
    ensures var c := SplitBytes(NOTHING, rest);
            SplitBytes(NOTHING, line + [NEWLINE] + rest) == Split(NonEmpty(line) + c.lines, c.piece)
  {
    SplitPlain(NOTHING, line);
    assert [] + line == line && [] + NonEmpty(line) == NonEmpty(line);
    SplitConcat(NOTHING, line, [NEWLINE]);
    SplitConcat(NOTHING, line + [NEWLINE], rest);
    SplitShift(Split(NonEmpty(line), []), rest);
  }

  /** Taking the first line off the pending bytes. */
  lemma TakeLine(line: seq<Byte>, rest: seq<Byte>, items: seq<Item>)
    requires NEWLINE !in line
    ensures var c, d := SplitBytes(NOTHING, rest), SplitBytes(NOTHING, line + [NEWLINE] + rest);
            && Frames(d, items) == NonEmpty(line) + Frames(c, items)
            && Stop(d, items) == Stop(c, items)
  {
    SplitLine(line, rest);
    var c := SplitBytes(NOTHING, rest);
    LinesComeFirst(NonEmpty(line), c, items);
  }

  lemma LinesComeFirst(lines: seq<seq<Byte>>, c: Split, items: seq<Item>)
    ensures Frames(Split(lines + c.lines, c.piece), items) == lines + Frames(c, items)
    ensures Stop(Split(lines + c.lines, c.piece), items) == Stop(c, items)
  {
    FramesShift(Split(lines + c.lines, c.piece), items);
    FramesShift(c, items);
    var later := Frames(Split([], c.piece), items);
    assert (lines + c.lines) + later == lines + (c.lines + later);
  }

  /** What one frame adds in front of everything owed after it. */
  function Emit<E>(decoded: Option<E>, later: seq<Output<E>>): seq<Output<E>> {
    match decoded case None => [Fail(InvalidResponse)] case Some(event) => [Event(event)] + later
  }

  lemma OwedLine<E>(line: seq<Byte>, rest: seq<Byte>, items: seq<Item>,
                    decode: seq<Byte> -> Option<E>)
    requires NEWLINE !in line
    ensures Owed(line + [NEWLINE] + rest, items, decode)
         == if line == [] then Owed(rest, items, decode)
            else Emit(decode(line), Owed(rest, items, decode))
  {
    TakeLine(line, rest, items);
    var later := Frames(SplitBytes(NOTHING, rest), items);
    if line == [] {
      assert NonEmpty(line) + later == later;
    } else {
      assert (NonEmpty(line) + later)[1..] == later;
    }
  }

  lemma TakeChunk<E>(pending: seq<Byte>, items: seq<Item>, decode: seq<Byte> -> Option<E>)
    requires NEWLINE !in pending && Fits(pending, items)
    ensures Owed(pending, items, decode) == Owed(pending + items[0].bytes, items[1..], decode)
  {
    SplitPlain(NOTHING, pending);
    assert [] + pending == pending;
    SplitConcat(NOTHING, pending, items[0].bytes);
  }

  lemma TakeNothing<E>(pending: seq<Byte>, items: seq<Item>, decode: seq<Byte> -> Option<E>)
    requires NEWLINE !in pending && !Fits(pending, items)
    ensures Owed(pending, items, decode)
         == if items == [] then if pending == [] then [] else Emit(decode(pending), [])
            else [Fail(if items[0].TransportFailed? then Transport else InvalidResponse)]
  {
    SplitPlain(NOTHING, pending);
    assert [] + pending == pending && [] + NonEmpty(pending) == NonEmpty(pending);
    if items == [] && pending != [] {
      var frames := NonEmpty(pending);
      assert Frames(SplitBytes(NOTHING, pending), items) == frames && frames[1..] == [];
      assert Decoded(frames[1..], None, decode) == [];
    }
  }

  /** `iter().position`: the first newline, or the length when there is none. */
  method FindNewline(s: seq<Byte>) returns (k: nat)
    ensures k <= |s| && NEWLINE !in s[..k]
    ensures k < |s| ==> s[k] == NEWLINE
  {
    k := 0;
    while k < |s| && s[k] != NEWLINE
      invariant k <= |s| && NEWLINE !in s[..k]
    {
      k := k + 1;
    }
  }

  class EventReader {
    /** Items the transport has not yielded yet. */
    var items: seq<Item>
    var pending: seq<Byte>

    ghost predicate Valid()
      reads this
    {
      |pending| <= MAX_EVENT_BYTES
    }

    constructor (transport: seq<Item>)
      ensures Valid() && items == transport && pending == []
    {
      items, pending := transport, [];
    }

    /** The next element of the stream, or `None` at its end. */
    method Next<E>(decode: seq<Byte> -> Option<E>) returns (r: Option<Output<E>>)
      requires Valid()
      modifies this
      ensures Valid()
      ensures var owed := old(Owed(pending, items, decode));
              && (r.None? <==> owed == [])
              && (r.Some? ==> r.value == owed[0])
              && (r.Some? && r.value.Event? ==> Owed(pending, items, decode) == owed[1..])
    {
      while true
        invariant Valid() && Owed(pending, items, decode) == old(Owed(pending, items, decode))
        decreases |items|, |pending|
      {
        var newline := FindNewline(pending);
        if newline < |pending| {
          var line := pending[..newline];
          var rest := pending[newline + 1..];
          assert pending == line + [NEWLINE] + rest;
          OwedLine(line, rest, items, decode);
          pending := rest;
          if line != [] {
            return FromLine(decode(line));
          }
        } else if Fits(pending, items) {
          TakeChunk(pending, items, decode);
          pending, items := pending + items[0].bytes, items[1..];
        } else {
          TakeNothing(pending, items, decode);
          if items != [] {
            return Some(Fail(if items[0].TransportFailed? then Transport else InvalidResponse));
          }
          if pending == [] {
            return None;
          }
          r := FromLine(decode(pending));
          pending := [];
          TakeNothing(pending, items, decode);
          return;
        }
      }
    }
  }

  function FromLine<E>(decoded: Option<E>): Option<Output<E>> {
    Some(match decoded case None => Fail(InvalidResponse) case Some(event) => Event(event))
  }

  // ----- chunking -----

  function Concat(items: seq<Item>): seq<Byte> {
    if |items| == 0 then []
    else (if items[0].Chunk? then items[0].bytes else []) + Concat(items[1..])
  }

  /** Every chunk fits beside the unterminated line before it. */
  predicate WithinCap(before: seq<Byte>, items: seq<Item>)
    decreases |items|
  {
    items == [] ||
    (Fits(SplitBytes(NOTHING, before).piece, items) && WithinCap(before + items[0].bytes, items[1..]))
  }

  /** Within the cap, and only there, the stream is the newline split of the
      concatenation: empty lines dropped, an unterminated last line kept, however
      the transport cut it. */
  lemma {:induction false} FramedExactlyWithinCap(before: seq<Byte>, items: seq<Item>)
    ensures var c := SplitBytes(NOTHING, before);
            && (Stop(c, items).None? <==> WithinCap(before, items))
            && (WithinCap(before, items) ==>
                  var all := SplitBytes(NOTHING, before + Concat(items));
                  Frames(c, items) == all.lines + NonEmpty(all.piece))
    decreases |items|
  {
    var c := SplitBytes(NOTHING, before);
    if items == [] {
      assert before + Concat(items) == before;
    } else if Fits(c.piece, items) {
      var bytes := items[0].bytes;
      SplitConcat(NOTHING, before, bytes);
      FramedExactlyWithinCap(before + bytes, items[1..]);
      assert before + Concat(items) == before + bytes + Concat(items[1..]);
    }
  }

  /** Two ways to cut one body, both within the cap, are indistinguishable. */
  lemma ChunkingIsInvisible<E>(a: seq<Item>, b: seq<Item>, decode: seq<Byte> -> Option<E>)
    requires WithinCap([], a) && WithinCap([], b) && Concat(a) == Concat(b)
    ensures Owed([], a, decode) == Owed([], b, decode)
  {
    FramedExactlyWithinCap([], a);
    FramedExactlyWithinCap([], b);
  }

  /** The cap counts pending bytes, not line lengths, so without it the cut does
      show: a body of newlines alone is refused in one chunk and empty in two. */
  lemma CapSeesChunking<E>(decode: seq<Byte> -> Option<E>)
    ensures var block := seq(MAX_EVENT_BYTES, _ => NEWLINE);
            var one, two := [Chunk(block + [NEWLINE])], [Chunk(block), Chunk([NEWLINE])];
            && Concat(one) == Concat(two)
            && Owed([], one, decode) == [Fail(InvalidResponse)]
            && Owed([], two, decode) == []
  {
    var block := seq(MAX_EVENT_BYTES, _ => NEWLINE);
    var one, two := [Chunk(block + [NEWLINE])], [Chunk(block), Chunk([NEWLINE])];
    assert Concat(two[1..]) == [NEWLINE] + Concat(two[1..][1..]) == [NEWLINE];
    assert Concat(one) == (block + [NEWLINE]) + [] == block + [NEWLINE];
    BlankLines(block);
    assert SplitBytes(NOTHING, [NEWLINE]) == NOTHING;
    assert Frames(NOTHING, two[1..]) == Frames(NOTHING, two[1..][1..]) == [];
    assert Stop(NOTHING, two[1..]) == Stop(NOTHING, two[1..][1..]) == None;
  }

  lemma {:induction false} BlankLines(s: seq<Byte>)
    requires forall i | 0 <= i < |s| :: s[i] == NEWLINE
    ensures SplitBytes(NOTHING, s) == NOTHING
  {
    if |s| > 0 {
      BlankLines(s[..|s| - 1]);
    }
  }
}
