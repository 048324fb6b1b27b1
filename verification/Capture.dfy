/** Head-and-tail output retention (`BoundedCapture`): the bulk `push` of the
    runner against the per-byte loop it replaced, and both against the
    closed-form window of the whole stream. */
module Capture {
  import opened Words

  datatype Retained = Retained(head: seq<Byte>, tail: seq<Byte>, total: nat, omitted: nat)

  const EMPTY := Retained([], [], 0, 0)

  /** How a capture limit is shared: the head gets the larger half. */
  datatype Limits = Limits(head: nat, tail: nat)

  function Halves(limit: nat): Limits {
    var head := (limit + 1) / 2;
    Limits(head, limit - head)
  }

  // ----- the per-byte oracle -----

  function PushByte(c: Retained, byte: Byte, limit: Limits): Retained {
    if |c.head| < limit.head then c.(head := c.head + [byte])
    else if limit.tail == 0 then c
    else if |c.tail| == limit.tail then c.(tail := c.tail[1..] + [byte])
    else c.(tail := c.tail + [byte])
  }

  function PushBytes(c: Retained, bytes: seq<Byte>, limit: Limits): Retained {
    if |bytes| == 0 then c
    else PushByte(PushBytes(c, bytes[..|bytes| - 1], limit), bytes[|bytes| - 1], limit)
  }

  function Account(c: Retained, count: nat): Retained {
    var total := SatAdd(c.total, count);
    c.(total := total, omitted := SatSub(total, |c.head| + |c.tail|))
  }

  function PushPerByte(c: Retained, bytes: seq<Byte>, limit: Limits): Retained {
    Account(PushBytes(c, bytes, limit), |bytes|)
  }

  // ----- the bulk form -----

  /** The last `n` bytes, or all of them when there are fewer. */
  function LastN(s: seq<Byte>, n: nat): seq<Byte> {
    if |s| <= n then s else s[|s| - n..]
  }

  function HeadRoom(c: Retained, limit: Limits): nat {
    if |c.head| < limit.head then limit.head - |c.head| else 0
  }

  /** Where the bytes of one bulk push go: first to the head, then to the tail. */
  function Absorb(c: Retained, bytes: seq<Byte>, limit: Limits): Retained {
    var take := Min(HeadRoom(c, limit), |bytes|);
    c.(head := c.head + bytes[..take],
       tail := if limit.tail == 0 then c.tail
               else LastN(c.tail + bytes[take..], limit.tail))
  }

  /** What one bulk push leaves behind, from any state and for any limit. */
  function PushBulk(c: Retained, bytes: seq<Byte>, limit: Limits): Retained {
    Account(Absorb(c, bytes, limit), |bytes|)
  }

  class BoundedCapture {
    var head: seq<Byte>
    var tail: seq<Byte>
    var totalBytes: nat
    var omittedBytes: nat

    ghost function Value(): Retained
      reads this
    {
      Retained(head, tail, totalBytes, omittedBytes)
    }

    constructor ()
      ensures Value() == EMPTY
    {
      head, tail, totalBytes, omittedBytes := [], [], 0, 0;
    }

    method Push(bytes: seq<Byte>, limit: nat)
      modifies this
      ensures Value() == PushBulk(old(Value()), bytes, Halves(limit))
    {
      var limits := Halves(limit);
      PushWithin(bytes, limits);
    }

    method PushWithin(bytes: seq<Byte>, limits: Limits)
      modifies this
      ensures Value() == PushBulk(old(Value()), bytes, limits)
    {
      var headLimit, tailLimit := limits.head, limits.tail;
      var newHead, remaining := head, bytes;
      if |head| < headLimit {
        var take := Min(headLimit - |head|, |bytes|);
        newHead, remaining := head + bytes[..take], bytes[take..];
      }
      var newTail := tail;
      if tailLimit == 0 {
      } else if |remaining| >= tailLimit {
        newTail := remaining[|remaining| - tailLimit..];
      } else if |tail| + |remaining| <= tailLimit {
        newTail := tail + remaining;
      } else {
        var keepFromOld := tailLimit - |remaining|;
        newTail := tail[SatSub(|tail|, keepFromOld)..] + remaining;
      }
      assert newTail == if tailLimit == 0 then tail else LastN(tail + remaining, tailLimit) by {
        TailCases(tail, remaining, tailLimit);
      }
      assert newHead == Absorb(Value(), bytes, limits).head;
      assert remaining == bytes[Min(HeadRoom(Value(), limits), |bytes|)..];
      var newTotal := SatAdd(totalBytes, |bytes|);
      head, tail, totalBytes, omittedBytes :=
        newHead, newTail, newTotal, SatSub(newTotal, |newHead| + |newTail|);
    }
  }

  lemma TailCases(tail: seq<Byte>, remaining: seq<Byte>, limit: nat)
    ensures |remaining| >= limit ==>
              LastN(tail + remaining, limit) == remaining[|remaining| - limit..]
    ensures |tail| + |remaining| <= limit ==> LastN(tail + remaining, limit) == tail + remaining
    ensures |remaining| < limit < |tail| + |remaining| ==>
              LastN(tail + remaining, limit)
              == tail[SatSub(|tail|, limit - |remaining|)..] + remaining
  {
  }

  lemma LastNConcat(s: seq<Byte>, t: seq<Byte>, n: nat)
    ensures LastN(LastN(s, n) + t, n) == LastN(s + t, n)
  {
  }

  lemma AbsorbOneMore(c: Retained, bytes: seq<Byte>, last: Byte, limit: Limits)
    requires limit.tail == 0 || |c.tail| <= limit.tail
    ensures Absorb(c, bytes + [last], limit) == PushByte(Absorb(c, bytes, limit), last, limit)
  {
    var room, t := HeadRoom(c, limit), limit.tail;
    var all := bytes + [last];
    if |bytes| < room {
      assert all[..|all|] == bytes[..|bytes|] + [last];
      assert c.tail + all[|all|..] == c.tail + bytes[|bytes|..];
    } else {
      assert all[..room] == bytes[..room];
      assert c.tail + all[room..] == (c.tail + bytes[room..]) + [last];
      LastNConcat(c.tail + bytes[room..], [last], t);
    }
  }

  lemma {:induction false} OracleIsAbsorb(c: Retained, bytes: seq<Byte>, limit: Limits)
    requires limit.tail == 0 || |c.tail| <= limit.tail
    ensures PushBytes(c, bytes, limit) == Absorb(c, bytes, limit)
  {
    if |bytes| == 0 {
      assert c.head + bytes[..0] == c.head && c.tail + bytes[0..] == c.tail;
    } else {
      var front := bytes[..|bytes| - 1];
      OracleIsAbsorb(c, front, limit);
      AbsorbOneMore(c, front, bytes[|bytes| - 1], limit);
      assert front + [bytes[|bytes| - 1]] == bytes;
    }
  }

  lemma {:induction false} OracleNeverShrinksWideTail(c: Retained, bytes: seq<Byte>, limit: Limits)
    requires 0 < limit.tail < |c.tail|
    ensures |PushBytes(c, bytes, limit).tail| >= |c.tail|
  {
    if |bytes| > 0 {
      OracleNeverShrinksWideTail(c, bytes[..|bytes| - 1], limit);
    }
  }

  /** The bulk form may differ from the per-byte loop in cost but not in result,
      exactly as long as the tail already fits its limit. */
  lemma BulkMatchesOracle(c: Retained, bytes: seq<Byte>, limit: Limits)
    ensures limit.tail == 0 || |c.tail| <= limit.tail
        <==> PushBulk(c, bytes, limit) == PushPerByte(c, bytes, limit)
  {
    if limit.tail == 0 || |c.tail| <= limit.tail {
      OracleIsAbsorb(c, bytes, limit);
    } else {
      OracleNeverShrinksWideTail(c, bytes, limit);
    }
  }

  // ----- any chunking of a stream -----

  function Flatten(chunks: seq<seq<Byte>>): seq<Byte> {
    if |chunks| == 0 then [] else Flatten(chunks[..|chunks| - 1]) + chunks[|chunks| - 1]
  }

  function PushAll(chunks: seq<seq<Byte>>, limit: Limits): Retained {
    if |chunks| == 0 then EMPTY
    else PushBulk(PushAll(chunks[..|chunks| - 1], limit), chunks[|chunks| - 1], limit)
  }

  /** What a capture of `limit` bytes must hold after `stream`. */
  function Window(stream: seq<Byte>, limit: Limits): Retained {
    var headLen := Min(limit.head, |stream|);
    var tail := LastN(stream[headLen..], limit.tail);
    var total := Min(|stream|, U64_MAX);
    Retained(stream[..headLen], tail, total, SatSub(total, headLen + |tail|))
  }

  lemma SplitExtends(stream: seq<Byte>, chunk: seq<Byte>, h: nat)
    ensures var k := Min(h, |stream|);
            var take, all := Min(h - k, |chunk|), stream + chunk;
            && Min(h, |all|) == k + take
            && all[..k + take] == stream[..k] + chunk[..take]
            && all[k + take..] == stream[k..] + chunk[take..]
  {
  }

  lemma WindowAbsorbs(stream: seq<Byte>, chunk: seq<Byte>, limit: Limits)
    ensures var a, w := Absorb(Window(stream, limit), chunk, limit), Window(stream + chunk, limit);
            a.head == w.head && a.tail == w.tail
  {
    var w, k := Window(stream, limit), Min(limit.head, |stream|);
    var take := Min(limit.head - k, |chunk|);
    SplitExtends(stream, chunk, limit.head);
    assert |w.head| == k && HeadRoom(w, limit) == limit.head - k;
    LastNConcat(stream[k..], chunk[take..], limit.tail);
  }

  lemma WindowExtends(stream: seq<Byte>, chunk: seq<Byte>, limit: Limits)
    ensures PushBulk(Window(stream, limit), chunk, limit) == Window(stream + chunk, limit)
  {
    WindowAbsorbs(stream, chunk, limit);
  }

  /** For every limit and every way the pipe cuts the stream, the capture is the
      window of the concatenation, and it is what the per-byte loop builds. */
  lemma {:induction false} ChunkingIsInvisible(chunks: seq<seq<Byte>>, limit: Limits)
    ensures PushAll(chunks, limit) == Window(Flatten(chunks), limit)
    ensures PushAll(chunks, limit) == PushPerByte(EMPTY, Flatten(chunks), limit)
  {
    if |chunks| > 0 {
      var front := chunks[..|chunks| - 1];
      ChunkingIsInvisible(front, limit);
      WindowExtends(Flatten(front), chunks[|chunks| - 1], limit);
    }
    BulkMatchesOracle(EMPTY, Flatten(chunks), limit);
    WindowExtends([], Flatten(chunks), limit);
    assert [] + Flatten(chunks) == Flatten(chunks);
  }

  /** Accounting: nothing is lost from the books below 2^64, and the reported
      total is exact only there. */
  lemma AccountingIsExact(chunks: seq<seq<Byte>>, limit: nat)
    ensures var c, n := PushAll(chunks, Halves(limit)), |Flatten(chunks)|;
            && |c.head| + |c.tail| == Min(limit, n)
            && (limit <= U64_MAX ==> c.total == |c.head| + |c.tail| + c.omitted)
            && (c.total == n <==> n <= U64_MAX)
  {
    ChunkingIsInvisible(chunks, Halves(limit));
  }
}
