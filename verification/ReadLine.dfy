/** The buffered line reader: bytes read past a line wait for the next call, and a spin lock
    serialises the callers. */
module Lines {
  import opened Common
  import opened SlotBytes

  const NL: Byte := 10
  const CHUNK: nat := 128

  /** Position of the first newline, or the length when there is none. */
  function LineLen(s: Bytes): (n: nat)
    ensures n <= |s| && NL !in s[..n] && (n < |s| ==> s[n] == NL)
  {
    if s == [] || s[0] == NL then 0
    else
      var n := 1 + LineLen(s[1..]);
      assert s[..n] == [s[0]] + s[1..][..n-1];
      n
  }

  function FirstLine(s: Bytes): Bytes { s[..LineLen(s)] }

  /** What is left once the first line and its newline are gone. */
  function AfterLine(s: Bytes): Bytes { if LineLen(s) < |s| then s[LineLen(s) + 1..] else [] }

  /** What newly available bytes make of the line gathered so far: they finish it, and leave a tail, or all join it. */
  datatype Gathered = Finishes(line: Bytes, tail: Bytes) | Joins(acc: Bytes)

  function Gather(acc: Bytes, bytes: Bytes): Gathered {
    var pos := LineLen(bytes);
    if pos < |bytes| then Finishes(acc + bytes[..pos], bytes[pos+1..]) else Joins(acc + bytes)
  }

  function After(s: Bytes, k: nat): Bytes { if k == 0 then s else AfterLine(After(s, k - 1)) }

  /** The answer to the `k`-th call on the stream `s`. */
  function Line(s: Bytes, k: nat): Bytes { FirstLine(After(s, k)) }

  /** The text whose newline-separated pieces are `pieces`. */
  function Join(pieces: seq<Bytes>): Bytes {
    if pieces == [] then [] else if |pieces| == 1 then pieces[0] else pieces[0] + [NL] + Join(pieces[1..])
  }

  ghost predicate NewlineFree(pieces: seq<Bytes>) { forall i :: 0 <= i < |pieces| ==> '\n' as int !in pieces[i] }

  lemma {:induction false} LineLenUnique(s: Bytes, n: nat)
    requires n <= |s| && NL !in s[..n] && (n < |s| ==> s[n] == NL)
    ensures LineLen(s) == n
  {
    if s != [] && n > 0 {
      assert s[..n][0] == s[0] && s[1..][..n-1] == s[..n][1..];
      LineLenUnique(s[1..], n - 1);
    }
  }

  /** A newline-free start belongs to the first line. */
  lemma LineSplit(a: Bytes, b: Bytes)
    requires NL !in a
    ensures LineLen(a + b) == |a| + LineLen(b)
    ensures FirstLine(a + b) == a + FirstLine(b) && AfterLine(a + b) == AfterLine(b)
  {
    var n := |a| + LineLen(b);
    assert (a + b)[..n] == a + b[..LineLen(b)];
    LineLenUnique(a + b, n);
    if LineLen(b) < |b| { assert (a + b)[n+1..] == b[LineLen(b)+1..]; }
  }

  /** When the first part holds a newline the first line ends inside it. */
  lemma EndsInside(a: Bytes, b: Bytes)
    requires LineLen(a) < |a|
    ensures FirstLine(a + b) == a[..LineLen(a)] && AfterLine(a + b) == a[LineLen(a) + 1..] + b
  {
    hide LineLen;
    var n := LineLen(a);
    Prefix(a, b, n);
    LineLenUnique(a + b, n);
  }

  lemma Prefix(a: Bytes, b: Bytes, n: nat)
    requires n < |a|
    ensures (a + b)[..n] == a[..n] && (a + b)[n] == a[n] && (a + b)[n+1..] == a[n+1..] + b
  {
    assert a + b == a[..n+1] + (a[n+1..] + b);
  }

  /** A line under way, continued by `tail` and then by what is still to come. */
  lemma Continued(before: Bytes, tail: Bytes, rest: Bytes)
    requires NL !in before
    ensures var pos, all := LineLen(tail), before + (tail + rest);
            && pos <= |tail|
            && (pos < |tail| ==> FirstLine(all) == before + tail[..pos] && AfterLine(all) == tail[pos+1..] + rest)
            && (pos == |tail| ==> NL !in before + tail && all == (before + tail) + rest)
    ensures FirstLine(before + []) == before && AfterLine(before + []) == []
  {
    hide LineLen, AfterLine, FirstLine;
    var pos := LineLen(tail);
    if pos < |tail| {
      LineSplit(before, tail + rest);
      EndsInside(tail, rest);
    } else {
      assert tail[..pos] == tail;
      assert before + (tail + rest) == (before + tail) + rest;
    }
    LineSplit(before, []);
    EmptyLine();
    assert before + [] == before;
  }

  lemma EmptyLine()
    ensures FirstLine([]) == [] && AfterLine([]) == []
  {
  }

  lemma {:induction false} AfterShift(s: Bytes, k: nat)
    ensures After(s, k + 1) == After(AfterLine(s), k)
  {
    hide AfterLine;
    if k > 0 { AfterShift(s, k - 1); }
  }

  lemma {:induction false} AfterEnd(k: nat)
    ensures After([], k) == []
  {
    if k > 0 { AfterEnd(k - 1); }
  }

  lemma HeadOfJoin(pieces: seq<Bytes>)
    requires NewlineFree(pieces) && pieces != []
    ensures FirstLine(Join(pieces)) == pieces[0]
    ensures AfterLine(Join(pieces)) == if |pieces| == 1 then [] else Join(pieces[1..])
  {
    hide LineLen, Join;
    if |pieces| == 1 {
      assert Join(pieces) == pieces[0] by { JoinStep(pieces); }
      assert pieces[0][..|pieces[0]|] == pieces[0];
      LineLenUnique(pieces[0], |pieces[0]|);
    } else {
      var rest := Join(pieces[1..]);
      JoinStep(pieces);
      LineSplit(pieces[0], [NL] + rest);
      LineLenUnique([NL] + rest, 0);
      assert ([NL] + rest)[1..] == rest;
    }
  }

  lemma Concat3(a: Bytes, b: Bytes, c: Bytes)
    ensures a + (b + c) == a + b + c
  {
  }

  lemma JoinStep(pieces: seq<Bytes>)
    requires pieces != []
    ensures Join(pieces) == if |pieces| == 1 then pieces[0] else pieces[0] + ([NL] + Join(pieces[1..]))
  {
    if |pieces| > 1 { Concat3(pieces[0], [NL], Join(pieces[1..])); }
  }

  /** The newline-separated pieces of a stream. */
  function Pieces(s: Bytes): (r: seq<Bytes>)
    ensures r != []
    decreases |s|
  {
    if LineLen(s) < |s| then [FirstLine(s)] + Pieces(AfterLine(s)) else [s]
  }

  /** Every stream is its pieces joined, and they hold no newline. */
  lemma {:induction false} JoinPieces(s: Bytes)
    ensures NewlineFree(Pieces(s)) && Join(Pieces(s)) == s
    decreases |s|
  {
    hide LineLen, Join;
    var n := LineLen(s);
    JoinStep(Pieces(s));
    if n < |s| {
      var rest := Pieces(AfterLine(s));
      JoinPieces(AfterLine(s));
      assert Pieces(s)[1..] == rest;
      Prefix(s, [], n);
      assert s == s[..n] + ([NL] + s[n+1..]);
    } else {
      assert s[..n] == s;
    }
  }

  /** The calls return the pieces in order, then empty lines for ever. */
  lemma {:induction false} LineOfJoin(pieces: seq<Bytes>, k: nat)
    requires NewlineFree(pieces) && pieces != []
    ensures Line(Join(pieces), k) == if k < |pieces| then pieces[k] else []
    decreases |pieces|
  {
    hide LineLen, AfterLine, Join, FirstLine;
    HeadOfJoin(pieces);
    if k > 0 {
      AfterShift(Join(pieces), k - 1);
      if |pieces| == 1 {
        AfterEnd(k - 1);
        EmptyLine();
      } else {
        LineOfJoin(pieces[1..], k - 1);
      }
    }
  }

  /** Lines together with their newlines. */
  function Terminated(lines: seq<Bytes>): Bytes {
    if lines == [] then [] else lines[0] + [NL] + Terminated(lines[1..])
  }

  lemma {:induction false} AfterJoin(pieces: seq<Bytes>, k: nat)
    requires NewlineFree(pieces) && pieces != []
    ensures After(Join(pieces), k) == if k < |pieces| then Join(pieces[k..]) else []
    decreases |pieces|
  {
    hide LineLen, AfterLine, Join, FirstLine;
    if k > 0 {
      HeadOfJoin(pieces);
      AfterShift(Join(pieces), k - 1);
      if |pieces| == 1 {
        AfterEnd(k - 1);
      } else {
        AfterJoin(pieces[1..], k - 1);
        if k < |pieces| { assert pieces[1..][k-1..] == pieces[k..]; }
      }
    } else {
      assert pieces[0..] == pieces;
    }
  }

  lemma {:induction false} JoinSplit(pieces: seq<Bytes>, k: nat)
    requires k < |pieces|
    ensures Join(pieces) == Terminated(pieces[..k]) + Join(pieces[k..])
  {
    if k > 0 {
      JoinSplit(pieces[1..], k - 1);
      assert pieces[1..][k-1..] == pieces[k..] && pieces[..k][1..] == pieces[1..][..k-1];
    } else {
      assert pieces[0..] == pieces && Terminated(pieces[..0]) == [];
    }
  }
}

module ReadLine {
  import opened Common
  import opened SlotBytes
  import opened SlotModel
  import opened StrSlot
  import opened Lines

  /** The descriptor: what it has not delivered yet, and how many interrupts are still to come. */
  class Input {
    var unread: Bytes
    var interrupts: nat
    /** Whether the `k`-th `read` is going to fail. */
    const fails: nat -> bool
    var calls: nat

    ghost predicate Failed(since: nat)
      reads this
    {
      exists k :: since <= k < calls && fails(k)
    }

    lemma FailedEarlier(since: nat, later: nat)
      requires since <= later
      ensures Failed(later) ==> Failed(since)
    {
    }

    /** `read`: 1 to `max` bytes, 0 only at the end of the stream, -1 when interrupted, -2 on
        any other error. */
    method OsRead(max: nat) returns (n: int, chunk: Bytes)
      requires max > 0
      modifies this
      ensures n > 0 ==> n <= max && |chunk| == n && old(unread) == chunk + unread && interrupts == old(interrupts)
      ensures n == 0 ==> old(unread) == [] && unread == [] && interrupts == old(interrupts)
      ensures n == -1 ==> unread == old(unread) && interrupts < old(interrupts)
      ensures n >= -2 && old(calls) <= calls && (n == -2 ==> Failed(old(calls)))
    {
      var interrupted: bool, request := *, calls;
      chunk, calls := [], calls + 1;
      if fails(request) { return -2, []; }
      if interrupted && interrupts > 0 {
        interrupts := interrupts - 1;
        return -1, [];
      }
      if unread == [] { return 0, []; }
      n :| 1 <= n <= max && n <= |unread|;
      chunk, unread := unread[..n], unread[n..];
    }
  }

  /** `More` while the loop goes on; the other three end the call. */
  datatype Outcome = More | GotLine(bytes: Bytes) | ReadError | Aborted

  /** What a holder of the lock has at a turn of its loop: its line so far, the carried-over tail, the unread input. */
  datatype Loop = Loop(acc: Bytes, tail: Bytes, unread: Bytes)

  /** One move of the loop takes bytes that are available now: the line ends with `r`, or it goes on with them. */
  predicate Absorbs(a: Loop, bytes: Bytes, unread: Bytes, r: Outcome, b: Loop) {
    b.unread == unread && match Gather(a.acc, bytes)
      case Finishes(line, tail) => r == GotLine(line) && b.tail == tail
      case Joins(acc) => r == More && b.acc == acc && b.tail == []
  }

  /** One `read`: interrupted, at the end of the input, or with the next bytes of it. */
  ghost predicate ReadsOnce(a: Loop, r: Outcome, b: Loop) {
    || (r == More && b == a)
    || (a.unread == [] && r == GotLine(a.acc) && b.tail == [] && b.unread == [])
    || exists n: nat :: 1 <= n <= CHUNK && n <= |a.unread| && Absorbs(a, a.unread[..n], a.unread[n..], r, b)
  }

  lemma TookLine(a: Loop, bytes: Bytes, unread: Bytes, left: Bytes)
    requires LineLen(bytes) < |bytes|
    ensures var pos := LineLen(bytes);
      Absorbs(a, bytes, unread, GotLine(a.acc + bytes[..pos]), Loop(left, bytes[pos+1..], unread))
  {
  }

  lemma TookAll(a: Loop, bytes: Bytes, unread: Bytes)
    requires LineLen(bytes) == |bytes|
    ensures Absorbs(a, bytes, unread, More, Loop(a.acc + bytes, [], unread))
  {
  }

  /** Nothing of the input is lost: the line is the first one, and what is left follows it. */
  lemma Absorbed(all: Bytes, a: Loop, bytes: Bytes, unread: Bytes, r: Outcome, b: Loop)
    requires all == a.acc + (bytes + unread) && NL !in a.acc && Absorbs(a, bytes, unread, r, b)
    ensures r.More? ==> all == b.acc + (b.tail + b.unread) && NL !in b.acc
    ensures r.GotLine? ==> r.bytes == FirstLine(all) && b.tail + b.unread == AfterLine(all)
  {
    hide LineLen, AfterLine, FirstLine;
    Continued(a.acc, bytes, unread);
    EmptyTail(b.tail, b.unread);
  }

  lemma ReadChunkTook(a: Loop, chunk: Bytes, unread: Bytes, r: Outcome, b: Loop)
    requires a.unread == chunk + unread && 1 <= |chunk| <= CHUNK && Absorbs(a, chunk, unread, r, b)
    ensures ReadsOnce(a, r, b)
  {
    hide Absorbs;
    assert a.unread[..|chunk|] == chunk && a.unread[|chunk|..] == unread;
  }

  /** An interrupted read, or one at the end of the input. */
  lemma ReadNothing(all: Bytes, a: Loop, r: Outcome, b: Loop)
    requires a.tail == [] && all == a.acc + (a.tail + a.unread) && NL !in a.acc && b == a
    requires r == More || (r == GotLine(a.acc) && a.unread == [])
    ensures ReadsOnce(a, r, b)
    ensures r.More? ==> all == b.acc + (b.tail + b.unread) && NL !in b.acc
    ensures r.GotLine? ==> r.bytes == FirstLine(all) && b.tail + b.unread == AfterLine(all)
  {
    hide Absorbs;
    if r.GotLine? {
      assert all == a.acc && a.acc[..|a.acc|] == a.acc;
      LineLenUnique(a.acc, |a.acc|);
    }
  }

  /** `ReadLineState`: bytes read beyond the current line. */
  class LineReader {
    const pending: array<Byte>
    var pendingStart: nat
    var pendingLen: nat

    ghost predicate Valid()
      reads `pendingStart, `pendingLen, pending
    {
      pending.Length == CHUNK && pendingStart <= pendingLen <= CHUNK
    }

    ghost function Tail(): Bytes
      reads `pendingStart, `pendingLen, pending
      requires Valid()
    {
      pending[pendingStart..pendingLen]
    }

    lemma NoTail()
      requires Valid() && pendingStart >= pendingLen
      ensures Tail() == []
    {
    }

    constructor ()
      ensures Valid() && Tail() == [] && fresh(pending)
    {
      pending := new Byte[CHUNK](_ => 0);
      pendingStart, pendingLen := 0, 0;
    }

    /** `read_line_from`: the first line of everything not yet returned, however the descriptor chunks
        it, written into the slot; what follows it is kept for the next call, and the accumulation
        buffer is released. */
    method ReadLineFrom(input: Input, rt: Runtime, out: array<Byte>) returns (r: Outcome)
      requires Valid() && out.Length == SLOT_SIZE && out != pending
      modifies this, pending, input, rt`heap, rt`requests, out
      ensures Valid() && !r.More?
      ensures r.GotLine? ==> r.bytes == FirstLine(old(Tail() + input.unread))
                             && Tail() + input.unread == AfterLine(old(Tail() + input.unread))
                             && Effect(old(rt.heap), {}, rt.heap, out[..], rt.rodata, r.bytes)
      ensures r.ReadError? ==> input.Failed(old(input.calls)) && rt.heap == old(rt.heap)
      ensures r.Aborted? ==> rt.Denied(old(rt.requests)) || old(|Tail() + input.unread|) >= TWO_54
    {
      hide LineLen, AfterLine, FirstLine, Tail, Effect, rt.Denied, Input.Failed, Owns;
      ghost var all, h0 := Tail() + input.unread, rt.heap;
      var cap: nat, len: nat := CHUNK, 0;
      var ok, buf := rt.Malloc(cap);
      if !ok { return Aborted; }
      Acquired(h0, rt.heap, buf, cap);
      while true
        invariant Valid() && Owns(h0, rt.heap, buf, cap) && buf in rt.heap && |rt.heap[buf]| == cap && len <= cap
        invariant CHUNK <= cap
        invariant all == rt.heap[buf][..len] + (Tail() + input.unread)
        invariant NL !in rt.heap[buf][..len]
        invariant old(rt.requests) <= rt.requests && old(input.calls) <= input.calls
        decreases input.interrupts, |input.unread|
      {
        ghost var before, calls := rt.requests, input.calls;
        r, buf, len, cap := Turn(input, rt, all, h0, buf, len, cap);
        rt.DeniedEarlier(old(rt.requests), before);
        input.FailedEarlier(old(input.calls), calls);
        if !r.More? { break; }
      }
      if r.GotLine? {
        r := Finish(rt, out, h0, buf, cap, r.bytes, old(rt.requests));
        FirstLineShort(all);
      } else if r.ReadError? {
        BufferLive(h0, rt.heap, buf, cap);
        rt.CFree(buf);
      }
    }

    /** The line copied into the slot, and the buffer released. */
    method Finish(rt: Runtime, out: array<Byte>, ghost h0: Heap, buf: nat, cap: nat, line: Bytes, ghost since: nat)
        returns (r: Outcome)
      requires out.Length == SLOT_SIZE && Owns(h0, rt.heap, buf, cap) && since <= rt.requests
      modifies rt`heap, rt`requests, out
      ensures r == GotLine(line) || r.Aborted?
      ensures r.GotLine? ==> Effect(h0, {}, rt.heap, out[..], rt.rodata, line)
      ensures r.Aborted? ==> |line| >= TWO_54 || rt.Denied(since)
    {
      hide Effect, rt.Denied, Owns, InlineSlot;
      ghost var h1 := rt.heap;
      rt.DeniedEarlier(since, rt.requests);
      ghost var requests := rt.requests;
      var ok := rt.WriteStrSlot(out, line);
      rt.DeniedEarlier(since, requests);
      if !ok { return Aborted; }
      BufferReleased(h0, h1, buf, cap, rt.heap, out[..], rt.rodata, line);
      rt.CFree(buf);
      r := GotLine(line);
    }

    /** One turn of the loop: carried-over bytes first, then room for, and one, `read`. */
    method Turn(input: Input, rt: Runtime, ghost all: Bytes, ghost h0: Heap, buf0: nat, len0: nat, cap0: nat)
      returns (r: Outcome, buf: nat, len: nat, cap: nat)
      requires Valid() && Owns(h0, rt.heap, buf0, cap0) && buf0 in rt.heap && |rt.heap[buf0]| == cap0 >= CHUNK
          && len0 <= cap0
      requires all == rt.heap[buf0][..len0] + (Tail() + input.unread) && NL !in rt.heap[buf0][..len0]
      modifies this, pending, input, rt`heap, rt`requests
      ensures Valid() && (!r.Aborted? ==> Owns(h0, rt.heap, buf, cap))
      ensures r.More? ==> buf in rt.heap && |rt.heap[buf]| == cap >= CHUNK && len <= cap
                          && all == rt.heap[buf][..len] + (Tail() + input.unread) && NL !in rt.heap[buf][..len]
      ensures r.More? ==> input.interrupts < old(input.interrupts)
                          || (input.interrupts == old(input.interrupts) && |input.unread| < |old(input.unread)|)
      ensures r.GotLine? ==> r.bytes == FirstLine(all) && Tail() + input.unread == AfterLine(all)
      ensures old(rt.requests) <= rt.requests && old(input.calls) <= input.calls
      ensures r.ReadError? ==> input.Failed(old(input.calls))
      ensures r.Aborted? ==> rt.Denied(old(rt.requests)) || |all| >= TWO_54
    {
      hide LineLen, AfterLine, FirstLine, Tail, rt.Denied, Input.Failed, Owns, Absorbs, ReadsOnce, LineSoFar;
      r, buf, len, cap := More, buf0, len0, cap0;
      if pendingStart < pendingLen {
        r, buf, len, cap := TakePending(input, rt, all, h0, buf, len, cap);
        if !r.More? { return; }
      } else {
        NoTail();
      }
      ghost var requests := rt.requests;
      var ok;
      ok, buf, cap := Room(rt, h0, buf, len, cap);
      rt.DeniedEarlier(old(rt.requests), requests);
      if !ok { return Aborted, buf, len, cap; }
      r, len := ReadChunk(input, rt, all, h0, buf, len, cap);
    }

    /** The bytes carried over: either they finish the line, or all of them join it. */
    method TakePending(input: Input, rt: Runtime, ghost all: Bytes, ghost h0: Heap, buf0: nat, len0: nat, cap0: nat)
      returns (r: Outcome, buf: nat, len: nat, cap: nat)
      requires Valid() && pendingStart < pendingLen
      requires Owns(h0, rt.heap, buf0, cap0) && buf0 in rt.heap && |rt.heap[buf0]| == cap0 >= CHUNK && len0 <= cap0
      requires all == rt.heap[buf0][..len0] + (Tail() + input.unread) && NL !in rt.heap[buf0][..len0]
      modifies `pendingStart, `pendingLen, rt`heap, rt`requests
      ensures Valid() && (!r.Aborted? ==> Owns(h0, rt.heap, buf, cap))
      ensures r.More? ==> buf in rt.heap && |rt.heap[buf]| == cap >= CHUNK && len <= cap && Tail() == []
                          && all == rt.heap[buf][..len] + (Tail() + input.unread) && NL !in rt.heap[buf][..len]
      ensures r.GotLine? ==> r.bytes == FirstLine(all) && Tail() + input.unread == AfterLine(all)
      ensures r.More? || r.GotLine? ==>
                Absorbs(Loop(old(rt.heap)[buf0][..len0], old(Tail()), input.unread), old(Tail()), input.unread, r,
                        Loop(LineSoFar(rt.heap, buf, len), Tail(), input.unread))
      ensures !r.ReadError? && old(rt.requests) <= rt.requests
      ensures r.Aborted? ==> rt.Denied(old(rt.requests)) || |all| >= TWO_54
    {
      hide LineLen, AfterLine, FirstLine, rt.Denied, Owns, Absorbs;
      var tail := pending[pendingStart..pendingLen];
      var pos := LineLen(tail);
      ghost var a := Loop(rt.heap[buf0][..len0], tail, input.unread);
      var ok;
      ok, buf, cap := Reserve(rt, h0, buf0, len0, cap0, pos);
      if !ok {
        Continued(a.acc, tail, input.unread);
        return Aborted, buf0, len0, cap0;
      }
      Put(rt, h0, buf, cap, len0, tail[..pos]);
      len := len0 + pos;
      if pos < |tail| {
        assert tail[pos+1..] == pending[pendingStart + pos + 1..pendingLen];
        pendingStart := pendingStart + pos + 1;
        if pendingStart == pendingLen {
          pendingStart, pendingLen := 0, 0;
        }
        r := GotLine(rt.heap[buf][..len]);
        TookLine(a, tail, input.unread, rt.heap[buf][..len]);
      } else {
        assert tail[..pos] == tail;
        pendingStart, pendingLen := 0, 0;
        r := More;
        TookAll(a, tail, input.unread);
      }
      Absorbed(all, a, tail, input.unread, r, Loop(LineSoFar(rt.heap, buf, len), Tail(), input.unread));
    }

    /** Bytes just read: they finish the line, and the rest is carried over, or all of them join it. */
    method TakeChunk(rt: Runtime, ghost h0: Heap, buf: nat, len0: nat, cap: nat, chunk: Bytes,
                     ghost a: Loop, ghost unread: Bytes)
      returns (r: Outcome, len: nat)
      requires Valid() && Owns(h0, rt.heap, buf, cap) && buf in rt.heap && |rt.heap[buf]| == cap
      requires |chunk| <= CHUNK && len0 + |chunk| <= cap && a.acc == rt.heap[buf][..len0]
      modifies `pendingStart, `pendingLen, pending, rt`heap
      ensures Valid() && Owns(h0, rt.heap, buf, cap) && buf in rt.heap && |rt.heap[buf]| == cap && len <= cap
      ensures (r.More? || r.GotLine?)
          && Absorbs(a, chunk, unread, r, Loop(LineSoFar(rt.heap, buf, len), Tail(), unread))
    {
      hide LineLen, Owns, Absorbs;
      Put(rt, h0, buf, cap, len0, chunk);
      len := len0 + |chunk|;
      var pos := LineLen(chunk);
      if pos < |chunk| {
        r := GotLine(rt.heap[buf][..len0 + pos]);
        assert r.bytes == rt.heap[buf][..len][..len0 + pos] == a.acc + chunk[..pos];
        CopyTail(chunk[pos+1..]);
        TookLine(a, chunk, unread, LineSoFar(rt.heap, buf, len));
      } else {
        CopyTail([]);
        r := More;
        TookAll(a, chunk, unread);
      }
    }

    /** One `read` into the free part of the buffer. */
    method ReadChunk(input: Input, rt: Runtime, ghost all: Bytes, ghost h0: Heap, buf: nat, len0: nat, cap: nat)
      returns (r: Outcome, len: nat)
      requires Valid() && Tail() == [] && Owns(h0, rt.heap, buf, cap) && buf in rt.heap && |rt.heap[buf]| == cap
          && len0 < cap
      requires all == rt.heap[buf][..len0] + (Tail() + input.unread) && NL !in rt.heap[buf][..len0]
      modifies `pendingStart, `pendingLen, pending, input, rt`heap
      ensures Valid() && Owns(h0, rt.heap, buf, cap) && buf in rt.heap && |rt.heap[buf]| == cap && len <= cap
      ensures r.More? ==> all == rt.heap[buf][..len] + (Tail() + input.unread) && NL !in rt.heap[buf][..len]
      ensures r.More? ==> input.interrupts < old(input.interrupts)
                          || (input.interrupts == old(input.interrupts) && |input.unread| < |old(input.unread)|)
      ensures r.GotLine? ==> r.bytes == FirstLine(all) && Tail() + input.unread == AfterLine(all)
      ensures r.More? || r.GotLine? ==>
                ReadsOnce(Loop(old(rt.heap)[buf][..len0], [], old(input.unread)), r,
                          Loop(LineSoFar(rt.heap, buf, len), Tail(), input.unread))
      ensures !r.Aborted? && old(input.calls) <= input.calls
      ensures r.ReadError? ==> input.Failed(old(input.calls))
    {
      hide LineLen, AfterLine, FirstLine, Owns, Absorbs, ReadsOnce, Tail;
      ghost var a := Loop(rt.heap[buf][..len0], [], input.unread);
      len := len0;
      var n, chunk := input.OsRead(if cap - len < CHUNK then cap - len else CHUNK);
      if n > 0 {
        r, len := TakeChunk(rt, h0, buf, len0, cap, chunk, a, input.unread);
        ghost var b := Loop(LineSoFar(rt.heap, buf, len), Tail(), input.unread);
        ReadChunkTook(a, chunk, input.unread, r, b);
        Absorbed(all, a, chunk, input.unread, r, b);
      } else if n == 0 {
        r := GotLine(rt.heap[buf][..len]);
        ReadNothing(all, a, r, Loop(LineSoFar(rt.heap, buf, len), Tail(), input.unread));
      } else if n == -1 {
        r := More;
        ReadNothing(all, a, r, Loop(LineSoFar(rt.heap, buf, len), Tail(), input.unread));
      } else {
        r := ReadError;
      }
    }

    method CopyTail(kept: Bytes)
      requires Valid() && |kept| <= CHUNK
      modifies `pendingStart, `pendingLen, pending
      ensures Valid() && Tail() == kept
    {
      forall i | 0 <= i < |kept| { pending[i] := kept[i]; }
      pendingStart, pendingLen := 0, |kept|;
    }
  }

  /** The first `len` bytes of the buffer. */
  function LineSoFar(heap: Heap, buf: nat, len: nat): Bytes {
    if buf in heap && len <= |heap[buf]| then heap[buf][..len] else []
  }

  /** The allocations of `h0`, and the buffer `buf` of `cap` bytes. */
  ghost predicate Owns(h0: Heap, heap: Heap, buf: nat, cap: nat) {
    && 0 < buf < TWO_64 && buf !in h0 && heap.Keys == h0.Keys + {buf} && |heap[buf]| == cap
    && forall p :: p in h0 ==> heap[p] == h0[p]
  }

  lemma BufferLive(h0: Heap, heap: Heap, buf: nat, cap: nat)
    requires Owns(h0, heap, buf, cap)
    ensures buf in heap && |heap[buf]| == cap && heap - {buf} == h0
  {
  }

  lemma Acquired(h0: Heap, heap: Heap, buf: nat, cap: nat)
    requires 0 < buf < TWO_64 && buf !in h0 && heap.Keys == h0.Keys + {buf} && |heap[buf]| == cap
    requires forall p :: p in h0 ==> p in heap && heap[p] == h0[p]
    ensures Owns(h0, heap, buf, cap)
  {
  }

  /** A slot filled while the buffer was live does not depend on it. */
  lemma BufferReleased(h0: Heap, h1: Heap, buf: nat, cap: nat, h2: Heap, s: Slot, rodata: Heap, text: Bytes)
    requires Owns(h0, h1, buf, cap) && Effect(h1, {}, h2, s, rodata, text)
    ensures buf in h2 && Effect(h0, {}, h2 - {buf}, s, rodata, text)
  {
    KindsDisjoint(s, h2, rodata);
    assert buf !in Owned(s);
  }

  lemma FirstLineShort(s: Bytes)
    ensures |FirstLine(s)| <= |s|
  {
  }

  lemma EmptyTail(tail: Bytes, rest: Bytes)
    ensures tail == [] ==> tail + rest == rest
  {
  }

  /** `grow_read_line_buffer`: doubles the buffer, or gives up. */
  method Grow(rt: Runtime, ghost h0: Heap, buf: nat, cap: nat) returns (ok: bool, grown: nat, newCap: nat)
    requires Owns(h0, rt.heap, buf, cap) && cap > 0
    modifies rt`heap, rt`requests
    ensures old(rt.requests) <= rt.requests
    ensures !ok ==> rt.heap == old(rt.heap) && (cap >= TWO_54 || rt.Denied(old(rt.requests)))
    ensures ok ==> Owns(h0, rt.heap, grown, newCap) && newCap == 2 * cap && rt.heap[grown][..cap] == old(rt.heap)[buf]
  {
    grown, newCap := buf, cap;
    if 2 * cap >= TWO_64 { return false, buf, cap; }
    newCap := 2 * cap;
    ok, grown := rt.CRealloc(buf, newCap);
    assert old(rt.heap)[buf][..cap] == old(rt.heap)[buf];
  }

  /** Doubles a full buffer. */
  method Room(rt: Runtime, ghost h0: Heap, buf: nat, len: nat, cap: nat) returns (ok: bool, out: nat, newCap: nat)
    requires Owns(h0, rt.heap, buf, cap) && buf in rt.heap && |rt.heap[buf]| == cap > 0 && len <= cap
    modifies rt`heap, rt`requests
    ensures old(rt.requests) <= rt.requests
    ensures !ok ==> len >= TWO_54 || rt.Denied(old(rt.requests))
    ensures ok ==> Owns(h0, rt.heap, out, newCap) && out in rt.heap && |rt.heap[out]| == newCap >= cap && len < newCap
    ensures ok ==> rt.heap[out][..len] == old(rt.heap)[buf][..len]
  {
    hide Owns, rt.Denied;
    ok, out, newCap := true, buf, cap;
    if len == cap {
      ok, out, newCap := Grow(rt, h0, buf, cap);
      if ok { BufferLive(h0, rt.heap, out, newCap); }
    }
  }

  /** Doubles until `extra` more bytes fit. */
  method Reserve(rt: Runtime, ghost h0: Heap, buf: nat, len: nat, cap: nat, extra: nat)
      returns (ok: bool, out: nat, newCap: nat)
    requires Owns(h0, rt.heap, buf, cap) && buf in rt.heap && |rt.heap[buf]| == cap > 0 && len <= cap
    modifies rt`heap, rt`requests
    ensures old(rt.requests) <= rt.requests
    ensures !ok ==> len + extra >= TWO_54 || rt.Denied(old(rt.requests))
    ensures ok ==> Owns(h0, rt.heap, out, newCap) && out in rt.heap
                   && |rt.heap[out]| == newCap >= cap && newCap - len >= extra
                   && rt.heap[out][..len] == old(rt.heap)[buf][..len]
  {
    hide Owns, rt.Denied;
    ok, out, newCap := true, buf, cap;
    while newCap - len < extra
      invariant ok && Owns(h0, rt.heap, out, newCap) && out in rt.heap && |rt.heap[out]| == newCap >= cap
      invariant rt.heap[out][..len] == old(rt.heap)[buf][..len]
      invariant old(rt.requests) <= rt.requests
      decreases extra + len - newCap
    {
      ghost var before, prev := rt.requests, newCap;
      ok, out, newCap := Grow(rt, h0, out, newCap);
      rt.DeniedEarlier(old(rt.requests), before);
      if !ok { return; }
      BufferLive(h0, rt.heap, out, newCap);
      assert rt.heap[out][..len] == rt.heap[out][..prev][..len];
    }
  }

  /** Copies bytes into the buffer behind the first `len`. */
  method Put(rt: Runtime, ghost h0: Heap, buf: nat, cap: nat, len: nat, bytes: Bytes)
    requires Owns(h0, rt.heap, buf, cap) && buf in rt.heap && |rt.heap[buf]| == cap && len + |bytes| <= cap
    modifies rt`heap
    ensures Owns(h0, rt.heap, buf, cap) && buf in rt.heap && |rt.heap[buf]| == cap
    ensures rt.heap[buf][..len + |bytes|] == old(rt.heap)[buf][..len] + bytes
  {
    rt.Store(buf, len, bytes);
    assert rt.heap[buf][..len + |bytes|] == rt.heap[buf][..len] + rt.heap[buf][len..len + |bytes|];
  }
}

/** Any number of threads calling the reader: each atomic step of the lock and of the loop under
    it, in any interleaving. */
module ReadLineProtocol {
  import opened Common
  import opened SlotBytes
  import opened Lines
  import opened ReadLine

  type Tid = nat

  /** Where a thread is in `ryo_read_line`. */
  datatype Phase = Idle | Spinning | Reading(acc: Bytes) | Finished(line: Bytes)

  /** `log` is the lines produced, in the order their callers held the lock. */
  datatype State = State(locked: bool, threads: map<Tid, Phase>, pending: Bytes, unread: Bytes, log: seq<Bytes>)

  predicate Holds(s: State, t: Tid) {
    t in s.threads && (s.threads[t].Reading? || s.threads[t].Finished?)
  }

  datatype Event =
    | Call(t: Tid)
    | CasFails(t: Tid)
    | CasSucceeds(t: Tid)
    | UsePending(t: Tid)
    | Read(t: Tid, n: nat)
    | Interrupted(t: Tid)
    | EndOfInput(t: Tid)
    | Release(t: Tid)

  function Goto(s: State, t: Tid, p: Phase): State { s.(threads := s.threads[t := p]) }

  /** The holder's newly available bytes either finish its line or all join it. */
  function Absorb(s: State, t: Tid, acc: Bytes, bytes: Bytes, unread: Bytes): State {
    match Gather(acc, bytes)
    case Finishes(line, tail) => State(s.locked, s.threads[t := Finished(line)], tail, unread, s.log + [line])
    case Joins(all) => State(s.locked, s.threads[t := Reading(all)], [], unread, s.log)
  }

  ghost predicate Next(s: State, e: Event, s': State) {
    e.t in s.threads && match e
      case Call(t) => s.threads[t].Idle? && s' == Goto(s, t, Spinning)
      case CasFails(t) => s.threads[t].Spinning? && s.locked && s' == s
      case CasSucceeds(t) => s.threads[t].Spinning? && !s.locked && s' == Goto(s, t, Reading([])).(locked := true)
      case UsePending(t) => s.threads[t].Reading? && s.pending != []
          && s' == Absorb(s, t, s.threads[t].acc, s.pending, s.unread)
      case Read(t, n) =>
        s.threads[t].Reading? && s.pending == [] && 1 <= n <= CHUNK && n <= |s.unread|
        && s' == Absorb(s, t, s.threads[t].acc, s.unread[..n], s.unread[n..])
      case Interrupted(t) => s.threads[t].Reading? && s.pending == [] && s' == s
      case EndOfInput(t) =>
        s.threads[t].Reading? && s.pending == [] && s.unread == []
        && s' == Goto(s, t, Finished(s.threads[t].acc)).(log := s.log + [s.threads[t].acc])
      case Release(t) => s.threads[t].Finished? && s' == Goto(s, t, Idle).(locked := false)
  }

  // ---------- The loop's moves are steps ----------

  /** The state once the holder's loop has made a move. */
  function Moved(s: State, t: Tid, r: Outcome, b: Loop): State {
    if r.GotLine? then State(s.locked, s.threads[t := Finished(r.bytes)], b.tail, b.unread, s.log + [r.bytes])
    else State(s.locked, s.threads[t := Reading(b.acc)], b.tail, b.unread, s.log)
  }

  /** What `TakePending` does is a step of the protocol. */
  lemma PendingIsStep(s: State, t: Tid, a: Loop, r: Outcome, b: Loop)
    requires t in s.threads && s.threads[t] == Reading(a.acc) && s.pending == a.tail && s.unread == a.unread
    requires a.tail != [] && Absorbs(a, a.tail, a.unread, r, b)
    ensures Next(s, UsePending(t), Moved(s, t, r, b))
  {
    hide LineLen;
  }

  /** What `ReadChunk` does, unless the read fails, is a step of the protocol. */
  lemma ReadIsStep(s: State, t: Tid, a: Loop, r: Outcome, b: Loop)
    requires t in s.threads && s.threads[t] == Reading(a.acc) && s.pending == a.tail && s.unread == a.unread
    requires a.tail == [] && ReadsOnce(a, r, b)
    ensures exists e: Event :: e.t == t && Next(s, e, Moved(s, t, r, b))
  {
    hide LineLen;
    var s' := Moved(s, t, r, b);
    if r == More && b == a {
      assert s'.threads == s.threads;
      assert Next(s, Interrupted(t), s');
    } else if a.unread == [] && r == GotLine(a.acc) && b.tail == [] && b.unread == [] {
      assert Next(s, EndOfInput(t), s');
    } else {
      var n: nat :| 1 <= n <= CHUNK && n <= |a.unread| && Absorbs(a, a.unread[..n], a.unread[n..], r, b);
      assert Next(s, Read(t, n), s');
    }
  }

  /** Only the lock holder is past the spin loop; the answers so far are the first lines of the
      stream, and gathered, pending and unread bytes make up the rest of it. */
  ghost predicate Inv(stream: Bytes, s: State) {
    && (forall t, u :: Holds(s, t) && Holds(s, u) ==> t == u)
    && (s.locked <==> exists t :: Holds(s, t))
    && |s.pending| <= CHUNK
    && (forall k :: 0 <= k < |s.log| ==> s.log[k] == Line(stream, k))
    && (forall t :: t in s.threads && s.threads[t].Reading? ==>
          NL !in s.threads[t].acc && s.threads[t].acc + (s.pending + s.unread) == After(stream, |s.log|))
    && (forall t :: t in s.threads && s.threads[t].Finished? ==>
          |s.log| > 0 && s.threads[t].line == s.log[|s.log|-1])
    && ((forall t :: t in s.threads ==> !s.threads[t].Reading?) ==> s.pending + s.unread == After(stream, |s.log|))
  }

  lemma AbsorbKeeps(stream: Bytes, s: State, t: Tid, bytes: Bytes, unread: Bytes)
    requires Inv(stream, s) && t in s.threads && s.threads[t].Reading? && |bytes| <= CHUNK
    requires bytes + unread == s.pending + s.unread
    ensures Inv(stream, Absorb(s, t, s.threads[t].acc, bytes, unread))
  {
    hide LineLen, After, Line, AfterLine, FirstLine;
    var acc := s.threads[t].acc;
    var s' := Absorb(s, t, acc, bytes, unread);
    var k := |s.log|;
    assert Holds(s, t);
    forall u | u in s.threads && u != t ensures !Holds(s, u) && s'.threads[u] == s.threads[u] {
    }
    assert Holds(s', t);
    TailAt(stream, k, acc, bytes, unread);
  }

  /** The `k`-th line of the stream, from the bytes gathered for it and the next ones. */
  lemma TailAt(stream: Bytes, k: nat, acc: Bytes, bytes: Bytes, unread: Bytes)
    requires NL !in acc && acc + (bytes + unread) == After(stream, k)
    ensures var pos := LineLen(bytes);
            if pos < |bytes| then
              Line(stream, k) == acc + bytes[..pos] && After(stream, k + 1) == bytes[pos+1..] + unread
            else
              NL !in acc + bytes && (acc + bytes) + ([] + unread) == After(stream, k)
  {
    hide LineLen, AfterLine, FirstLine;
    Continued(acc, bytes, unread);
    assert After(stream, k + 1) == AfterLine(After(stream, k));
    assert [] + unread == unread;
  }

  lemma NextKeeps(stream: Bytes, s: State, e: Event, s': State)
    requires Inv(stream, s) && Next(s, e, s')
    ensures Inv(stream, s')
  {
    hide LineLen, After, Line, AfterLine, FirstLine;
    match e
    case Call(t) => CallKeeps(stream, s, t, s');
    case CasFails(t) =>
    case CasSucceeds(t) => AcquireKeeps(stream, s, t, s');
    case UsePending(t) => AbsorbKeeps(stream, s, t, s.pending, s.unread);
    case Read(t, n) =>
      assert s.unread[..n] + s.unread[n..] == s.pending + s.unread;
      AbsorbKeeps(stream, s, t, s.unread[..n], s.unread[n..]);
    case Interrupted(t) =>
    case EndOfInput(t) => EndKeeps(stream, s, t, s');
    case Release(t) => ReleaseKeeps(stream, s, t, s');
  }

  lemma CallKeeps(stream: Bytes, s: State, t: Tid, s': State)
    requires Inv(stream, s) && Next(s, Call(t), s')
    ensures Inv(stream, s')
  {
    hide LineLen, After, Line, AfterLine, FirstLine;
    assert forall u :: Holds(s, u) <==> Holds(s', u);
    forall u | u in s.threads ensures s.threads[u].Reading? <==> s'.threads[u].Reading? {
    }
  }

  lemma AcquireKeeps(stream: Bytes, s: State, t: Tid, s': State)
    requires Inv(stream, s) && Next(s, CasSucceeds(t), s')
    ensures Inv(stream, s')
  {
    hide LineLen, After, Line, AfterLine, FirstLine;
    forall u ensures !Holds(s, u) && (Holds(s', u) <==> u == t) {
    }
    assert Holds(s', t);
    assert [] + (s.pending + s.unread) == s.pending + s.unread;
    forall u | u in s.threads ensures !s.threads[u].Reading? && !s.threads[u].Finished? {
      assert !Holds(s, u);
    }
  }

  lemma EndKeeps(stream: Bytes, s: State, t: Tid, s': State)
    requires Inv(stream, s) && Next(s, EndOfInput(t), s')
    ensures Inv(stream, s')
  {
    hide LineLen, After, Line, AfterLine, FirstLine;
    var acc := s.threads[t].acc;
    assert Holds(s, t) && Holds(s', t);
    forall u | u in s.threads && u != t ensures !Holds(s, u) && s'.threads[u] == s.threads[u] {
    }
    LastLine(stream, |s.log|, acc);
  }

  lemma LastLine(stream: Bytes, k: nat, acc: Bytes)
    requires NL !in acc && acc + ([] + []) == After(stream, k)
    ensures Line(stream, k) == acc && After(stream, k + 1) == []
  {
    assert acc[..|acc|] == acc;
    LineLenUnique(acc, |acc|);
  }

  lemma ReleaseKeeps(stream: Bytes, s: State, t: Tid, s': State)
    requires Inv(stream, s) && Next(s, Release(t), s')
    ensures Inv(stream, s')
  {
    hide LineLen, After, Line, AfterLine, FirstLine;
    assert Holds(s, t);
    forall u ensures !Holds(s', u) {
      assert u != t ==> Holds(s', u) == Holds(s, u);
    }
    forall u | u in s.threads ensures !s.threads[u].Reading? {
      assert u != t ==> !Holds(s, u);
    }
  }

  ghost predicate Start(stream: Bytes, s: State) {
    !s.locked && s.pending == [] && s.unread == stream && s.log == [] && forall t :: t in s.threads ==>
        s.threads[t].Idle?
  }

  ghost predicate Run(s: State, events: seq<Event>, states: seq<State>)
    decreases |events|
  {
    |states| == |events| + 1 && states[0] == s &&
    (events != [] ==> Next(s, events[0], states[1]) && Run(states[1], events[1..], states[1..]))
  }

  lemma {:induction false} RunKeeps(stream: Bytes, s: State, events: seq<Event>, states: seq<State>)
    requires Inv(stream, s) && Run(s, events, states)
    ensures Inv(stream, states[|events|])
    decreases |events|
  {
    if events != [] {
      NextKeeps(stream, s, events[0], states[1]);
      RunKeeps(stream, states[1], events[1..], states[1..]);
    }
  }

  /** The returned lines, the bytes the lock holder has gathered, the pending tail and the unread
      input always reassemble the stream; once the pieces have run out nothing is left. */
  ghost predicate Reassembles(pieces: seq<Bytes>, s: State) {
    var k := |s.log|;
    && (k >= |pieces| ==> s.pending == [] && s.unread == [])
    && (k < |pieces| ==> s.log == pieces[..k])
    && (forall t :: k < |pieces| && t in s.threads && s.threads[t].Reading? ==>
          Join(pieces) == Terminated(s.log) + s.threads[t].acc + s.pending + s.unread)
    && (k < |pieces| && (forall t :: t in s.threads ==> !s.threads[t].Reading?) ==>
          Join(pieces) == Terminated(s.log) + s.pending + s.unread)
  }

  lemma LogIsPieces(pieces: seq<Bytes>, s: State)
    requires NewlineFree(pieces) && pieces != [] && Inv(Join(pieces), s)
    ensures forall k :: 0 <= k < |s.log| ==> s.log[k] == if k < |pieces| then pieces[k] else []
    ensures |s.log| < |pieces| ==> s.log == pieces[..|s.log|]
  {
    hide LineLen, After, Line, AfterLine, FirstLine, Join;
    forall k | 0 <= k < |s.log| ensures s.log[k] == if k < |pieces| then pieces[k] else [] {
      LineOfJoin(pieces, k);
    }
  }

  lemma InvReassembles(pieces: seq<Bytes>, s: State)
    requires NewlineFree(pieces) && pieces != [] && Inv(Join(pieces), s)
    ensures Reassembles(pieces, s)
  {
    hide LineLen, After, Line, AfterLine, FirstLine, Join, Terminated, Inv;
    var k := |s.log|;
    LogIsPieces(pieces, s);
    AfterJoin(pieces, k);
    if k < |pieces| {
      JoinSplit(pieces, k);
      RestJoins(pieces, s);
    } else {
      NothingLeft(Join(pieces), s);
    }
  }

  lemma NothingLeft(stream: Bytes, s: State)
    requires Inv(stream, s) && After(stream, |s.log|) == []
    ensures s.pending == [] && s.unread == []
  {
    hide LineLen, After, Line, AfterLine, FirstLine;
    if t: Tid :| t in s.threads && s.threads[t].Reading? {
      assert s.threads[t].acc + (s.pending + s.unread) == [];
    }
  }

  lemma RestJoins(pieces: seq<Bytes>, s: State)
    requires Inv(Join(pieces), s) && |s.log| < |pieces|
    requires Join(pieces) == Terminated(s.log) + After(Join(pieces), |s.log|)
    ensures forall t :: t in s.threads && s.threads[t].Reading? ==>
              Join(pieces) == Terminated(s.log) + s.threads[t].acc + s.pending + s.unread
    ensures (forall t :: t in s.threads ==> !s.threads[t].Reading?) ==>
              Join(pieces) == Terminated(s.log) + s.pending + s.unread
  {
    hide LineLen, After, Line, AfterLine, FirstLine, Join, Terminated;
    forall t | t in s.threads && s.threads[t].Reading?
      ensures Join(pieces) == Terminated(s.log) + s.threads[t].acc + s.pending + s.unread
    {
      Concat4(Terminated(s.log), s.threads[t].acc, s.pending, s.unread);
    }
    Concat3(Terminated(s.log), s.pending, s.unread);
  }

  lemma Concat4(a: Bytes, b: Bytes, c: Bytes, d: Bytes)
    ensures a + (b + (c + d)) == a + b + c + d
  {
    Concat3(a, b, c + d);
    Concat3(a + b, c, d);
  }

  /** However the stream is chunked and the threads interleave, the call that is k-th to hold the
      lock gets the k-th newline-separated piece of the stream, and an empty line past the end. */
  lemma EveryCallGetsItsLine(pieces: seq<Bytes>, s: State, events: seq<Event>, states: seq<State>)
    requires NewlineFree(pieces) && pieces != []
    requires Start(Join(pieces), s) && Run(s, events, states)
    ensures var end := states[|events|];
            && (forall k :: 0 <= k < |end.log| ==> end.log[k] == if k < |pieces| then pieces[k] else [])
            && (forall t, u :: Holds(end, t) && Holds(end, u) ==> t == u)
            && |end.pending| <= CHUNK
            && Reassembles(pieces, end)
  {
    var stream := Join(pieces);
    assert Inv(stream, s) by {
      assert s.pending + s.unread == stream;
      assert forall t :: !Holds(s, t);
    }
    RunKeeps(stream, s, events, states);
    LogIsPieces(pieces, states[|events|]);
    InvReassembles(pieces, states[|events|]);
  }

  /** The same for any stream: every stream is its own pieces joined. */
  lemma EveryStreamIsServed(stream: Bytes, s: State, events: seq<Event>, states: seq<State>)
    requires Start(stream, s) && Run(s, events, states)
    ensures var end, pieces := states[|events|], Pieces(stream);
            && (forall k :: 0 <= k < |end.log| ==> end.log[k] == if k < |pieces| then pieces[k] else [])
            && (forall t, u :: Holds(end, t) && Holds(end, u) ==> t == u)
            && |end.pending| <= CHUNK
            && Reassembles(pieces, end)
  {
    hide Run, Start, Reassembles;
    JoinPieces(stream);
    EveryCallGetsItsLine(Pieces(stream), s, events, states);
  }
}
