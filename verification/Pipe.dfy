/**
  One open pipe and the processes that use it, as a machine whose steps are the uninterrupted pieces of a
  system call: from entry, or from the resumption of a process that was handed a token, to the return or to
  the next blocking point. A process that was handed a token and has not run yet is `granted`.
 */
module PipeModel {
  import opened Common
  import opened SemaphoreModel
  import Ring

  const PIPE_SIZE: nat := 1024

  datatype Pipe = Pipe(buffer: seq<byte>, readId: nat, writeId: nat, size: nat, eof: bool, readSem: Sem, writeSem: Sem)

  predicate Indexed(p: Pipe) {
    |p.buffer| == PIPE_SIZE && p.readId < PIPE_SIZE && p.writeId < PIPE_SIZE
  }

  /** `create_pipe`: an empty buffer, no byte to read, room for PIPE_SIZE bytes. */
  function Created(buffer: seq<byte>): Pipe {
    Pipe(buffer, 0, 0, 0, false, Sem(0, []), Sem(PIPE_SIZE, []))
  }

  /** The body of the write loop once a write token is held: store, advance, count, post the readers. */
  function Store(p: Pipe, b: byte): (q: Pipe)
    requires Indexed(p)
    ensures Indexed(q)
  {
    p.(buffer := p.buffer[p.writeId := b], writeId := (p.writeId + 1) % PIPE_SIZE,
       size := (p.size + 1) % WORD32, readSem := PostSem(p.readSem))
  }

  /** The body of the read loop once a read token is held, apart from the byte it delivers. */
  function Fetch(p: Pipe): (q: Pipe)
    requires Indexed(p)
    ensures Indexed(q)
  {
    p.(readId := (p.readId + 1) % PIPE_SIZE, size := (p.size - 1) % WORD32, writeSem := PostSem(p.writeSem))
  }

  function Opt<T>(o: Option<T>): seq<T> {
    if o.Some? then [o.value] else []
  }

  datatype WriteResult = WriteResult(pipe: Pipe, i: nat, blocked: bool, woken: seq<nat>)
  datatype ReadResult = ReadResult(pipe: Pipe, got: seq<byte>, blocked: bool, woken: seq<nat>)

  /** `write_pipe` from byte i on, with a token in hand or not, until it returns or blocks. */
  function WriteBurst(p: Pipe, pid: nat, data: seq<byte>, i: nat, token: bool): (r: WriteResult)
    requires Indexed(p) && i <= |data|
    ensures Indexed(r.pipe) && i <= r.i <= |data|
    decreases |data| - i
  {
    if i == |data| then WriteResult(p, i, false, [])
    else if !token && !WaitOutcome(p.writeSem).Passed? then
      WriteResult(p.(writeSem := WaitSem(p.writeSem, pid)), i, true, [])
    else
      var q := if token then p else p.(writeSem := WaitSem(p.writeSem, pid));
      var r := WriteBurst(Store(q, data[i]), pid, data, i + 1, false);
      r.(woken := Opt(Woken(q.readSem)) + r.woken)
  }

  /** The read loop of `read_pipe` with `got` already delivered, until it returns or blocks. */
  function ReadBurst(p: Pipe, pid: nat, count: nat, got: seq<byte>, token: bool): (r: ReadResult)
    requires Indexed(p) && (token ==> |got| < count)
    ensures Indexed(r.pipe) && got <= r.got
    decreases count - |got|
  {
    if !token && !(|got| < count && p.size > 0) then ReadResult(p, got, false, [])
    else if !token && !WaitOutcome(p.readSem).Passed? then
      ReadResult(p.(readSem := WaitSem(p.readSem, pid)), got, true, [])
    else
      var q := if token then p else p.(readSem := WaitSem(p.readSem, pid));
      var r := ReadBurst(Fetch(q), pid, count, got + [q.buffer[q.readId]], false);
      r.(woken := Opt(Woken(q.writeSem)) + r.woken)
  }

  /** `read_pipe` from its entry: nothing to do at the end of a closed stream. */
  function ReadEntry(p: Pipe, pid: nat, count: nat): (r: ReadResult)
    requires Indexed(p)
    ensures Indexed(r.pipe)
  {
    if p.eof && p.size == 0 then ReadResult(p, [], false, []) else ReadBurst(p, pid, count, [], false)
  }

  // ----- what one burst does to a pipe whose books balance -----

  /** The unread bytes, oldest first: the `size` ring cells from `readId`. */
  ghost function Unread(p: Pipe): seq<byte>
    requires Indexed(p) && p.size <= PIPE_SIZE
  {
    Ring.Cells(p.buffer, p.readId, p.size)
  }

  /**
    The books of a pipe with `inFlight` write tokens handed out but not yet used: write tokens, tokens in flight
    and unread bytes fill the pipe; there is one read token for each unread byte and no reader waits.
   */
  ghost predicate Balanced(p: Pipe, inFlight: nat) {
    && Indexed(p)
    && p.size <= PIPE_SIZE
    && p.writeId == (p.readId + p.size) % PIPE_SIZE
    && Wf(p.readSem) && Wf(p.writeSem)
    && p.readSem == Sem(p.size, [])
    && p.writeSem.val + inFlight + p.size == PIPE_SIZE
  }

  lemma StoreAppends(p: Pipe, inFlight: nat, b: byte)
    requires Balanced(p, inFlight + 1)
    ensures Balanced(Store(p, b), inFlight)
    ensures Unread(Store(p, b)) == Unread(p) + [b]
  {
    Ring.Push(p.buffer, p.readId, p.size, b);
    Ring.FreeCellAfterPush(PIPE_SIZE, p.readId, p.size);
  }

  lemma FetchRemoves(p: Pipe)
    requires Indexed(p) && 0 < p.size <= PIPE_SIZE
    ensures Fetch(p).size == p.size - 1
    ensures Unread(p) == [p.buffer[p.readId]] + Unread(Fetch(p))
  {
    Ring.Pop(p.buffer, p.readId, p.size);
  }

  lemma FetchBalances(p: Pipe, q: Pipe, inFlight: nat)
    requires Balanced(p, inFlight) && p.size > 0 && q == p.(readSem := Sem(p.size - 1, []))
    ensures Balanced(Fetch(q), inFlight + |Opt(Woken(p.writeSem))|)
  {
    Ring.FreeCellAfterPop(PIPE_SIZE, p.readId, p.size);
  }

  /** One round of the write loop: the pipe once the token is held, and the unread bytes after the store. */
  lemma WriteRound(p: Pipe, inFlight: nat, pid: nat, b: byte, token: bool) returns (q: Pipe)
    requires Balanced(p, inFlight + if token then 1 else 0)
    requires token || WaitOutcome(p.writeSem).Passed?
    ensures q == if token then p else p.(writeSem := WaitSem(p.writeSem, pid))
    ensures Indexed(q) && Balanced(Store(q, b), inFlight)
    ensures Unread(Store(q, b)) == Unread(p) + [b]
    ensures Woken(q.readSem) == None && Store(q, b).writeSem.waiters == p.writeSem.waiters
  {
    q := if token then p else p.(writeSem := WaitSem(p.writeSem, pid));
    StoreAppends(q, inFlight, b);
    assert Unread(q) == Unread(p);
  }

  /** The facts about a write burst: it appends what it reports, wakes nobody, stops early only by blocking. */
  ghost predicate WriteFacts(p: Pipe, inFlight: nat, pid: nat, data: seq<byte>, i: nat, r: WriteResult)
    requires Indexed(p) && p.size <= PIPE_SIZE
  {
    && Balanced(r.pipe, inFlight)
    && i <= r.i <= |data|
    && r.woken == []
    && Unread(r.pipe) == Unread(p) + data[i..r.i]
    && (r.blocked <==> r.i < |data|)
    && r.pipe.writeSem.waiters ==
       p.writeSem.waiters + (if r.blocked && |p.writeSem.waiters| < MAX_PROCESS_WAITING then [pid] else [])
  }

  /** A burst that finds no token blocks at once. */
  lemma WriteBlocks(p: Pipe, inFlight: nat, pid: nat, data: seq<byte>, i: nat)
    requires i < |data| && Balanced(p, inFlight) && !WaitOutcome(p.writeSem).Passed?
    ensures WriteFacts(p, inFlight, pid, data, i, WriteBurst(p, pid, data, i, false))
  {
    assert Unread(p.(writeSem := WaitSem(p.writeSem, pid))) == Unread(p);
  }

  /** The facts about the rest of a burst, after one round, are facts about the whole. */
  lemma WriteFactsExtend(p: Pipe, next: Pipe, inFlight: nat, pid: nat, data: seq<byte>, i: nat, r: WriteResult)
    requires i < |data| && Indexed(p) && p.size <= PIPE_SIZE && Indexed(next) && next.size <= PIPE_SIZE
    requires Unread(next) == Unread(p) + [data[i]] && next.writeSem.waiters == p.writeSem.waiters
    requires WriteFacts(next, inFlight, pid, data, i + 1, r)
    ensures WriteFacts(p, inFlight, pid, data, i, r)
  {
    assert [data[i]] + data[i + 1..r.i] == data[i..r.i];
  }

  lemma {:induction false} WriteBurstAppends(p: Pipe, inFlight: nat, pid: nat, data: seq<byte>, i: nat, token: bool)
    requires i <= |data| && (token ==> i < |data|)
    requires Balanced(p, inFlight + if token then 1 else 0)
    ensures WriteFacts(p, inFlight, pid, data, i, WriteBurst(p, pid, data, i, token))
    decreases |data| - i
  {
    if i == |data| {
    } else if !token && !WaitOutcome(p.writeSem).Passed? {
      WriteBlocks(p, inFlight, pid, data, i);
    } else {
      var q := WriteRound(p, inFlight, pid, data[i], token);
      WriteBurstAppends(Store(q, data[i]), inFlight, pid, data, i + 1, false);
      WriteFactsExtend(p, Store(q, data[i]), inFlight, pid, data, i,
                       WriteBurst(Store(q, data[i]), pid, data, i + 1, false));
    }
  }

  /** One round of the read loop: it takes the oldest unread byte. */
  lemma ReadRound(p: Pipe, inFlight: nat, pid: nat) returns (q: Pipe)
    requires Balanced(p, inFlight) && p.size > 0
    ensures WaitOutcome(p.readSem).Passed? && q == p.(readSem := WaitSem(p.readSem, pid))
    ensures Balanced(Fetch(q), inFlight + |Opt(Woken(q.writeSem))|)
    ensures Unread(p) == [q.buffer[q.readId]] + Unread(Fetch(q)) && Fetch(q).size == p.size - 1
    ensures p.writeSem.waiters == Opt(Woken(q.writeSem)) + Fetch(q).writeSem.waiters
  {
    q := p.(readSem := WaitSem(p.readSem, pid));
    FetchRemoves(q);
    FetchBalances(p, q, inFlight);
    assert Unread(q) == Unread(p);
  }

  function Min(a: nat, b: nat): nat {
    if a <= b then a else b
  }

  /** The facts about a read burst: it never blocks and takes the n oldest bytes, n as asked for and present. */
  ghost predicate ReadFacts(p: Pipe, inFlight: nat, n: nat, got: seq<byte>, r: ReadResult)
    requires Indexed(p) && n <= p.size <= PIPE_SIZE
  {
    && !r.blocked
    && p.writeSem.waiters == r.woken + r.pipe.writeSem.waiters
    && Balanced(r.pipe, inFlight + |r.woken|)
    && r.got == got + Unread(p)[..n]
    && Unread(r.pipe) == Unread(p)[n..]
  }

  lemma ReadFactsExtend(p: Pipe, next: Pipe, inFlight: nat, n: nat, got: seq<byte>, b: byte, w: seq<nat>, r: ReadResult)
    requires Indexed(p) && n < p.size <= PIPE_SIZE && Indexed(next) && next.size == p.size - 1
    requires Unread(p) == [b] + Unread(next) && p.writeSem.waiters == w + next.writeSem.waiters
    requires ReadFacts(next, inFlight + |w|, n, got + [b], r)
    ensures ReadFacts(p, inFlight, n + 1, got, r.(woken := w + r.woken))
  {
    assert Unread(p)[..n + 1] == [b] + Unread(next)[..n];
    assert got + ([b] + Unread(next)[..n]) == got + [b] + Unread(next)[..n];
  }

  lemma {:induction false} ReadBurstTakes(p: Pipe, inFlight: nat, pid: nat, count: nat, got: seq<byte>)
    requires Balanced(p, inFlight) && |got| <= count
    ensures ReadFacts(p, inFlight, Min(count - |got|, p.size), got, ReadBurst(p, pid, count, got, false))
    decreases count - |got|
  {
    if |got| < count && p.size > 0 {
      var q := ReadRound(p, inFlight, pid);
      var b, w := q.buffer[q.readId], Opt(Woken(q.writeSem));
      var next := Fetch(q);
      ReadBurstTakes(next, inFlight + |w|, pid, count, got + [b]);
      ReadFactsExtend(p, next, inFlight, Min(count - |got| - 1, next.size), got, b, w,
                      ReadBurst(next, pid, count, got + [b], false));
    }
  }
}
