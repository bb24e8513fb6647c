/** The pipe object of the kernel, changed in place by the read and write loops. */
module PipeDevice {
  import opened Common
  import opened ProcessStates
  import opened SemaphoreModel
  import opened PipeModel
  import opened Semaphores

  /** The process states after the woken processes were made READY. */
  function MarkReady(state: map<nat, ProcessState>, woken: seq<nat>): (s: map<nat, ProcessState>)
    ensures forall pid :: pid in s <==> pid in state || pid in woken
  {
    map pid | pid in state.Keys + (set w | w in woken) :: if pid in woken then Ready else state[pid]
  }

  lemma MarkReadyMore(state: map<nat, ProcessState>, woken: seq<nat>, next: seq<nat>)
    ensures MarkReady(MarkReady(state, woken), next) == MarkReady(state, woken + next)
  {
    assert forall pid :: pid in woken + next <==> pid in woken || pid in next;
  }

  /** The process states at the end of a burst by pid. */
  function Settled(state: map<nat, ProcessState>, woken: seq<nat>, pid: nat, blocked: bool): map<nat, ProcessState> {
    if blocked then MarkReady(state, woken)[pid := PausedBySem] else MarkReady(state, woken)
  }

  /** What is left of a burst: the same end, and the wake-ups still to come. */
  ghost predicate Rest(whole: WriteResult, woken: seq<nat>, rest: WriteResult) {
    whole == rest.(woken := woken + rest.woken)
  }

  /** The pipe of a writer about to store: as it is with a token in hand, after the wait otherwise. */
  function Acquire(p: Pipe, pid: nat, token: bool): Pipe {
    if token then p else p.(writeSem := WaitSem(p.writeSem, pid))
  }

  lemma WriteRoundRest(whole: WriteResult, woken: seq<nat>, p: Pipe, pid: nat, data: seq<byte>, i: nat, token: bool)
    requires Indexed(p) && i < |data|
    requires Rest(whole, woken, WriteBurst(p, pid, data, i, token))
    ensures var q := Acquire(p, pid, token);
            if !token && !WaitOutcome(p.writeSem).Passed? then whole == WriteResult(q, i, true, woken)
            else Rest(whole, woken + Opt(Woken(q.readSem)), WriteBurst(Store(q, data[i]), pid, data, i + 1, false))
  {
    var q := Acquire(p, pid, token);
    if !token && !WaitOutcome(p.writeSem).Passed? {
      assert woken + [] == woken;
    } else {
      var rest := WriteBurst(Store(q, data[i]), pid, data, i + 1, false).woken;
      assert woken + (Opt(Woken(q.readSem)) + rest) == woken + Opt(Woken(q.readSem)) + rest;
    }
  }

  /** What remains of the burst from byte i on. */
  ghost predicate StillToWrite(whole: WriteResult, woken: seq<nat>, p: Pipe, pid: nat, data: seq<byte>,
                               i: nat, token: bool)
    requires Indexed(p) && i <= |data|
  {
    Rest(whole, woken, WriteBurst(p, pid, data, i, token))
  }

  /** At the end of the buffer nothing is left of the burst. */
  lemma WriteEnds(whole: WriteResult, woken: seq<nat>, p: Pipe, pid: nat, data: seq<byte>, i: nat, token: bool)
    requires Indexed(p) && i == |data| && StillToWrite(whole, woken, p, pid, data, i, token)
    ensures whole == WriteResult(p, i, false, woken)
  {
    assert woken + [] == woken;
  }

  ghost predicate ReadRest(whole: ReadResult, woken: seq<nat>, rest: ReadResult) {
    whole == rest.(woken := woken + rest.woken)
  }

  lemma ReadEnds(whole: ReadResult, woken: seq<nat>, p: Pipe, pid: nat, count: nat, got: seq<byte>)
    requires Indexed(p) && (|got| >= count || p.size == 0)
    requires ReadRest(whole, woken, ReadBurst(p, pid, count, got, false))
    ensures whole == ReadResult(p, got, false, woken)
  {
    assert woken + [] == woken;
  }

  lemma ReadRoundRest(whole: ReadResult, woken: seq<nat>, p: Pipe, pid: nat, count: nat, got: seq<byte>, token: bool)
    requires Indexed(p) && |got| < count && (token || p.size > 0)
    requires ReadRest(whole, woken, ReadBurst(p, pid, count, got, token))
    ensures var q := if token then p else p.(readSem := WaitSem(p.readSem, pid));
            if !token && !WaitOutcome(p.readSem).Passed? then whole == ReadResult(q, got, true, woken)
            else ReadRest(whole, woken + Opt(Woken(q.writeSem)),
                          ReadBurst(Fetch(q), pid, count, got + [q.buffer[q.readId]], false))
  {
    var q := if token then p else p.(readSem := WaitSem(p.readSem, pid));
    if !token && !WaitOutcome(p.readSem).Passed? {
      assert woken + [] == woken;
    } else {
      var rest := ReadBurst(Fetch(q), pid, count, got + [q.buffer[q.readId]], false).woken;
      assert woken + (Opt(Woken(q.writeSem)) + rest) == woken + Opt(Woken(q.writeSem)) + rest;
    }
  }

  class PipeObject {
    const buffer: array<byte>
    const readSem: Semaphore
    const writeSem: Semaphore
    var readId: nat
    var writeId: nat
    var size: nat
    var eof: bool

    ghost function Repr(): set<object>
      reads this
    {
      {this, buffer, readSem, writeSem, readSem.waiters, writeSem.waiters,
       readSem.waiters.elements, writeSem.waiters.elements}
    }

    ghost predicate Valid()
      reads Repr()
    {
      && readSem != writeSem && readSem.waiters != writeSem.waiters
      && readSem.waiters.elements != writeSem.waiters.elements
      && buffer as object !in {readSem.waiters.elements as object, writeSem.waiters.elements as object}
      && readSem.Valid() && writeSem.Valid()
      && buffer.Length == PIPE_SIZE && readId < PIPE_SIZE && writeId < PIPE_SIZE
    }

    ghost function Model(): (p: Pipe)
      requires Valid()
      reads Repr()
      ensures Indexed(p)
    {
      Pipe(buffer[..], readId, writeId, size, eof, readSem.Model(), writeSem.Model())
    }

    /** Every waiter is a live process. */
    ghost predicate WaitersLive(processes: Processes)
      requires Valid()
      reads Repr(), processes
    {
      && (forall pid :: pid in readSem.Model().waiters ==> pid in processes.state)
      && (forall pid :: pid in writeSem.Model().waiters ==> pid in processes.state)
    }

    /** The pipe object is in order and its waiters are live processes. */
    ghost predicate Consistent(processes: Processes)
      reads Repr(), processes
    {
      Valid() && WaitersLive(processes)
    }

    /** `create_pipe`: the fields of the new slot and its two semaphores. */
    constructor ()
      ensures Valid() && fresh(Repr())
      ensures Model() == Created(buffer[..])
    {
      buffer := new byte[PIPE_SIZE];
      readSem := new Semaphore(0);
      writeSem := new Semaphore(PIPE_SIZE);
      readId, writeId, size, eof := 0, 0, 0, false;
    }

    /** The store of one byte by a writer that holds a token. */
    method StoreByte(b: byte, processes: Processes)
      requires Consistent(processes) && processes !in Repr()
      modifies Repr(), processes
      ensures Consistent(processes)
      ensures Model() == Store(old(Model()), b)
      ensures processes.state == MarkReady(old(processes.state), Opt(Woken(old(readSem.Model()))))
    {
      buffer[writeId] := b;
      writeId := (writeId + 1) % PIPE_SIZE;
      size := (size + 1) % WORD32;
      readSem.Post(processes);
    }

    /** The removal of one byte by a reader that holds a token. */
    method FetchByte(processes: Processes) returns (b: byte)
      requires Consistent(processes) && processes !in Repr()
      modifies Repr(), processes
      ensures Consistent(processes)
      ensures b == old(buffer[readId])
      ensures Model() == Fetch(old(Model()))
      ensures processes.state == MarkReady(old(processes.state), Opt(Woken(old(writeSem.Model()))))
    {
      b := buffer[readId];
      readId := (readId + 1) % PIPE_SIZE;
      size := (size - 1) % WORD32;
      writeSem.Post(processes);
    }

    /**
      One round of the write loop: the wait, unless a token is in hand, and the store. `whole` is the burst the
      round belongs to and `woken` whom it has woken so far, starting from the process states `states`.
     */
    method WriteOne(pid: nat, data: seq<byte>, i: nat, token: bool, processes: Processes,
                    ghost whole: WriteResult, ghost woken: seq<nat>, ghost states: map<nat, ProcessState>)
      returns (blocked: bool, ghost woken': seq<nat>)
      requires Consistent(processes) && processes !in Repr() && pid in processes.state
      requires i < |data| && processes.state == MarkReady(states, woken)
      requires StillToWrite(whole, woken, Model(), pid, data, i, token)
      modifies Repr(), processes
      ensures Consistent(processes) && pid in processes.state
      ensures blocked ==> whole == WriteResult(Model(), i, true, woken')
      ensures !blocked ==> StillToWrite(whole, woken', Model(), pid, data, i + 1, false)
      ensures processes.state == Settled(states, woken', pid, blocked)
    {
      WriteRoundRest(whole, woken, Model(), pid, data, i, token);
      woken' := woken;
      blocked := false;
      if !token {
        blocked := writeSem.Wait(pid, processes);
      }
      if !blocked {
        MarkReadyMore(states, woken, Opt(Woken(readSem.Model())));
        woken' := woken + Opt(Woken(readSem.Model()));
        StoreByte(data[i], processes);
      }
    }

    /**
      `write_pipe` from byte `start` to its return or to the blocking point inside `wait_sem`; `resumed` when the
      caller comes back from that point with the token it was handed.
     */
    method WritePipe(pid: nat, data: seq<byte>, start: nat, resumed: bool, processes: Processes)
      returns (i: nat, blocked: bool)
      requires Consistent(processes) && processes !in Repr() && pid in processes.state
      requires start <= |data|
      modifies Repr(), processes
      ensures Consistent(processes)
      ensures var r := WriteBurst(old(Model()), pid, data, start, resumed);
              && Model() == r.pipe && i == r.i && blocked == r.blocked
              && processes.state == Settled(old(processes.state), r.woken, pid, r.blocked)
    {
      i, blocked := start, false;
      ghost var whole, states, woken := WriteBurst(Model(), pid, data, start, resumed), processes.state, [];
      var token := resumed;
      while i < |data|
        invariant i <= |data|
        invariant Consistent(processes) && pid in processes.state
        invariant StillToWrite(whole, woken, Model(), pid, data, i, token)
        invariant processes.state == MarkReady(states, woken)
      {
        blocked, woken := WriteOne(pid, data, i, token, processes, whole, woken, states);
        if blocked {
          return;
        }
        token := false;
        i := i + 1;
      }
      WriteEnds(whole, woken, Model(), pid, data, i, token);
    }

    /** One round of the read loop, with the same bookkeeping as `WriteOne`. */
    method ReadOne(pid: nat, count: nat, got: seq<byte>, token: bool, processes: Processes,
                   ghost whole: ReadResult, ghost woken: seq<nat>, ghost states: map<nat, ProcessState>)
      returns (got': seq<byte>, blocked: bool, ghost woken': seq<nat>)
      requires Consistent(processes) && processes !in Repr() && pid in processes.state
      requires |got| < count && (token || size > 0) && processes.state == MarkReady(states, woken)
      requires ReadRest(whole, woken, ReadBurst(Model(), pid, count, got, token))
      modifies Repr(), processes
      ensures Consistent(processes) && pid in processes.state
      ensures blocked ==> whole == ReadResult(Model(), got', true, woken')
      ensures !blocked ==> |got'| == |got| + 1 && ReadRest(whole, woken', ReadBurst(Model(), pid, count, got', false))
      ensures processes.state == Settled(states, woken', pid, blocked)
    {
      ReadRoundRest(whole, woken, Model(), pid, count, got, token);
      got', woken' := got, woken;
      blocked := false;
      if !token {
        blocked := readSem.Wait(pid, processes);
      }
      if !blocked {
        MarkReadyMore(states, woken, Opt(Woken(writeSem.Model())));
        woken' := woken + Opt(Woken(writeSem.Model()));
        var b := FetchByte(processes);
        got' := got + [b];
      }
    }

    /** The loop of `read_pipe` to its return or its blocking point; `got` is what the caller's buffer holds. */
    method ReadLoop(pid: nat, count: nat, start: seq<byte>, resumed: bool, processes: Processes)
      returns (got: seq<byte>, blocked: bool)
      requires Consistent(processes) && processes !in Repr() && pid in processes.state
      requires resumed ==> |start| < count
      modifies Repr(), processes
      ensures Consistent(processes)
      ensures var r := ReadBurst(old(Model()), pid, count, start, resumed);
              && Model() == r.pipe && got == r.got && blocked == r.blocked
              && processes.state == Settled(old(processes.state), r.woken, pid, r.blocked)
    {
      got, blocked := start, false;
      ghost var whole, states, woken := ReadBurst(Model(), pid, count, start, resumed), processes.state, [];
      var token := resumed;
      while token || (|got| < count && size > 0)
        invariant Consistent(processes) && pid in processes.state
        invariant token ==> |got| < count
        invariant ReadRest(whole, woken, ReadBurst(Model(), pid, count, got, token))
        invariant processes.state == MarkReady(states, woken)
        decreases count - |got|
      {
        got, blocked, woken := ReadOne(pid, count, got, token, processes, whole, woken, states);
        if blocked {
          return;
        }
        token := false;
      }
      ReadEnds(whole, woken, Model(), pid, count, got);
    }

    /** `read_pipe`, from its entry. */
    method ReadPipe(pid: nat, count: nat, processes: Processes) returns (got: seq<byte>, blocked: bool)
      requires Consistent(processes) && processes !in Repr() && pid in processes.state
      modifies Repr(), processes
      ensures Consistent(processes)
      ensures var r := ReadEntry(old(Model()), pid, count);
              && Model() == r.pipe && got == r.got && blocked == r.blocked
              && processes.state == Settled(old(processes.state), r.woken, pid, r.blocked)
    {
      if eof && size == 0 {
        return [], false;
      }
      got, blocked := ReadLoop(pid, count, [], false, processes);
    }
  }
}
