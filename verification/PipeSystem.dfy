/** All interleavings of any number of readers and writers on one open pipe. */
module PipeSystem {
  import opened Common
  import opened Counting
  import opened SemaphoreModel
  import opened PipeModel
  import Ring

  /** Where a process stands in its pipe call; `granted` means woken with a token and not yet resumed. */
  datatype Proc =
    | Idle
    | Writing(data: seq<byte>, i: nat, granted: bool)
    | Reading(count: nat, got: seq<byte>, granted: bool)

  /** A byte put into the pipe, with the process that put it. */
  datatype Sent = Sent(pid: nat, b: byte)

  /** The pipe, the processes, and what the pipe has carried: bytes put, bytes taken, buffers fully written. */
  datatype Sys = Sys(pipe: Pipe, procs: map<nat, Proc>, put: seq<Sent>, taken: seq<byte>, finished: map<nat, seq<byte>>)

  datatype Event = WriteCall(pid: nat, data: seq<byte>) | ReadCall(pid: nat, count: nat) | Resume(pid: nat) | SetEof

  function ProcOf(s: Sys, pid: nat): Proc {
    if pid in s.procs then s.procs[pid] else Idle
  }

  function Finished(s: Sys, pid: nat): seq<byte> {
    if pid in s.finished then s.finished[pid] else []
  }

  function Tag(pid: nat, bytes: seq<byte>): (t: seq<Sent>)
    ensures |t| == |bytes|
  {
    seq(|bytes|, k requires 0 <= k < |bytes| => Sent(pid, bytes[k]))
  }

  function Bytes(sent: seq<Sent>): (b: seq<byte>)
    ensures |b| == |sent|
  {
    seq(|sent|, k requires 0 <= k < |sent| => sent[k].b)
  }

  function GrantOne(p: Proc): Proc {
    match p
    case Idle => Idle
    case Writing(data, i, _) => Writing(data, i, true)
    case Reading(count, got, _) => Reading(count, got, true)
  }

  function Grant(procs: map<nat, Proc>, woken: seq<nat>): map<nat, Proc> {
    map pid | pid in procs :: if pid in woken then GrantOne(procs[pid]) else procs[pid]
  }

  function RunWriter(s: Sys, pid: nat, data: seq<byte>, i: nat, token: bool): (t: Sys)
    requires Indexed(s.pipe) && i <= |data|
    ensures Indexed(t.pipe)
  {
    var r := WriteBurst(s.pipe, pid, data, i, token);
    Sys(r.pipe,
        Grant(s.procs, r.woken)[pid := if r.blocked then Writing(data, r.i, false) else Idle],
        s.put + Tag(pid, data[i..r.i]),
        s.taken,
        if r.blocked then s.finished else s.finished[pid := Finished(s, pid) + data])
  }

  function FinishRead(s: Sys, pid: nat, count: nat, got: seq<byte>, r: ReadResult): (t: Sys)
    requires Indexed(r.pipe) && got <= r.got
    ensures Indexed(t.pipe)
  {
    s.(pipe := r.pipe,
       procs := Grant(s.procs, r.woken)[pid := if r.blocked then Reading(count, r.got, false) else Idle],
       taken := s.taken + r.got[|got|..])
  }

  /** One uninterrupted step; an event that is not possible in the state changes nothing. */
  function Next(s: Sys, e: Event): (t: Sys)
    requires Indexed(s.pipe)
    ensures Indexed(t.pipe)
  {
    match e
    case SetEof => s.(pipe := s.pipe.(eof := true))
    case WriteCall(pid, data) => if ProcOf(s, pid).Idle? then RunWriter(s, pid, data, 0, false) else s
    case ReadCall(pid, count) =>
      if ProcOf(s, pid).Idle? then FinishRead(s, pid, count, [], ReadEntry(s.pipe, pid, count)) else s
    case Resume(pid) =>
      match ProcOf(s, pid)
      case Idle => s
      case Writing(data, i, granted) =>
        if granted && i < |data| then RunWriter(s, pid, data, i, true) else s
      case Reading(count, got, granted) =>
        if granted && |got| < count then FinishRead(s, pid, count, got, ReadBurst(s.pipe, pid, count, got, true)) else s
  }

  function Exec(buffer: seq<byte>, events: seq<Event>): (s: Sys)
    requires |buffer| == PIPE_SIZE
    ensures Indexed(s.pipe)
  {
    if events == [] then Sys(Created(buffer), map[], [], [], map[])
    else Next(Exec(buffer, events[..|events| - 1]), events[|events| - 1])
  }

  // ----- invariants -----

  /** The writers that hold a token in flight. */
  function GrantedSet(procs: map<nat, Proc>): set<nat> {
    set pid | pid in procs && procs[pid].Writing? && procs[pid].granted
  }

  /** A process inside a call is a writer with bytes left; readers never stay in a call. */
  ghost predicate OnlyWriters(procs: map<nat, Proc>) {
    forall pid :: pid in procs ==> procs[pid].Idle? || (procs[pid].Writing? && procs[pid].i < |procs[pid].data|)
  }

  /** The waiters of the write semaphore are distinct blocked writers. */
  ghost predicate QueueOk(procs: map<nat, Proc>, waiters: seq<nat>) {
    && Distinct(waiters)
    && forall pid :: pid in waiters ==> pid in procs && procs[pid].Writing? && !procs[pid].granted
  }

  /** The bytes pid has put so far in the call it is in. */
  function Partial(s: Sys, pid: nat): seq<byte> {
    match ProcOf(s, pid)
    case Writing(data, i, _) => if i <= |data| then data[..i] else []
    case _ => []
  }

  /** The bytes put by pid, in order. */
  function PutBy(sent: seq<Sent>, pid: nat): seq<byte> {
    if sent == [] then []
    else
      var last := sent[|sent| - 1];
      PutBy(sent[..|sent| - 1], pid) + if last.pid == pid then [last.b] else []
  }

  ghost predicate Inv(s: Sys) {
    && Balanced(s.pipe, |GrantedSet(s.procs)|)
    && OnlyWriters(s.procs)
    && QueueOk(s.procs, s.pipe.writeSem.waiters)
  }

  ghost predicate Carried(s: Sys)
    requires Indexed(s.pipe) && s.pipe.size <= PIPE_SIZE
  {
    && Bytes(s.put) == s.taken + Unread(s.pipe)
    && forall pid :: PutBy(s.put, pid) == Finished(s, pid) + Partial(s, pid)
  }

  lemma {:induction false} PutByTagged(sent: seq<Sent>, pid: nat, bytes: seq<byte>, q: nat)
    ensures PutBy(sent + Tag(pid, bytes), q) == PutBy(sent, q) + if q == pid then bytes else []
    decreases |bytes|
  {
    if bytes == [] {
      assert sent + Tag(pid, bytes) == sent;
    } else {
      var n := |bytes| - 1;
      PutByTagged(sent, pid, bytes[..n], q);
      var all := sent + Tag(pid, bytes);
      assert all[..|all| - 1] == sent + Tag(pid, bytes[..n]);
      assert bytes[..n] + [bytes[n]] == bytes;
    }
  }

  lemma {:induction false} GrantCounts(procs: map<nat, Proc>, woken: seq<nat>)
    requires QueueOk(procs, woken)
    ensures |GrantedSet(Grant(procs, woken))| == |GrantedSet(procs)| + |woken|
    decreases |woken|
  {
    if woken == [] {
      assert GrantedSet(Grant(procs, woken)) == GrantedSet(procs);
    } else {
      GrantCounts(procs, woken[..|woken| - 1]);
      GrantAdds(procs, woken);
    }
  }

  /** The last of the woken joins the token holders. */
  lemma GrantAdds(procs: map<nat, Proc>, woken: seq<nat>)
    requires woken != [] && QueueOk(procs, woken)
    ensures var n := |woken| - 1;
            && GrantedSet(Grant(procs, woken)) == GrantedSet(Grant(procs, woken[..n])) + {woken[n]}
            && woken[n] !in GrantedSet(Grant(procs, woken[..n]))
  {
    var n := |woken| - 1;
    assert woken[n] !in woken[..n];
    forall pid
      ensures pid in woken <==> pid in woken[..n] || pid == woken[n]
    {
      assert woken == woken[..n] + [woken[n]];
    }
  }

  /** A process that returns or blocks gives up the token it may have held. */
  lemma SettleCounts(procs: map<nat, Proc>, pid: nat, p: Proc)
    requires !(p.Writing? && p.granted)
    ensures |GrantedSet(procs[pid := p])| + (if pid in GrantedSet(procs) then 1 else 0) == |GrantedSet(procs)|
  {
    assert GrantedSet(procs[pid := p]) == GrantedSet(procs) - {pid};
  }

  /** A process outside the queue may return, or block at the end of the queue. */
  lemma SettleQueue(procs: map<nat, Proc>, waiters: seq<nat>, pid: nat, p: Proc)
    requires QueueOk(procs, waiters)
    requires pid in procs ==> procs[pid].Idle? || (procs[pid].Writing? && procs[pid].granted)
    ensures QueueOk(procs[pid := p], waiters)
    ensures p.Writing? && !p.granted ==> QueueOk(procs[pid := p], waiters + [pid])
  {
    assert pid !in waiters;
  }

  lemma GrantNobody(procs: map<nat, Proc>)
    ensures Grant(procs, []) == procs
  {
  }

  /** The process may enter: fresh at the start of a call, or with the token it was handed. */
  predicate Runnable(s: Sys, pid: nat, data: seq<byte>, i: nat, token: bool) {
    && i <= |data|
    && if token then ProcOf(s, pid) == Writing(data, i, true) && i < |data| else ProcOf(s, pid).Idle? && i == 0
  }

  /** The writers other than pid that hold a token in flight. */
  function OtherTokens(s: Sys, pid: nat): nat {
    |GrantedSet(s.procs) - {pid}|
  }

  lemma WriterBurst(s: Sys, pid: nat, data: seq<byte>, i: nat, token: bool)
    requires Inv(s) && Runnable(s, pid, data, i, token)
    ensures var r := WriteBurst(s.pipe, pid, data, i, token);
            && WriteFacts(s.pipe, OtherTokens(s, pid), pid, data, i, r)
            && RunWriter(s, pid, data, i, token).procs ==
               s.procs[pid := if r.blocked then Writing(data, r.i, false) else Idle]
  {
    OwnToken(s, pid, data, i, token);
    WriteBurstAppends(s.pipe, OtherTokens(s, pid), pid, data, i, token);
    GrantNobody(s.procs);
  }

  /** The tokens in flight are those of the others and the one the process may bring along. */
  lemma OwnToken(s: Sys, pid: nat, data: seq<byte>, i: nat, token: bool)
    requires Runnable(s, pid, data, i, token)
    ensures |GrantedSet(s.procs)| == OtherTokens(s, pid) + if token then 1 else 0
  {
    assert token <==> pid in GrantedSet(s.procs);
    if token {
      assert GrantedSet(s.procs) == GrantedSet(s.procs) - {pid} + {pid};
    } else {
      assert GrantedSet(s.procs) == GrantedSet(s.procs) - {pid};
    }
  }

  lemma WriterKeepsInv(s: Sys, pid: nat, data: seq<byte>, i: nat, token: bool)
    requires Inv(s) && Runnable(s, pid, data, i, token)
    ensures Inv(RunWriter(s, pid, data, i, token))
  {
    WriterBurst(s, pid, data, i, token);
    var r := WriteBurst(s.pipe, pid, data, i, token);
    var p := if r.blocked then Writing(data, r.i, false) else Idle;
    assert GrantedSet(s.procs[pid := p]) == GrantedSet(s.procs) - {pid};
    SettleQueue(s.procs, s.pipe.writeSem.waiters, pid, p);
    assert s.pipe.writeSem.waiters + [] == s.pipe.writeSem.waiters;
  }

  lemma BytesTagged(sent: seq<Sent>, taken: seq<byte>, unread: seq<byte>, pid: nat, bytes: seq<byte>)
    requires Bytes(sent) == taken + unread
    ensures Bytes(sent + Tag(pid, bytes)) == taken + (unread + bytes)
  {
    assert Bytes(sent + Tag(pid, bytes)) == Bytes(sent) + bytes;
  }

  lemma WriterCarries(s: Sys, pid: nat, data: seq<byte>, i: nat, token: bool)
    requires Inv(s) && Carried(s) && Runnable(s, pid, data, i, token)
    requires Inv(RunWriter(s, pid, data, i, token))
    ensures Carried(RunWriter(s, pid, data, i, token))
  {
    WriterBurst(s, pid, data, i, token);
    var r := WriteBurst(s.pipe, pid, data, i, token);
    BytesTagged(s.put, s.taken, Unread(s.pipe), pid, data[i..r.i]);
    forall q
      ensures var t := RunWriter(s, pid, data, i, token); PutBy(t.put, q) == Finished(t, q) + Partial(t, q)
    {
      WriterAccounts(s, pid, data, i, token, q);
    }
  }

  /** The bytes put by each process stay its finished buffers plus its part of the current one. */
  lemma WriterAccounts(s: Sys, pid: nat, data: seq<byte>, i: nat, token: bool, q: nat)
    requires Indexed(s.pipe) && Runnable(s, pid, data, i, token)
    requires var r := WriteBurst(s.pipe, pid, data, i, token);
             && (r.blocked <==> r.i < |data|)
             && RunWriter(s, pid, data, i, token).procs ==
                s.procs[pid := if r.blocked then Writing(data, r.i, false) else Idle]
    requires PutBy(s.put, q) == Finished(s, q) + Partial(s, q)
    ensures var t := RunWriter(s, pid, data, i, token); PutBy(t.put, q) == Finished(t, q) + Partial(t, q)
  {
    var r := WriteBurst(s.pipe, pid, data, i, token);
    var t := RunWriter(s, pid, data, i, token);
    PutByTagged(s.put, pid, data[i..r.i], q);
    if q != pid {
      assert Finished(t, q) == Finished(s, q) && Partial(t, q) == Partial(s, q);
    } else {
      assert Partial(s, pid) == data[..i];
      OwnAccount(s, t, pid, data, i, r.i, r.blocked);
    }
  }

  /** The finished buffers of the writer and its part of the current one grow by the bytes it stored. */
  lemma OwnAccount(s: Sys, t: Sys, pid: nat, data: seq<byte>, i: nat, j: nat, blocked: bool)
    requires i <= j <= |data| && (blocked <==> j < |data|)
    requires t.procs == s.procs[pid := if blocked then Writing(data, j, false) else Idle]
    requires t.finished == if blocked then s.finished else s.finished[pid := Finished(s, pid) + data]
    ensures Finished(t, pid) + Partial(t, pid) == Finished(s, pid) + data[..i] + data[i..j]
  {
    SliceGrows(Finished(s, pid), data, i, j);
    assert !blocked ==> data[..j] == data;
  }

  lemma SliceGrows(done: seq<byte>, data: seq<byte>, i: nat, j: nat)
    requires i <= j <= |data|
    ensures done + data[..i] + data[i..j] == done + data[..j]
  {
  }

  /** What a read call gives in a state that satisfies the invariants: the oldest bytes, without blocking. */
  lemma ReadReturns(s: Sys, pid: nat, count: nat)
    requires Inv(s)
    ensures ReadFacts(s.pipe, |GrantedSet(s.procs)|, Min(count, s.pipe.size), [], ReadEntry(s.pipe, pid, count))
  {
    if s.pipe.eof && s.pipe.size == 0 {
      assert [] + s.pipe.writeSem.waiters == s.pipe.writeSem.waiters;
    } else {
      ReadBurstTakes(s.pipe, |GrantedSet(s.procs)|, pid, count, []);
    }
  }

  /** Handing tokens to the head of the queue leaves the tail a proper queue. */
  lemma QueueSplits(procs: map<nat, Proc>, woken: seq<nat>, rest: seq<nat>)
    requires QueueOk(procs, woken + rest)
    ensures QueueOk(procs, woken) && QueueOk(Grant(procs, woken), rest)
  {
    var all := woken + rest;
    forall j, k | 0 <= j < k < |woken|
      ensures woken[j] != woken[k]
    {
      assert all[j] != all[k];
    }
    forall j, k | 0 <= j < k < |rest|
      ensures rest[j] != rest[k]
    {
      assert all[|woken| + j] != all[|woken| + k];
    }
    forall pid | pid in rest
      ensures pid !in woken
    {
      var k :| 0 <= k < |rest| && rest[k] == pid;
      forall j | 0 <= j < |woken|
        ensures woken[j] != pid
      {
        assert all[j] != all[|woken| + k];
      }
    }
    forall pid | pid in woken
      ensures pid in procs && procs[pid].Writing? && !procs[pid].granted
    {
      assert pid in all;
    }
  }

  lemma ReaderKeepsInv(s: Sys, pid: nat, count: nat)
    requires Inv(s) && ProcOf(s, pid).Idle?
    ensures Inv(Next(s, ReadCall(pid, count)))
  {
    ReadReturns(s, pid, count);
    var r := ReadEntry(s.pipe, pid, count);
    var granted := Grant(s.procs, r.woken);
    QueueSplits(s.procs, r.woken, r.pipe.writeSem.waiters);
    GrantCounts(s.procs, r.woken);
    SettleCounts(granted, pid, Idle);
    SettleQueue(granted, r.pipe.writeSem.waiters, pid, Idle);
  }

  lemma ReaderCarries(s: Sys, pid: nat, count: nat)
    requires Inv(s) && Carried(s) && ProcOf(s, pid).Idle?
    requires Inv(Next(s, ReadCall(pid, count)))
    ensures Carried(Next(s, ReadCall(pid, count)))
  {
    ReadReturns(s, pid, count);
    var t := Next(s, ReadCall(pid, count));
    var n := Min(count, s.pipe.size);
    assert Unread(s.pipe) == Unread(s.pipe)[..n] + Unread(s.pipe)[n..];
    forall q
      ensures PutBy(t.put, q) == Finished(t, q) + Partial(t, q)
    {
      ReaderAccounts(s, pid, count, q);
    }
  }

  /** Handing out tokens and returning from a read changes no writer's account. */
  lemma ReaderAccounts(s: Sys, pid: nat, count: nat, q: nat)
    requires Indexed(s.pipe) && ProcOf(s, pid).Idle?
    requires !ReadEntry(s.pipe, pid, count).blocked
    ensures var t := Next(s, ReadCall(pid, count));
            t.put == s.put && Finished(t, q) == Finished(s, q) && Partial(t, q) == Partial(s, q)
  {
  }

  /** Every step keeps the books, the order of the bytes and the account of each process. */
  lemma NextKeeps(s: Sys, e: Event)
    requires Inv(s) && Carried(s)
    ensures Inv(Next(s, e)) && Carried(Next(s, e))
  {
    match e
    case SetEof =>
      var t := Next(s, e);
      assert Unread(t.pipe) == Unread(s.pipe);
      assert forall q :: Partial(t, q) == Partial(s, q) && Finished(t, q) == Finished(s, q);
    case WriteCall(pid, data) =>
      if ProcOf(s, pid).Idle? {
        WriterKeepsInv(s, pid, data, 0, false);
        WriterCarries(s, pid, data, 0, false);
      }
    case ReadCall(pid, count) =>
      if ProcOf(s, pid).Idle? {
        ReaderKeepsInv(s, pid, count);
        ReaderCarries(s, pid, count);
      }
    case Resume(pid) =>
      match ProcOf(s, pid) {
        case Writing(data, i, granted) =>
          if granted && i < |data| {
            WriterKeepsInv(s, pid, data, i, true);
            WriterCarries(s, pid, data, i, true);
          }
        case _ =>
      }
  }

  lemma {:induction false} RunKeeps(buffer: seq<byte>, events: seq<Event>)
    requires |buffer| == PIPE_SIZE
    ensures Inv(Exec(buffer, events)) && Carried(Exec(buffer, events))
  {
    if events != [] {
      RunKeeps(buffer, events[..|events| - 1]);
      NextKeeps(Exec(buffer, events[..|events| - 1]), events[|events| - 1]);
    }
  }

  // ----- main results: every interleaving of any number of readers and writers -----

  /**
    The bytes taken out are a prefix of the bytes put in and the rest is exactly the unread part of the ring, so
    no unread byte is overwritten, lost or delivered twice; and what each process has put is, in order, the buffers
    of its finished calls followed by the part of the current one it has been able to write.
   */
  lemma BytesKeepOrder(buffer: seq<byte>, events: seq<Event>, pid: nat)
    requires |buffer| == PIPE_SIZE
    ensures var s := Exec(buffer, events);
            && s.pipe.size <= PIPE_SIZE
            && Bytes(s.put) == s.taken + Ring.Cells(s.pipe.buffer, s.pipe.readId, s.pipe.size)
            && PutBy(s.put, pid) == Finished(s, pid) + Partial(s, pid)
  {
    RunKeeps(buffer, events);
  }

  /** The books balance at every step boundary, and there is one read token for every unread byte. */
  lemma TokenBooks(buffer: seq<byte>, events: seq<Event>)
    requires |buffer| == PIPE_SIZE
    ensures var s := Exec(buffer, events);
            && s.pipe.writeSem.val + |GrantedSet(s.procs)| + s.pipe.size == PIPE_SIZE
            && s.pipe.readSem.val == s.pipe.size && s.pipe.readSem.waiters == []
  {
    RunKeeps(buffer, events);
  }

  lemma ReadStep(s: Sys, pid: nat, count: nat)
    requires Inv(s) && ProcOf(s, pid).Idle?
    ensures ProcOf(Next(s, ReadCall(pid, count)), pid).Idle?
    ensures Next(s, ReadCall(pid, count)).taken == s.taken + ReadEntry(s.pipe, pid, count).got
  {
    ReadReturns(s, pid, count);
    var got := ReadEntry(s.pipe, pid, count).got;
    assert got[0..] == got;
  }

  /** However many readers there are, a read never blocks: it returns at once with min(count, unread) bytes. */
  lemma ReadersNeverBlock(buffer: seq<byte>, events: seq<Event>, pid: nat, count: nat)
    requires |buffer| == PIPE_SIZE && ProcOf(Exec(buffer, events), pid).Idle?
    ensures var s := Exec(buffer, events);
            var t := Next(s, ReadCall(pid, count));
            && s.pipe.size <= PIPE_SIZE
            && ProcOf(t, pid).Idle?
            && t.taken == s.taken + Unread(s.pipe)[..Min(count, s.pipe.size)]
  {
    var s := Exec(buffer, events);
    RunKeeps(buffer, events);
    ReadStep(s, pid, count);
    ReadReturns(s, pid, count);
    var prefix := Unread(s.pipe)[..Min(count, s.pipe.size)];
    assert [] + prefix == prefix;
  }

  /** No lost wake-up: while a writer waits and none is on its way, the pipe is full, and the next read wakes it. */
  lemma WaitingWriterIsWoken(buffer: seq<byte>, events: seq<Event>, reader: nat, count: nat)
    requires |buffer| == PIPE_SIZE && count > 0
    ensures var s := Exec(buffer, events);
            s.pipe.writeSem.waiters != [] && GrantedSet(s.procs) == {} ==>
              && s.pipe.size == PIPE_SIZE
              && (ProcOf(s, reader).Idle? ==>
                    s.pipe.writeSem.waiters[0] in GrantedSet(Next(s, ReadCall(reader, count)).procs))
  {
    RunKeeps(buffer, events);
    var s := Exec(buffer, events);
    if s.pipe.writeSem.waiters != [] && GrantedSet(s.procs) == {} && ProcOf(s, reader).Idle? {
      ReadReturns(s, reader, count);
      ReaderKeepsInv(s, reader, count);
      var r := ReadEntry(s.pipe, reader, count);
      var first := s.pipe.writeSem.waiters[0];
      assert |r.woken| > 0 && r.woken[0] == first;
      assert first in s.pipe.writeSem.waiters;
    }
  }

  // ----- the queue of ten -----

  /** Blocked writers that are not in the waiter queue: no post will ever wake them. */
  function Stranded(procs: map<nat, Proc>, waiters: seq<nat>): set<nat> {
    set pid | pid in procs && procs[pid].Writing? && !procs[pid].granted && pid !in waiters
  }

  function LostSet(s: Sys): set<nat> {
    Stranded(s.procs, s.pipe.writeSem.waiters)
  }

  /** A process that settles is stranded exactly when it blocks without entering the queue. */
  lemma SettleStranded(procs: map<nat, Proc>, waiters: seq<nat>, pid: nat, p: Proc, enters: bool)
    requires pid !in waiters && pid !in Stranded(procs, waiters)
    ensures Stranded(procs[pid := p], waiters + if enters then [pid] else []) ==
            Stranded(procs, waiters) + if p.Writing? && !p.granted && !enters then {pid} else {}
  {
    var waiters' := waiters + if enters then [pid] else [];
    assert forall q :: q in waiters' <==> q in waiters || (enters && q == pid);
  }

  /** Ten writers wait, and the process that runs next has a byte for which it holds no token. */
  predicate Overflows(s: Sys, e: Event) {
    && |s.pipe.writeSem.waiters| == MAX_PROCESS_WAITING
    && match e
       case WriteCall(pid, data) => ProcOf(s, pid).Idle? && |data| > 0
       case Resume(pid) =>
         var p := ProcOf(s, pid);
         p.Writing? && p.granted && p.i + 1 < |p.data|
       case _ => false
  }

  lemma CrowdedBurst(s: Sys, pid: nat, data: seq<byte>, i: nat, token: bool)
    requires Inv(s) && Runnable(s, pid, data, i, token) && |s.pipe.writeSem.waiters| == MAX_PROCESS_WAITING
    ensures WriteBurst(s.pipe, pid, data, i, token).blocked <==> (i + if token then 1 else 0) < |data|
  {
    if token {
      assert WaitOutcome(Store(s.pipe, data[i]).writeSem).Dropped?;
    }
  }

  lemma WriterLost(s: Sys, pid: nat, data: seq<byte>, i: nat, token: bool)
    requires Inv(s) && Runnable(s, pid, data, i, token)
    ensures LostSet(RunWriter(s, pid, data, i, token)) ==
            LostSet(s) + if |s.pipe.writeSem.waiters| == MAX_PROCESS_WAITING && (i + if token then 1 else 0) < |data|
                         then {pid} else {}
  {
    WriterBurst(s, pid, data, i, token);
    if |s.pipe.writeSem.waiters| == MAX_PROCESS_WAITING {
      CrowdedBurst(s, pid, data, i, token);
    }
    var r := WriteBurst(s.pipe, pid, data, i, token);
    var p := if r.blocked then Writing(data, r.i, false) else Idle;
    SettleStranded(s.procs, s.pipe.writeSem.waiters, pid, p,
                   r.blocked && |s.pipe.writeSem.waiters| < MAX_PROCESS_WAITING);
  }

  lemma ReaderLost(s: Sys, pid: nat, count: nat)
    requires Inv(s) && ProcOf(s, pid).Idle?
    ensures LostSet(Next(s, ReadCall(pid, count))) == LostSet(s)
  {
    ReadReturns(s, pid, count);
    var r := ReadEntry(s.pipe, pid, count);
    var t := Next(s, ReadCall(pid, count));
    assert forall q :: q in s.pipe.writeSem.waiters <==> q in r.woken || q in r.pipe.writeSem.waiters;
    QueueSplits(s.procs, r.woken, r.pipe.writeSem.waiters);
    forall q
      ensures q in LostSet(t) <==> q in LostSet(s)
    {
      if q in r.pipe.writeSem.waiters {
        assert q in s.pipe.writeSem.waiters;
      }
    }
  }

  lemma NextLost(s: Sys, e: Event)
    requires Inv(s)
    ensures LostSet(Next(s, e)) == {} <==> LostSet(s) == {} && !Overflows(s, e)
  {
    match e
    case SetEof => assert LostSet(Next(s, e)) == LostSet(s);
    case WriteCall(pid, data) =>
      if ProcOf(s, pid).Idle? {
        WriterLost(s, pid, data, 0, false);
      }
    case ReadCall(pid, count) =>
      if ProcOf(s, pid).Idle? {
        ReaderLost(s, pid, count);
      }
    case Resume(pid) =>
      match ProcOf(s, pid) {
        case Writing(data, i, granted) =>
          if granted && i < |data| {
            WriterLost(s, pid, data, i, true);
          }
        case _ =>
      }
  }

  predicate OverflowsAt(buffer: seq<byte>, events: seq<Event>, k: nat)
    requires |buffer| == PIPE_SIZE && k < |events|
  {
    Overflows(Exec(buffer, events[..k]), events[k])
  }

  /** A run strands a writer exactly when some step overflows the queue of ten. */
  lemma {:induction false} NoWriterStranded(buffer: seq<byte>, events: seq<Event>)
    requires |buffer| == PIPE_SIZE
    ensures LostSet(Exec(buffer, events)) == {} <==> forall k :: 0 <= k < |events| ==> !OverflowsAt(buffer, events, k)
  {
    if events != [] {
      var n := |events| - 1;
      NoWriterStranded(buffer, events[..n]);
      LastLost(buffer, events, n);
      forall k | 0 <= k < n
        ensures OverflowsAt(buffer, events[..n], k) == OverflowsAt(buffer, events, k)
      {
        OverflowsBefore(buffer, events, n, k);
      }
    }
  }

  lemma OverflowsBefore(buffer: seq<byte>, events: seq<Event>, n: nat, k: nat)
    requires |buffer| == PIPE_SIZE && k < n <= |events|
    ensures OverflowsAt(buffer, events[..n], k) == OverflowsAt(buffer, events, k)
  {
    assert events[..n][..k] == events[..k];
  }

  lemma LastLost(buffer: seq<byte>, events: seq<Event>, n: nat)
    requires |buffer| == PIPE_SIZE && n + 1 == |events|
    ensures LostSet(Exec(buffer, events)) == {} <==>
              LostSet(Exec(buffer, events[..n])) == {} && !OverflowsAt(buffer, events, n)
  {
    RunKeeps(buffer, events[..n]);
    NextLost(Exec(buffer, events[..n]), events[n]);
  }
}
