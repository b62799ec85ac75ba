/**
 The batch buffer of lab01/ex6.c: writers fill all slots, then readers drain all slots,
 and only the last commit or release of a phase lets the other side in.
 Each section under `mutex` is one step; the slot access outside it is a step of its own.
 */
module BatchBuffer {
  import opened Sums

  // Asleep is a thread inside pthread_cond_wait on the condition variable of its side.
  datatype Pc = Ready | Asleep | Claimed(slot: int) | Accessed(slot: int)

  // `left` counts the turns whose slot has not been claimed yet.
  datatype Thread = Thread(pc: Pc, left: nat)

  // One line of output: which thread read or wrote which value in which slot.
  datatype Access = Access(thread: nat, slot: int, value: int)

  // A finished round: the buffer as it stood, what was written and what was read.
  datatype Round = Round(contents: seq<int>, puts: seq<Access>, gets: seq<Access>)

  datatype State = State(
    written: int, toRead: int, writeIndex: int, readIndex: int, buffer: seq<int>,
    readers: seq<Thread>, writers: seq<Thread>,
    rounds: seq<Round>, puts: seq<Access>, gets: seq<Access>)

  datatype Config = Config(size: nat, turns: nat, readers: nat, writers: nat)

  function InFlight(t: Thread): nat { if t.pc.Claimed? || t.pc.Accessed? then 1 else 0 }
  function HasAccessed(t: Thread): nat { if t.pc.Accessed? then 1 else 0 }
  function Left(t: Thread): nat { t.left }
  function IsReady(t: Thread): nat { if t.pc.Ready? then 1 else 0 }
  // Steps of the thread's own program still ahead of it, waiting not counted.
  function Ahead(t: Thread): nat {
    3 * t.left + (if t.pc.Claimed? then 2 else if t.pc.Accessed? then 1 else 0)
  }

  predicate Finished(t: Thread) { t.pc.Ready? && t.left == 0 }
  predicate Runnable(t: Thread) { !t.pc.Asleep? && !Finished(t) }

  // ---------- The steps ----------

  predicate ReaderMustWait(s: State) { s.written < |s.buffer| || s.readIndex == |s.buffer| }
  predicate WriterMustWait(s: State) { s.toRead > 0 || s.writeIndex == |s.buffer| }

  function Wake(t: Thread): Thread { if t.pc.Asleep? then t.(pc := Ready) else t }

  function WakeAll(ts: seq<Thread>): (r: seq<Thread>)
    ensures |r| == |ts|
    ensures forall i :: 0 <= i < |ts| ==> r[i] == Wake(ts[i])
  {
    if ts == [] then [] else [Wake(ts[0])] + WakeAll(ts[1..])
  }

  function ReaderEnter(s: State, r: nat): State
    requires r < |s.readers| && s.readers[r].left > 0
  {
    var t := s.readers[r];
    if ReaderMustWait(s) then
      s.(readers := s.readers[r := t.(pc := Asleep)])
    else
      s.(readers := s.readers[r := Thread(Claimed(s.readIndex), t.left - 1)], readIndex := s.readIndex + 1)
  }

  function ReaderRead(s: State, r: nat): State
    requires r < |s.readers| && s.readers[r].pc.Claimed?
    requires 0 <= s.readers[r].pc.slot < |s.buffer|
  {
    var j := s.readers[r].pc.slot;
    s.(readers := s.readers[r := s.readers[r].(pc := Accessed(j))],
       gets := s.gets + [Access(r, j, s.buffer[j])])
  }

  function ReaderLeave(s: State, r: nat): State
    requires r < |s.readers|
  {
    var readers := s.readers[r := s.readers[r].(pc := Ready)];
    if s.toRead - 1 == 0 then
      s.(readers := readers, toRead := 0, written := 0, writeIndex := 0, writers := WakeAll(s.writers),
         rounds := s.rounds + [Round(s.buffer, s.puts, s.gets)], puts := [], gets := [])
    else
      s.(readers := readers, toRead := s.toRead - 1)
  }

  function WriterEnter(s: State, w: nat): State
    requires w < |s.writers| && s.writers[w].left > 0
  {
    var t := s.writers[w];
    if WriterMustWait(s) then
      s.(writers := s.writers[w := t.(pc := Asleep)])
    else
      s.(writers := s.writers[w := Thread(Claimed(s.writeIndex), t.left - 1)], writeIndex := s.writeIndex + 1)
  }

  function WriterWrite(s: State, w: nat, value: int): State
    requires w < |s.writers| && s.writers[w].pc.Claimed?
    requires 0 <= s.writers[w].pc.slot < |s.buffer|
  {
    var j := s.writers[w].pc.slot;
    s.(writers := s.writers[w := s.writers[w].(pc := Accessed(j))], buffer := s.buffer[j := value],
       puts := s.puts + [Access(w, j, value)])
  }

  function WriterLeave(s: State, w: nat): State
    requires w < |s.writers|
  {
    var writers := s.writers[w := s.writers[w].(pc := Ready)];
    if s.written + 1 == |s.buffer| then
      s.(writers := writers, written := s.written + 1, toRead := |s.buffer|, readIndex := 0,
         readers := WakeAll(s.readers))
    else
      s.(writers := writers, written := s.written + 1)
  }

  // ---------- Runs ----------

  // The last two are spurious wake-ups, which pthread_cond_wait permits at any time.
  datatype Action = ReaderStep(r: nat) | WriterStep(w: nat, value: int) | RouseReader(r: nat) | RouseWriter(w: nat)

  predicate Enabled(s: State, a: Action) {
    match a
    case ReaderStep(r) => r < |s.readers| && Runnable(s.readers[r])
    case WriterStep(w, _) => w < |s.writers| && Runnable(s.writers[w])
    case RouseReader(r) => r < |s.readers| && s.readers[r].pc.Asleep?
    case RouseWriter(w) => w < |s.writers| && s.writers[w].pc.Asleep?
  }

  // C gives no meaning to a slot access outside the array.
  predicate Defined(s: State, a: Action)
    requires Enabled(s, a)
  {
    match a
    case ReaderStep(r) => s.readers[r].pc.Claimed? ==> 0 <= s.readers[r].pc.slot < |s.buffer|
    case WriterStep(w, _) => s.writers[w].pc.Claimed? ==> 0 <= s.writers[w].pc.slot < |s.buffer|
    case _ => true
  }

  function Apply(s: State, a: Action): State
    requires Enabled(s, a) && Defined(s, a)
  {
    match a
    case ReaderStep(r) => (
      match s.readers[r].pc
      case Ready => ReaderEnter(s, r)
      case Claimed(_) => ReaderRead(s, r)
      case Accessed(_) => ReaderLeave(s, r)
      )
    case WriterStep(w, v) => (
      match s.writers[w].pc
      case Ready => WriterEnter(s, w)
      case Claimed(_) => WriterWrite(s, w, v)
      case Accessed(_) => WriterLeave(s, w)
      )
    case RouseReader(r) => s.(readers := s.readers[r := Wake(s.readers[r])])
    case RouseWriter(w) => s.(writers := s.writers[w := Wake(s.writers[w])])
  }

  // An undefined access may lead anywhere.
  predicate Step(s: State, a: Action, s': State) {
    Enabled(s, a) && (Defined(s, a) ==> s' == Apply(s, a))
  }

  predicate Init(c: Config, s: State) {
    && s.written == s.toRead == s.writeIndex == s.readIndex == 0
    && |s.buffer| == c.size && |s.readers| == c.readers && |s.writers| == c.writers
    && (forall i :: 0 <= i < c.readers ==> s.readers[i] == Thread(Ready, c.turns))
    && (forall i :: 0 <= i < c.writers ==> s.writers[i] == Thread(Ready, c.turns))
    && s.rounds == [] && s.puts == [] && s.gets == []
  }

  predicate IsRun(c: Config, run: seq<State>, actions: seq<Action>) {
    && |run| == |actions| + 1
    && Init(c, run[0])
    && forall i :: 0 <= i < |actions| ==> Step(run[i], actions[i], run[i + 1])
  }

  // ---------- The invariant ----------

  // No two threads hold one slot, and what was accessed in this round is still in the buffer.
  predicate SlotsOk(ts: seq<Thread>, limit: int, log: seq<Access>, buffer: seq<int>) {
    && 0 <= limit <= |buffer|
    && (forall i :: 0 <= i < |ts| && InFlight(ts[i]) == 1 ==> 0 <= ts[i].pc.slot < limit)
    && (forall i, j :: 0 <= i < j < |ts| && InFlight(ts[i]) == 1 && InFlight(ts[j]) == 1 ==>
          ts[i].pc.slot != ts[j].pc.slot)
    && (forall k :: 0 <= k < |log| ==> 0 <= log[k].slot < limit && log[k].value == buffer[log[k].slot])
    && DistinctSlots(log)
    && (forall i, k :: 0 <= i < |ts| && 0 <= k < |log| && ts[i].pc.Claimed? ==> log[k].slot != ts[i].pc.slot)
  }

  predicate DistinctSlots(log: seq<Access>) {
    forall k, l :: 0 <= k < l < |log| ==> log[k].slot != log[l].slot
  }

  predicate Filling(s: State) {
    && s.toRead == 0 && 0 <= s.written < |s.buffer|
    && s.writeIndex == s.written + Sum(s.writers, InFlight)
    && Sum(s.readers, InFlight) == 0
    && s.gets == []
  }

  predicate Draining(s: State) {
    && s.written == s.writeIndex == |s.buffer|
    && 0 < s.toRead == |s.buffer| - s.readIndex + Sum(s.readers, InFlight)
    && Sum(s.writers, InFlight) == 0
    && |s.gets| == |s.buffer| - s.toRead + Sum(s.readers, HasAccessed)
  }

  // Turns ever to be taken, split into those ahead, those in flight and those completed.
  predicate Conserved(c: Config, s: State) {
    && Sum(s.writers, Left) + Sum(s.writers, InFlight) + |s.rounds| * c.size + s.written == c.writers * c.turns
    && Sum(s.readers, Left) + Sum(s.readers, InFlight) + |s.rounds| * c.size
       + (if s.toRead == 0 then 0 else c.size - s.toRead) == c.readers * c.turns
  }

  predicate NoLostWakeUp(s: State) {
    && (forall r :: 0 <= r < |s.readers| && s.readers[r].pc.Asleep? ==> ReaderMustWait(s))
    && (forall w :: 0 <= w < |s.writers| && s.writers[w].pc.Asleep? ==> WriterMustWait(s))
  }

  predicate SleepersHaveTurns(ts: seq<Thread>) {
    forall i :: 0 <= i < |ts| && ts[i].pc.Asleep? ==> ts[i].left > 0
  }

  predicate GoodRound(size: nat, r: Round) {
    && |r.contents| == |r.puts| == |r.gets| == size
    && SlotsOk([], size, r.puts, r.contents)
    && SlotsOk([], size, r.gets, r.contents)
  }

  predicate Inv(c: Config, s: State) {
    && |s.buffer| == c.size > 0 && |s.readers| == c.readers && |s.writers| == c.writers
    && (Filling(s) || Draining(s))
    && SlotsOk(s.writers, s.writeIndex, s.puts, s.buffer)
    && SlotsOk(s.readers, s.readIndex, s.gets, s.buffer)
    && |s.puts| == s.written + Sum(s.writers, HasAccessed)
    && Conserved(c, s)
    && NoLostWakeUp(s) && SleepersHaveTurns(s.readers) && SleepersHaveTurns(s.writers)
    && forall g :: 0 <= g < |s.rounds| ==> GoodRound(c.size, s.rounds[g])
  }

  lemma InitInv(c: Config, s: State)
    requires c.size > 0 && Init(c, s)
    ensures Inv(c, s)
  {
    SumConst(s.writers, Left, c.turns);
    SumConst(s.readers, Left, c.turns);
    SumConst(s.writers, InFlight, 0);
    SumConst(s.readers, InFlight, 0);
    SumConst(s.writers, HasAccessed, 0);
  }

  // What replacing one thread record does to every total that the invariant mentions.
  lemma Totals(ts: seq<Thread>, i: nat, t: Thread)
    requires i < |ts|
    ensures Sum(ts[i := t], InFlight) == Sum(ts, InFlight) - InFlight(ts[i]) + InFlight(t)
    ensures Sum(ts[i := t], HasAccessed) == Sum(ts, HasAccessed) - HasAccessed(ts[i]) + HasAccessed(t)
    ensures Sum(ts[i := t], Left) == Sum(ts, Left) - ts[i].left + t.left
    ensures InFlight(ts[i]) <= Sum(ts, InFlight) && HasAccessed(ts[i]) <= Sum(ts, HasAccessed)
  {
    SumUpdate(ts, i, t, InFlight);
    SumUpdate(ts, i, t, HasAccessed);
    SumUpdate(ts, i, t, Left);
    SumAtLeast(ts, i, InFlight);
    SumAtLeast(ts, i, HasAccessed);
  }

  lemma WakeTotals(ts: seq<Thread>)
    ensures Sum(WakeAll(ts), InFlight) == Sum(ts, InFlight)
    ensures Sum(WakeAll(ts), HasAccessed) == Sum(ts, HasAccessed)
    ensures Sum(WakeAll(ts), Left) == Sum(ts, Left)
    ensures Sum(WakeAll(ts), Ahead) == Sum(ts, Ahead)
  {
    SumSame(WakeAll(ts), ts, InFlight);
    SumSame(WakeAll(ts), ts, HasAccessed);
    SumSame(WakeAll(ts), ts, Left);
    SumSame(WakeAll(ts), ts, Ahead);
  }

  lemma NoneInFlight(ts: seq<Thread>)
    requires Sum(ts, InFlight) == 0
    ensures Sum(ts, HasAccessed) == 0
    ensures forall i :: 0 <= i < |ts| ==> InFlight(ts[i]) == 0
  {
    forall i | 0 <= i < |ts| ensures InFlight(ts[i]) == 0 {
      SumAtLeast(ts, i, InFlight);
    }
    SumConst(ts, HasAccessed, 0);
  }

  lemma SlotsAfterClaim(ts: seq<Thread>, i: nat, t: Thread, limit: int, log: seq<Access>, buffer: seq<int>)
    requires SlotsOk(ts, limit, log, buffer) && limit < |buffer| && i < |ts| && InFlight(ts[i]) == 0
    requires t.pc == Claimed(limit)
    ensures SlotsOk(ts[i := t], limit + 1, log, buffer)
  {
  }

  // A thread that stops, or never was, in flight.
  lemma SlotsAfterIdle(ts: seq<Thread>, i: nat, t: Thread, limit: int, log: seq<Access>, buffer: seq<int>)
    requires SlotsOk(ts, limit, log, buffer) && i < |ts| && InFlight(t) == 0
    ensures SlotsOk(ts[i := t], limit, log, buffer)
  {
  }

  lemma SlotsOfIdle(ts: seq<Thread>, limit: int, buffer: seq<int>)
    requires Sum(ts, InFlight) == 0 && 0 <= limit <= |buffer|
    ensures SlotsOk(ts, limit, [], buffer)
  {
    NoneInFlight(ts);
  }

  // Falling asleep and waking up.
  lemma ReaderIdleInv(c: Config, s: State, r: nat, t: Thread)
    requires Inv(c, s) && r < c.readers && InFlight(s.readers[r]) == InFlight(t) == 0 && t.left == s.readers[r].left
    requires t.pc.Asleep? ==> ReaderMustWait(s) && t.left > 0
    ensures Inv(c, s.(readers := s.readers[r := t]))
  {
    Totals(s.readers, r, t);
    SlotsAfterIdle(s.readers, r, t, s.readIndex, s.gets, s.buffer);
  }

  lemma WriterIdleInv(c: Config, s: State, w: nat, t: Thread)
    requires Inv(c, s) && w < c.writers && InFlight(s.writers[w]) == InFlight(t) == 0 && t.left == s.writers[w].left
    requires t.pc.Asleep? ==> WriterMustWait(s) && t.left > 0
    ensures Inv(c, s.(writers := s.writers[w := t]))
  {
    Totals(s.writers, w, t);
    SlotsAfterIdle(s.writers, w, t, s.writeIndex, s.puts, s.buffer);
  }

  lemma ReaderEnterInv(c: Config, s: State, r: nat)
    requires Inv(c, s) && r < c.readers && s.readers[r].pc.Ready? && s.readers[r].left > 0
    ensures Inv(c, ReaderEnter(s, r))
  {
    var t := ReaderEnter(s, r).readers[r];
    if ReaderMustWait(s) {
      ReaderIdleInv(c, s, r, t);
    } else {
      assert Draining(s);
      Totals(s.readers, r, t);
      SlotsAfterClaim(s.readers, r, t, s.readIndex, s.gets, s.buffer);
    }
  }

  lemma ReaderReadInv(c: Config, s: State, r: nat)
    requires Inv(c, s) && r < c.readers && s.readers[r].pc.Claimed?
    ensures 0 <= s.readers[r].pc.slot < |s.buffer|
    ensures Inv(c, ReaderRead(s, r))
  {
    Totals(s.readers, r, ReaderRead(s, r).readers[r]);
  }

  lemma ReaderLeaveInv(c: Config, s: State, r: nat)
    requires Inv(c, s) && r < c.readers && s.readers[r].pc.Accessed?
    ensures Inv(c, ReaderLeave(s, r))
  {
    Totals(s.readers, r, s.readers[r].(pc := Ready));
    assert Draining(s);
    if s.toRead - 1 == 0 {
      LastReaderLeaveInv(c, s, r);
    } else {
      SlotsAfterIdle(s.readers, r, s.readers[r].(pc := Ready), s.readIndex, s.gets, s.buffer);
    }
  }

  lemma FinishedRoundIsGood(c: Config, s: State)
    requires Inv(c, s) && Draining(s) && s.toRead == 1 && Sum(s.readers, HasAccessed) == 1
    ensures GoodRound(c.size, Round(s.buffer, s.puts, s.gets))
  {
    NoneInFlight(s.writers);
  }

  // The release that ends a round and lets the writers back in.
  lemma LastReaderLeaveInv(c: Config, s: State, r: nat)
    requires Inv(c, s) && Draining(s) && s.toRead == 1
    requires r < c.readers && s.readers[r].pc.Accessed?
    ensures Inv(c, ReaderLeave(s, r))
  {
    LastReaderLeaveReaders(s, r);
    LastReaderLeaveWriters(s, r);
    LastReaderLeaveRounds(c, s, r);
    assert (|s.rounds| + 1) * c.size == |s.rounds| * c.size + c.size;
  }

  lemma LastReaderLeaveRounds(c: Config, s: State, r: nat)
    requires Inv(c, s) && Draining(s) && s.toRead == 1
    requires r < c.readers && s.readers[r].pc.Accessed?
    ensures var s' := ReaderLeave(s, r); forall g :: 0 <= g < |s'.rounds| ==> GoodRound(c.size, s'.rounds[g])
  {
    LastReaderLeaveReaders(s, r);
    FinishedRoundIsGood(c, s);
  }

  lemma LastReaderLeaveReaders(s: State, r: nat)
    requires Draining(s) && s.toRead == 1 && r < |s.readers| && s.readers[r].pc.Accessed?
    requires 0 <= s.readIndex <= |s.buffer|
    ensures s.readIndex == |s.buffer| && Sum(s.readers, HasAccessed) == 1
    ensures var ts := ReaderLeave(s, r).readers;
      && Sum(ts, InFlight) == 0
      && Sum(ts, Left) + 1 == Sum(s.readers, Left) + Sum(s.readers, InFlight)
      && SlotsOk(ts, s.readIndex, [], s.buffer)
  {
    var ts := ReaderLeave(s, r).readers;
    Totals(s.readers, r, ts[r]);
    NoneInFlight(ts);
    SlotsOfIdle(ts, s.readIndex, s.buffer);
  }

  lemma LastReaderLeaveWriters(s: State, r: nat)
    requires Draining(s) && s.toRead == 1 && r < |s.readers|
    ensures var ts := ReaderLeave(s, r).writers;
      && Sum(ts, InFlight) == Sum(ts, HasAccessed) == 0
      && Sum(ts, Left) == Sum(s.writers, Left)
      && SlotsOk(ts, 0, [], s.buffer)
      && forall w :: 0 <= w < |ts| ==> !ts[w].pc.Asleep?
  {
    WakeTotals(s.writers);
    NoneInFlight(ReaderLeave(s, r).writers);
    SlotsOfIdle(ReaderLeave(s, r).writers, 0, s.buffer);
  }

  lemma WriterEnterInv(c: Config, s: State, w: nat)
    requires Inv(c, s) && w < c.writers && s.writers[w].pc.Ready? && s.writers[w].left > 0
    ensures Inv(c, WriterEnter(s, w))
  {
    var t := WriterEnter(s, w).writers[w];
    if WriterMustWait(s) {
      WriterIdleInv(c, s, w, t);
    } else {
      assert Filling(s);
      Totals(s.writers, w, t);
      SlotsAfterClaim(s.writers, w, t, s.writeIndex, s.puts, s.buffer);
    }
  }

  lemma WriterWriteInv(c: Config, s: State, w: nat, v: int)
    requires Inv(c, s) && w < c.writers && s.writers[w].pc.Claimed?
    ensures 0 <= s.writers[w].pc.slot < |s.buffer|
    ensures Inv(c, WriterWrite(s, w, v))
  {
    Totals(s.writers, w, WriterWrite(s, w, v).writers[w]);
    assert Filling(s);
  }

  lemma WriterLeaveFilling(c: Config, s: State, w: nat)
    requires Inv(c, s) && w < c.writers && s.writers[w].pc.Accessed? && s.written + 1 != |s.buffer|
    ensures Inv(c, WriterLeave(s, w))
  {
    var s' := WriterLeave(s, w);
    Totals(s.writers, w, s'.writers[w]);
    assert Filling(s);
    SlotsAfterIdle(s.writers, w, s'.writers[w], s.writeIndex, s.puts, s.buffer);
  }

  // The last commit of a round hands the buffer over to the readers.
  lemma WriterLeaveFull(c: Config, s: State, w: nat)
    requires Inv(c, s) && w < c.writers && s.writers[w].pc.Accessed? && s.written + 1 == |s.buffer|
    ensures Inv(c, WriterLeave(s, w))
  {
    var s' := WriterLeave(s, w);
    Totals(s.writers, w, s'.writers[w]);
    assert Filling(s);
    SlotsAfterIdle(s.writers, w, s'.writers[w], s.writeIndex, s.puts, s.buffer);
    WakeTotals(s.readers);
    NoneInFlight(s'.readers);
    NoneInFlight(s'.writers);
    SlotsOfIdle(s'.readers, 0, s.buffer);
  }

  lemma WriterLeaveInv(c: Config, s: State, w: nat)
    requires Inv(c, s) && w < c.writers && s.writers[w].pc.Accessed?
    ensures Inv(c, WriterLeave(s, w))
  {
    if s.written + 1 == |s.buffer| {
      WriterLeaveFull(c, s, w);
    } else {
      WriterLeaveFilling(c, s, w);
    }
  }

  lemma ReaderStepInv(c: Config, s: State, r: nat)
    requires Inv(c, s) && r < c.readers && Runnable(s.readers[r])
    ensures Defined(s, ReaderStep(r)) && Inv(c, Apply(s, ReaderStep(r)))
  {
    match s.readers[r].pc
    case Ready => ReaderEnterInv(c, s, r);
    case Claimed(_) => ReaderReadInv(c, s, r);
    case Accessed(_) => ReaderLeaveInv(c, s, r);
  }

  lemma WriterStepInv(c: Config, s: State, w: nat, v: int)
    requires Inv(c, s) && w < c.writers && Runnable(s.writers[w])
    ensures Defined(s, WriterStep(w, v)) && Inv(c, Apply(s, WriterStep(w, v)))
  {
    match s.writers[w].pc
    case Ready => WriterEnterInv(c, s, w);
    case Claimed(_) => WriterWriteInv(c, s, w, v);
    case Accessed(_) => WriterLeaveInv(c, s, w);
  }

  lemma StepInv(c: Config, s: State, a: Action, s': State)
    requires Inv(c, s) && Step(s, a, s')
    ensures Defined(s, a) && Inv(c, s')
  {
    match a
    case ReaderStep(r) => ReaderStepInv(c, s, r);
    case WriterStep(w, v) => WriterStepInv(c, s, w, v);
    case RouseReader(r) => ReaderIdleInv(c, s, r, Wake(s.readers[r]));
    case RouseWriter(w) => WriterIdleInv(c, s, w, Wake(s.writers[w]));
  }

  /** Every state of every run, spurious wake-ups included, satisfies the invariant. */
  lemma {:induction false} RunInv(c: Config, run: seq<State>, actions: seq<Action>, i: nat)
    requires c.size > 0 && IsRun(c, run, actions) && i < |run|
    ensures Inv(c, run[i])
  {
    if i == 0 {
      InitInv(c, run[0]);
    } else {
      RunInv(c, run, actions, i - 1);
      StepInv(c, run[i - 1], actions[i - 1], run[i]);
    }
  }

  // ---------- What a round exchanges ----------

  function Slots(log: seq<Access>): set<int> {
    set k | 0 <= k < |log| :: log[k].slot
  }

  lemma {:induction false} SlotsCount(log: seq<Access>)
    requires DistinctSlots(log)
    ensures |Slots(log)| == |log|
  {
    if log != [] {
      var n := |log| - 1;
      SlotsCount(log[..n]);
      assert Slots(log) == Slots(log[..n]) + {log[n].slot} by {
        forall x | x in Slots(log) ensures x in Slots(log[..n]) + {log[n].slot} {
          var k :| 0 <= k < |log| && log[k].slot == x;
          assert k < n ==> log[..n][k] == log[k];
        }
        assert forall k :: 0 <= k < n ==> log[..n][k] == log[k];
      }
    }
  }

  function Range(n: nat): (r: set<int>)
    ensures |r| == n && forall i :: i in r <==> 0 <= i < n
  {
    if n == 0 then {} else Range(n - 1) + {n - 1}
  }

  /** As many accesses as slots, all in bounds and pairwise distinct, leave no slot out. */
  lemma SlotIsAccessed(log: seq<Access>, j: int) returns (k: nat)
    requires DistinctSlots(log) && forall k :: 0 <= k < |log| ==> 0 <= log[k].slot < |log|
    requires 0 <= j < |log|
    ensures k < |log| && log[k].slot == j
  {
    if j !in Slots(log) {
      SlotsCount(log);
      SubsetCount(Slots(log), Range(|log|) - {j});
      assert false;
    }
    k :| 0 <= k < |log| && log[k].slot == j;
  }

  lemma SubsetCount(a: set<int>, b: set<int>)
    requires a <= b
    ensures |a| <= |b|
  {
    assert b == a + (b - a);
  }

  /** In every finished round of every run each slot was written exactly once and read
      exactly once, and the reader got the value that was written. */
  lemma SlotExchanged(c: Config, run: seq<State>, actions: seq<Action>, i: nat, g: nat, j: nat) returns (k: nat, l: nat)
    requires c.size > 0 && IsRun(c, run, actions) && i < |run|
    requires g < |run[i].rounds| && j < c.size
    ensures var r := run[i].rounds[g];
      && k < |r.puts| == c.size && l < |r.gets| == c.size
      && (forall n :: 0 <= n < c.size ==> (r.puts[n].slot == j <==> n == k) && (r.gets[n].slot == j <==> n == l))
      && r.gets[l].value == r.puts[k].value
  {
    RunInv(c, run, actions, i);
    var r := run[i].rounds[g];
    assert GoodRound(c.size, r);
    k := SlotIsAccessed(r.puts, j);
    l := SlotIsAccessed(r.gets, j);
  }

  function Values(log: seq<Access>): seq<int> {
    seq(|log|, k requires 0 <= k < |log| => log[k].value)
  }

  lemma {:induction false} ValuesOfAll(log: seq<Access>, contents: seq<int>)
    requires |log| == |contents| && SlotsOk([], |log|, log, contents)
    ensures multiset(Values(log)) == multiset(contents)
  {
    if contents != [] {
      var n := |contents| - 1;
      var k := SlotIsAccessed(log, n);
      WithoutLastSlot(log, contents, k);
      ValuesOfAll(log[..k] + log[k + 1..], contents[..n]);
      TakeOut(Values(log), k);
      TakeOut(contents, n);
      assert contents[..n] + contents[n + 1..] == contents[..n];
      assert Values(log[..k] + log[k + 1..]) == Values(log)[..k] + Values(log)[k + 1..];
    }
  }

  lemma TakeOut(vs: seq<int>, k: nat)
    requires k < |vs|
    ensures multiset(vs) == multiset(vs[..k] + vs[k + 1..]) + multiset{vs[k]}
  {
    assert vs == vs[..k] + [vs[k]] + vs[k + 1..];
  }

  lemma WithoutLastSlot(log: seq<Access>, contents: seq<int>, k: nat)
    requires k < |log| == |contents| && SlotsOk([], |log|, log, contents) && log[k].slot == |log| - 1
    ensures SlotsOk([], |log| - 1, log[..k] + log[k + 1..], contents[..|log| - 1])
  {
    var rest := log[..k] + log[k + 1..];
    forall i | 0 <= i < |rest| ensures rest[i] == log[if i < k then i else i + 1] {
    }
  }

  function AllPuts(rounds: seq<Round>): seq<Access> {
    if rounds == [] then [] else AllPuts(rounds[..|rounds| - 1]) + rounds[|rounds| - 1].puts
  }

  function AllGets(rounds: seq<Round>): seq<Access> {
    if rounds == [] then [] else AllGets(rounds[..|rounds| - 1]) + rounds[|rounds| - 1].gets
  }

  lemma ValuesConcat(a: seq<Access>, b: seq<Access>)
    ensures multiset(Values(a + b)) == multiset(Values(a)) + multiset(Values(b))
  {
    assert Values(a + b) == Values(a) + Values(b);
  }

  lemma RoundValues(size: nat, r: Round)
    requires GoodRound(size, r)
    ensures multiset(Values(r.gets)) == multiset(Values(r.puts))
  {
    ValuesOfAll(r.puts, r.contents);
    ValuesOfAll(r.gets, r.contents);
  }

  /** Finished rounds lose, invent and repeat no value. */
  lemma {:induction false} ValuesExchanged(size: nat, rounds: seq<Round>)
    requires forall g :: 0 <= g < |rounds| ==> GoodRound(size, rounds[g])
    ensures multiset(Values(AllGets(rounds))) == multiset(Values(AllPuts(rounds)))
  {
    if rounds != [] {
      var n := |rounds| - 1;
      RoundValues(size, rounds[n]);
      ValuesExchanged(size, rounds[..n]);
      ValuesConcat(AllPuts(rounds[..n]), rounds[n].puts);
      ValuesConcat(AllGets(rounds[..n]), rounds[n].gets);
    }
  }

  // ---------- Who takes the turns ----------

  function TurnsOf(log: seq<Access>, thread: nat): nat {
    if log == [] then 0
    else TurnsOf(log[..|log| - 1], thread) + (if log[|log| - 1].thread == thread then 1 else 0)
  }

  // Everything written or read so far, in the order of the output.
  function Puts(s: State): seq<Access> { AllPuts(s.rounds) + s.puts }
  function Gets(s: State): seq<Access> { AllGets(s.rounds) + s.gets }

  function TurnsToCome(t: Thread): nat { t.left + (if t.pc.Claimed? then 1 else 0) }

  predicate TurnsCounted(ts: seq<Thread>, log: seq<Access>, turns: nat) {
    forall i :: 0 <= i < |ts| ==> TurnsOf(log, i) + TurnsToCome(ts[i]) == turns
  }

  lemma TurnTaken(ts: seq<Thread>, i: nat, t: Thread, log: seq<Access>, a: Access, turns: nat)
    requires TurnsCounted(ts, log, turns) && i < |ts| && a.thread == i && TurnsToCome(t) + 1 == TurnsToCome(ts[i])
    ensures TurnsCounted(ts[i := t], log + [a], turns)
  {
    assert (log + [a])[..|log|] == log;
  }

  predicate AllTurnsCounted(c: Config, s: State) {
    TurnsCounted(s.readers, Gets(s), c.turns) && TurnsCounted(s.writers, Puts(s), c.turns)
  }

  lemma ReaderReadTurns(c: Config, s: State, r: nat)
    requires AllTurnsCounted(c, s) && Enabled(s, ReaderStep(r)) && Defined(s, ReaderStep(r)) && s.readers[r].pc.Claimed?
    ensures AllTurnsCounted(c, ReaderRead(s, r))
  {
    var s' := ReaderRead(s, r);
    var line := s'.gets[|s.gets|];
    assert Gets(s') == Gets(s) + [line];
    TurnTaken(s.readers, r, s'.readers[r], Gets(s), line, c.turns);
  }

  lemma WriterWriteTurns(c: Config, s: State, w: nat, v: int)
    requires AllTurnsCounted(c, s) && Enabled(s, WriterStep(w, v)) && Defined(s, WriterStep(w, v))
    requires s.writers[w].pc.Claimed?
    ensures AllTurnsCounted(c, WriterWrite(s, w, v))
  {
    var s' := WriterWrite(s, w, v);
    var line := s'.puts[|s.puts|];
    assert Puts(s') == Puts(s) + [line];
    TurnTaken(s.writers, w, s'.writers[w], Puts(s), line, c.turns);
  }

  lemma ReaderLeaveTurns(c: Config, s: State, r: nat)
    requires AllTurnsCounted(c, s) && r < |s.readers| && s.readers[r].pc.Accessed?
    ensures AllTurnsCounted(c, ReaderLeave(s, r))
  {
    var s' := ReaderLeave(s, r);
    if s.toRead == 1 {
      assert s'.rounds[..|s.rounds|] == s.rounds;
    }
    assert Gets(s') == Gets(s) && Puts(s') == Puts(s);
  }

  lemma WriterLeaveTurns(c: Config, s: State, w: nat)
    requires AllTurnsCounted(c, s) && w < |s.writers| && s.writers[w].pc.Accessed?
    ensures AllTurnsCounted(c, WriterLeave(s, w))
  {
    assert Gets(WriterLeave(s, w)) == Gets(s) && Puts(WriterLeave(s, w)) == Puts(s);
  }

  lemma EnterTurns(c: Config, s: State, i: nat)
    requires AllTurnsCounted(c, s)
    ensures i < |s.readers| && s.readers[i].pc.Ready? && s.readers[i].left > 0 ==> AllTurnsCounted(c, ReaderEnter(s, i))
    ensures i < |s.writers| && s.writers[i].pc.Ready? && s.writers[i].left > 0 ==> AllTurnsCounted(c, WriterEnter(s, i))
  {
  }

  lemma StepTurns(c: Config, s: State, a: Action)
    requires AllTurnsCounted(c, s) && Enabled(s, a) && Defined(s, a)
    ensures AllTurnsCounted(c, Apply(s, a))
  {
    match a
    case ReaderStep(r) => {
      match s.readers[r].pc
      case Ready => EnterTurns(c, s, r);
      case Claimed(_) => ReaderReadTurns(c, s, r);
      case Accessed(_) => ReaderLeaveTurns(c, s, r);
    }
    case WriterStep(w, v) => {
      match s.writers[w].pc
      case Ready => EnterTurns(c, s, w);
      case Claimed(_) => WriterWriteTurns(c, s, w, v);
      case Accessed(_) => WriterLeaveTurns(c, s, w);
    }
    case _ =>
      assert Gets(Apply(s, a)) == Gets(s) && Puts(Apply(s, a)) == Puts(s);
  }

  /** Every access in the output is charged to the thread that made it: taken and remaining turns always add up. */
  lemma {:induction false} RunTurns(c: Config, run: seq<State>, actions: seq<Action>, i: nat)
    requires c.size > 0 && IsRun(c, run, actions) && i < |run|
    ensures AllTurnsCounted(c, run[i])
  {
    if i > 0 {
      RunTurns(c, run, actions, i - 1);
      RunInv(c, run, actions, i - 1);
      StepInv(c, run[i - 1], actions[i - 1], run[i]);
      StepTurns(c, run[i - 1], actions[i - 1]);
    }
  }

  // ---------- What the threads do, told by the output ----------

  // What a step writes or reads, by where its thread stands.
  function WritesAt(s: State, a: Action): seq<Access> {
    if a.WriterStep? && a.w < |s.writers| && s.writers[a.w].pc.Claimed?
    then [Access(a.w, s.writers[a.w].pc.slot, a.value)] else []
  }

  function ReadsAt(s: State, a: Action): seq<Access> {
    if a.ReaderStep? && a.r < |s.readers| && s.readers[a.r].pc.Claimed? && 0 <= s.readers[a.r].pc.slot < |s.buffer|
    then [Access(a.r, s.readers[a.r].pc.slot, s.buffer[s.readers[a.r].pc.slot])] else []
  }

  function Writes(run: seq<State>, actions: seq<Action>, n: nat): seq<Access>
    requires n <= |actions| < |run|
  {
    if n == 0 then [] else Writes(run, actions, n - 1) + WritesAt(run[n - 1], actions[n - 1])
  }

  function Reads(run: seq<State>, actions: seq<Action>, n: nat): seq<Access>
    requires n <= |actions| < |run|
  {
    if n == 0 then [] else Reads(run, actions, n - 1) + ReadsAt(run[n - 1], actions[n - 1])
  }

  lemma StepOutput(s: State, a: Action)
    requires Enabled(s, a) && Defined(s, a)
    ensures Puts(Apply(s, a)) == Puts(s) + WritesAt(s, a) && Gets(Apply(s, a)) == Gets(s) + ReadsAt(s, a)
  {
    var s' := Apply(s, a);
    if s'.rounds != s.rounds {
      assert s'.rounds[..|s.rounds|] == s.rounds;
    }
  }

  lemma NoOutput(c: Config, s: State)
    requires Init(c, s)
    ensures Puts(s) == [] && Gets(s) == []
  {
  }

  /** In every run the writes are those of the values that the writers were given, and a read gives what
      its slot holds. */
  lemma {:induction false} OutputIsOfActions(c: Config, run: seq<State>, actions: seq<Action>, n: nat)
    requires c.size > 0 && IsRun(c, run, actions) && n < |run|
    ensures Puts(run[n]) == Writes(run, actions, n) && Gets(run[n]) == Reads(run, actions, n)
  {
    hide Apply, Enabled, Defined, Inv, Puts, Gets, WritesAt, ReadsAt;
    if n == 0 {
      NoOutput(c, run[0]);
    } else {
      OutputIsOfActions(c, run, actions, n - 1);
      RunInv(c, run, actions, n - 1);
      StepInv(c, run[n - 1], actions[n - 1], run[n]);
      StepOutput(run[n - 1], actions[n - 1]);
    }
  }

  /** A writer stores the value it was given in the slot it claimed, and no other step changes the buffer. */
  lemma BufferIsWritten(c: Config, run: seq<State>, actions: seq<Action>, i: nat)
    requires c.size > 0 && IsRun(c, run, actions) && i < |actions|
    ensures var s, a := run[i], actions[i];
      run[i + 1].buffer ==
        if a.WriterStep? && a.w < |s.writers| && s.writers[a.w].pc.Claimed? && 0 <= s.writers[a.w].pc.slot < |s.buffer|
        then s.buffer[s.writers[a.w].pc.slot := a.value] else s.buffer
  {
    RunInv(c, run, actions, i);
    StepInv(c, run[i], actions[i], run[i + 1]);
  }

  function IsClaimed(t: Thread): nat { if t.pc.Claimed? then 1 else 0 }

  lemma {:induction false} ClaimedOrAccessed(ts: seq<Thread>)
    ensures Sum(ts, InFlight) == Sum(ts, IsClaimed) + Sum(ts, HasAccessed)
  {
    if ts != [] {
      ClaimedOrAccessed(ts[1..]);
    }
  }

  // Slots of this round that have been claimed for a read or for a write, and writes of it that are committed.
  function ReadsBegun(s: State): nat { |s.gets| + Sum(s.readers, IsClaimed) }
  function WritesBegun(s: State): nat { |s.puts| + Sum(s.writers, IsClaimed) }
  function WritesDone(s: State): int { |s.puts| - Sum(s.writers, HasAccessed) }

  /** A reader is let in, to the next slot, if and only if the batch is written and not all claimed; else it sleeps. */
  lemma ReaderLetIn(c: Config, run: seq<State>, actions: seq<Action>, i: nat, r: nat)
    requires c.size > 0 && IsRun(c, run, actions) && i < |actions| && actions[i] == ReaderStep(r)
    requires r < |run[i].readers| && run[i].readers[r].pc.Ready?
    ensures var s, s', left := run[i], run[i + 1], run[i].readers[r].left;
      && s'.readers == s.readers[r :=
           if WritesDone(s) == c.size && ReadsBegun(s) < c.size then Thread(Claimed(ReadsBegun(s)), left - 1)
           else Thread(Asleep, left)]
      && s'.writers == s.writers && s'.rounds == s.rounds
  {
    RunInv(c, run, actions, i);
    ClaimedOrAccessed(run[i].readers);
  }

  /** A writer is let in, to the next slot, if and only if the batch is not all claimed; else it sleeps. */
  lemma WriterLetIn(c: Config, run: seq<State>, actions: seq<Action>, i: nat, w: nat, v: int)
    requires c.size > 0 && IsRun(c, run, actions) && i < |actions| && actions[i] == WriterStep(w, v)
    requires w < |run[i].writers| && run[i].writers[w].pc.Ready?
    ensures var s, s', left := run[i], run[i + 1], run[i].writers[w].left;
      && s'.writers == s.writers[w :=
           if WritesBegun(s) < c.size then Thread(Claimed(WritesBegun(s)), left - 1) else Thread(Asleep, left)]
      && s'.readers == s.readers && s'.rounds == s.rounds
  {
    RunInv(c, run, actions, i);
    ClaimedOrAccessed(run[i].writers);
    if Draining(run[i]) {
      NoneInFlight(run[i].writers);
    }
  }

  // Every sleeper is awake, and nobody else is touched.
  predicate AllWoken(ts: seq<Thread>, ts': seq<Thread>) {
    && |ts'| == |ts|
    && forall i :: 0 <= i < |ts| ==> ts'[i] == if ts[i].pc.Asleep? then Thread(Ready, ts[i].left) else ts[i]
  }

  /** The round is closed, and the writers woken, just when the last of its readers leaves. */
  lemma LastReaderCloses(c: Config, run: seq<State>, actions: seq<Action>, i: nat, r: nat)
    requires c.size > 0 && IsRun(c, run, actions) && i < |actions| && actions[i] == ReaderStep(r)
    requires r < |run[i].readers| && run[i].readers[r].pc.Accessed?
    ensures var s, s' := run[i], run[i + 1];
      && s'.readers == s.readers[r := Thread(Ready, s.readers[r].left)]
      && if |s.gets| == c.size && Sum(s.readers, InFlight) == 1
         then s'.rounds == s.rounds + [Round(s.buffer, s.puts, s.gets)] && AllWoken(s.writers, s'.writers)
         else s'.rounds == s.rounds && s'.writers == s.writers
  {
    RunInv(c, run, actions, i);
    var s := run[i];
    SumAtLeast(s.readers, r, InFlight);
    SumAtLeast(s.readers, r, HasAccessed);
    ClaimedOrAccessed(s.readers);
  }

  /** The readers are woken just when the last write of the round is committed. */
  lemma LastWriterWakes(c: Config, run: seq<State>, actions: seq<Action>, i: nat, w: nat, v: int)
    requires c.size > 0 && IsRun(c, run, actions) && i < |actions| && actions[i] == WriterStep(w, v)
    requires w < |run[i].writers| && run[i].writers[w].pc.Accessed?
    ensures var s, s' := run[i], run[i + 1];
      && s'.writers == s.writers[w := Thread(Ready, s.writers[w].left)] && s'.rounds == s.rounds
      && if |s.puts| == c.size && Sum(s.writers, InFlight) == 1 then AllWoken(s.readers, s'.readers)
         else s'.readers == s.readers
  {
    RunInv(c, run, actions, i);
    var s := run[i];
    SumAtLeast(s.writers, w, InFlight);
    SumAtLeast(s.writers, w, HasAccessed);
    ClaimedOrAccessed(s.writers);
  }

  // ---------- Progress ----------

  function Stages(s: State): nat { Sum(s.readers, Ahead) + Sum(s.writers, Ahead) }
  function Awake(s: State): nat { Sum(s.readers, IsReady) + Sum(s.writers, IsReady) }

  // The lexicographic pair (steps ahead, threads not asleep), as one number.
  function Rank(c: Config, s: State): nat { Stages(s) * (c.readers + c.writers + 1) + Awake(s) }

  lemma AwakeBound(c: Config, s: State)
    requires |s.readers| == c.readers && |s.writers| == c.writers
    ensures Awake(s) <= c.readers + c.writers
  {
    SumBounded(s.readers, IsReady, 1);
    SumBounded(s.writers, IsReady, 1);
  }

  predicate Spurious(a: Action) { a.RouseReader? || a.RouseWriter? }

  // A step either gets its thread ahead, or puts it to sleep and changes nothing else.
  predicate Progress(s: State, s': State) {
    Stages(s') < Stages(s) || (Stages(s') == Stages(s) && Awake(s') < Awake(s))
  }

  lemma ReaderProgress(s: State, r: nat)
    requires Enabled(s, ReaderStep(r)) && Defined(s, ReaderStep(r))
    ensures Progress(s, Apply(s, ReaderStep(r)))
  {
    var s' := Apply(s, ReaderStep(r));
    WakeTotals(s.writers);
    SumUpdate(s.readers, r, s'.readers[r], Ahead);
    SumUpdate(s.readers, r, s'.readers[r], IsReady);
  }

  lemma WriterProgress(s: State, w: nat, v: int)
    requires Enabled(s, WriterStep(w, v)) && Defined(s, WriterStep(w, v))
    ensures Progress(s, Apply(s, WriterStep(w, v)))
  {
    var s' := Apply(s, WriterStep(w, v));
    WakeTotals(s.readers);
    SumUpdate(s.writers, w, s'.writers[w], Ahead);
    SumUpdate(s.writers, w, s'.writers[w], IsReady);
  }

  lemma StepRank(c: Config, s: State, a: Action, s': State)
    requires Inv(c, s) && Step(s, a, s') && !Spurious(a)
    ensures Rank(c, s') < Rank(c, s)
  {
    StepInv(c, s, a, s');
    match a {
      case ReaderStep(r) => ReaderProgress(s, r);
      case WriterStep(w, v) => WriterProgress(s, w, v);
    }
    AwakeBound(c, s');
    LexicographicDrop(Stages(s), Stages(s'), Awake(s), Awake(s'), c.readers + c.writers);
  }

  /** Without spurious wake-ups no run is longer than this bound, whatever the schedule. */
  lemma RunsAreBounded(c: Config, run: seq<State>, actions: seq<Action>)
    requires c.size > 0 && IsRun(c, run, actions)
    requires forall i :: 0 <= i < |actions| ==> !Spurious(actions[i])
    ensures var n := c.readers + c.writers; |actions| <= 3 * c.turns * n * (n + 1) + n
  {
    RankBounds(c, run, actions, |actions|);
    AwakeBound(c, run[0]);
    StagesAtStart(c, run[0]);
  }

  lemma StagesAtStart(c: Config, s: State)
    requires Init(c, s)
    ensures Stages(s) == 3 * c.turns * (c.readers + c.writers)
  {
    SumConst(s.readers, Ahead, 3 * c.turns);
    SumConst(s.writers, Ahead, 3 * c.turns);
    Distribute(3 * c.turns, c.readers, c.writers);
  }

  lemma Distribute(k: nat, a: nat, b: nat)
    ensures a * k + b * k == k * (a + b)
  {
  }

  lemma {:induction false} RankBounds(c: Config, run: seq<State>, actions: seq<Action>, i: nat)
    requires c.size > 0 && IsRun(c, run, actions) && i < |run|
    requires forall i :: 0 <= i < |actions| ==> !Spurious(actions[i])
    ensures i + Rank(c, run[i]) <= Rank(c, run[0])
  {
    if i > 0 {
      RankBounds(c, run, actions, i - 1);
      RunInv(c, run, actions, i - 1);
      StepRank(c, run[i - 1], actions[i - 1], run[i]);
    }
  }

  // ---------- Where a run can stop ----------

  predicate NoneRunnable(ts: seq<Thread>) {
    forall i :: 0 <= i < |ts| ==> !Runnable(ts[i])
  }

  predicate Stuck(s: State) { NoneRunnable(s.readers) && NoneRunnable(s.writers) }

  predicate AllFinished(ts: seq<Thread>) {
    forall i :: 0 <= i < |ts| ==> Finished(ts[i])
  }

  // The reads take exactly the full batches of the writes, or the writes are
  // exactly one batch more than the full batches of the reads.
  predicate Fits(readTurns: nat, writeTurns: nat, size: nat)
    requires size > 0
  {
    readTurns == writeTurns / size * size || writeTurns == (readTurns / size + 1) * size
  }

  predicate CanFinish(c: Config)
    requires c.size > 0
  {
    Fits(c.readers * c.turns, c.writers * c.turns, c.size)
  }

  lemma NextMultiple(a: nat, b: nat, size: nat)
    ensures a < b ==> a * size + size <= b * size
  {
    if a < b {
      assert b * size == (a + 1) * size + (b - a - 1) * size;
    }
  }

  lemma Quotient(n: nat, q: nat, size: nat, rest: nat)
    requires n == q * size + rest && rest < size
    ensures n / size == q
  {
    assert n == n / size * size + n % size;
    NextMultiple(q, n / size, size);
    NextMultiple(n / size, q, size);
  }

  lemma {:induction false} LeftIsZero(ts: seq<Thread>)
    requires NoneRunnable(ts)
    requires SleepersHaveTurns(ts)
    ensures Sum(ts, InFlight) == 0
    ensures Sum(ts, Left) == 0 <==> AllFinished(ts)
    ensures (forall i :: 0 <= i < |ts| ==> !ts[i].pc.Asleep?) ==> AllFinished(ts)
  {
    SumConst(ts, InFlight, 0);
    if AllFinished(ts) {
      SumConst(ts, Left, 0);
    } else {
      var i :| 0 <= i < |ts| && !Finished(ts[i]);
      SumAtLeast(ts, i, Left);
    }
  }

  lemma FitsWhileFilling(readTurns: nat, writeTurns: nat, size: nat, g: nat, written: nat)
    requires written < size && writeTurns == g * size + written && readTurns >= g * size
    ensures readTurns == g * size <==> Fits(readTurns, writeTurns, size)
  {
    Quotient(writeTurns, g, size, written);
    var q := readTurns / size;
    if writeTurns == (q + 1) * size {
      Quotient(writeTurns, q + 1, size, 0);
      InNextBatch(readTurns, size);
    }
  }

  lemma FitsWhileDraining(readTurns: nat, writeTurns: nat, size: nat, g: nat, read: nat)
    requires read < size && readTurns == g * size + read && writeTurns >= (g + 1) * size
    ensures writeTurns == (g + 1) * size <==> Fits(readTurns, writeTurns, size)
  {
    Quotient(readTurns, g, size, read);
    var q := writeTurns / size;
    if readTurns == q * size {
      Quotient(readTurns, q, size, 0);
      InNextBatch(writeTurns, size);
    }
  }

  lemma InNextBatch(n: nat, size: nat)
    requires size > 0
    ensures n < (n / size + 1) * size
    ensures n % size == 0 ==> n == n / size * size
  {
    assert n / size * size + n % size == n;
  }

  lemma StuckWhileFilling(c: Config, s: State)
    requires Inv(c, s) && Stuck(s) && Filling(s)
    ensures AllFinished(s.writers)
    ensures AllFinished(s.readers) <==> CanFinish(c)
  {
    LeftIsZero(s.readers);
    LeftIsZero(s.writers);
    FitsWhileFilling(c.readers * c.turns, c.writers * c.turns, c.size, |s.rounds|, s.written);
  }

  lemma StuckWhileDraining(c: Config, s: State)
    requires Inv(c, s) && Stuck(s) && Draining(s)
    ensures AllFinished(s.readers)
    ensures AllFinished(s.writers) <==> CanFinish(c)
  {
    LeftIsZero(s.readers);
    LeftIsZero(s.writers);
    assert (|s.rounds| + 1) * c.size == |s.rounds| * c.size + c.size;
    FitsWhileDraining(c.readers * c.turns, c.writers * c.turns, c.size, |s.rounds|, c.size - s.toRead);
  }

  /** A reachable state in which nothing can move has every thread finished if and only if the
      turn counts fit the batches. */
  lemma StuckStates(c: Config, s: State)
    requires Inv(c, s) && Stuck(s)
    ensures AllFinished(s.readers) && AllFinished(s.writers) <==> CanFinish(c)
  {
    if Filling(s) {
      StuckWhileFilling(c, s);
    } else {
      StuckWhileDraining(c, s);
    }
  }

  /** Three turns a side do not fit batches of two: every complete run ends with a thread asleep. */
  lemma OddTurnsDoNotFit(run: seq<State>, actions: seq<Action>)
    requires var c := Config(2, 3, 1, 1); IsRun(c, run, actions) && Stuck(run[|actions|])
    ensures !AllFinished(run[|actions|].readers) || !AllFinished(run[|actions|].writers)
  {
    var c := Config(2, 3, 1, 1);
    RunInv(c, run, actions, |actions|);
    StuckStates(c, run[|actions|]);
  }

  // ---------- Whole runs ----------

  predicate DisjointSlots(ts: seq<Thread>) {
    forall a, b :: 0 <= a < b < |ts| && InFlight(ts[a]) == 1 && InFlight(ts[b]) == 1 ==> ts[a].pc.slot != ts[b].pc.slot
  }

  /** No two threads are ever between claiming and leaving the same slot, and the two sides never overlap at all. */
  lemma NoConflict(c: Config, run: seq<State>, actions: seq<Action>, i: nat)
    requires c.size > 0 && IsRun(c, run, actions) && i < |run|
    ensures DisjointSlots(run[i].readers) && DisjointSlots(run[i].writers)
    ensures || (forall t :: t in run[i].readers ==> InFlight(t) == 0)
            || (forall t :: t in run[i].writers ==> InFlight(t) == 0)
  {
    RunInv(c, run, actions, i);
    if Filling(run[i]) {
      NoneInFlight(run[i].readers);
    } else {
      NoneInFlight(run[i].writers);
    }
  }

  /** When both sides take the same whole number of batches, a run that cannot go on has finished every
      thread, each after all of its turns, and the values read are those that the writers were given. */
  lemma CompleteRun(c: Config, run: seq<State>, actions: seq<Action>)
    requires c.size > 0 && IsRun(c, run, actions) && Stuck(run[|actions|])
    requires c.readers * c.turns == c.writers * c.turns && c.writers * c.turns % c.size == 0
    ensures var s := run[|actions|];
      && AllFinished(s.readers) && AllFinished(s.writers)
      && multiset(Values(Gets(s))) == multiset(Values(Puts(s)))
      && Puts(s) == Writes(run, actions, |actions|) && Gets(s) == Reads(run, actions, |actions|)
      && (forall r :: 0 <= r < c.readers ==> TurnsOf(Gets(s), r) == c.turns)
      && (forall w :: 0 <= w < c.writers ==> TurnsOf(Puts(s), w) == c.turns)
  {
    var s := run[|actions|];
    RunInv(c, run, actions, |actions|);
    RunTurns(c, run, actions, |actions|);
    OutputIsOfActions(c, run, actions, |actions|);
    EndOfWholeBatches(c, s);
    assert Gets(s) == AllGets(s.rounds) && Puts(s) == AllPuts(s.rounds);
  }

  lemma EndOfWholeBatches(c: Config, s: State)
    requires Inv(c, s) && Stuck(s)
    requires c.readers * c.turns == c.writers * c.turns && c.writers * c.turns % c.size == 0
    ensures AllFinished(s.readers) && AllFinished(s.writers) && s.puts == s.gets == []
    ensures multiset(Values(AllGets(s.rounds))) == multiset(Values(AllPuts(s.rounds)))
  {
    var n := c.writers * c.turns;
    InNextBatch(n, c.size);
    StuckStates(c, s);
    LeftIsZero(s.readers);
    LeftIsZero(s.writers);
    NoneInFlight(s.writers);
    assert Filling(s);
    NextMultiple(|s.rounds|, n / c.size, c.size);
    NextMultiple(n / c.size, |s.rounds|, c.size);
    ValuesExchanged(c.size, s.rounds);
  }

  // ---------- The program ----------

  /** The globals of lab01/ex6.c with the local state of every thread. */
  class SharedBuffer {
    var written: int
    var toRead: int
    var writeIndex: int
    var readIndex: int
    const buffer: array<int>
    var readers: seq<Thread>
    var writers: seq<Thread>
    ghost var rounds: seq<Round>
    ghost var puts: seq<Access>
    ghost var gets: seq<Access>

    ghost function Snapshot(): State
      reads this, buffer
    {
      State(written, toRead, writeIndex, readIndex, buffer[..], readers, writers, rounds, puts, gets)
    }

    constructor (c: Config)
      ensures Init(c, Snapshot()) && fresh(buffer)
    {
      written, toRead, writeIndex, readIndex := 0, 0, 0, 0;
      buffer := new int[c.size](_ => 0);
      readers := seq(c.readers, _ => Thread(Ready, c.turns));
      writers := seq(c.writers, _ => Thread(Ready, c.turns));
      rounds, puts, gets := [], [], [];
    }

    method BeginRead(r: nat)
      requires r < |readers| && readers[r].left > 0
      modifies this
      ensures Snapshot() == ReaderEnter(old(Snapshot()), r)
    {
      if written < buffer.Length || readIndex == buffer.Length {
        readers := readers[r := readers[r].(pc := Asleep)];
      } else {
        readers := readers[r := Thread(Claimed(readIndex), readers[r].left - 1)];
        readIndex := readIndex + 1;
      }
    }

    method DoRead(r: nat) returns (value: int)
      requires r < |readers| && readers[r].pc.Claimed? && 0 <= readers[r].pc.slot < buffer.Length
      modifies this
      ensures Snapshot() == ReaderRead(old(Snapshot()), r)
      ensures value == old(buffer[readers[r].pc.slot])
    {
      var j := readers[r].pc.slot;
      value := buffer[j];
      readers := readers[r := readers[r].(pc := Accessed(j))];
      gets := gets + [Access(r, j, value)];
    }

    method EndRead(r: nat)
      requires r < |readers|
      modifies this
      ensures Snapshot() == ReaderLeave(old(Snapshot()), r)
    {
      readers := readers[r := readers[r].(pc := Ready)];
      toRead := toRead - 1;
      if toRead == 0 {
        written := 0;
        writeIndex := 0;
        writers := WakeAll(writers);
        rounds, puts, gets := rounds + [Round(buffer[..], puts, gets)], [], [];
      }
    }

    method BeginWrite(w: nat)
      requires w < |writers| && writers[w].left > 0
      modifies this
      ensures Snapshot() == WriterEnter(old(Snapshot()), w)
    {
      if toRead > 0 || writeIndex == buffer.Length {
        writers := writers[w := writers[w].(pc := Asleep)];
      } else {
        writers := writers[w := Thread(Claimed(writeIndex), writers[w].left - 1)];
        writeIndex := writeIndex + 1;
      }
    }

    method DoWrite(w: nat, value: int)
      requires w < |writers| && writers[w].pc.Claimed? && 0 <= writers[w].pc.slot < buffer.Length
      modifies this, buffer
      ensures Snapshot() == WriterWrite(old(Snapshot()), w, value)
      ensures buffer[old(writers[w].pc.slot)] == value
      ensures puts == old(puts) + [Access(w, old(writers[w].pc.slot), value)]
    {
      var j := writers[w].pc.slot;
      buffer[j] := value;
      writers := writers[w := writers[w].(pc := Accessed(j))];
      puts := puts + [Access(w, j, value)];
    }

    method EndWrite(w: nat)
      requires w < |writers|
      modifies this
      ensures Snapshot() == WriterLeave(old(Snapshot()), w)
    {
      writers := writers[w := writers[w].(pc := Ready)];
      written := written + 1;
      if written == buffer.Length {
        toRead := buffer.Length;
        readIndex := 0;
        readers := WakeAll(readers);
      }
    }

    method ReaderTurn(r: nat)
      requires Enabled(Snapshot(), ReaderStep(r)) && Defined(Snapshot(), ReaderStep(r))
      modifies this
      ensures Snapshot() == Apply(old(Snapshot()), ReaderStep(r))
    {
      match readers[r].pc {
        case Ready => BeginRead(r);
        case Claimed(_) => var _ := DoRead(r);
        case Accessed(_) => EndRead(r);
      }
    }

    method WriterTurn(w: nat, value: int)
      requires Enabled(Snapshot(), WriterStep(w, value)) && Defined(Snapshot(), WriterStep(w, value))
      modifies this, buffer
      ensures Snapshot() == Apply(old(Snapshot()), WriterStep(w, value))
    {
      match writers[w].pc {
        case Ready => BeginWrite(w);
        case Claimed(_) => DoWrite(w, value);
        case Accessed(_) => EndWrite(w);
      }
    }

    /** The scheduler picks any thread that can move, and any value for it to write. */
    method ScheduleOne(c: Config)
      requires Inv(c, Snapshot()) && !Stuck(Snapshot())
      modifies this, buffer
      ensures Inv(c, Snapshot()) && Rank(c, Snapshot()) < old(Rank(c, Snapshot()))
    {
      var rs := set r | 0 <= r < |readers| && Runnable(readers[r]);
      var ws := set w | 0 <= w < |writers| && Runnable(writers[w]);
      assert forall r :: 0 <= r < |readers| && Runnable(readers[r]) ==> r in rs;
      assert forall w :: 0 <= w < |writers| && Runnable(writers[w]) ==> w in ws;
      var readerFirst: bool := *;
      if ws == {} || (readerFirst && rs != {}) {
        var r :| r in rs;
        TurnOk(c, Snapshot(), ReaderStep(r));
        ReaderTurn(r);
      } else {
        var w :| w in ws;
        var value: int := *;
        TurnOk(c, Snapshot(), WriterStep(w, value));
        WriterTurn(w, value);
      }
    }

    /** Runs all threads until none can move.  It terminates under every schedule, and then
        every join returns exactly when the turn counts fit the batches. */
    method RunThreads(c: Config)
      requires c.size > 0 && Init(c, Snapshot())
      modifies this, buffer
      ensures Inv(c, Snapshot()) && Stuck(Snapshot())
      ensures AllFinished(readers) && AllFinished(writers) <==> CanFinish(c)
      ensures multiset(Values(AllGets(rounds))) == multiset(Values(AllPuts(rounds)))
    {
      InitInv(c, Snapshot());
      while !NoneRunnable(readers) || !NoneRunnable(writers)
        invariant Inv(c, Snapshot())
        decreases Rank(c, Snapshot())
      {
        ScheduleOne(c);
      }
      StuckStates(c, Snapshot());
      ValuesExchanged(c.size, rounds);
    }
  }

  lemma TurnOk(c: Config, s: State, a: Action)
    requires Inv(c, s) && Enabled(s, a) && !Spurious(a)
    ensures Defined(s, a) && Inv(c, Apply(s, a)) && Rank(c, Apply(s, a)) < Rank(c, s)
  {
    StepInv(c, s, a, if Defined(s, a) then Apply(s, a) else s);
    StepRank(c, s, a, Apply(s, a));
  }
}
