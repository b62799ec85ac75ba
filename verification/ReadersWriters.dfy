/**
 The readers-writers protocol of lab01/ex4.c, with a critic who waits until every writer has
 written.  The first reader takes `writerMutex` for the whole group of readers and the last one
 gives it back, so a mutex is a flag here and not an owner.  A section under `readerMutex` is
 one step, except that the first reader may block on `writerMutex` inside it.
 Without critics this is the protocol of lab01/ex1.c, whose shared object the writers assign.
 */
module ReadersWriters {
  import opened Sums

  // Blocked: holds readerMutex and waits for writerMutex.
  datatype ReaderPc = Away | Blocked | Reading
  datatype Reader = Reader(pc: ReaderPc, left: nat)

  datatype WriterPc = Outside | Writing | Written
  datatype Writer = Writer(pc: WriterPc, left: nat)

  datatype CriticPc = Absent | Asleep | Criticizing
  datatype Critic = Critic(pc: CriticPc, left: nat)

  // `left` counts the turns not begun yet.  `wrote` has an entry for every writer.
  datatype State = State(
    readerLocked: bool, writerLocked: bool, readerCount: int, writerCount: int, wrote: seq<bool>, content: int,
    readers: seq<Reader>, writers: seq<Writer>, critics: seq<Critic>)

  datatype Config = Config(readers: nat, writers: nat, critics: nat, turns: nat)

  function IsBlocked(t: Reader): nat { if t.pc.Blocked? then 1 else 0 }
  function IsReading(t: Reader): nat { if t.pc.Reading? then 1 else 0 }
  function IsWriting(t: Writer): nat { if t.pc.Outside? then 0 else 1 }
  function IsCriticizing(t: Critic): nat { if t.pc.Criticizing? then 1 else 0 }
  function IsAwake(t: Critic): nat { if t.pc.Asleep? then 0 else 1 }
  function Flag(b: bool): nat { if b then 1 else 0 }

  // Steps of the thread's own program still ahead of it, waiting not counted.
  function ReaderAhead(t: Reader): nat {
    3 * t.left + (match t.pc case Away => 0 case Blocked => 2 case Reading => 1)
  }

  function WriterAhead(t: Writer): nat {
    3 * t.left + (match t.pc case Outside => 0 case Writing => 2 case Written => 1)
  }

  function CriticAhead(t: Critic): nat { 2 * t.left + IsCriticizing(t) }

  // ---------- The steps ----------

  function ReaderEnter(s: State, r: nat): State
    requires r < |s.readers| && s.readers[r].left > 0
  {
    var left := s.readers[r].left - 1;
    if s.readerCount + 1 == 1 then
      s.(readerCount := s.readerCount + 1, readerLocked := true, readers := s.readers[r := Reader(Blocked, left)])
    else
      s.(readerCount := s.readerCount + 1, readers := s.readers[r := Reader(Reading, left)])
  }

  function ReaderAcquire(s: State, r: nat): State
    requires r < |s.readers|
  {
    s.(writerLocked := true, readerLocked := false, readers := s.readers[r := s.readers[r].(pc := Reading)])
  }

  function ReaderLeave(s: State, r: nat): State
    requires r < |s.readers|
  {
    s.(readerCount := s.readerCount - 1,
       writerLocked := if s.readerCount - 1 == 0 then false else s.writerLocked,
       readers := s.readers[r := s.readers[r].(pc := Away)])
  }

  function WriterEnter(s: State, w: nat): State
    requires w < |s.writers| && s.writers[w].left > 0
  {
    s.(writerLocked := true, writers := s.writers[w := Writer(Writing, s.writers[w].left - 1)])
  }

  function WriterWrite(s: State, w: nat, value: int): State
    requires w < |s.writers|
  {
    s.(content := value, writers := s.writers[w := s.writers[w].(pc := Written)])
  }

  function Wake(t: Critic): Critic { if t.pc.Asleep? then t.(pc := Absent) else t }

  function WakeAll(ts: seq<Critic>): (r: seq<Critic>)
    ensures |r| == |ts|
    ensures forall i :: 0 <= i < |ts| ==> r[i] == Wake(ts[i])
  {
    if ts == [] then [] else [Wake(ts[0])] + WakeAll(ts[1..])
  }

  function WriterLeave(s: State, w: nat): State
    requires w < |s.writers| == |s.wrote|
  {
    var count := if s.wrote[w] then s.writerCount else s.writerCount + 1;
    s.(writerCount := count, wrote := s.wrote[w := true], writerLocked := false,
       critics := if count == |s.writers| then WakeAll(s.critics) else s.critics,
       writers := s.writers[w := s.writers[w].(pc := Outside)])
  }

  function CriticEnter(s: State, c: nat): State
    requires c < |s.critics| && s.critics[c].left > 0
  {
    if s.writerCount != |s.writers| then
      s.(critics := s.critics[c := s.critics[c].(pc := Asleep)])
    else
      s.(writerLocked := true, critics := s.critics[c := Critic(Criticizing, s.critics[c].left - 1)])
  }

  function CriticLeave(s: State, c: nat): State
    requires c < |s.critics|
  {
    s.(writerLocked := false, critics := s.critics[c := s.critics[c].(pc := Absent)])
  }

  // ---------- Runs ----------

  datatype Action = ReaderStep(r: nat) | WriterStep(w: nat, value: int) | CriticStep(c: nat) | RouseCritic(c: nat)

  // Whether a thread can move, given the two mutexes.
  predicate ReaderCan(t: Reader, readerLocked: bool, writerLocked: bool) {
    match t.pc
    case Away => t.left > 0 && !readerLocked
    case Blocked => !writerLocked
    case Reading => !readerLocked
  }

  predicate WriterCan(t: Writer, writerLocked: bool) {
    t.pc.Outside? ==> t.left > 0 && !writerLocked
  }

  predicate CriticCan(t: Critic, writerLocked: bool) {
    match t.pc
    case Absent => t.left > 0 && !writerLocked
    case Asleep => false
    case Criticizing => true
  }

  predicate Enabled(s: State, a: Action) {
    match a
    case ReaderStep(r) => r < |s.readers| && ReaderCan(s.readers[r], s.readerLocked, s.writerLocked)
    case WriterStep(w, _) => w < |s.writers| == |s.wrote| && WriterCan(s.writers[w], s.writerLocked)
    case CriticStep(c) => c < |s.critics| && CriticCan(s.critics[c], s.writerLocked)
    case RouseCritic(c) => c < |s.critics| && s.critics[c].pc.Asleep?
  }

  function Apply(s: State, a: Action): State
    requires Enabled(s, a)
  {
    match a
    case ReaderStep(r) => (
      match s.readers[r].pc
      case Away => ReaderEnter(s, r)
      case Blocked => ReaderAcquire(s, r)
      case Reading => ReaderLeave(s, r)
      )
    case WriterStep(w, v) => (
      match s.writers[w].pc
      case Outside => WriterEnter(s, w)
      case Writing => WriterWrite(s, w, v)
      case Written => WriterLeave(s, w)
      )
    case CriticStep(c) => if s.critics[c].pc.Absent? then CriticEnter(s, c) else CriticLeave(s, c)
    case RouseCritic(c) => s.(critics := s.critics[c := Wake(s.critics[c])])
  }

  predicate Init(c: Config, s: State) {
    && !s.readerLocked && !s.writerLocked && s.readerCount == s.writerCount == 0
    && |s.readers| == c.readers && |s.writers| == |s.wrote| == c.writers && |s.critics| == c.critics
    && (forall i :: 0 <= i < c.readers ==> s.readers[i] == Reader(Away, c.turns))
    && (forall i :: 0 <= i < c.writers ==> s.writers[i] == Writer(Outside, c.turns) && !s.wrote[i])
    && (forall i :: 0 <= i < c.critics ==> s.critics[i] == Critic(Absent, c.turns))
  }

  predicate IsRun(c: Config, run: seq<State>, actions: seq<Action>) {
    && |run| == |actions| + 1
    && Init(c, run[0])
    && forall i :: 0 <= i < |actions| ==> Enabled(run[i], actions[i]) && run[i + 1] == Apply(run[i], actions[i])
  }

  // ---------- The invariant ----------

  // The two mutexes and the counter say who is inside: a blocked reader is alone, and
  // the group of readers, a writer and a critic take turns.
  predicate Exclusive(s: State) {
    && Sum(s.readers, IsBlocked) == Flag(s.readerLocked)
    && s.readerCount == Sum(s.readers, IsReading) + Sum(s.readers, IsBlocked)
    && (s.readerLocked ==> Sum(s.readers, IsReading) == 0)
    && Flag(Sum(s.readers, IsReading) > 0) + Sum(s.writers, IsWriting) + Sum(s.critics, IsCriticizing)
       == Flag(s.writerLocked)
  }

  // Whether a writer has been through the section under writerMutex.
  predicate HasBeenIn(c: Config, t: Writer) { t.left + IsWriting(t) < c.turns }

  // writerCount is the number of writers that have written, no critic sleeps once all have, and none criticizes before.
  predicate CriticInformed(c: Config, s: State) {
    && |s.wrote| == |s.writers| && s.writerCount == Sum(s.wrote, Flag)
    && (forall w :: 0 <= w < |s.writers| ==> s.writers[w].left <= c.turns)
    && (forall w :: 0 <= w < |s.writers| ==> s.writers[w].left + IsWriting(s.writers[w]) <= c.turns)
    && (forall w :: 0 <= w < |s.writers| ==> (s.wrote[w] <==> HasBeenIn(c, s.writers[w])))
    && (forall i :: 0 <= i < |s.critics| && s.critics[i].pc.Criticizing? ==> s.writerCount == |s.writers|)
    && (forall i :: 0 <= i < |s.critics| ==> s.critics[i].left <= c.turns)
    && (forall i :: 0 <= i < |s.critics| && s.critics[i].pc.Asleep? ==>
          s.writerCount != |s.writers| && s.critics[i].left > 0)
  }

  predicate Inv(c: Config, s: State) {
    && |s.readers| == c.readers && |s.writers| == |s.wrote| == c.writers && |s.critics| == c.critics
    && Exclusive(s)
    && CriticInformed(c, s)
  }

  lemma InitInv(c: Config, s: State)
    requires Init(c, s)
    ensures Inv(c, s)
  {
    SumConst(s.readers, IsBlocked, 0);
    SumConst(s.readers, IsReading, 0);
    SumConst(s.writers, IsWriting, 0);
    SumConst(s.critics, IsCriticizing, 0);
    SumConst(s.wrote, Flag, 0);
  }

  lemma ReaderTotals(s: State, r: nat, t: Reader)
    requires r < |s.readers|
    ensures var ts := s.readers[r := t];
      && Sum(ts, IsBlocked) == Sum(s.readers, IsBlocked) - IsBlocked(s.readers[r]) + IsBlocked(t)
      && Sum(ts, IsReading) == Sum(s.readers, IsReading) - IsReading(s.readers[r]) + IsReading(t)
    ensures IsBlocked(s.readers[r]) <= Sum(s.readers, IsBlocked) && IsReading(s.readers[r]) <= Sum(s.readers, IsReading)
  {
    SumUpdate(s.readers, r, t, IsBlocked);
    SumUpdate(s.readers, r, t, IsReading);
    SumAtLeast(s.readers, r, IsBlocked);
    SumAtLeast(s.readers, r, IsReading);
  }

  lemma ReaderStepInv(c: Config, s: State, r: nat)
    requires Inv(c, s) && Enabled(s, ReaderStep(r))
    ensures Inv(c, Apply(s, ReaderStep(r)))
  {
    ReaderTotals(s, r, Apply(s, ReaderStep(r)).readers[r]);
  }

  lemma WriterTotals(s: State, w: nat, t: Writer)
    requires w < |s.writers| && w < |s.wrote|
    ensures Sum(s.writers[w := t], IsWriting) == Sum(s.writers, IsWriting) - IsWriting(s.writers[w]) + IsWriting(t)
    ensures IsWriting(s.writers[w]) <= Sum(s.writers, IsWriting)
    ensures Sum(s.wrote[w := true], Flag) == Sum(s.wrote, Flag) - Flag(s.wrote[w]) + 1
  {
    SumUpdate(s.writers, w, t, IsWriting);
    SumAtLeast(s.writers, w, IsWriting);
    SumUpdate(s.wrote, w, true, Flag);
  }

  lemma WriterInsideInv(c: Config, s: State, w: nat, v: int)
    requires Inv(c, s) && Enabled(s, WriterStep(w, v)) && !s.writers[w].pc.Written?
    ensures Inv(c, Apply(s, WriterStep(w, v)))
  {
    WriterTotals(s, w, Apply(s, WriterStep(w, v)).writers[w]);
  }

  lemma WriterLeaveInv(c: Config, s: State, w: nat)
    requires Inv(c, s) && w < |s.writers| && s.writers[w].pc.Written?
    ensures Inv(c, WriterLeave(s, w))
  {
    WriterTotals(s, w, WriterLeave(s, w).writers[w]);
    SumSame(WakeAll(s.critics), s.critics, IsCriticizing);
    forall k | 0 <= k < |s.critics| ensures !s.critics[k].pc.Criticizing? {
      SumAtLeast(s.critics, k, IsCriticizing);
    }
  }

  lemma WriterStepInv(c: Config, s: State, w: nat, v: int)
    requires Inv(c, s) && Enabled(s, WriterStep(w, v))
    ensures Inv(c, Apply(s, WriterStep(w, v)))
  {
    if s.writers[w].pc.Written? {
      WriterLeaveInv(c, s, w);
    } else {
      WriterInsideInv(c, s, w, v);
    }
  }

  lemma CriticStepInv(c: Config, s: State, a: Action)
    requires Inv(c, s) && (a.CriticStep? || a.RouseCritic?) && Enabled(s, a)
    ensures Inv(c, Apply(s, a))
  {
    var s' := Apply(s, a);
    SumUpdate(s.critics, a.c, s'.critics[a.c], IsCriticizing);
    SumAtLeast(s.critics, a.c, IsCriticizing);
  }

  lemma StepInv(c: Config, s: State, a: Action)
    requires Inv(c, s) && Enabled(s, a)
    ensures Inv(c, Apply(s, a))
  {
    match a
    case ReaderStep(r) => ReaderStepInv(c, s, r);
    case WriterStep(w, v) => WriterStepInv(c, s, w, v);
    case CriticStep(_) => CriticStepInv(c, s, a);
    case RouseCritic(_) => CriticStepInv(c, s, a);
  }

  /** Every state of every run, spurious wake-ups included, satisfies the invariant. */
  lemma {:induction false} RunInv(c: Config, run: seq<State>, actions: seq<Action>, i: nat)
    requires IsRun(c, run, actions) && i < |run|
    ensures Inv(c, run[i])
  {
    if i == 0 {
      InitInv(c, run[0]);
    } else {
      RunInv(c, run, actions, i - 1);
      StepInv(c, run[i - 1], actions[i - 1]);
    }
  }

  // ---------- Exclusion ----------

  /** In every reachable state readers keep writers and critics out, these keep each other out,
      the counter is the number of readers inside, and the group holds writerMutex while it reads. */
  lemma NoOverlap(c: Config, run: seq<State>, actions: seq<Action>, i: nat)
    requires IsRun(c, run, actions) && i < |run|
    ensures var s := run[i];
      && (forall r, w :: 0 <= r < |s.readers| && 0 <= w < |s.writers| ==>
            IsReading(s.readers[r]) + IsWriting(s.writers[w]) <= 1)
      && (forall r, k :: 0 <= r < |s.readers| && 0 <= k < |s.critics| ==>
            IsReading(s.readers[r]) + IsCriticizing(s.critics[k]) <= 1)
      && (forall w, k :: 0 <= w < |s.writers| && 0 <= k < |s.critics| ==>
            IsWriting(s.writers[w]) + IsCriticizing(s.critics[k]) <= 1)
      && (forall w, v :: 0 <= w < v < |s.writers| ==> IsWriting(s.writers[w]) + IsWriting(s.writers[v]) <= 1)
      && (forall k, l :: 0 <= k < l < |s.critics| ==> IsCriticizing(s.critics[k]) + IsCriticizing(s.critics[l]) <= 1)
      && s.readerCount == Sum(s.readers, IsReading) + Sum(s.readers, IsBlocked)
      && (Sum(s.readers, IsReading) > 0 ==> s.writerLocked)
  {
    var s := run[i];
    RunInv(c, run, actions, i);
    forall r | 0 <= r < |s.readers| ensures IsReading(s.readers[r]) <= Sum(s.readers, IsReading) {
      SumAtLeast(s.readers, r, IsReading);
    }
    forall w | 0 <= w < |s.writers| ensures IsWriting(s.writers[w]) <= Sum(s.writers, IsWriting) {
      SumAtLeast(s.writers, w, IsWriting);
    }
    forall k | 0 <= k < |s.critics| ensures IsCriticizing(s.critics[k]) <= Sum(s.critics, IsCriticizing) {
      SumAtLeast(s.critics, k, IsCriticizing);
    }
    forall w, v | 0 <= w < v < |s.writers| ensures IsWriting(s.writers[w]) + IsWriting(s.writers[v]) <= 1 {
      SumAtLeastTwo(s.writers, w, v, IsWriting);
    }
    forall k, l | 0 <= k < l < |s.critics| ensures IsCriticizing(s.critics[k]) + IsCriticizing(s.critics[l]) <= 1 {
      SumAtLeastTwo(s.critics, k, l, IsCriticizing);
    }
  }

  /** The shared object is constant throughout the section of any reader. */
  lemma {:induction false} ContentHeld(c: Config, run: seq<State>, actions: seq<Action>, r: nat, i: nat, k: nat)
    requires IsRun(c, run, actions) && i <= k < |run| && r < c.readers
    requires forall n :: i <= n <= k ==> r < |run[n].readers| && run[n].readers[r].pc.Reading?
    ensures run[k].content == run[i].content
  {
    if i < k {
      ContentHeld(c, run, actions, r, i, k - 1);
      var s := run[k - 1];
      NoOverlap(c, run, actions, k - 1);
      assert IsReading(s.readers[r]) == 1;
    }
  }

  // ---------- Critics wait ----------

  /** Nobody criticizes before every writer has been through its section. */
  lemma CriticsComeLast(c: Config, run: seq<State>, actions: seq<Action>, i: nat, k: nat, w: nat)
    requires IsRun(c, run, actions) && i < |run| && w < c.writers
    requires k < |run[i].critics| && run[i].critics[k].pc.Criticizing?
    ensures |run[i].wrote| == |run[i].writers| == c.writers == run[i].writerCount
    ensures run[i].wrote[w] && HasBeenIn(c, run[i].writers[w])
  {
    RunInv(c, run, actions, i);
    AllHaveWritten(run[i]);
  }

  // The count is full just when nobody is missing.
  lemma AllHaveWritten(s: State)
    requires s.writerCount == Sum(s.wrote, Flag)
    ensures s.writerCount == |s.wrote| <==> forall w :: 0 <= w < |s.wrote| ==> s.wrote[w]
  {
    if forall w :: 0 <= w < |s.wrote| ==> s.wrote[w] {
      SumConst(s.wrote, Flag, 1);
    } else {
      var w :| 0 <= w < |s.wrote| && !s.wrote[w];
      SumUpdate(s.wrote, w, true, Flag);
      SumBounded(s.wrote[w := true], Flag, 1);
    }
  }

  // ---------- What a step does, told by where the threads are ----------

  // Nobody but the threads of one side is touched, and the shared object is not.
  predicate OnlyReaders(s: State, s': State) {
    s'.writers == s.writers && s'.wrote == s.wrote && s'.critics == s.critics && s'.content == s.content
  }

  predicate OnlyCritics(s: State, s': State) {
    && s'.readers == s.readers && s'.writers == s.writers && s'.wrote == s.wrote && s'.content == s.content
    && s'.readerCount == s.readerCount && s'.writerCount == s.writerCount && s'.readerLocked == s.readerLocked
  }

  /** The first reader of a group goes for writerMutex, and all others go in at once; each turn is one section. */
  lemma ReaderStepMeans(c: Config, run: seq<State>, actions: seq<Action>, i: nat, r: nat)
    requires IsRun(c, run, actions) && i < |actions| && actions[i] == ReaderStep(r)
    ensures r < |run[i].readers| && OnlyReaders(run[i], run[i + 1])
    ensures var s, t := run[i], run[i].readers[r];
      run[i + 1].readers == s.readers[r :=
        match t.pc
        case Away => Reader(if forall q :: 0 <= q < |s.readers| ==> s.readers[q].pc.Away? then Blocked else Reading,
                            t.left - 1)
        case Blocked => Reader(Reading, t.left)
        case Reading => Reader(Away, t.left)]
  {
    RunInv(c, run, actions, i);
    assert Enabled(run[i], actions[i]);
    NobodyInside(run[i].readers);
  }

  lemma NobodyInside(ts: seq<Reader>)
    ensures Sum(ts, IsReading) + Sum(ts, IsBlocked) == 0 <==> forall q :: 0 <= q < |ts| ==> ts[q].pc.Away?
  {
    if forall q :: 0 <= q < |ts| ==> ts[q].pc.Away? {
      SumConst(ts, IsReading, 0);
      SumConst(ts, IsBlocked, 0);
    } else {
      var q :| 0 <= q < |ts| && !ts[q].pc.Away?;
      SumAtLeast(ts, q, IsReading);
      SumAtLeast(ts, q, IsBlocked);
    }
  }

  // Every sleeper is awake, and nobody else is touched.
  predicate AllWoken(ts: seq<Critic>, ts': seq<Critic>) {
    && |ts'| == |ts|
    && forall k :: 0 <= k < |ts| ==> ts'[k] == if ts[k].pc.Asleep? then Critic(Absent, ts[k].left) else ts[k]
  }

  /** A writer goes in, stores the value it was given, and leaves; the critics are woken just when all have written. */
  lemma WriterStepMeans(c: Config, run: seq<State>, actions: seq<Action>, i: nat, w: nat, v: int)
    requires IsRun(c, run, actions) && i < |actions| && actions[i] == WriterStep(w, v)
    ensures w < |run[i].writers| && run[i + 1].readers == run[i].readers && |run[i + 1].wrote| == c.writers
    ensures var s, s', t := run[i], run[i + 1], run[i].writers[w];
      && s'.writers == s.writers[w :=
           match t.pc
           case Outside => Writer(Writing, t.left - 1)
           case Writing => Writer(Written, t.left)
           case Written => Writer(Outside, t.left)]
      && s'.content == (if t.pc.Writing? then v else s.content)
      && if t.pc.Written? && forall u :: 0 <= u < c.writers ==> s'.wrote[u] then AllWoken(s.critics, s'.critics)
         else s'.critics == s.critics
  {
    RunInv(c, run, actions, i);
    RunInv(c, run, actions, i + 1);
    assert Enabled(run[i], actions[i]);
    AllHaveWritten(run[i + 1]);
  }

  /** A critic that comes while some writer has not written goes to sleep and changes nothing else. */
  lemma CriticStepMeans(c: Config, run: seq<State>, actions: seq<Action>, i: nat, k: nat)
    requires IsRun(c, run, actions) && i < |actions| && actions[i] == CriticStep(k)
    ensures k < |run[i].critics| && OnlyCritics(run[i], run[i + 1]) && |run[i].wrote| == c.writers
    ensures var s, s', t := run[i], run[i + 1], run[i].critics[k];
      var waits := t.pc.Absent? && exists w :: 0 <= w < c.writers && !s.wrote[w];
      && s'.critics == s.critics[k :=
           if waits then Critic(Asleep, t.left)
           else if t.pc.Absent? then Critic(Criticizing, t.left - 1)
           else Critic(Absent, t.left)]
      && (waits ==> s'.writerLocked == s.writerLocked)
  {
    RunInv(c, run, actions, i);
    assert Enabled(run[i], actions[i]);
    AllHaveWritten(run[i]);
  }

  // ---------- Progress ----------

  function Stages(s: State): nat {
    Sum(s.readers, ReaderAhead) + Sum(s.writers, WriterAhead) + Sum(s.critics, CriticAhead)
  }

  // The lexicographic pair (steps ahead, critics not asleep), as one number.
  function Rank(c: Config, s: State): nat { Stages(s) * (c.critics + 1) + Sum(s.critics, IsAwake) }

  lemma ReaderStages(s: State, r: nat)
    requires Enabled(s, ReaderStep(r))
    ensures Stages(Apply(s, ReaderStep(r))) < Stages(s)
  {
    SumUpdate(s.readers, r, Apply(s, ReaderStep(r)).readers[r], ReaderAhead);
  }

  lemma WriterStages(s: State, w: nat, v: int)
    requires Enabled(s, WriterStep(w, v))
    ensures Stages(Apply(s, WriterStep(w, v))) < Stages(s)
  {
    SumUpdate(s.writers, w, Apply(s, WriterStep(w, v)).writers[w], WriterAhead);
    SumSame(WakeAll(s.critics), s.critics, CriticAhead);
  }

  lemma CriticStages(s: State, k: nat)
    requires Enabled(s, CriticStep(k))
    ensures var s' := Apply(s, CriticStep(k));
      Stages(s') < Stages(s) || (Stages(s') == Stages(s) && Sum(s'.critics, IsAwake) < Sum(s.critics, IsAwake))
  {
    var t := Apply(s, CriticStep(k)).critics[k];
    SumUpdate(s.critics, k, t, CriticAhead);
    SumUpdate(s.critics, k, t, IsAwake);
  }

  lemma StepRank(c: Config, s: State, a: Action)
    requires Inv(c, s) && Enabled(s, a) && !a.RouseCritic?
    ensures Rank(c, Apply(s, a)) < Rank(c, s)
  {
    var s' := Apply(s, a);
    match a {
      case ReaderStep(r) => ReaderStages(s, r);
      case WriterStep(w, v) => WriterStages(s, w, v);
      case CriticStep(k) => CriticStages(s, k);
    }
    SumBounded(s'.critics, IsAwake, 1);
    LexicographicDrop(Stages(s), Stages(s'), Sum(s.critics, IsAwake), Sum(s'.critics, IsAwake), c.critics);
  }

  lemma {:induction false} RankBounds(c: Config, run: seq<State>, actions: seq<Action>, i: nat)
    requires IsRun(c, run, actions) && i < |run| && forall n :: 0 <= n < |actions| ==> !actions[n].RouseCritic?
    ensures i + Rank(c, run[i]) <= Rank(c, run[0])
  {
    if i > 0 {
      RankBounds(c, run, actions, i - 1);
      RunInv(c, run, actions, i - 1);
      assert run[i] == Apply(run[i - 1], actions[i - 1]) && Enabled(run[i - 1], actions[i - 1]);
      hide *;
      StepRank(c, run[i - 1], actions[i - 1]);
    }
  }

  /** Without spurious wake-ups no run is longer than this bound, whatever the schedule. */
  lemma RunsAreBounded(c: Config, run: seq<State>, actions: seq<Action>)
    requires IsRun(c, run, actions) && forall n :: 0 <= n < |actions| ==> !actions[n].RouseCritic?
    ensures |actions| <= (3 * c.turns * (c.readers + c.writers) + 2 * c.turns * c.critics) * (c.critics + 1) + c.critics
  {
    RankBounds(c, run, actions, |actions|);
    SumConst(run[0].critics, IsAwake, 1);
    StagesAtStart(c, run[0]);
  }

  lemma StagesAtStart(c: Config, s: State)
    requires Init(c, s)
    ensures Stages(s) == 3 * c.turns * (c.readers + c.writers) + 2 * c.turns * c.critics
  {
    var k, m := 3 * c.turns, 2 * c.turns;
    SumConst(s.readers, ReaderAhead, k);
    SumConst(s.writers, WriterAhead, k);
    SumConst(s.critics, CriticAhead, m);
    Distribute(k, c.readers, c.writers);
    Distribute(m, c.critics, 0);
  }

  lemma Distribute(k: nat, a: nat, b: nat)
    ensures a * k + b * k == k * (a + b)
  {
  }

  // ---------- No deadlock ----------

  predicate Stuck(s: State) {
    && (forall r :: 0 <= r < |s.readers| ==> !ReaderCan(s.readers[r], s.readerLocked, s.writerLocked))
    && (forall w :: 0 <= w < |s.writers| ==> !WriterCan(s.writers[w], s.writerLocked))
    && (forall k :: 0 <= k < |s.critics| ==> !CriticCan(s.critics[k], s.writerLocked))
  }

  predicate AllFinished(s: State) {
    && (forall r :: 0 <= r < |s.readers| ==> s.readers[r] == Reader(Away, 0))
    && (forall w :: 0 <= w < |s.writers| ==> s.writers[w] == Writer(Outside, 0))
    && (forall k :: 0 <= k < |s.critics| ==> s.critics[k] == Critic(Absent, 0))
  }

  datatype Thread = AReader(r: nat) | AWriter(w: nat) | ACritic(k: nat)

  predicate CanMove(s: State, x: Thread) {
    match x
    case AReader(r) => r < |s.readers| && ReaderCan(s.readers[r], s.readerLocked, s.writerLocked)
    case AWriter(w) => w < |s.writers| && WriterCan(s.writers[w], s.writerLocked)
    case ACritic(k) => k < |s.critics| && CriticCan(s.critics[k], s.writerLocked)
  }

  predicate Unfinished(s: State, x: Thread) {
    match x
    case AReader(r) => r < |s.readers| && s.readers[r] != Reader(Away, 0)
    case AWriter(w) => w < |s.writers| && s.writers[w] != Writer(Outside, 0)
    case ACritic(k) => k < |s.critics| && s.critics[k] != Critic(Absent, 0)
  }

  predicate WantsReaderMutex(s: State, x: Thread)
    requires Unfinished(s, x)
  {
    x.AReader? && !s.readers[x.r].pc.Blocked?
  }

  predicate WantsWriterMutex(s: State, x: Thread)
    requires Unfinished(s, x)
  {
    match x
    case AReader(r) => s.readers[r].pc.Blocked?
    case AWriter(w) => s.writers[w].pc.Outside?
    case ACritic(k) => s.critics[k].pc.Absent?
  }

  // The readers inside own writerMutex together.
  predicate HoldsWriterMutex(s: State, x: Thread)
    requires Unfinished(s, x)
  {
    match x
    case AReader(r) => s.readers[r].pc.Reading?
    case AWriter(w) => !s.writers[w].pc.Outside?
    case ACritic(k) => s.critics[k].pc.Criticizing?
  }

  // A sleeping critic waits for those who have not written.
  predicate SleepsOver(s: State, x: Thread, y: Thread)
    requires Unfinished(s, x) && Unfinished(s, y)
  {
    x.ACritic? && s.critics[x.k].pc.Asleep? && y.AWriter? && y.w < |s.wrote| && !s.wrote[y.w]
  }

  /** `x` cannot move because of a mutex that `y` holds, or because `y` has not written. */
  predicate WaitsFor(s: State, x: Thread, y: Thread) {
    && Unfinished(s, x) && !CanMove(s, x) && Unfinished(s, y)
    && ((WantsReaderMutex(s, x) && y.AReader? && s.readers[y.r].pc.Blocked?)
        || (WantsWriterMutex(s, x) && HoldsWriterMutex(s, y))
        || SleepsOver(s, x, y))
  }

  lemma WriterMutexHeld(c: Config, s: State) returns (y: Thread)
    requires Inv(c, s) && s.writerLocked
    ensures Unfinished(s, y) && HoldsWriterMutex(s, y)
  {
    if Sum(s.readers, IsReading) > 0 {
      var r := SumWitness(s.readers, IsReading);
      y := AReader(r);
    } else if Sum(s.writers, IsWriting) > 0 {
      var w := SumWitness(s.writers, IsWriting);
      y := AWriter(w);
    } else {
      var k := SumWitness(s.critics, IsCriticizing);
      y := ACritic(k);
    }
  }

  // While the count is short, somebody has not written, and still has a turn to do so.
  lemma SomebodyHasNotWritten(c: Config, s: State, k: nat) returns (w: nat)
    requires Inv(c, s) && k < |s.critics| && s.critics[k].pc.Asleep?
    ensures Unfinished(s, AWriter(w)) && w < |s.wrote| && !s.wrote[w]
  {
    if forall i :: 0 <= i < |s.wrote| ==> s.wrote[i] {
      SumConst(s.wrote, Flag, 1);
      assert false;
    }
    w :| 0 <= w < |s.wrote| && !s.wrote[w];
  }

  /** A thread that cannot go on waits for some thread that is not finished. */
  lemma SomebodyHolds(c: Config, s: State, x: Thread) returns (y: Thread)
    requires Inv(c, s) && Unfinished(s, x) && !CanMove(s, x)
    ensures WaitsFor(s, x, y)
  {
    if WantsReaderMutex(s, x) {
      var r := SumWitness(s.readers, IsBlocked);
      y := AReader(r);
    } else if WantsWriterMutex(s, x) {
      y := WriterMutexHeld(c, s);
    } else {
      var w := SomebodyHasNotWritten(c, s, x.k);
      y := AWriter(w);
    }
  }

  /**
   Chains of waiting have length two at most: whoever is waited for by a waiting thread can move.
   A reader that holds readerMutex while it waits does not wait for a reader.
   */
  lemma ChainsAreShort(c: Config, s: State, x: Thread, y: Thread, z: Thread)
    requires Inv(c, s) && WaitsFor(s, x, y) && WaitsFor(s, y, z)
    ensures CanMove(s, z) && (y.AReader? ==> !z.AReader?)
  {
    if z.AReader? {
      SumAtLeast(s.readers, z.r, IsReading);
    }
    if y.AReader? {
      SumAtLeast(s.readers, y.r, IsBlocked);
      SumAtLeast(s.readers, y.r, IsReading);
    }
  }

  /** So while a thread is unfinished, it can move, or the one it waits for, or the one that waits for. */
  lemma SomebodyCanMove(c: Config, s: State, x: Thread) returns (z: Thread)
    requires Inv(c, s) && Unfinished(s, x)
    ensures CanMove(s, z)
    ensures z == x || WaitsFor(s, x, z) || exists y :: WaitsFor(s, x, y) && WaitsFor(s, y, z)
  {
    z := x;
    if !CanMove(s, x) {
      var y := SomebodyHolds(c, s, x);
      z := y;
      if !CanMove(s, y) {
        z := SomebodyHolds(c, s, y);
        ChainsAreShort(c, s, x, y, z);
      }
    }
  }

  lemma NothingUnfinished(c: Config, s: State, x: Thread)
    requires Inv(c, s) && Stuck(s)
    ensures !Unfinished(s, x)
  {
    if Unfinished(s, x) {
      var z := SomebodyCanMove(c, s, x);
      assert false;
    }
  }

  /** There is no deadlock: a reachable state in which nothing can move has all threads finished. */
  lemma StuckIsFinished(c: Config, s: State)
    requires Inv(c, s) && Stuck(s)
    ensures AllFinished(s)
  {
    forall r | 0 <= r < |s.readers| ensures s.readers[r] == Reader(Away, 0) {
      NothingUnfinished(c, s, AReader(r));
    }
    forall w | 0 <= w < |s.writers| ensures s.writers[w] == Writer(Outside, 0) {
      NothingUnfinished(c, s, AWriter(w));
    }
    forall k | 0 <= k < |s.critics| ensures s.critics[k] == Critic(Absent, 0) {
      NothingUnfinished(c, s, ACritic(k));
    }
  }

  // ---------- Turns are sections ----------

  predicate Exists(c: Config, x: Thread) {
    match x case AReader(r) => r < c.readers case AWriter(w) => w < c.writers case ACritic(k) => k < c.critics
  }

  // The step with which a thread leaves its section.
  predicate Leaves(s: State, a: Action, x: Thread) {
    match x
    case AReader(r) => a == ReaderStep(r) && r < |s.readers| && s.readers[r].pc.Reading?
    case AWriter(w) => a.WriterStep? && a.w == w < |s.writers| && s.writers[w].pc.Written?
    case ACritic(k) => a == CriticStep(k) && k < |s.critics| && s.critics[k].pc.Criticizing?
  }

  function Sections(run: seq<State>, actions: seq<Action>, n: nat, x: Thread): nat
    requires n <= |actions| < |run|
  {
    if n == 0 then 0
    else Sections(run, actions, n - 1, x) + Flag(Leaves(run[n - 1], actions[n - 1], x))
  }

  function SectionsToCome(s: State, x: Thread): nat {
    match x
    case AReader(r) => if r < |s.readers| then s.readers[r].left + Flag(!s.readers[r].pc.Away?) else 0
    case AWriter(w) => if w < |s.writers| then s.writers[w].left + Flag(!s.writers[w].pc.Outside?) else 0
    case ACritic(k) => if k < |s.critics| then s.critics[k].left + Flag(s.critics[k].pc.Criticizing?) else 0
  }

  /** The sections that a thread has been through and those to come always make up its turns. */
  lemma {:induction false} TurnsAreSections(c: Config, run: seq<State>, actions: seq<Action>, n: nat, x: Thread)
    requires IsRun(c, run, actions) && n < |run| && Exists(c, x)
    ensures Sections(run, actions, n, x) + SectionsToCome(run[n], x) == c.turns
  {
    hide Apply, Leaves;
    if n > 0 {
      TurnsAreSections(c, run, actions, n - 1, x);
      assert Enabled(run[n - 1], actions[n - 1]) && run[n] == Apply(run[n - 1], actions[n - 1]);
      StepSections(run[n - 1], actions[n - 1], x);
    }
  }

  lemma StepSections(s: State, a: Action, x: Thread)
    requires Enabled(s, a)
    ensures SectionsToCome(s, x) == SectionsToCome(Apply(s, a), x) + Flag(Leaves(s, a, x))
  {
    match a
    case ReaderStep(r) => SectionsOfReader(s, r, x);
    case WriterStep(w, v) => SectionsOfWriter(s, w, v, x);
    case CriticStep(_) => SectionsOfCritic(s, a, x);
    case RouseCritic(_) => SectionsOfCritic(s, a, x);
  }

  lemma SectionsOfReader(s: State, r: nat, x: Thread)
    requires Enabled(s, ReaderStep(r))
    ensures SectionsToCome(s, x) == SectionsToCome(Apply(s, ReaderStep(r)), x) + Flag(Leaves(s, ReaderStep(r), x))
  {
  }

  lemma SectionsOfWriter(s: State, w: nat, v: int, x: Thread)
    requires Enabled(s, WriterStep(w, v))
    ensures SectionsToCome(s, x)
         == SectionsToCome(Apply(s, WriterStep(w, v)), x) + Flag(Leaves(s, WriterStep(w, v), x))
  {
  }

  lemma SectionsOfCritic(s: State, a: Action, x: Thread)
    requires Enabled(s, a) && (a.CriticStep? || a.RouseCritic?)
    ensures SectionsToCome(s, x) == SectionsToCome(Apply(s, a), x) + Flag(Leaves(s, a, x))
  {
  }

  lemma NoneToCome(c: Config, s: State, x: Thread)
    requires AllFinished(s)
    ensures SectionsToCome(s, x) == 0
  {
  }

  /** A run that cannot go on has taken every thread through as many sections as it has turns. */
  lemma CompleteRun(c: Config, run: seq<State>, actions: seq<Action>)
    requires IsRun(c, run, actions) && Stuck(run[|actions|])
    ensures AllFinished(run[|actions|])
    ensures forall x :: Exists(c, x) ==> Sections(run, actions, |actions|, x) == c.turns
    ensures c.turns > 0 ==> run[|actions|].writerCount == c.writers
  {
    var s := run[|actions|];
    RunInv(c, run, actions, |actions|);
    StuckIsFinished(c, s);
    forall x | Exists(c, x) ensures Sections(run, actions, |actions|, x) == c.turns {
      TurnsAreSections(c, run, actions, |actions|, x);
      NoneToCome(c, s, x);
    }
    if c.turns > 0 {
      AllHaveWritten(s);
    }
  }

  lemma EveryWriterListed(c: Config, s: State)
    requires Inv(c, s)
    ensures |s.writers| == |s.wrote|
  {
  }

  lemma TurnOk(c: Config, s: State, a: Action)
    requires Inv(c, s) && Enabled(s, a) && !a.RouseCritic?
    ensures Inv(c, Apply(s, a)) && Rank(c, Apply(s, a)) < Rank(c, s)
  {
    StepInv(c, s, a);
    StepRank(c, s, a);
  }

  // ---------- The program ----------

  /** The globals of lab01/ex4.c with the local state of every thread. */
  class SharedDocument {
    var readerLocked: bool
    var writerLocked: bool
    var readerCount: int
    var writerCount: int
    var wrote: seq<bool>
    var content: int
    var readers: seq<Reader>
    var writers: seq<Writer>
    var critics: seq<Critic>

    ghost function Snapshot(): State
      reads this
    {
      State(readerLocked, writerLocked, readerCount, writerCount, wrote, content, readers, writers, critics)
    }

    constructor (c: Config)
      ensures Init(c, Snapshot())
    {
      readerLocked, writerLocked, readerCount, writerCount, content := false, false, 0, 0, 0;
      wrote := seq(c.writers, _ => false);
      readers := seq(c.readers, _ => Reader(Away, c.turns));
      writers := seq(c.writers, _ => Writer(Outside, c.turns));
      critics := seq(c.critics, _ => Critic(Absent, c.turns));
    }

    method ReaderTurn(r: nat)
      requires Enabled(Snapshot(), ReaderStep(r))
      modifies this
      ensures Snapshot() == Apply(old(Snapshot()), ReaderStep(r))
    {
      var left := readers[r].left;
      match readers[r].pc {
        case Away =>
          readerCount := readerCount + 1;
          if readerCount == 1 {
            readerLocked := true;
            readers := readers[r := Reader(Blocked, left - 1)];
          } else {
            readers := readers[r := Reader(Reading, left - 1)];
          }
        case Blocked =>
          writerLocked := true;
          readerLocked := false;
          readers := readers[r := Reader(Reading, left)];
        case Reading =>
          readerCount := readerCount - 1;
          if readerCount == 0 {
            writerLocked := false;
          }
          readers := readers[r := Reader(Away, left)];
      }
    }

    method WriterTurn(w: nat, value: int)
      requires Enabled(Snapshot(), WriterStep(w, value))
      modifies this
      ensures Snapshot() == Apply(old(Snapshot()), WriterStep(w, value))
    {
      var left := writers[w].left;
      match writers[w].pc {
        case Outside =>
          writerLocked := true;
          writers := writers[w := Writer(Writing, left - 1)];
        case Writing =>
          content := value;
          writers := writers[w := Writer(Written, left)];
        case Written =>
          if !wrote[w] {
            wrote := wrote[w := true];
            writerCount := writerCount + 1;
          }
          if writerCount == |writers| {
            critics := WakeAll(critics);
          }
          writerLocked := false;
          writers := writers[w := Writer(Outside, left)];
      }
    }

    method CriticTurn(k: nat)
      requires Enabled(Snapshot(), CriticStep(k))
      modifies this
      ensures Snapshot() == Apply(old(Snapshot()), CriticStep(k))
    {
      var left := critics[k].left;
      if critics[k].pc.Absent? {
        if writerCount != |writers| {
          critics := critics[k := Critic(Asleep, left)];
        } else {
          writerLocked := true;
          critics := critics[k := Critic(Criticizing, left - 1)];
        }
      } else {
        writerLocked := false;
        critics := critics[k := Critic(Absent, left)];
      }
    }

    /** The scheduler picks any thread that can move, and any value for it to write. */
    method ScheduleOne(c: Config) returns (moved: bool)
      requires Inv(c, Snapshot())
      modifies this
      ensures Inv(c, Snapshot())
      ensures moved ==> Rank(c, Snapshot()) < old(Rank(c, Snapshot()))
      ensures !moved ==> Stuck(Snapshot())
    {
      hide Inv, Rank, WakeAll;
      EveryWriterListed(c, Snapshot());
      var rs := set r | 0 <= r < |readers| && ReaderCan(readers[r], readerLocked, writerLocked);
      var ws := set w | 0 <= w < |writers| && WriterCan(writers[w], writerLocked);
      var cs := set k | 0 <= k < |critics| && CriticCan(critics[k], writerLocked);
      assert forall r :: 0 <= r < |readers| && ReaderCan(readers[r], readerLocked, writerLocked) ==> r in rs;
      assert forall w :: 0 <= w < |writers| && WriterCan(writers[w], writerLocked) ==> w in ws;
      assert forall k :: 0 <= k < |critics| && CriticCan(critics[k], writerLocked) ==> k in cs;
      var role: int := *;
      moved := true;
      if rs != {} && (role == 0 || (ws == {} && cs == {})) {
        var r :| r in rs;
        TurnOk(c, Snapshot(), ReaderStep(r));
        ReaderTurn(r);
      } else if ws != {} && (role == 1 || cs == {}) {
        var w :| w in ws;
        var value: int := *;
        TurnOk(c, Snapshot(), WriterStep(w, value));
        WriterTurn(w, value);
      } else if cs != {} {
        var k :| k in cs;
        TurnOk(c, Snapshot(), CriticStep(k));
        CriticTurn(k);
      } else {
        moved := false;
      }
    }

    /** Runs all threads under an arbitrary scheduler until none can move: it terminates, and then all have finished. */
    method RunThreads(c: Config)
      requires Init(c, Snapshot())
      modifies this
      ensures Inv(c, Snapshot()) && AllFinished(Snapshot())
    {
      InitInv(c, Snapshot());
      var moved := true;
      while moved
        invariant Inv(c, Snapshot()) && (!moved ==> Stuck(Snapshot()))
        decreases if moved then Rank(c, Snapshot()) + 1 else 0
      {
        moved := ScheduleOne(c);
      }
      StuckIsFinished(c, Snapshot());
    }
  }
}
