/**
 The slots of lab01/ex3.c.  Every slot has a mutex that readers and writers only try: a thread
 that finds it taken, or finds nothing to do in the slot, goes on to the next one.  Taking the
 mutex, looking at the slot, using it, and marking it and letting go are separate steps.
 */
module OnePlaceBuffers {
  import opened Sums
  import opened Visits

  // All but Try hold the mutex of the slot; Mark carries the value read or written.
  datatype Pc = Try | Look | Use | Mark(value: int)

  // `slot` is the one being visited, `left` the visits not completed yet.
  datatype Thread = Thread(writes: bool, pc: Pc, slot: nat, left: nat)

  // A completed write or read of a slot.
  datatype Op = Put(value: int) | Get(value: int)

  datatype State = State(locked: seq<bool>, buffer: seq<int>, full: seq<bool>, threads: seq<Thread>, log: seq<seq<Op>>)

  datatype Config = Config(slots: nat, turns: nat, writes: seq<bool>)

  function Flag(b: bool): nat { if b then 1 else 0 }

  function HoldsAt(j: nat): Thread -> nat { (t: Thread) => Flag(!t.pc.Try? && t.slot == j) }

  function Ahead(t: Thread): nat {
    4 * t.left - (if t.left == 0 then 0 else match t.pc case Try => 0 case Look => 1 case Use => 2 case Mark(_) => 3)
  }

  // ---------- The steps ----------

  predicate Shaped(s: State) {
    && |s.locked| == |s.buffer| == |s.full| == |s.log|
    && forall t :: 0 <= t < |s.threads| && s.threads[t].left > 0 ==> s.threads[t].slot < |s.locked|
  }

  predicate Enabled(s: State, t: nat) { Shaped(s) && t < |s.threads| && s.threads[t].left > 0 }

  function Leave(th: Thread, slots: nat): Thread
    requires th.left > 0
  {
    th.(pc := Try, slot := Next(th.slot, slots), left := th.left - 1)
  }

  // One step of a thread; `value` is what a writer will write.
  function Move(s: State, t: nat, value: int): State
    requires Enabled(s, t)
  {
    var th := s.threads[t];
    var j, gone := th.slot, Leave(th, |s.locked|);
    match th.pc
    case Try =>
      if s.locked[j] then s.(threads := s.threads[t := gone])
      else s.(locked := s.locked[j := true], threads := s.threads[t := th.(pc := Look)])
    case Look =>
      if s.full[j] == th.writes then s.(locked := s.locked[j := false], threads := s.threads[t := gone])
      else s.(threads := s.threads[t := th.(pc := Use)])
    case Use =>
      if th.writes then s.(buffer := s.buffer[j := value], threads := s.threads[t := th.(pc := Mark(value))])
      else s.(threads := s.threads[t := th.(pc := Mark(s.buffer[j]))])
    case Mark(v) =>
      s.(full := s.full[j := th.writes], locked := s.locked[j := false], threads := s.threads[t := gone],
         log := s.log[j := s.log[j] + [if th.writes then Put(v) else Get(v)]])
  }

  // Which thread moves, and what it writes if it is a writer about to write.
  datatype Action = Step(thread: nat, value: int)

  predicate Init(c: Config, s: State) {
    && Shaped(s) && |s.locked| == c.slots && |s.threads| == |c.writes|
    && (forall j :: 0 <= j < c.slots ==> !s.locked[j] && !s.full[j] && s.log[j] == [])
    && forall t :: 0 <= t < |s.threads| ==> s.threads[t] == Thread(c.writes[t], Try, 0, c.turns * c.slots)
  }

  predicate IsRun(c: Config, run: seq<State>, actions: seq<Action>) {
    && |run| == |actions| + 1
    && Init(c, run[0])
    && forall i :: 0 <= i < |actions| ==>
         Enabled(run[i], actions[i].thread) && run[i + 1] == Move(run[i], actions[i].thread, actions[i].value)
  }

  // ---------- The invariant ----------

  // Writes and reads take turns, a write first, and every read returns what the write before it stored.
  predicate Alternates(log: seq<Op>) {
    && (forall k :: 0 <= k < |log| ==> log[k].Put? == (k % 2 == 0))
    && (forall k :: 0 < k < |log| && log[k].Get? ==> log[k].value == log[k - 1].value)
  }

  predicate SlotInv(s: State, j: nat)
    requires Shaped(s) && j < |s.locked|
  {
    && Sum(s.threads, HoldsAt(j)) == Flag(s.locked[j])
    && Alternates(s.log[j])
    && s.full[j] == (|s.log[j]| % 2 == 1)
    && (s.full[j] ==> s.buffer[j] == s.log[j][|s.log[j]| - 1].value)
  }

  // A thread past its look at the slot relies on what it saw.
  predicate ThreadInv(s: State, t: nat)
    requires Shaped(s) && t < |s.threads|
  {
    var th := s.threads[t];
    && (th.left == 0 ==> th.pc.Try?)
    && (th.pc.Use? || th.pc.Mark? ==> th.slot < |s.full| && s.full[th.slot] == !th.writes)
    && (th.pc.Mark? ==> s.buffer[th.slot] == th.pc.value)
  }

  predicate Inv(s: State) {
    && Shaped(s)
    && (forall j :: 0 <= j < |s.locked| ==> SlotInv(s, j))
    && (forall t :: 0 <= t < |s.threads| ==> ThreadInv(s, t))
  }

  lemma InitInv(c: Config, s: State)
    requires Init(c, s)
    ensures Inv(s)
  {
    forall j | 0 <= j < c.slots ensures SlotInv(s, j) {
      SumConst(s.threads, HoldsAt(j), 0);
    }
  }

  lemma OneMoves(s: State, t: nat, value: int, j: nat)
    requires Enabled(s, t) && j < |s.locked|
    requires HoldsAt(j)(s.threads[t]) == 1 ==> s.locked[j]
    ensures Shaped(Move(s, t, value))
    ensures HoldsAt(j)(Move(s, t, value).threads[t]) - HoldsAt(j)(s.threads[t])
         == Flag(Move(s, t, value).locked[j]) - Flag(s.locked[j])
  {
  }

  lemma MoveHolds(s: State, t: nat, value: int, j: nat)
    requires Inv(s) && Enabled(s, t) && j < |s.locked|
    ensures Shaped(Move(s, t, value))
    ensures Sum(Move(s, t, value).threads, HoldsAt(j)) == Flag(Move(s, t, value).locked[j])
  {
    assert SlotInv(s, j);
    var th := Move(s, t, value).threads[t];
    assert Move(s, t, value).threads == s.threads[t := th];
    SumUpdate(s.threads, t, th, HoldsAt(j));
    SumAtLeast(s.threads, t, HoldsAt(j));
    OneMoves(s, t, value, j);
    hide Move, Sum, Alternates;
  }

  lemma MoveSlot(s: State, t: nat, value: int, j: nat)
    requires Inv(s) && Enabled(s, t) && j < |s.locked|
    ensures Shaped(Move(s, t, value)) && SlotInv(Move(s, t, value), j)
  {
    MoveHolds(s, t, value, j);
    MoveLog(s, t, value, j);
    hide Sum, HoldsAt, Alternates, Move;
  }

  lemma MoveLog(s: State, t: nat, value: int, j: nat)
    requires Inv(s) && Enabled(s, t) && j < |s.locked|
    ensures var s' := Move(s, t, value);
      && Shaped(s') && j < |s'.locked| && Alternates(s'.log[j])
      && s'.full[j] == (|s'.log[j]| % 2 == 1)
      && (s'.full[j] ==> s'.buffer[j] == s'.log[j][|s'.log[j]| - 1].value)
  {
    assert SlotInv(s, j) && ThreadInv(s, t);
    hide Sum, HoldsAt;
  }

  // A slot is changed only by the thread that holds it, so what another one saw stays true.
  lemma MoveThread(s: State, t: nat, value: int, u: nat)
    requires Inv(s) && Enabled(s, t) && u < |s.threads|
    ensures ThreadInv(Move(s, t, value), u)
  {
    assert ThreadInv(s, u) && ThreadInv(s, t);
    var j := s.threads[t].slot;
    assert SlotInv(s, j);
    if u < t {
      SumAtLeastTwo(s.threads, u, t, HoldsAt(j));
    } else if t < u {
      SumAtLeastTwo(s.threads, t, u, HoldsAt(j));
    }
  }

  lemma MoveInv(s: State, t: nat, value: int)
    requires Inv(s) && Enabled(s, t)
    ensures Inv(Move(s, t, value))
  {
    var s' := Move(s, t, value);
    forall j | 0 <= j < |s.locked| ensures Shaped(s') && SlotInv(s', j) {
      MoveSlot(s, t, value, j);
    }
    forall u | 0 <= u < |s.threads| ensures ThreadInv(s', u) {
      MoveThread(s, t, value, u);
    }
  }

  lemma {:induction false} RunInv(c: Config, run: seq<State>, actions: seq<Action>, i: nat)
    requires IsRun(c, run, actions) && i < |run|
    ensures Inv(run[i])
  {
    if i == 0 {
      InitInv(c, run[0]);
    } else {
      RunInv(c, run, actions, i - 1);
      MoveInv(run[i - 1], actions[i - 1].thread, actions[i - 1].value);
    }
  }

  // ---------- One-place buffers ----------

  function Puts(log: seq<Op>): seq<int> {
    if log == [] then []
    else
      var op := log[|log| - 1];
      Puts(log[..|log| - 1]) + if op.Put? then [op.value] else []
  }

  function Gets(log: seq<Op>): seq<int> {
    if log == [] then []
    else
      var op := log[|log| - 1];
      Gets(log[..|log| - 1]) + if op.Get? then [op.value] else []
  }

  /** Alternation is what makes the log that of a buffer with one place: values come out in the order they went in. */
  lemma {:induction false} AlternatingIsFifo(log: seq<Op>)
    requires Alternates(log)
    ensures |Puts(log)| == |Gets(log)| + |log| % 2
    ensures Puts(log) == Gets(log) + if |log| % 2 == 0 then [] else [log[|log| - 1].value]
  {
    if log != [] {
      var init := log[..|log| - 1];
      AlternatingIsFifo(init);
      var k := |log| - 1;
      if k > 0 {
        assert init[|init| - 1] == log[k - 1];
      }
    }
  }

  /** In every reachable state each slot has been a buffer with one place, occupied just while it is marked full. */
  lemma SlotIsBuffer(c: Config, run: seq<State>, actions: seq<Action>, i: nat, j: nat)
    requires IsRun(c, run, actions) && i < |run| && j < c.slots
    ensures var s := run[i];
      && j < |s.full| == |s.log| == |s.buffer| && Alternates(s.log[j])
      && Puts(s.log[j]) == Gets(s.log[j]) + if s.full[j] then [s.buffer[j]] else []
  {
    RunInv(c, run, actions, i);
    SameSlots(c, run, actions, i);
    assert SlotInv(run[i], j);
    AlternatingIsFifo(run[i].log[j]);
  }

  lemma {:induction false} SameSlots(c: Config, run: seq<State>, actions: seq<Action>, i: nat)
    requires IsRun(c, run, actions) && i < |run|
    ensures |run[i].locked| == c.slots && |run[i].threads| == |c.writes|
  {
    if i > 0 {
      SameSlots(c, run, actions, i - 1);
    }
  }

  /** No two threads are in the same slot. */
  lemma NoConflict(c: Config, run: seq<State>, actions: seq<Action>, i: nat, t: nat, u: nat)
    requires IsRun(c, run, actions) && i < |run| && t < u < |run[i].threads|
    requires !run[i].threads[t].pc.Try? && !run[i].threads[u].pc.Try?
    ensures run[i].threads[t].slot != run[i].threads[u].slot
  {
    RunInv(c, run, actions, i);
    var s := run[i];
    var j := s.threads[t].slot;
    assert ThreadInv(s, t) && ThreadInv(s, u);
    if j == s.threads[u].slot {
      assert SlotInv(s, j);
      SumAtLeastTwo(s.threads, t, u, HoldsAt(j));
    }
  }

  // ---------- What a visit does ----------

  // The last completed operation was a write, so that its value is still to be read.
  predicate Occupied(log: seq<Op>) { log != [] && log[|log| - 1].Put? }

  predicate Held(s: State, j: nat) {
    exists t :: 0 <= t < |s.threads| && !s.threads[t].pc.Try? && s.threads[t].slot == j
  }

  lemma HeldIsLocked(s: State, j: nat)
    requires Inv(s) && j < |s.locked|
    ensures Held(s, j) <==> s.locked[j]
  {
    assert SlotInv(s, j);
    if Held(s, j) {
      var t :| 0 <= t < |s.threads| && !s.threads[t].pc.Try? && s.threads[t].slot == j;
      SumAtLeast(s.threads, t, HoldsAt(j));
    } else if s.locked[j] {
      var t := SumWitness(s.threads, HoldsAt(j));
      assert false;
    }
  }

  // What a thread does with the slot that it holds.
  function OpOf(th: Thread, log: seq<Op>, value: int): Op {
    if th.writes then Put(value) else Get(if log == [] then 0 else log[|log| - 1].value)
  }

  /**
   A thread passes by a slot that somebody holds, and leaves one with nothing for it to do.  Otherwise it
   writes the value it was given, or reads the one written last, and that is what is logged when it leaves.
   */
  lemma StepMeans(c: Config, run: seq<State>, actions: seq<Action>, i: nat)
    requires IsRun(c, run, actions) && i < |actions|
    ensures var s, s', t := run[i], run[i + 1], actions[i].thread;
      && t < |s.threads| && s.threads[t].left > 0 && s.threads[t].slot < |s.log| == c.slots
      && var th, j := s.threads[t], s.threads[t].slot;
      && s'.threads == s.threads[t :=
           match th.pc
           case Try => if Held(s, j) then Leave(th, c.slots) else th.(pc := Look)
           case Look => if Occupied(s.log[j]) == th.writes then Leave(th, c.slots) else th.(pc := Use)
           case Use => th.(pc := Mark(OpOf(th, s.log[j], actions[i].value).value))
           case Mark(_) => Leave(th, c.slots)]
      && s'.log == if th.pc.Mark? then s.log[j := s.log[j] + [OpOf(th, s.log[j], th.pc.value)]] else s.log
  {
    RunInv(c, run, actions, i);
    SameSlots(c, run, actions, i);
    var s, t := run[i], actions[i].thread;
    assert ThreadInv(s, t) && SlotInv(s, s.threads[t].slot);
    HeldIsLocked(s, s.threads[t].slot);
    hide Held, Sum, HoldsAt;
  }

  // While a thread holds a slot, nobody else adds to its log.
  lemma {:induction false} HeldSlotIsKept(c: Config, run: seq<State>, actions: seq<Action>, t: nat, i: nat, k: nat)
    requires IsRun(c, run, actions) && i <= k < |run| && t < |run[i].threads| && !run[i].threads[t].pc.Try?
    requires forall n :: i <= n < k ==> actions[n].thread != t
    ensures t < |run[k].threads| && run[k].threads[t] == run[i].threads[t]
    ensures var j := run[i].threads[t].slot; j < |run[i].log| == |run[k].log| && run[k].log[j] == run[i].log[j]
  {
    hide Move, Enabled, SlotInv, Held, Occupied, OpOf, Alternates;
    RunInv(c, run, actions, i);
    assert ThreadInv(run[i], t);
    if i < k {
      HeldSlotIsKept(c, run, actions, t, i, k - 1);
      StepMeans(c, run, actions, k - 1);
      var u := actions[k - 1].thread;
      if u < t {
        NoConflictWith(c, run, actions, k - 1, u, t);
      } else {
        NoConflictWith(c, run, actions, k - 1, t, u);
      }
    }
  }

  lemma NoConflictWith(c: Config, run: seq<State>, actions: seq<Action>, i: nat, t: nat, u: nat)
    requires IsRun(c, run, actions) && i < |run| && t < u < |run[i].threads|
    ensures run[i].threads[t].pc.Try? || run[i].threads[u].pc.Try? || run[i].threads[t].slot != run[i].threads[u].slot
  {
    if !run[i].threads[t].pc.Try? && !run[i].threads[u].pc.Try? {
      NoConflict(c, run, actions, i, t, u);
    }
  }

  /**
   A thread that looks at a slot with something to do completes its write or read there with its next two
   steps, whatever all others do meanwhile.
   */
  lemma VisitIsServed(c: Config, run: seq<State>, actions: seq<Action>, t: nat, look: nat, use: nat, mark: nat)
    requires IsRun(c, run, actions) && look < use < mark < |actions|
    requires actions[look].thread == actions[use].thread == actions[mark].thread == t < |run[look].threads|
    requires forall n :: look < n < use || use < n < mark ==> actions[n].thread != t
    requires run[look].threads[t].pc.Look? && run[look].threads[t].slot < |run[look].log|
    requires Occupied(run[look].log[run[look].threads[t].slot]) != run[look].threads[t].writes
    ensures var th, j := run[look].threads[t], run[look].threads[t].slot;
      && j < |run[mark + 1].log| && t < |run[mark + 1].threads|
      && run[mark + 1].log[j] == run[look].log[j] + [OpOf(th, run[look].log[j], actions[use].value)]
      && run[mark + 1].threads[t] == Thread(th.writes, Try, Next(j, c.slots), th.left - 1)
  {
    StepMeans(c, run, actions, look);
    HeldSlotIsKept(c, run, actions, t, look + 1, use);
    StepMeans(c, run, actions, use);
    HeldSlotIsKept(c, run, actions, t, use + 1, mark);
    StepMeans(c, run, actions, mark);
  }

  // ---------- Progress ----------

  function Stages(s: State): nat { Sum(s.threads, Ahead) }

  lemma MoveStages(s: State, t: nat, value: int)
    requires Enabled(s, t)
    ensures Stages(Move(s, t, value)) < Stages(s)
  {
    SumUpdate(s.threads, t, Move(s, t, value).threads[t], Ahead);
  }

  lemma {:induction false} StagesBound(c: Config, run: seq<State>, actions: seq<Action>, i: nat)
    requires IsRun(c, run, actions) && i < |run|
    ensures i + Stages(run[i]) <= Stages(run[0])
  {
    if i > 0 {
      StagesBound(c, run, actions, i - 1);
      MoveStages(run[i - 1], actions[i - 1].thread, actions[i - 1].value);
    }
  }

  predicate AllFinished(s: State) { forall t :: 0 <= t < |s.threads| ==> s.threads[t].left == 0 }

  /**
   Nobody ever waits: a run goes on until every thread has made all of its visits, and it is
   at most four steps a visit long.
   */
  lemma RunsEnd(c: Config, run: seq<State>, actions: seq<Action>)
    requires IsRun(c, run, actions)
    ensures |actions| <= |c.writes| * (4 * (c.turns * c.slots))
    ensures (forall t: nat :: !Enabled(run[|actions|], t)) <==> AllFinished(run[|actions|])
  {
    StagesBound(c, run, actions, |actions|);
    SumConst(run[0].threads, Ahead, 4 * (c.turns * c.slots));
    RunInv(c, run, actions, |actions|);
    var s := run[|actions|];
    assert forall t: nat :: Enabled(s, t) <==> t < |s.threads| && s.threads[t].left > 0;
  }

  /** Every thread visits the slots in turn, `turns` rounds of them, whatever it finds there. */
  lemma {:induction false} VisitsInOrder(c: Config, run: seq<State>, actions: seq<Action>, i: nat, t: nat)
    requires IsRun(c, run, actions) && i < |run| && t < |c.writes| && c.slots > 0
    ensures t < |run[i].threads| && run[i].threads[t].writes == c.writes[t]
    ensures var n := c.turns * c.slots - run[i].threads[t].left;
      0 <= n && run[i].threads[t].slot == PlaceOf(n, c.slots)
  {
    hide Move, Enabled, Held, Occupied, OpOf, Next, PlaceOf;
    SameSlots(c, run, actions, i);
    if i > 0 {
      VisitsInOrder(c, run, actions, i - 1, t);
      SameSlots(c, run, actions, i - 1);
      StepMeans(c, run, actions, i - 1);
      PlaceOfNext(c.turns * c.slots - run[i - 1].threads[t].left, c.slots);
    } else {
      PlaceOfNone(c.slots);
    }
  }

  // ---------- The program ----------

  /** The globals of lab01/ex3.c with the local state of every thread. */
  class SharedSlots {
    var locked: seq<bool>
    const buffer: array<int>
    const full: array<bool>
    var threads: seq<Thread>
    ghost var log: seq<seq<Op>>

    ghost function Snapshot(): State
      reads this, buffer, full
    {
      State(locked, buffer[..], full[..], threads, log)
    }

    constructor (c: Config)
      ensures Init(c, Snapshot()) && fresh(buffer) && fresh(full)
    {
      locked := seq(c.slots, _ => false);
      buffer := new int[c.slots](_ => 0);
      full := new bool[c.slots](_ => false);
      threads := seq(|c.writes|, t requires 0 <= t < |c.writes| => Thread(c.writes[t], Try, 0, c.turns * c.slots));
      log := seq(c.slots, _ => []);
      new;
      assert c.slots == 0 ==> c.turns * c.slots == 0;
    }

    /** One step of a reader. */
    method ReaderTurn(t: nat)
      requires Enabled(Snapshot(), t) && !threads[t].writes
      modifies this, full
      ensures forall value :: Snapshot() == Move(old(Snapshot()), t, value)
    {
      var th := threads[t];
      var j, gone := th.slot, Leave(th, |locked|);
      match th.pc {
        case Try =>
          if locked[j] {
            threads := threads[t := gone];
          } else {
            locked := locked[j := true];
            threads := threads[t := th.(pc := Look)];
          }
        case Look =>
          if !full[j] {
            locked := locked[j := false];
            threads := threads[t := gone];
          } else {
            threads := threads[t := th.(pc := Use)];
          }
        case Use =>
          threads := threads[t := th.(pc := Mark(buffer[j]))];
        case Mark(v) =>
          full[j] := false;
          log := log[j := log[j] + [Get(v)]];
          locked := locked[j := false];
          threads := threads[t := gone];
      }
    }

    /** One step of a writer. */
    method WriterTurn(t: nat, value: int)
      requires Enabled(Snapshot(), t) && threads[t].writes
      modifies this, buffer, full
      ensures Snapshot() == Move(old(Snapshot()), t, value)
    {
      var th := threads[t];
      var j, gone := th.slot, Leave(th, |locked|);
      match th.pc {
        case Try =>
          if locked[j] {
            threads := threads[t := gone];
          } else {
            locked := locked[j := true];
            threads := threads[t := th.(pc := Look)];
          }
        case Look =>
          if full[j] {
            locked := locked[j := false];
            threads := threads[t := gone];
          } else {
            threads := threads[t := th.(pc := Use)];
          }
        case Use =>
          buffer[j] := value;
          threads := threads[t := th.(pc := Mark(value))];
        case Mark(v) =>
          full[j] := true;
          log := log[j := log[j] + [Put(v)]];
          locked := locked[j := false];
          threads := threads[t := gone];
      }
    }

    /** Runs all threads under an arbitrary scheduler: it terminates with all visits made. */
    method RunThreads(c: Config)
      requires Init(c, Snapshot())
      modifies this, buffer, full
      ensures Inv(Snapshot()) && AllFinished(Snapshot())
    {
      InitInv(c, Snapshot());
      var ready := set t | 0 <= t < |threads| && threads[t].left > 0;
      while ready != {}
        invariant Inv(Snapshot()) && ready == set t | 0 <= t < |threads| && threads[t].left > 0
        decreases Stages(Snapshot())
      {
        var t :| t in ready;
        var value: int := *;
        MoveInv(Snapshot(), t, value);
        MoveStages(Snapshot(), t, value);
        if threads[t].writes {
          WriterTurn(t, value);
        } else {
          ReaderTurn(t);
        }
        ready := set u | 0 <= u < |threads| && threads[u].left > 0;
      }
      assert forall t :: 0 <= t < |threads| && threads[t].left > 0 ==> t in ready;
    }
  }
}
