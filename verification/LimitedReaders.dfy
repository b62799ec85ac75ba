/**
 The pool of objects of lab01/ex5.c.  Every object has a mutex that is tried and a deep mutex
 that a writer, or the first reader for a group of at most `limits[j]` readers, blocks on.
 Taking a mutex and what is then done under it are separate steps, so a failing trylock is
 one that finds the mutex taken.
 */
module LimitedReaders {
  import opened Sums
  import opened Visits

  // RCheck, RWantDeep and RRelease hold the object's mutex.
  datatype ReaderPc = RTry | RCheck | RWantDeep | Reading | RWantObject | RRelease
  // WCheck and WMark hold the object's mutex, Writing and Stored its deep mutex.
  datatype WriterPc = WTry | WCheck | WWantDeep | Writing | Stored | WWantObject | WMark

  // `obj` is the object being visited, `left` the visits not completed yet.
  datatype Reader = Reader(pc: ReaderPc, obj: nat, left: nat)
  datatype Writer = Writer(pc: WriterPc, obj: nat, left: nat)

  // One line of output: the value read in a slot.
  datatype Get = Get(slot: nat, value: int)

  datatype State = State(
    limits: seq<int>, locked: seq<bool>, deepLocked: seq<bool>,
    buffer: seq<int>, full: seq<bool>, readerCount: seq<int>,
    readers: seq<Reader>, writers: seq<Writer>, stores: seq<seq<int>>, gets: seq<Get>)

  datatype Config = Config(objects: nat, turns: nat, readers: nat, writers: nat)

  function Flag(b: bool): nat { if b then 1 else 0 }

  // Holding the object's mutex for a moment, holding it while waiting for the deep one,
  // being one of the group that owns the deep one; for a writer, holding either.
  datatype Role = Holder | Waiter | Member | Owner

  function ReaderPlays(t: Reader, j: nat, role: Role): nat {
    Flag(t.obj == j && match role
      case Holder => t.pc.RCheck? || t.pc.RRelease?
      case Waiter => t.pc.RWantDeep?
      case Member => t.pc.Reading? || t.pc.RWantObject? || t.pc.RRelease?
      case Owner => false)
  }

  function WriterPlays(t: Writer, j: nat, role: Role): nat {
    Flag(t.obj == j && match role
      case Holder => t.pc.WCheck? || t.pc.WMark?
      case Owner => t.pc.Writing? || t.pc.Stored?
      case _ => false)
  }

  // How many threads play a role at object `j`.
  function Readers(ts: seq<Reader>, j: nat, role: Role): nat {
    if ts == [] then 0 else ReaderPlays(ts[0], j, role) + Readers(ts[1..], j, role)
  }

  function Writers(ts: seq<Writer>, j: nat, role: Role): nat {
    if ts == [] then 0 else WriterPlays(ts[0], j, role) + Writers(ts[1..], j, role)
  }

  function ReaderAhead(t: Reader): nat {
    6 * t.left - (if t.left == 0 then 0 else match t.pc
      case RTry => 0 case RCheck => 1 case RWantDeep => 2 case Reading => 3 case RWantObject => 4 case RRelease => 5)
  }
  function WriterAhead(t: Writer): nat {
    7 * t.left - (if t.left == 0 then 0 else match t.pc
      case WTry => 0 case WCheck => 1 case WWantDeep => 2 case Writing => 3 case Stored => 4
      case WWantObject => 5 case WMark => 6)
  }

  // ---------- The steps ----------

  predicate Sized(s: State, objects: nat) {
    |s.limits| == |s.locked| == |s.deepLocked| == |s.buffer| == |s.full| == |s.readerCount| == |s.stores| == objects
  }

  predicate Shaped(s: State, objects: nat) {
    && Sized(s, objects)
    && (forall r :: 0 <= r < |s.readers| && s.readers[r].left > 0 ==> s.readers[r].obj < objects)
    && (forall w :: 0 <= w < |s.writers| && s.writers[w].left > 0 ==> s.writers[w].obj < objects)
  }

  // Whether a thread can move, given the mutexes of its object.
  predicate ReaderCan(t: Reader, locked: seq<bool>, deepLocked: seq<bool>) {
    && 0 < t.left && t.obj < |locked| == |deepLocked|
    && (t.pc.RWantDeep? ==> !deepLocked[t.obj])
    && (t.pc.RWantObject? ==> !locked[t.obj])
  }

  predicate WriterCan(t: Writer, locked: seq<bool>, deepLocked: seq<bool>) {
    && 0 < t.left && t.obj < |locked| == |deepLocked|
    && (t.pc.WWantDeep? ==> !deepLocked[t.obj])
    && (t.pc.WWantObject? ==> !locked[t.obj])
  }

  function ReaderMove(s: State, r: nat): State
    requires Sized(s, |s.locked|) && r < |s.readers| && ReaderCan(s.readers[r], s.locked, s.deepLocked)
  {
    var t := s.readers[r];
    var j := t.obj;
    var done := Reader(RTry, Next(j, |s.locked|), t.left - 1);
    match t.pc
    case RTry =>
      if s.locked[j] then s.(readers := s.readers[r := done])
      else s.(locked := s.locked[j := true], readers := s.readers[r := t.(pc := RCheck)])
    case RCheck =>
      if !s.full[j] || s.readerCount[j] >= s.limits[j] then
        s.(locked := s.locked[j := false], readers := s.readers[r := done])
      else if s.readerCount[j] + 1 == 1 then
        s.(readerCount := s.readerCount[j := s.readerCount[j] + 1], readers := s.readers[r := t.(pc := RWantDeep)])
      else
        s.(readerCount := s.readerCount[j := s.readerCount[j] + 1], locked := s.locked[j := false],
           readers := s.readers[r := t.(pc := Reading)])
    case RWantDeep =>
      s.(deepLocked := s.deepLocked[j := true], locked := s.locked[j := false],
         readers := s.readers[r := t.(pc := Reading)])
    case Reading =>
      s.(gets := s.gets + [Get(j, s.buffer[j])], readers := s.readers[r := t.(pc := RWantObject)])
    case RWantObject =>
      s.(locked := s.locked[j := true], readers := s.readers[r := t.(pc := RRelease)])
    case RRelease =>
      s.(full := s.full[j := false], readerCount := s.readerCount[j := s.readerCount[j] - 1],
         deepLocked := if s.readerCount[j] - 1 == 0 then s.deepLocked[j := false] else s.deepLocked,
         locked := s.locked[j := false], readers := s.readers[r := done])
  }

  function WriterMove(s: State, w: nat, value: int): State
    requires Sized(s, |s.locked|) && w < |s.writers| && WriterCan(s.writers[w], s.locked, s.deepLocked)
  {
    var t := s.writers[w];
    var j := t.obj;
    var done := Writer(WTry, Next(j, |s.locked|), t.left - 1);
    match t.pc
    case WTry =>
      if s.locked[j] then s.(writers := s.writers[w := done])
      else s.(locked := s.locked[j := true], writers := s.writers[w := t.(pc := WCheck)])
    case WCheck =>
      s.(locked := s.locked[j := false], writers := s.writers[w := if s.full[j] then done else t.(pc := WWantDeep)])
    case WWantDeep =>
      s.(deepLocked := s.deepLocked[j := true], writers := s.writers[w := t.(pc := Writing)])
    case Writing =>
      s.(buffer := s.buffer[j := value], stores := s.stores[j := s.stores[j] + [value]],
         writers := s.writers[w := t.(pc := Stored)])
    case Stored =>
      s.(deepLocked := s.deepLocked[j := false], writers := s.writers[w := t.(pc := WWantObject)])
    case WWantObject =>
      s.(locked := s.locked[j := true], writers := s.writers[w := t.(pc := WMark)])
    case WMark =>
      s.(full := s.full[j := true], locked := s.locked[j := false], writers := s.writers[w := done])
  }

  // ---------- Runs ----------

  datatype Action = ReaderStep(r: nat) | WriterStep(w: nat, value: int)

  predicate Enabled(s: State, a: Action) {
    && Sized(s, |s.locked|)
    && match a
       case ReaderStep(r) => r < |s.readers| && ReaderCan(s.readers[r], s.locked, s.deepLocked)
       case WriterStep(w, _) => w < |s.writers| && WriterCan(s.writers[w], s.locked, s.deepLocked)
  }

  function Apply(s: State, a: Action): State
    requires Enabled(s, a)
  {
    match a
    case ReaderStep(r) => ReaderMove(s, r)
    case WriterStep(w, v) => WriterMove(s, w, v)
  }

  predicate Init(c: Config, s: State) {
    && Shaped(s, c.objects) && |s.readers| == c.readers && |s.writers| == c.writers
    && (forall j :: 0 <= j < c.objects ==> s.limits[j] >= 1)
    && (forall j :: 0 <= j < c.objects ==> !s.locked[j] && !s.deepLocked[j])
    && (forall j :: 0 <= j < c.objects ==> !s.full[j] && s.readerCount[j] == 0 && s.stores[j] == [])
    && (forall r :: 0 <= r < c.readers ==> s.readers[r] == Reader(RTry, 0, c.turns * c.objects))
    && (forall w :: 0 <= w < c.writers ==> s.writers[w] == Writer(WTry, 0, c.turns * c.objects))
    && s.gets == []
  }

  predicate IsRun(c: Config, run: seq<State>, actions: seq<Action>) {
    && |run| == |actions| + 1
    && Init(c, run[0])
    && forall i :: 0 <= i < |actions| ==> Enabled(run[i], actions[i]) && run[i + 1] == Apply(run[i], actions[i])
  }

  // ---------- The invariant ----------

  // The two mutexes and the counter of object `j` say who is inside.
  predicate ObjectInv(s: State, j: nat)
    requires Sized(s, |s.locked|) && j < |s.locked|
  {
    && Readers(s.readers, j, Holder) + Readers(s.readers, j, Waiter) + Writers(s.writers, j, Holder)
       == Flag(s.locked[j])
    && s.readerCount[j] == Readers(s.readers, j, Member) + Readers(s.readers, j, Waiter) <= s.limits[j]
    && (Readers(s.readers, j, Waiter) > 0 ==> Readers(s.readers, j, Member) == 0)
    && Flag(Readers(s.readers, j, Member) > 0) + Writers(s.writers, j, Owner) == Flag(s.deepLocked[j])
  }

  predicate Admitted(t: Reader) { !t.pc.RTry? && !t.pc.RCheck? }
  predicate HasStored(t: Writer) { t.pc.Stored? || t.pc.WWantObject? || t.pc.WMark? }

  // A slot that can be read has been stored to, and holds what was stored last.
  predicate SlotInv(s: State, j: nat)
    requires Sized(s, |s.locked|) && j < |s.locked|
  {
    && (s.stores[j] != [] ==> s.buffer[j] == s.stores[j][|s.stores[j]| - 1])
    && (s.full[j] ==> s.stores[j] != [])
    && (forall r :: 0 <= r < |s.readers| && s.readers[r].obj == j && Admitted(s.readers[r]) ==> s.stores[j] != [])
    && (forall w :: 0 <= w < |s.writers| && s.writers[w].obj == j && HasStored(s.writers[w]) ==> s.stores[j] != [])
  }

  predicate Inv(c: Config, s: State) {
    && Shaped(s, c.objects) && |s.readers| == c.readers && |s.writers| == c.writers
    && (forall j :: 0 <= j < c.objects ==> ObjectInv(s, j))
    && (forall j :: 0 <= j < c.objects ==> SlotInv(s, j))
    && (forall r :: 0 <= r < c.readers && s.readers[r].left == 0 ==> s.readers[r].pc.RTry?)
    && (forall w :: 0 <= w < c.writers && s.writers[w].left == 0 ==> s.writers[w].pc.WTry?)
  }

  lemma {:induction false} NoReaders(ts: seq<Reader>, j: nat, role: Role)
    requires forall r :: 0 <= r < |ts| ==> ts[r].pc.RTry?
    ensures Readers(ts, j, role) == 0
  {
    if ts != [] {
      NoReaders(ts[1..], j, role);
    }
  }

  lemma {:induction false} NoWriters(ts: seq<Writer>, j: nat, role: Role)
    requires forall w :: 0 <= w < |ts| ==> ts[w].pc.WTry?
    ensures Writers(ts, j, role) == 0
  {
    if ts != [] {
      NoWriters(ts[1..], j, role);
    }
  }

  lemma InitInv(c: Config, s: State)
    requires Init(c, s)
    ensures Inv(c, s)
  {
    forall j | 0 <= j < c.objects ensures ObjectInv(s, j) {
      forall role ensures Readers(s.readers, j, role) == Writers(s.writers, j, role) == 0 {
        NoReaders(s.readers, j, role);
        NoWriters(s.writers, j, role);
      }
    }
  }

  lemma {:induction false} ReadersUpdate(ts: seq<Reader>, r: nat, t: Reader, j: nat, role: Role)
    requires r < |ts|
    ensures Readers(ts[r := t], j, role) + ReaderPlays(ts[r], j, role) == Readers(ts, j, role) + ReaderPlays(t, j, role)
    ensures ReaderPlays(ts[r], j, role) <= Readers(ts, j, role)
  {
    if r == 0 {
      assert ts[0 := t][1..] == ts[1..];
    } else {
      ReadersUpdate(ts[1..], r - 1, t, j, role);
      assert ts[r := t][1..] == ts[1..][r - 1 := t];
    }
  }

  lemma {:induction false} WritersUpdate(ts: seq<Writer>, w: nat, t: Writer, j: nat, role: Role)
    requires w < |ts|
    ensures Writers(ts[w := t], j, role) + WriterPlays(ts[w], j, role) == Writers(ts, j, role) + WriterPlays(t, j, role)
    ensures WriterPlays(ts[w], j, role) <= Writers(ts, j, role)
  {
    if w == 0 {
      assert ts[0 := t][1..] == ts[1..];
    } else {
      WritersUpdate(ts[1..], w - 1, t, j, role);
      assert ts[w := t][1..] == ts[1..][w - 1 := t];
    }
  }

  lemma ReaderUpdates(ts: seq<Reader>, r: nat, t: Reader, j: nat)
    requires r < |ts|
    ensures forall role ::
      Readers(ts[r := t], j, role) + ReaderPlays(ts[r], j, role) == Readers(ts, j, role) + ReaderPlays(t, j, role)
    ensures forall role :: ReaderPlays(ts[r], j, role) <= Readers(ts, j, role)
  {
    forall role
      ensures Readers(ts[r := t], j, role) + ReaderPlays(ts[r], j, role)
            == Readers(ts, j, role) + ReaderPlays(t, j, role)
      ensures ReaderPlays(ts[r], j, role) <= Readers(ts, j, role)
    {
      ReadersUpdate(ts, r, t, j, role);
    }
  }

  lemma ReaderTries(s: State, r: nat, j: nat)
    requires Enabled(s, ReaderStep(r)) && j < |s.locked| && ObjectInv(s, j) && s.readers[r].pc.RTry?
    ensures ObjectInv(ReaderMove(s, r), j)
  {
    ReaderUpdates(s.readers, r, ReaderMove(s, r).readers[r], j);
  }

  lemma ReaderGoesAway(s: State, r: nat, j: nat)
    requires Enabled(s, ReaderStep(r)) && j < |s.locked| && ObjectInv(s, j) && s.readers[r].pc.RCheck?
    requires ReaderMove(s, r).readers[r].pc.RTry?
    ensures ObjectInv(ReaderMove(s, r), j)
  {
    ReaderUpdates(s.readers, r, ReaderMove(s, r).readers[r], j);
  }

  lemma ReaderIsAdmitted(s: State, r: nat, j: nat)
    requires Enabled(s, ReaderStep(r)) && j < |s.locked| && ObjectInv(s, j) && s.readers[r].pc.RCheck?
    requires !ReaderMove(s, r).readers[r].pc.RTry?
    ensures ObjectInv(ReaderMove(s, r), j)
  {
    ReaderUpdates(s.readers, r, ReaderMove(s, r).readers[r], j);
  }

  lemma ReaderIsInside(s: State, r: nat, j: nat)
    requires Enabled(s, ReaderStep(r)) && j < |s.locked| && ObjectInv(s, j)
    requires s.readers[r].pc.RWantDeep? || s.readers[r].pc.Reading?
    ensures ObjectInv(ReaderMove(s, r), j)
  {
    ReaderUpdates(s.readers, r, ReaderMove(s, r).readers[r], j);
  }

  lemma ReaderLeaves(s: State, r: nat, j: nat)
    requires Enabled(s, ReaderStep(r)) && j < |s.locked| && ObjectInv(s, j)
    requires s.readers[r].pc.RWantObject? || s.readers[r].pc.RRelease?
    ensures ObjectInv(ReaderMove(s, r), j)
  {
    ReaderUpdates(s.readers, r, ReaderMove(s, r).readers[r], j);
  }

  lemma ReaderObjectInv(s: State, r: nat, j: nat)
    requires Enabled(s, ReaderStep(r)) && j < |s.locked| && ObjectInv(s, j)
    ensures ObjectInv(ReaderMove(s, r), j)
  {
    hide ObjectInv;
    var pc := s.readers[r].pc;
    if pc.RTry? {
      ReaderTries(s, r, j);
    } else if pc.RCheck? {
      if ReaderMove(s, r).readers[r].pc.RTry? {
        ReaderGoesAway(s, r, j);
      } else {
        ReaderIsAdmitted(s, r, j);
      }
    } else if pc.RWantDeep? || pc.Reading? {
      ReaderIsInside(s, r, j);
    } else {
      ReaderLeaves(s, r, j);
    }
  }

  lemma WriterUpdates(ts: seq<Writer>, w: nat, t: Writer, j: nat)
    requires w < |ts|
    ensures forall role ::
      Writers(ts[w := t], j, role) + WriterPlays(ts[w], j, role) == Writers(ts, j, role) + WriterPlays(t, j, role)
    ensures forall role :: WriterPlays(ts[w], j, role) <= Writers(ts, j, role)
  {
    forall role
      ensures Writers(ts[w := t], j, role) + WriterPlays(ts[w], j, role)
            == Writers(ts, j, role) + WriterPlays(t, j, role)
      ensures WriterPlays(ts[w], j, role) <= Writers(ts, j, role)
    {
      WritersUpdate(ts, w, t, j, role);
    }
  }

  lemma WriterArrives(s: State, w: nat, v: int, j: nat)
    requires Enabled(s, WriterStep(w, v)) && j < |s.locked| && ObjectInv(s, j)
    requires s.writers[w].pc.WTry? || s.writers[w].pc.WCheck?
    ensures ObjectInv(WriterMove(s, w, v), j)
  {
    WriterUpdates(s.writers, w, WriterMove(s, w, v).writers[w], j);
  }

  lemma WriterIsInside(s: State, w: nat, v: int, j: nat)
    requires Enabled(s, WriterStep(w, v)) && j < |s.locked| && ObjectInv(s, j)
    requires s.writers[w].pc.WWantDeep? || s.writers[w].pc.Writing? || s.writers[w].pc.Stored?
    ensures ObjectInv(WriterMove(s, w, v), j)
  {
    WriterUpdates(s.writers, w, WriterMove(s, w, v).writers[w], j);
  }

  lemma WriterLeaves(s: State, w: nat, v: int, j: nat)
    requires Enabled(s, WriterStep(w, v)) && j < |s.locked| && ObjectInv(s, j)
    requires s.writers[w].pc.WWantObject? || s.writers[w].pc.WMark?
    ensures ObjectInv(WriterMove(s, w, v), j)
  {
    WriterUpdates(s.writers, w, WriterMove(s, w, v).writers[w], j);
  }

  lemma WriterObjectInv(s: State, w: nat, v: int, j: nat)
    requires Enabled(s, WriterStep(w, v)) && j < |s.locked| && ObjectInv(s, j)
    ensures ObjectInv(WriterMove(s, w, v), j)
  {
    var pc := s.writers[w].pc;
    if pc.WTry? || pc.WCheck? {
      WriterArrives(s, w, v, j);
    } else if pc.WWantObject? || pc.WMark? {
      WriterLeaves(s, w, v, j);
    } else {
      WriterIsInside(s, w, v, j);
    }
  }

  lemma ReaderSlotInv(s: State, r: nat, j: nat)
    requires Enabled(s, ReaderStep(r)) && j < |s.locked| && SlotInv(s, j)
    ensures SlotInv(ReaderMove(s, r), j)
  {
  }

  lemma WriterSlotInv(s: State, w: nat, v: int, j: nat)
    requires Enabled(s, WriterStep(w, v)) && j < |s.locked| && SlotInv(s, j)
    ensures SlotInv(WriterMove(s, w, v), j)
  {
  }

  lemma ReaderStepInv(c: Config, s: State, r: nat)
    requires Inv(c, s) && Enabled(s, ReaderStep(r))
    ensures Inv(c, ReaderMove(s, r))
  {
    forall j | 0 <= j < c.objects ensures ObjectInv(ReaderMove(s, r), j) && SlotInv(ReaderMove(s, r), j) {
      ReaderObjectInv(s, r, j);
      ReaderSlotInv(s, r, j);
    }
    assert SlotInv(s, s.readers[r].obj);
  }

  lemma WriterStepInv(c: Config, s: State, w: nat, v: int)
    requires Inv(c, s) && Enabled(s, WriterStep(w, v))
    ensures Inv(c, WriterMove(s, w, v))
  {
    forall j | 0 <= j < c.objects ensures ObjectInv(WriterMove(s, w, v), j) && SlotInv(WriterMove(s, w, v), j) {
      WriterObjectInv(s, w, v, j);
      WriterSlotInv(s, w, v, j);
    }
  }

  lemma StepInv(c: Config, s: State, a: Action)
    requires Inv(c, s) && Enabled(s, a)
    ensures Inv(c, Apply(s, a))
  {
    match a
    case ReaderStep(r) => ReaderStepInv(c, s, r);
    case WriterStep(w, v) => WriterStepInv(c, s, w, v);
  }

  lemma {:induction false} RunInv(c: Config, run: seq<State>, actions: seq<Action>, i: nat)
    requires IsRun(c, run, actions) && i < |run|
    ensures Inv(c, run[i])
  {
    if i == 0 {
      InitInv(c, run[0]);
    } else {
      RunInv(c, run, actions, i - 1);
      StepInv(c, run[i - 1], actions[i - 1]);
    }
  }

  // ---------- Limits, exclusion, values ----------

  lemma {:induction false} OneOwner(ts: seq<Writer>, w: nat, v: nat, j: nat)
    requires w < v < |ts|
    ensures WriterPlays(ts[w], j, Owner) + WriterPlays(ts[v], j, Owner) <= Writers(ts, j, Owner)
  {
    if w > 0 {
      OneOwner(ts[1..], w - 1, v - 1, j);
    } else {
      WritersUpdate(ts[1..], v - 1, ts[v], j, Owner);
    }
  }

  /** Every object, in every reachable state: as many readers as it allows, no writer beside them
      or beside another writer. */
  lemma NoOverlap(c: Config, run: seq<State>, actions: seq<Action>, i: nat, j: nat)
    requires IsRun(c, run, actions) && i < |run| && j < c.objects
    ensures var s := run[i];
      && j < |s.limits| && Readers(s.readers, j, Member) <= s.limits[j]
      && (forall w, r :: 0 <= w < |s.writers| && 0 <= r < |s.readers| ==>
            WriterPlays(s.writers[w], j, Owner) + ReaderPlays(s.readers[r], j, Member) <= 1)
      && (forall w, v :: 0 <= w < v < |s.writers| ==>
            WriterPlays(s.writers[w], j, Owner) + WriterPlays(s.writers[v], j, Owner) <= 1)
  {
    RunInv(c, run, actions, i);
    var s := run[i];
    assert ObjectInv(s, j);
    forall w | 0 <= w < |s.writers| ensures WriterPlays(s.writers[w], j, Owner) <= Writers(s.writers, j, Owner) {
      WritersUpdate(s.writers, w, s.writers[w], j, Owner);
    }
    forall r | 0 <= r < |s.readers| ensures ReaderPlays(s.readers[r], j, Member) <= Readers(s.readers, j, Member) {
      ReadersUpdate(s.readers, r, s.readers[r], j, Member);
    }
    forall w, v | 0 <= w < v < |s.writers|
      ensures WriterPlays(s.writers[w], j, Owner) + WriterPlays(s.writers[v], j, Owner) <= 1
    {
      OneOwner(s.writers, w, v, j);
    }
  }

  /** A read returns the value stored last in its slot, and never happens in a slot nothing was stored in. */
  lemma ReadsAreCurrent(c: Config, run: seq<State>, actions: seq<Action>, i: nat, r: nat)
    requires IsRun(c, run, actions) && i < |actions| && actions[i] == ReaderStep(r)
    requires r < |run[i].readers| && run[i].readers[r].pc.Reading?
    ensures var s, j := run[i], run[i].readers[r].obj;
      && j < |s.stores| && s.stores[j] != []
      && run[i + 1].gets == s.gets + [Get(j, s.stores[j][|s.stores[j]| - 1])]
  {
    RunInv(c, run, actions, i);
    assert Enabled(run[i], actions[i]);
    assert SlotInv(run[i], run[i].readers[r].obj);
  }

  // ---------- Marks and releases ----------

  // What happens to the mark of an object: a writer that has stored sets it, a reader that has read takes it away.
  datatype Event = Mark | Release

  function EventAt(s: State, a: Action, j: nat): (events: seq<Event>)
    ensures |events| <= 1
  {
    match a
    case ReaderStep(r) =>
      if r < |s.readers| && s.readers[r].pc.RRelease? && s.readers[r].obj == j then [Release] else []
    case WriterStep(w, _) =>
      if w < |s.writers| && s.writers[w].pc.WMark? && s.writers[w].obj == j then [Mark] else []
  }

  function Events(run: seq<State>, actions: seq<Action>, n: nat, j: nat): seq<Event>
    requires n <= |actions| < |run|
  {
    if n == 0 then [] else Events(run, actions, n - 1, j) + EventAt(run[n - 1], actions[n - 1], j)
  }

  predicate Marked(events: seq<Event>) { events != [] && events[|events| - 1] == Mark }

  lemma StepMarks(s: State, a: Action, j: nat)
    requires Enabled(s, a) && j < |s.full|
    ensures j < |Apply(s, a).full|
    ensures Apply(s, a).full[j] == if EventAt(s, a, j) == [] then s.full[j] else EventAt(s, a, j) == [Mark]
  {
  }

  /** An object is full just if the last thing that happened to it was a mark, so that a release empties it. */
  lemma {:induction false} FullMeansMarked(c: Config, run: seq<State>, actions: seq<Action>, n: nat, j: nat)
    requires IsRun(c, run, actions) && n < |run| && j < c.objects
    ensures j < |run[n].full| && run[n].full[j] == Marked(Events(run, actions, n, j))
  {
    hide Apply, Enabled, EventAt;
    if n > 0 {
      FullMeansMarked(c, run, actions, n - 1, j);
      assert Enabled(run[n - 1], actions[n - 1]) && run[n] == Apply(run[n - 1], actions[n - 1]);
      StepMarks(run[n - 1], actions[n - 1], j);
    }
  }

  // ---------- What a step does, told by where the threads are ----------

  // Somebody holds the object's mutex.
  predicate Held(s: State, j: nat) {
    Readers(s.readers, j, Holder) + Readers(s.readers, j, Waiter) + Writers(s.writers, j, Holder) > 0
  }

  // Readers that the object has admitted and that have not left it yet.
  function Inside(s: State, j: nat): nat { Readers(s.readers, j, Member) + Readers(s.readers, j, Waiter) }

  /**
   A reader passes by an object that is held, and goes away from one that is not marked or at its limit.
   Any other admits it, the first one by way of the deep mutex; then it reads, and leaves.
   */
  lemma ReaderStepMeans(c: Config, run: seq<State>, actions: seq<Action>, i: nat, r: nat)
    requires IsRun(c, run, actions) && i < |actions| && actions[i] == ReaderStep(r)
    ensures r < |run[i].readers| && run[i].readers[r].obj < |run[i].limits| == c.objects
    ensures var s, s', t := run[i], run[i + 1], run[i].readers[r];
      var j, gone := t.obj, Reader(RTry, Next(t.obj, c.objects), t.left - 1);
      && s'.readers == s.readers[r :=
           match t.pc
           case RTry => if Held(s, j) then gone else Reader(RCheck, j, t.left)
           case RCheck =>
             if !Marked(Events(run, actions, i, j)) || Inside(s, j) >= s.limits[j] then gone
             else Reader(if Inside(s, j) == 0 then RWantDeep else Reading, j, t.left)
           case RWantDeep => Reader(Reading, j, t.left)
           case Reading => Reader(RWantObject, j, t.left)
           case RWantObject => Reader(RRelease, j, t.left)
           case RRelease => gone]
      && s'.writers == s.writers && s'.limits == s.limits && s'.buffer == s.buffer && s'.stores == s.stores
      && (!t.pc.Reading? ==> s'.gets == s.gets)
  {
    RunInv(c, run, actions, i);
    assert Enabled(run[i], actions[i]);
    var j := run[i].readers[r].obj;
    assert ObjectInv(run[i], j);
    FullMeansMarked(c, run, actions, i, j);
    hide Readers, Writers, Events;
  }

  /**
   A writer passes by an object that is held, and goes away from one that is marked.  Otherwise it stores
   the value it was given and marks the object.
   */
  lemma WriterStepMeans(c: Config, run: seq<State>, actions: seq<Action>, i: nat, w: nat, v: int)
    requires IsRun(c, run, actions) && i < |actions| && actions[i] == WriterStep(w, v)
    ensures w < |run[i].writers| && run[i].writers[w].obj < |run[i].buffer| == |run[i].stores| == c.objects
    ensures var s, s', t := run[i], run[i + 1], run[i].writers[w];
      var j, gone := t.obj, Writer(WTry, Next(t.obj, c.objects), t.left - 1);
      && s'.writers == s.writers[w :=
           match t.pc
           case WTry => if Held(s, j) then gone else Writer(WCheck, j, t.left)
           case WCheck => if Marked(Events(run, actions, i, j)) then gone else Writer(WWantDeep, j, t.left)
           case WWantDeep => Writer(Writing, j, t.left)
           case Writing => Writer(Stored, j, t.left)
           case Stored => Writer(WWantObject, j, t.left)
           case WWantObject => Writer(WMark, j, t.left)
           case WMark => gone]
      && s'.readers == s.readers && s'.limits == s.limits && s'.gets == s.gets
      && (if t.pc.Writing? then s'.buffer == s.buffer[j := v] && s'.stores == s.stores[j := s.stores[j] + [v]]
          else s'.buffer == s.buffer && s'.stores == s.stores)
  {
    RunInv(c, run, actions, i);
    assert Enabled(run[i], actions[i]);
    var j := run[i].writers[w].obj;
    assert ObjectInv(run[i], j);
    FullMeansMarked(c, run, actions, i, j);
    hide Readers, Writers, Events;
  }

  /** Every thread visits the objects in turn, `turns` rounds of them, whatever it finds there. */
  lemma {:induction false} ReaderVisitsInOrder(c: Config, run: seq<State>, actions: seq<Action>, i: nat, r: nat)
    requires IsRun(c, run, actions) && i < |run| && c.objects > 0 && r < c.readers
    ensures r < |run[i].readers|
    ensures var n := c.turns * c.objects - run[i].readers[r].left;
      0 <= n && run[i].readers[r].obj == PlaceOf(n, c.objects)
  {
    hide Inv, Enabled, Apply, Next, PlaceOf, Events, Marked, Inside, Held;
    if i == 0 {
      PlaceOfNone(c.objects);
    } else {
      ReaderVisitsInOrder(c, run, actions, i - 1, r);
      PlaceOfNext(c.turns * c.objects - run[i - 1].readers[r].left, c.objects);
      match actions[i - 1]
      case ReaderStep(q) => ReaderStepMeans(c, run, actions, i - 1, q);
      case WriterStep(w, v) => WriterStepMeans(c, run, actions, i - 1, w, v);
    }
  }

  lemma {:induction false} WriterVisitsInOrder(c: Config, run: seq<State>, actions: seq<Action>, i: nat, w: nat)
    requires IsRun(c, run, actions) && i < |run| && c.objects > 0 && w < c.writers
    ensures w < |run[i].writers|
    ensures var n := c.turns * c.objects - run[i].writers[w].left;
      0 <= n && run[i].writers[w].obj == PlaceOf(n, c.objects)
  {
    hide Inv, Enabled, Apply, Next, PlaceOf, Events, Marked, Inside, Held;
    if i == 0 {
      PlaceOfNone(c.objects);
    } else {
      WriterVisitsInOrder(c, run, actions, i - 1, w);
      PlaceOfNext(c.turns * c.objects - run[i - 1].writers[w].left, c.objects);
      match actions[i - 1]
      case ReaderStep(q) => ReaderStepMeans(c, run, actions, i - 1, q);
      case WriterStep(u, v) => WriterStepMeans(c, run, actions, i - 1, u, v);
    }
  }

  // ---------- Progress ----------

  function Stages(s: State): nat { Sum(s.readers, ReaderAhead) + Sum(s.writers, WriterAhead) }

  lemma ReaderStages(s: State, r: nat)
    requires Enabled(s, ReaderStep(r))
    ensures Sum(ReaderMove(s, r).readers, ReaderAhead) < Sum(s.readers, ReaderAhead)
    ensures ReaderMove(s, r).writers == s.writers
  {
    var t := ReaderMove(s, r).readers[r];
    assert ReaderMove(s, r).readers == s.readers[r := t];
    assert ReaderAhead(t) < ReaderAhead(s.readers[r]);
    SumUpdate(s.readers, r, t, ReaderAhead);
  }

  lemma WriterStages(s: State, w: nat, v: int)
    requires Enabled(s, WriterStep(w, v))
    ensures Sum(WriterMove(s, w, v).writers, WriterAhead) < Sum(s.writers, WriterAhead)
    ensures WriterMove(s, w, v).readers == s.readers
  {
    var t := WriterMove(s, w, v).writers[w];
    assert WriterMove(s, w, v).writers == s.writers[w := t];
    assert WriterAhead(t) < WriterAhead(s.writers[w]);
    SumUpdate(s.writers, w, t, WriterAhead);
  }

  /** Every step uses up one of the steps that the threads still had ahead. */
  lemma StepStages(s: State, a: Action)
    requires Enabled(s, a)
    ensures Stages(Apply(s, a)) < Stages(s)
  {
    match a
    case ReaderStep(r) => ReaderStages(s, r);
    case WriterStep(w, v) => WriterStages(s, w, v);
  }

  lemma {:induction false} StagesBound(c: Config, run: seq<State>, actions: seq<Action>, i: nat)
    requires IsRun(c, run, actions) && i < |run|
    ensures i + Stages(run[i]) <= Stages(run[0])
  {
    if i > 0 {
      StagesBound(c, run, actions, i - 1);
      StepStages(run[i - 1], actions[i - 1]);
    }
  }

  /** Every run is finite: a reader's visit takes at most 6 steps, a writer's at most 7. */
  lemma RunsAreBounded(c: Config, run: seq<State>, actions: seq<Action>)
    requires IsRun(c, run, actions)
    ensures |actions| <= c.readers * (6 * (c.turns * c.objects)) + c.writers * (7 * (c.turns * c.objects))
  {
    StagesBound(c, run, actions, |actions|);
    SumConst(run[0].readers, ReaderAhead, 6 * (c.turns * c.objects));
    SumConst(run[0].writers, WriterAhead, 7 * (c.turns * c.objects));
  }

  // ---------- No deadlock ----------

  predicate Stuck(s: State) {
    && (forall r :: 0 <= r < |s.readers| ==> !ReaderCan(s.readers[r], s.locked, s.deepLocked))
    && (forall w :: 0 <= w < |s.writers| ==> !WriterCan(s.writers[w], s.locked, s.deepLocked))
  }

  predicate AllFinished(s: State) {
    && (forall r :: 0 <= r < |s.readers| ==> s.readers[r].pc.RTry? && s.readers[r].left == 0)
    && (forall w :: 0 <= w < |s.writers| ==> s.writers[w].pc.WTry? && s.writers[w].left == 0)
  }

  lemma {:induction false} FindReader(ts: seq<Reader>, j: nat, role: Role) returns (r: nat)
    requires Readers(ts, j, role) > 0
    ensures r < |ts| && ReaderPlays(ts[r], j, role) == 1
  {
    if ReaderPlays(ts[0], j, role) == 1 {
      r := 0;
    } else {
      var q := FindReader(ts[1..], j, role);
      r := q + 1;
    }
  }

  lemma {:induction false} FindWriter(ts: seq<Writer>, j: nat, role: Role) returns (w: nat)
    requires Writers(ts, j, role) > 0
    ensures w < |ts| && WriterPlays(ts[w], j, role) == 1
  {
    if WriterPlays(ts[0], j, role) == 1 {
      w := 0;
    } else {
      var q := FindWriter(ts[1..], j, role);
      w := q + 1;
    }
  }

  datatype Thread = AReader(r: nat) | AWriter(w: nat)

  predicate CanMove(s: State, x: Thread) {
    match x
    case AReader(r) => r < |s.readers| && ReaderCan(s.readers[r], s.locked, s.deepLocked)
    case AWriter(w) => w < |s.writers| && WriterCan(s.writers[w], s.locked, s.deepLocked)
  }

  predicate Unfinished(s: State, x: Thread) {
    match x
    case AReader(r) => r < |s.readers| && s.readers[r].left > 0
    case AWriter(w) => w < |s.writers| && s.writers[w].left > 0
  }

  function ObjectOf(s: State, x: Thread): nat
    requires Unfinished(s, x)
  {
    match x case AReader(r) => s.readers[r].obj case AWriter(w) => s.writers[w].obj
  }

  predicate WantsObject(s: State, x: Thread)
    requires Unfinished(s, x)
  {
    match x case AReader(r) => s.readers[r].pc.RWantObject? case AWriter(w) => s.writers[w].pc.WWantObject?
  }

  predicate WantsDeep(s: State, x: Thread)
    requires Unfinished(s, x)
  {
    match x case AReader(r) => s.readers[r].pc.RWantDeep? case AWriter(w) => s.writers[w].pc.WWantDeep?
  }

  predicate HoldsObject(s: State, x: Thread, j: nat)
    requires Unfinished(s, x)
  {
    match x
    case AReader(r) => ReaderPlays(s.readers[r], j, Holder) + ReaderPlays(s.readers[r], j, Waiter) == 1
    case AWriter(w) => WriterPlays(s.writers[w], j, Holder) == 1
  }

  // The group of readers at an object owns the deep mutex together.
  predicate HoldsDeep(s: State, x: Thread, j: nat)
    requires Unfinished(s, x)
  {
    match x
    case AReader(r) => ReaderPlays(s.readers[r], j, Member) == 1
    case AWriter(w) => WriterPlays(s.writers[w], j, Owner) == 1
  }

  /** `x` cannot move because of a mutex that `y` holds. */
  predicate WaitsFor(s: State, x: Thread, y: Thread) {
    && Unfinished(s, x) && !CanMove(s, x) && Unfinished(s, y)
    && ((WantsObject(s, x) && HoldsObject(s, y, ObjectOf(s, x)))
        || (WantsDeep(s, x) && HoldsDeep(s, y, ObjectOf(s, x))))
  }

  lemma ObjectHeld(c: Config, s: State, j: nat) returns (y: Thread)
    requires Inv(c, s) && j < c.objects && s.locked[j]
    ensures Unfinished(s, y) && HoldsObject(s, y, j)
  {
    assert ObjectInv(s, j);
    if Writers(s.writers, j, Holder) > 0 {
      var w := FindWriter(s.writers, j, Holder);
      y := AWriter(w);
    } else if Readers(s.readers, j, Holder) > 0 {
      var r := FindReader(s.readers, j, Holder);
      y := AReader(r);
    } else {
      var r := FindReader(s.readers, j, Waiter);
      y := AReader(r);
    }
  }

  lemma DeepHeld(c: Config, s: State, j: nat) returns (y: Thread)
    requires Inv(c, s) && j < c.objects && s.deepLocked[j]
    ensures Unfinished(s, y) && HoldsDeep(s, y, j)
  {
    assert ObjectInv(s, j);
    if Writers(s.writers, j, Owner) > 0 {
      var w := FindWriter(s.writers, j, Owner);
      y := AWriter(w);
    } else {
      var r := FindReader(s.readers, j, Member);
      y := AReader(r);
    }
  }

  /** A thread that cannot go on waits for some thread: no mutex is left locked by nobody. */
  lemma SomebodyHolds(c: Config, s: State, x: Thread) returns (y: Thread)
    requires Inv(c, s) && Unfinished(s, x) && !CanMove(s, x)
    ensures WaitsFor(s, x, y)
  {
    if WantsObject(s, x) {
      y := ObjectHeld(c, s, ObjectOf(s, x));
    } else {
      y := DeepHeld(c, s, ObjectOf(s, x));
    }
  }

  /** Chains of waiting have length two at most: whoever is waited for by a waiting thread can move. */
  lemma ChainsAreShort(c: Config, s: State, x: Thread, y: Thread, z: Thread)
    requires Inv(c, s) && WaitsFor(s, x, y) && WaitsFor(s, y, z)
    ensures CanMove(s, z)
  {
    var j := ObjectOf(s, y);
    assert ObjectInv(s, j);
    AtLeastOne(s, y, j);
    AtLeastOne(s, z, j);
  }

  lemma AtLeastOne(s: State, x: Thread, j: nat)
    requires Unfinished(s, x)
    ensures x.AReader? ==> ReaderPlays(s.readers[x.r], j, Member) <= Readers(s.readers, j, Member)
    ensures x.AReader? ==> ReaderPlays(s.readers[x.r], j, Waiter) <= Readers(s.readers, j, Waiter)
  {
    if x.AReader? {
      ReadersUpdate(s.readers, x.r, s.readers[x.r], j, Member);
      ReadersUpdate(s.readers, x.r, s.readers[x.r], j, Waiter);
    }
  }

  /** So while a thread is unfinished, it can move, or the one it waits for, or the one that waits for. */
  lemma SomebodyCanMove(c: Config, s: State, x: Thread) returns (z: Thread)
    requires Inv(c, s) && Unfinished(s, x)
    ensures CanMove(s, z)
    ensures z == x || WaitsFor(s, x, z) || exists y :: WaitsFor(s, x, y) && WaitsFor(s, y, z)
  {
    z := x;
    if !CanMove(s, x) {
      var y := SomebodyHolds(c, s, x);
      z := y;
      if !CanMove(s, y) {
        z := SomebodyHolds(c, s, y);
        ChainsAreShort(c, s, x, y, z);
      }
    }
  }

  lemma NothingUnfinished(c: Config, s: State, x: Thread)
    requires Inv(c, s) && Stuck(s)
    ensures !Unfinished(s, x)
  {
    if Unfinished(s, x) {
      var z := SomebodyCanMove(c, s, x);
      assert false;
    }
  }

  /** There is no deadlock: a reachable state in which nothing can move has all threads finished. */
  lemma StuckIsFinished(c: Config, s: State)
    requires Inv(c, s) && Stuck(s)
    ensures AllFinished(s)
  {
    forall r | 0 <= r < |s.readers| ensures s.readers[r].left == 0 {
      NothingUnfinished(c, s, AReader(r));
    }
    forall w | 0 <= w < |s.writers| ensures s.writers[w].left == 0 {
      NothingUnfinished(c, s, AWriter(w));
    }
  }

  lemma TurnOk(c: Config, s: State, a: Action)
    requires Inv(c, s) && Enabled(s, a)
    ensures Inv(c, Apply(s, a)) && Stages(Apply(s, a)) < Stages(s)
  {
    StepInv(c, s, a);
    StepStages(s, a);
  }

  // ---------- The program ----------

  /** The globals of lab01/ex5.c with the local state of every thread. */
  class ObjectPool {
    const limits: seq<int>
    var locked: seq<bool>
    var deepLocked: seq<bool>
    const buffer: array<int>
    const full: array<bool>
    const readerCount: array<int>
    var readers: seq<Reader>
    var writers: seq<Writer>
    ghost var stores: seq<seq<int>>
    ghost var gets: seq<Get>

    ghost function Snapshot(): State
      reads this, buffer, full, readerCount
    {
      State(limits, locked, deepLocked, buffer[..], full[..], readerCount[..], readers, writers, stores, gets)
    }

    constructor (c: Config, limits: seq<int>)
      requires |limits| == c.objects && forall j :: 0 <= j < c.objects ==> limits[j] >= 1
      ensures Init(c, Snapshot()) && fresh(buffer) && fresh(full) && fresh(readerCount) && buffer != readerCount
    {
      this.limits := limits;
      locked := seq(c.objects, _ => false);
      deepLocked := seq(c.objects, _ => false);
      buffer := new int[c.objects](_ => 0);
      full := new bool[c.objects](_ => false);
      readerCount := new int[c.objects](_ => 0);
      readers := seq(c.readers, _ => Reader(RTry, 0, c.turns * c.objects));
      writers := seq(c.writers, _ => Writer(WTry, 0, c.turns * c.objects));
      stores := seq(c.objects, _ => []);
      gets := [];
      new;
      InitialVisits(c, Snapshot());
    }

    method ReaderTurn(r: nat)
      requires Enabled(Snapshot(), ReaderStep(r)) && buffer != readerCount
      modifies this, full, readerCount
      ensures Snapshot() == Apply(old(Snapshot()), ReaderStep(r))
    {
      var t := readers[r];
      var j := t.obj;
      var done := Reader(RTry, Next(j, |locked|), t.left - 1);
      match t.pc {
        case RTry =>
          if locked[j] {
            readers := readers[r := done];
          } else {
            locked := locked[j := true];
            readers := readers[r := t.(pc := RCheck)];
          }
        case RCheck =>
          if !full[j] || readerCount[j] >= limits[j] {
            locked := locked[j := false];
            readers := readers[r := done];
          } else {
            readerCount[j] := readerCount[j] + 1;
            if readerCount[j] == 1 {
              readers := readers[r := t.(pc := RWantDeep)];
            } else {
              locked := locked[j := false];
              readers := readers[r := t.(pc := Reading)];
            }
          }
        case RWantDeep =>
          deepLocked := deepLocked[j := true];
          locked := locked[j := false];
          readers := readers[r := t.(pc := Reading)];
        case Reading =>
          gets := gets + [Get(j, buffer[j])];
          readers := readers[r := t.(pc := RWantObject)];
        case RWantObject =>
          locked := locked[j := true];
          readers := readers[r := t.(pc := RRelease)];
        case RRelease =>
          full[j] := false;
          readerCount[j] := readerCount[j] - 1;
          if readerCount[j] == 0 {
            deepLocked := deepLocked[j := false];
          }
          locked := locked[j := false];
          readers := readers[r := done];
      }
    }

    method WriterTurn(w: nat, value: int)
      requires Enabled(Snapshot(), WriterStep(w, value)) && buffer != readerCount
      modifies this, buffer, full
      ensures Snapshot() == Apply(old(Snapshot()), WriterStep(w, value))
    {
      var t := writers[w];
      var j := t.obj;
      var done := Writer(WTry, Next(j, |locked|), t.left - 1);
      match t.pc {
        case WTry =>
          if locked[j] {
            writers := writers[w := done];
          } else {
            locked := locked[j := true];
            writers := writers[w := t.(pc := WCheck)];
          }
        case WCheck =>
          locked := locked[j := false];
          writers := writers[w := if full[j] then done else t.(pc := WWantDeep)];
        case WWantDeep =>
          deepLocked := deepLocked[j := true];
          writers := writers[w := t.(pc := Writing)];
        case Writing =>
          buffer[j] := value;
          stores := stores[j := stores[j] + [value]];
          writers := writers[w := t.(pc := Stored)];
        case Stored =>
          deepLocked := deepLocked[j := false];
          writers := writers[w := t.(pc := WWantObject)];
        case WWantObject =>
          locked := locked[j := true];
          writers := writers[w := t.(pc := WMark)];
        case WMark =>
          full[j] := true;
          locked := locked[j := false];
          writers := writers[w := done];
      }
    }

    /** The scheduler picks any thread that can move, and any value for it to write. */
    method ScheduleOne(c: Config) returns (moved: bool)
      requires Inv(c, Snapshot()) && buffer != readerCount
      modifies this, buffer, full, readerCount
      ensures Inv(c, Snapshot())
      ensures moved ==> Stages(Snapshot()) < old(Stages(Snapshot()))
      ensures !moved ==> Stuck(Snapshot())
    {
      var rs := set r | 0 <= r < |readers| && ReaderCan(readers[r], locked, deepLocked);
      var ws := set w | 0 <= w < |writers| && WriterCan(writers[w], locked, deepLocked);
      assert forall r :: 0 <= r < |readers| && ReaderCan(readers[r], locked, deepLocked) ==> r in rs;
      assert forall w :: 0 <= w < |writers| && WriterCan(writers[w], locked, deepLocked) ==> w in ws;
      var readerFirst: bool := *;
      moved := true;
      if rs != {} && (readerFirst || ws == {}) {
        var r :| r in rs;
        TurnOk(c, Snapshot(), ReaderStep(r));
        ReaderTurn(r);
      } else if ws != {} {
        var w :| w in ws;
        var value: int := *;
        TurnOk(c, Snapshot(), WriterStep(w, value));
        WriterTurn(w, value);
      } else {
        moved := false;
      }
    }

    /** Runs all threads under an arbitrary scheduler until none can move: it terminates, and then all have finished. */
    method RunThreads(c: Config)
      requires Init(c, Snapshot()) && buffer != readerCount
      modifies this, buffer, full, readerCount
      ensures Inv(c, Snapshot()) && AllFinished(Snapshot())
    {
      InitInv(c, Snapshot());
      var moved := true;
      while moved
        invariant Inv(c, Snapshot()) && (!moved ==> Stuck(Snapshot()))
        decreases if moved then Stages(Snapshot()) + 1 else 0
      {
        moved := ScheduleOne(c);
      }
      StuckIsFinished(c, Snapshot());
    }
  }

  lemma InitialVisits(c: Config, s: State)
    requires Sized(s, c.objects) && |s.readers| == c.readers && |s.writers| == c.writers
    requires forall r :: 0 <= r < c.readers ==> s.readers[r] == Reader(RTry, 0, c.turns * c.objects)
    requires forall w :: 0 <= w < c.writers ==> s.writers[w] == Writer(WTry, 0, c.turns * c.objects)
    ensures Shaped(s, c.objects)
  {
    assert c.objects == 0 ==> c.turns * c.objects == 0;
  }
}
