/**
 The two system calls of lab04 that look for the busiest user.  Both sum something per user
 over the list of processes in a hash table, look for the largest sum, and take the table
 down again; lab04/1 counts processes in 32 bits, lab04/5 adds up processor time in 64 bits.
 */
module UserTable {
  import opened HashTable
  import opened Sums

  datatype Call = CountProcesses | SumCpuTime

  datatype Task = Task(uid: nat, utime: nat, stime: nat)

  const EPERM: nat := 1

  // A sum in the width of the field that holds it.
  function Wrap(call: Call, sum: nat): nat {
    match call
    case CountProcesses => sum % 0x1_0000_0000
    case SumCpuTime => sum % 0x1_0000_0000_0000_0000
  }

  function Weight(call: Call, t: Task): nat {
    match call
    case CountProcesses => 1
    case SumCpuTime => t.utime + t.stime
  }

  // What the stored sum of a user should be: the exact one, and its remainder in the width of the field.
  function Total(call: Call, tasks: seq<Task>, uid: nat): nat {
    if tasks == [] then 0
    else
      var t := tasks[|tasks| - 1];
      Total(call, tasks[..|tasks| - 1], uid) + if t.uid == uid then Weight(call, t) else 0
  }

  function Stored(call: Call, tasks: seq<Task>, uid: nat): nat { Wrap(call, Total(call, tasks, uid)) }

  function Uids(tasks: seq<Task>): set<nat> { set t | t in tasks :: t.uid }

  // What the call answers when no stored sum is positive.
  function NoUser(call: Call): nat { if call.CountProcesses? then EPERM else 0 }

  // The answer of the call, told without the table.
  ghost predicate IsAnswer(call: Call, tasks: seq<Task>, answer: nat) {
    if exists u :: u in Uids(tasks) && Stored(call, tasks, u) > 0 then
      && answer in Uids(tasks) && Stored(call, tasks, answer) > 0
      && forall u :: u in Uids(tasks) ==> Stored(call, tasks, u) <= Stored(call, tasks, answer)
    else
      answer == NoUser(call)
  }

  lemma NoUserIs(call: Call, tasks: seq<Task>, answer: nat)
    requires IsAnswer(call, tasks, answer)
    ensures !SomeStored(call, tasks) ==> answer == if call.CountProcesses? then 1 else 0
  {
  }

  /** What is stored is the exact sum just when that fits its field. */
  lemma StoredIsExact(call: Call, tasks: seq<Task>, u: nat)
    ensures Stored(call, tasks, u) == Total(call, tasks, u) <==>
      Total(call, tasks, u) < if call.CountProcesses? then 0x1_0000_0000 else 0x1_0000_0000_0000_0000
  {
    match call
    case CountProcesses =>
    case SumCpuTime =>
  }

  // A user with the largest exact sum.
  ghost predicate Busy(call: Call, tasks: seq<Task>, b: nat) {
    b in Uids(tasks) && forall u :: u in Uids(tasks) ==> Total(call, tasks, u) <= Total(call, tasks, b)
  }

  // Cutting the sums down to their field leaves those of busiest users above all others.
  ghost predicate OrderKept(call: Call, tasks: seq<Task>) {
    forall u, b :: u in Uids(tasks) && Busy(call, tasks, b) && Total(call, tasks, u) < Total(call, tasks, b) ==>
      Stored(call, tasks, u) < Stored(call, tasks, b)
  }

  ghost predicate SomeStored(call: Call, tasks: seq<Task>) {
    exists u :: u in Uids(tasks) && Stored(call, tasks, u) > 0
  }

  lemma {:induction false} Largest(s: set<nat>, f: nat -> nat) returns (m: nat)
    requires s != {}
    ensures m in s && forall u :: u in s ==> f(u) <= f(m)
    decreases |s|
  {
    m :| m in s;
    if s != {m} {
      var n := Largest(s - {m}, f);
      if f(m) < f(n) {
        m := n;
      }
    }
  }

  /**
   The call names a busiest user, whatever the order of the table, if and only if the stored sums
   keep busiest users above the others; or, when all of them are 0, if the code for none is one.
   */
  lemma AnswerIsBusiest(call: Call, tasks: seq<Task>)
    ensures (forall answer :: IsAnswer(call, tasks, answer) ==> Busy(call, tasks, answer))
            <==> if SomeStored(call, tasks) then OrderKept(call, tasks) else Busy(call, tasks, NoUser(call))
  {
    if SomeStored(call, tasks) {
      if OrderKept(call, tasks) {
        forall answer | IsAnswer(call, tasks, answer) ensures Busy(call, tasks, answer) {
          var b := Largest(Uids(tasks), u => Total(call, tasks, u));
        }
      } else {
        var u, b :| u in Uids(tasks) && Busy(call, tasks, b) && Total(call, tasks, u) < Total(call, tasks, b)
                    && Stored(call, tasks, u) >= Stored(call, tasks, b);
        var answer := WrongAnswer(call, tasks, u, b);
      }
    } else {
      assert IsAnswer(call, tasks, NoUser(call));
    }
  }

  // If the field of another user is as large as that of a busiest one, a user with less can be the answer.
  lemma WrongAnswer(call: Call, tasks: seq<Task>, u: nat, b: nat) returns (answer: nat)
    requires SomeStored(call, tasks) && u in Uids(tasks) && Busy(call, tasks, b)
    requires Total(call, tasks, u) < Total(call, tasks, b) && Stored(call, tasks, u) >= Stored(call, tasks, b)
    ensures IsAnswer(call, tasks, answer) && !Busy(call, tasks, answer)
  {
    answer := Largest(Uids(tasks), v => Stored(call, tasks, v));
    if Busy(call, tasks, answer) {
      assert Total(call, tasks, answer) == Total(call, tasks, b);
      answer := u;
    }
  }

  /** As long as no sum leaves its field and one is positive, every answer is a busiest user. */
  lemma InRangeIsBusiest(call: Call, tasks: seq<Task>, busy: nat, answer: nat)
    requires forall u :: u in Uids(tasks) ==>
      Total(call, tasks, u) < if call.CountProcesses? then 0x1_0000_0000 else 0x1_0000_0000_0000_0000
    requires busy in Uids(tasks) && Total(call, tasks, busy) > 0 && IsAnswer(call, tasks, answer)
    ensures Busy(call, tasks, answer)
  {
    hide Total, Stored, Uids;
    forall u | u in Uids(tasks) ensures Stored(call, tasks, u) == Total(call, tasks, u) {
      StoredIsExact(call, tasks, u);
    }
    assert Stored(call, tasks, busy) > 0;
    AnswerIsBusiest(call, tasks);
  }

  /** The exact sums, told by the list: the processes of a user, or the times that they add up to. */
  lemma {:induction false} TotalIsSum(call: Call, tasks: seq<Task>, u: nat)
    ensures Total(call, tasks, u) == Sum(tasks, (t: Task) =>
      if t.uid != u then 0 else if call.CountProcesses? then 1 else t.utime + t.stime)
  {
    var f := (t: Task) => if t.uid != u then 0 else if call.CountProcesses? then 1 else t.utime + t.stime;
    if tasks != [] {
      var init, last := tasks[..|tasks| - 1], tasks[|tasks| - 1];
      TotalIsSum(call, init, u);
      SumAppend(init, last, f);
      assert tasks == init + [last];
    }
  }

  lemma {:induction false} CountIsSmall(tasks: seq<Task>, u: nat)
    ensures Total(CountProcesses, tasks, u) <= |tasks|
    ensures u in Uids(tasks) ==> Total(CountProcesses, tasks, u) > 0
  {
    if tasks != [] {
      var init, last := tasks[..|tasks| - 1], tasks[|tasks| - 1];
      CountIsSmall(init, u);
      assert tasks == init + [last];
    }
  }

  /** With fewer than 2^32 processes lab04/1 always answers with a user that has the most. */
  lemma MostProcesses(tasks: seq<Task>, answer: nat)
    requires tasks != [] && |tasks| < 0x1_0000_0000 && IsAnswer(CountProcesses, tasks, answer)
    ensures Busy(CountProcesses, tasks, answer)
  {
    forall u
      ensures Total(CountProcesses, tasks, u) <= |tasks|
      ensures u in Uids(tasks) ==> Total(CountProcesses, tasks, u) > 0
    {
      CountIsSmall(tasks, u);
    }
    InRangeIsBusiest(CountProcesses, tasks, tasks[0].uid, answer);
  }

  lemma TwoTotals(t: Task, t': Task)
    ensures Uids([t, t']) == {t.uid, t'.uid}
    ensures forall u ::
      Total(SumCpuTime, [t, t'], u) == (if t.uid == u then t.utime + t.stime else 0)
                                       + (if t'.uid == u then t'.utime + t'.stime else 0)
  {
    assert [t, t'][..1] == [t] && [t][..0] == [];
    forall u ensures Total(SumCpuTime, [t], u) == if t.uid == u then t.utime + t.stime else 0 {
    }
    assert t in [t, t'] && t' in [t, t'];
  }

  /** A sum that leaves its field can mislead the call: the only answer is user 2 although user 1 used more time. */
  lemma OverflowMisleads()
    ensures var tasks := [Task(1, 0xFFFF_FFFF_FFFF_FFFF, 1), Task(2, 1, 0)];
      && !OrderKept(SumCpuTime, tasks)
      && (forall answer :: IsAnswer(SumCpuTime, tasks, answer) ==> answer == 2 && !Busy(SumCpuTime, tasks, answer))
  {
    var t, t' := Task(1, 0xFFFF_FFFF_FFFF_FFFF, 1), Task(2, 1, 0);
    TwoTotals(t, t');
    assert 2 in Uids([t, t']) && Stored(SumCpuTime, [t, t'], 2) == 1 && Stored(SumCpuTime, [t, t'], 1) == 0;
    assert Busy(SumCpuTime, [t, t'], 1);
  }

  /** It need not: here the sum of user 1 leaves its field and user 1 is still the only answer. */
  lemma OverflowCanBeHarmless()
    ensures var tasks := [Task(1, 0xFFFF_FFFF_FFFF_FFFF, 3), Task(2, 1, 0)];
      && Total(SumCpuTime, tasks, 1) >= 0x1_0000_0000_0000_0000 && OrderKept(SumCpuTime, tasks)
      && (forall answer :: IsAnswer(SumCpuTime, tasks, answer) ==> answer == 1)
  {
    var t, t' := Task(1, 0xFFFF_FFFF_FFFF_FFFF, 3), Task(2, 1, 0);
    TwoTotals(t, t');
    assert Total(SumCpuTime, [t, t'], 1) == 0x1_0000_0000_0000_0002 && Total(SumCpuTime, [t, t'], 2) == 1;
    assert Stored(SumCpuTime, [t, t'], 1) == 2 && Stored(SumCpuTime, [t, t'], 2) == 1;
    hide Total, Uids, Stored;
    assert forall u :: u in Uids([t, t']) <==> u == 1 || u == 2;
  }

  // ---------- Filling the table ----------

  lemma AddWraps(call: Call, a: nat, b: nat)
    ensures Wrap(call, Wrap(call, a) + b) == Wrap(call, a + b)
  {
    match call
    case CountProcesses => AddWrapsNarrow(a, b);
    case SumCpuTime => AddWrapsWide(a, b);
  }

  lemma AddWrapsNarrow(a: nat, b: nat)
    ensures (a % 0x1_0000_0000 + b) % 0x1_0000_0000 == (a + b) % 0x1_0000_0000
  {
  }

  lemma AddWrapsWide(a: nat, b: nat)
    ensures (a % 0x1_0000_0000_0000_0000 + b) % 0x1_0000_0000_0000_0000 == (a + b) % 0x1_0000_0000_0000_0000
  {
  }

  // What the table should hold.
  ghost function Reference(call: Call, tasks: seq<Task>): map<nat, nat> {
    map u | u in Uids(tasks) :: Stored(call, tasks, u)
  }

  lemma {:induction false} NoTasksNoTotal(call: Call, tasks: seq<Task>, u: nat)
    requires u !in Uids(tasks)
    ensures Total(call, tasks, u) == 0
  {
    if tasks != [] {
      assert tasks[|tasks| - 1] in tasks;
      assert forall t :: t in tasks[..|tasks| - 1] ==> t in tasks;
      NoTasksNoTotal(call, tasks[..|tasks| - 1], u);
    }
  }

  ghost function AddTo(call: Call, want: map<nat, nat>, t: Task): map<nat, nat> {
    var w := Weight(call, t);
    want[t.uid := Wrap(call, if t.uid in want then want[t.uid] + w else w)]
  }

  lemma AddToIs(call: Call, want: map<nat, nat>, t: Task, sum: nat)
    requires sum == Wrap(call, if t.uid in want then want[t.uid] + Weight(call, t) else Weight(call, t))
    ensures AddTo(call, want, t) == want[t.uid := sum]
  {
  }

  lemma OneMoreTotal(call: Call, tasks: seq<Task>, i: nat, u: nat)
    requires i < |tasks|
    ensures Total(call, tasks[..i + 1], u)
      == Total(call, tasks[..i], u) + if tasks[i].uid == u then Weight(call, tasks[i]) else 0
    ensures Uids(tasks[..i + 1]) == Uids(tasks[..i]) + {tasks[i].uid}
  {
    assert tasks[..i + 1][..i] == tasks[..i] && tasks[..i + 1] == tasks[..i] + [tasks[i]];
  }

  /** One more process changes the sum of its user by its weight, in the width of the field, and no other sum. */
  lemma OneMoreTask(call: Call, tasks: seq<Task>, i: nat)
    requires i < |tasks|
    ensures Reference(call, tasks[..i + 1]) == AddTo(call, Reference(call, tasks[..i]), tasks[i])
  {
    hide Wrap, Weight, Total, Uids;
    var init, u, w := tasks[..i], tasks[i].uid, Weight(call, tasks[i]);
    forall v ensures Total(call, tasks[..i + 1], v) == Total(call, init, v) + if u == v then w else 0 {
      OneMoreTotal(call, tasks, i, v);
    }
    OneMoreTotal(call, tasks, i, u);
    AddWraps(call, Total(call, init, u), w);
    if u !in Uids(init) {
      NoTasksNoTotal(call, init, u);
    }
  }

  /** One round of the loop over the processes; an entry is allocated even if the user has one already. */
  method AddTask(table: Table<nat>, call: Call, task: Task, ghost want: map<nat, nat>)
    requires table.Holds(want)
    modifies table`lists, table`made, table.buckets, table.made
    ensures table.Holds(AddTo(call, want, task))
    ensures fresh(table.made - old(table.made)) && |table.made| == |old(table.made)| + 1
  {
    hide *;
    var w := Weight(call, task);
    var entry := table.Alloc(task.uid, Wrap(call, w), want);
    var existing := table.Get(entry.key, want);
    if existing != null {
      var sum := Wrap(call, existing.value + w);
      AddToIs(call, want, task, sum);
      table.SetValue(existing, sum, want);
    } else {
      AddToIs(call, want, task, entry.value);
      table.Insert(entry, want);
    }
  }

  method AddTasks(table: Table<nat>, call: Call, tasks: seq<Task>)
    requires table.Holds(map[])
    modifies table`lists, table`made, table.buckets, table.made
    ensures table.Holds(Reference(call, tasks)) && |table.made| == |old(table.made)| + |tasks|
    ensures fresh(table.made - old(table.made))
  {
    hide Table.Holds, Wrap;
    for i := 0 to |tasks|
      invariant table.Holds(Reference(call, tasks[..i]))
      invariant fresh(table.made - old(table.made)) && |table.made| == |old(table.made)| + i
    {
      OneMoreTask(call, tasks, i);
      AddTask(table, call, tasks[i], Reference(call, tasks[..i]));
    }
    assert tasks[..|tasks|] == tasks;
  }

  // ---------- The largest sum ----------

  // What the search makes of the first `n` entries it meets: a user, and its sum.
  datatype Best = Best(uid: nat, sum: nat)

  ghost function Winner(entries: seq<Entry<nat>>, n: nat): Best
    requires n <= |entries|
    reads entries
  {
    if n == 0 then Best(0, 0)
    else
      var e, w := entries[n - 1], Winner(entries, n - 1);
      if e.value > w.sum then Best(e.key, e.value) else w
  }

  /** The search ends with the largest sum, and the user of the first entry that has it, unless no sum is positive. */
  lemma {:induction false} WinnerIsFirst(entries: seq<Entry<nat>>, n: nat)
    requires n <= |entries|
    ensures var Best(uid, max) := Winner(entries, n);
      && (forall k :: 0 <= k < n ==> entries[k].value <= max)
      && (if max == 0 then uid == 0
          else exists k :: 0 <= k < n && entries[k].key == uid && entries[k].value == max
                           && forall j :: 0 <= j < k ==> entries[j].value < max)
  {
    if n > 0 {
      WinnerIsFirst(entries, n - 1);
    }
  }

  // What the search has found when it comes to a bucket.
  ghost predicate Found(table: Table<nat>, bkt: nat, uid: nat, max: nat)
    reads table, Flat(table.lists)
  {
    && bkt <= |table.lists| && Before(table.lists, bkt) <= |Flat(table.lists)|
    && Best(uid, max) == Winner(Flat(table.lists), Before(table.lists, bkt))
  }

  lemma FoundNone(table: Table<nat>)
    requires table.Valid()
    ensures Found(table, 0, 0, 0) && |table.lists| == table.buckets.Length
  {
  }

  lemma FoundAll(table: Table<nat>, uid: nat, max: nat)
    requires Found(table, |table.lists|, uid, max)
    ensures var entries := Flat(table.lists); Best(uid, max) == Winner(entries, |entries|)
  {
    BeforeAll(table.lists);
  }

  // One bucket of the search.
  method BusiestOf(table: Table<nat>, bkt: nat, uid0: nat, max0: nat) returns (uid: nat, max: nat)
    requires table.Valid() && bkt < table.buckets.Length && Found(table, bkt, uid0, max0)
    ensures Found(table, bkt + 1, uid, max)
  {
    uid, max := uid0, max0;
    ghost var entries, chain, met, i := Flat(table.lists), table.lists[bkt], Before(table.lists, bkt), 0;
    assert table.Chained(bkt, chain) && table.InMemory(chain);
    hide Flat;
    forall k | 0 <= k < |chain| ensures met + k < |entries| && entries[met + k] == chain[k] {
      FlatAt(table.lists, bkt, k);
    }
    assert Before(table.lists, bkt + 1) == met + |chain|;
    var existing := table.buckets[bkt];
    while existing != null
      invariant i <= |chain| && existing == if i < |chain| then chain[i] else null
      invariant met + i <= |entries| && Best(uid, max) == Winner(entries, met + i)
      decreases |chain| - i
    {
      assert entries[met + i] == existing;
      if existing.value > max {
        uid, max := existing.key, existing.value;
      }
      assert i + 1 < |chain| ==> chain[i].next == chain[i + 1];
      existing := table.After(existing);
      i := i + 1;
    }
  }

  /** The search for the largest sum, over all buckets. */
  method Busiest(table: Table<nat>) returns (uid: nat, max: nat)
    requires table.Valid()
    ensures var entries := Flat(table.lists); Best(uid, max) == Winner(entries, |entries|)
  {
    hide *;
    uid, max := 0, 0;
    FoundNone(table);
    var bkt := 0;
    while bkt < table.buckets.Length
      invariant bkt <= table.buckets.Length && Found(table, bkt, uid, max)
    {
      uid, max := BusiestOf(table, bkt, uid, max);
      bkt := bkt + 1;
    }
    FoundAll(table, uid, max);
  }

  // The answer, from what the search found.
  function Answer(call: Call, uid: nat, max: nat): nat {
    if call.CountProcesses? && max == 0 then EPERM else uid
  }

  lemma WinnerIsTop(table: Table<nat>, want: map<nat, nat>)
    requires table.Holds(want)
    ensures var Best(uid, max) := Winner(Flat(table.lists), |Flat(table.lists)|);
      && (forall u :: u in want ==> want[u] <= max)
      && if max == 0 then uid == 0 else uid in want && want[uid] == max
  {
    var entries := Flat(table.lists);
    var Best(uid, max) := Winner(entries, |entries|);
    WinnerIsFirst(entries, |entries|);
    table.FlatInMemory();
    forall u | u in want ensures want[u] <= max {
      table.AllKeysThere(want, u);
    }
    if max > 0 {
      var k :| 0 <= k < |entries| && entries[k].key == uid && entries[k].value == max;
      assert entries[k] in entries;
    }
  }

  lemma WinnerIsAnswer(table: Table<nat>, call: Call, tasks: seq<Task>)
    requires table.Holds(Reference(call, tasks))
    ensures var Best(uid, max) := Winner(Flat(table.lists), |Flat(table.lists)|);
      IsAnswer(call, tasks, Answer(call, uid, max))
  {
    hide Table.Holds, Winner, Stored;
    var Best(uid, max) := Winner(Flat(table.lists), |Flat(table.lists)|);
    var want := Reference(call, tasks);
    WinnerIsTop(table, want);
    forall u | u in Uids(tasks) ensures Stored(call, tasks, u) <= max {
      assert u in want;
    }
    if max > 0 {
      assert uid in want;
    }
  }

  lemma OneEntryEach(table: Table<nat>, call: Call, tasks: seq<Task>)
    requires table.Holds(Reference(call, tasks))
    ensures table.Valid() && |Flat(table.lists)| == |Uids(tasks)| && (tasks != [] ==> !table.Empty())
  {
    var want := Reference(call, tasks);
    assert want.Keys == Uids(tasks);
    if tasks != [] {
      assert tasks[0].uid in want;
      if table.Empty() {
        table.EmptyHolds(want);
        assert false;
      }
    }
  }

  /**
   The system call, on a table that is empty as it is between calls and any list with a process in
   it.  The table is empty again afterwards; of the entries allocated, one for each process, just
   one for each user has been freed.
   */
  method SysMySyscall(table: Table<nat>, call: Call, tasks: seq<Task>) returns (answer: nat)
    requires table.Holds(map[]) && tasks != []
    modifies table, table.buckets, table.made
    ensures table.Holds(map[]) && IsAnswer(call, tasks, answer)
    ensures !SomeStored(call, tasks) ==> answer == if call.CountProcesses? then 1 else 0
    ensures |table.made| == |old(table.made)| + |tasks|
    ensures |table.freed| == |old(table.freed)| + |Uids(tasks)|
  {
    hide *;
    AddTasks(table, call, tasks);
    OneEntryEach(table, call, tasks);
    var uid, max := Busiest(table);
    WinnerIsAnswer(table, call, tasks);
    table.Cleanup();
    table.EmptyHolds(map[]);
    answer := Answer(call, uid, max);
    NoUserIs(call, tasks, answer);
  }
}
