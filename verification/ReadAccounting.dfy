/**
 The accounting of project/module.c.  The hook around `random_read` books a call before it
 enters the original function, which may block, and books the result after it has returned;
 in between, other processes begin and end calls of their own.  A process has at most one
 call in flight.
 */
module ReadAccounting {
  import opened HashTable

  const PIDS: nat := 0x1_0000_0000

  // What `unsigned long` makes of a sum; a negative result is added like any other.
  function Wrap(x: int): nat { x % 0x1_0000_0000_0000_0000 }

  lemma WrapSum(a: int, b: int, c: int)
    requires Wrap(b) == Wrap(c)
    ensures Wrap(Wrap(a) + c) == Wrap(a + b)
  {
  }

  datatype Event = Call(pid: nat) | Return(pid: nat, result: int)

  datatype Session = Session(bytes: nat, finished: bool)

  datatype State = State(allBytes: nat, readerCount: nat, table: map<nat, Session>)

  // ---------- The two steps ----------

  function Begin(s: State, pid: nat): State {
    if pid !in s.table || s.table[pid].finished then
      s.(readerCount := Wrap(s.readerCount + 1), table := s.table[pid := Session(0, false)])
    else
      s
  }

  function End(s: State, pid: nat, result: int): State
    requires pid in s.table
  {
    var bytes := Wrap(s.table[pid].bytes + result);
    var all := Wrap(s.allBytes + result);
    if result < 1 then State(all, Wrap(s.readerCount - 1), s.table[pid := Session(bytes, true)])
    else State(all, s.readerCount, s.table[pid := s.table[pid].(bytes := bytes)])
  }

  // ---------- Histories, and what the books should say about them ----------

  function Last(trace: seq<Event>): Event
    requires trace != []
  {
    trace[|trace| - 1]
  }

  function Init(trace: seq<Event>): seq<Event>
    requires trace != []
  {
    trace[..|trace| - 1]
  }

  function InFlight(trace: seq<Event>): set<nat> {
    if trace == [] then {}
    else match Last(trace)
      case Call(p) => InFlight(Init(trace)) + {p}
      case Return(p, _) => InFlight(Init(trace)) - {p}
  }

  // The processes whose session is not finished: a result below 1 ends it.
  function Active(trace: seq<Event>): set<nat> {
    if trace == [] then {}
    else match Last(trace)
      case Call(p) => Active(Init(trace)) + {p}
      case Return(p, r) => if r < 1 then Active(Init(trace)) - {p} else Active(Init(trace))
  }

  function Seen(trace: seq<Event>): set<nat> {
    if trace == [] then {}
    else match Last(trace)
      case Call(p) => Seen(Init(trace)) + {p}
      case Return(_, _) => Seen(Init(trace))
  }

  predicate Legal(trace: seq<Event>) {
    trace == [] ||
    (Legal(Init(trace)) &&
     match Last(trace)
     case Call(p) => p < PIDS && p !in InFlight(Init(trace))
     case Return(p, r) => p in InFlight(Init(trace)))
  }

  // What a process has read in its latest session, exactly.
  function Since(trace: seq<Event>, p: nat): int {
    if trace == [] then 0
    else match Last(trace)
      case Call(q) => if q == p && p !in Active(Init(trace)) then 0 else Since(Init(trace), p)
      case Return(q, r) => Since(Init(trace), p) + if q == p then r else 0
  }

  function AllRead(trace: seq<Event>): int {
    if trace == [] then 0
    else match Last(trace)
      case Call(_) => AllRead(Init(trace))
      case Return(_, r) => AllRead(Init(trace)) + r
  }

  // What was read in sessions whose record has been used again.
  function Discarded(trace: seq<Event>): int {
    if trace == [] then 0
    else match Last(trace)
      case Call(p) => Discarded(Init(trace)) + if p in Active(Init(trace)) then 0 else Since(Init(trace), p)
      case Return(_, _) => Discarded(Init(trace))
  }

  // ---------- The books agree with the history ----------

  ghost predicate KeysAgree(s: State, trace: seq<Event>) {
    && (forall p :: p in InFlight(trace) ==> p in Active(trace))
    && (forall p :: p in Active(trace) ==> p in Seen(trace))
    && (forall p :: p in Seen(trace) <==> p in s.table)
  }

  ghost predicate EntriesAgree(s: State, trace: seq<Event>) {
    forall p :: p in s.table ==>
      s.table[p].bytes == Wrap(Since(trace, p)) && s.table[p].finished == (p !in Active(trace))
  }

  ghost predicate Agrees(s: State, trace: seq<Event>) {
    && KeysAgree(s, trace) && EntriesAgree(s, trace)
    && s.readerCount == |Active(trace)|
    && s.allBytes == Wrap(AllRead(trace))
  }

  function Apply(s: State, e: Event): State
    requires e.Return? ==> e.pid in s.table
  {
    match e
    case Call(p) => Begin(s, p)
    case Return(p, r) => End(s, p, r)
  }

  lemma {:induction false} SmallNumbers(s: set<nat>, n: nat)
    requires forall p :: p in s ==> p < n
    ensures |s| <= n
  {
    if n > 0 {
      SmallNumbers(s - {n - 1}, n - 1);
    } else {
      assert s == {};
    }
  }

  lemma {:induction false} PidsAreSmall(trace: seq<Event>)
    requires Legal(trace)
    ensures forall p :: p in Active(trace) ==> p < PIDS
    ensures |Active(trace)| <= PIDS
  {
    if trace != [] {
      PidsAreSmall(Init(trace));
    }
    SmallNumbers(Active(trace), PIDS);
  }

  lemma {:induction false} Unread(trace: seq<Event>, p: nat)
    requires Legal(trace) && p !in Seen(trace)
    ensures Since(trace, p) == 0 && p !in InFlight(trace)
  {
    if trace != [] {
      Unread(Init(trace), p);
    }
  }

  lemma AfterCall(trace: seq<Event>, p: nat)
    requires trace != [] && Last(trace) == Call(p) && Legal(trace)
    ensures var init := Init(trace);
      && Legal(init) && InFlight(trace) == InFlight(init) + {p} && Active(trace) == Active(init) + {p}
      && Seen(trace) == Seen(init) + {p} && AllRead(trace) == AllRead(init)
      && forall q :: Since(trace, q) == if q == p && p !in Active(init) then 0 else Since(init, q)
  {
  }

  lemma AfterReturn(trace: seq<Event>, p: nat, r: int)
    requires trace != [] && Last(trace) == Return(p, r) && Legal(trace)
    ensures var init := Init(trace);
      && Legal(init) && p in InFlight(init) && InFlight(trace) == InFlight(init) - {p}
      && Active(trace) == (if r < 1 then Active(init) - {p} else Active(init))
      && Seen(trace) == Seen(init) && AllRead(trace) == AllRead(init) + r
      && forall q :: Since(trace, q) == Since(init, q) + if q == p then r else 0
  {
  }

  lemma OneMoreReader(active: set<nat>, p: nat)
    requires |active + {p}| <= PIDS
    ensures |active + {p}| == if p in active then |active| else Wrap(|active| + 1)
  {
    if p in active {
      assert active + {p} == active;
    }
  }

  lemma OneLessReader(active: set<nat>, p: nat)
    requires p in active && |active| <= PIDS
    ensures |active| > 0 && |active - {p}| == Wrap(|active| - 1)
  {
    assert active == (active - {p}) + {p};
  }

  lemma CallKeys(s: State, trace: seq<Event>, p: nat)
    requires trace != [] && Last(trace) == Call(p) && Legal(trace) && KeysAgree(s, Init(trace))
    requires EntriesAgree(s, Init(trace))
    ensures KeysAgree(Begin(s, p), trace)
  {
    AfterCall(trace, p);
    hide Legal, Init, Last, InFlight, Active, Seen, Since, AllRead, Wrap;
  }

  lemma CallEntries(s: State, trace: seq<Event>, p: nat)
    requires trace != [] && Last(trace) == Call(p) && Legal(trace) && KeysAgree(s, Init(trace))
    requires EntriesAgree(s, Init(trace))
    ensures EntriesAgree(Begin(s, p), trace)
  {
    AfterCall(trace, p);
    assert Wrap(0) == 0;
    hide Legal, Init, Last, InFlight, Active, Seen, Since, AllRead, Wrap;
  }

  lemma CallAgrees(s: State, trace: seq<Event>, p: nat)
    requires trace != [] && Last(trace) == Call(p) && Legal(trace) && Agrees(s, Init(trace))
    ensures Agrees(Begin(s, p), trace)
  {
    CallKeys(s, trace, p);
    CallEntries(s, trace, p);
    PidsAreSmall(trace);
    AfterCall(trace, p);
    var active := Active(Init(trace));
    OneMoreReader(active, p);
    assert p !in s.table || s.table[p].finished <==> p !in active;
    hide *;
    assert Begin(s, p).readerCount == |Active(trace)|;
  }

  lemma ReturnKeys(s: State, trace: seq<Event>, p: nat, r: int)
    requires trace != [] && Last(trace) == Return(p, r) && Legal(trace) && KeysAgree(s, Init(trace))
    requires EntriesAgree(s, Init(trace))
    ensures p in s.table && KeysAgree(End(s, p, r), trace)
  {
    AfterReturn(trace, p, r);
    hide Legal, Init, Last, InFlight, Active, Seen, Since, AllRead, Wrap;
    assert p in Active(Init(trace)) && p in s.table;
  }

  lemma ReturnEntries(s: State, trace: seq<Event>, p: nat, r: int)
    requires trace != [] && Last(trace) == Return(p, r) && Legal(trace) && KeysAgree(s, Init(trace))
    requires EntriesAgree(s, Init(trace)) && p in s.table
    ensures EntriesAgree(End(s, p, r), trace)
  {
    AfterReturn(trace, p, r);
    WrapSum(Since(Init(trace), p), r, r);
    hide Legal, Init, Last, InFlight, Active, Seen, Since, AllRead, Wrap;
  }

  lemma ReaderIsCounted(s: State, trace: seq<Event>, p: nat)
    requires Agrees(s, trace) && p in InFlight(trace)
    ensures p in Active(trace) && s.readerCount == |Active(trace)| && s.allBytes == Wrap(AllRead(trace))
    ensures KeysAgree(s, trace) && EntriesAgree(s, trace)
  {
  }

  lemma ReturnAgrees(s: State, trace: seq<Event>, p: nat, r: int)
    requires trace != [] && Last(trace) == Return(p, r) && Legal(trace) && Agrees(s, Init(trace))
    ensures p in s.table && s.readerCount > 0
    ensures Agrees(End(s, p, r), trace)
  {
    hide *;
    AfterReturn(trace, p, r);
    ReaderIsCounted(s, Init(trace), p);
    ReturnKeys(s, trace, p, r);
    ReturnEntries(s, trace, p, r);
    PidsAreSmall(Init(trace));
    var active := Active(Init(trace));
    OneLessReader(active, p);
    WrapSum(AllRead(Init(trace)), r, r);
    BooksAgree(s, trace, p, r, active);
  }

  lemma BooksAgree(s: State, trace: seq<Event>, p: nat, r: int, active: set<nat>)
    requires p in s.table && KeysAgree(End(s, p, r), trace) && EntriesAgree(End(s, p, r), trace)
    requires s.readerCount == |active| && |active - {p}| == Wrap(|active| - 1)
    requires Active(trace) == if r < 1 then active - {p} else active
    requires Wrap(s.allBytes + r) == Wrap(AllRead(trace))
    ensures Agrees(End(s, p, r), trace)
  {
    hide Wrap, KeysAgree, EntriesAgree, Active, AllRead;
  }

  /** One more event: the reader count is exact, so it never drops below zero. */
  lemma StepAgrees(s: State, trace: seq<Event>)
    requires trace != [] && Legal(trace) && Agrees(s, Init(trace))
    ensures Last(trace).Return? ==> Last(trace).pid in s.table && s.readerCount > 0
    ensures Agrees(Apply(s, Last(trace)), trace)
  {
    match Last(trace)
    case Call(p) => CallAgrees(s, trace, p);
    case Return(p, r) => ReturnAgrees(s, trace, p, r);
  }

  /** After any legal history the books say what the history says: counter, sessions and totals. */
  ghost function Run(trace: seq<Event>): (s: State)
    requires Legal(trace)
    ensures Agrees(s, trace)
  {
    if trace == [] then State(0, 0, map[])
    else
      var before := Run(Init(trace));
      StepAgrees(before, trace);
      Apply(before, Last(trace))
  }

  /** The counter is the number of entries that are not finished, and no call is in flight in a finished one. */
  lemma ReaderCountIsExact(trace: seq<Event>)
    requires Legal(trace)
    ensures var s := Run(trace);
      && s.readerCount == |set p | p in s.table && !s.table[p].finished|
      && forall p :: p in InFlight(trace) ==> p in s.table && !s.table[p].finished
  {
    var s := Run(trace);
    assert KeysAgree(s, trace) && EntriesAgree(s, trace);
    assert (set p | p in s.table && !s.table[p].finished) == Active(trace);
  }

  // ---------- What an event does, told by the events before ----------

  /** A session is open from the call that opens it on until a result below 1 comes back. */
  lemma {:induction false} OpenMeans(trace: seq<Event>, p: nat)
    ensures p in Active(trace) <==>
      exists i :: 0 <= i < |trace| && trace[i] == Call(p) && !EndedAfter(trace, p, i)
    ensures p in InFlight(trace) <==>
      exists i :: 0 <= i < |trace| && trace[i] == Call(p) && !ReturnedAfter(trace, p, i)
  {
    if trace != [] {
      var init := Init(trace);
      OpenMeans(init, p);
      forall i | 0 <= i < |init| ensures trace[i] == init[i] {
      }
      forall i | 0 <= i < |init| && trace[i] == Call(p)
        ensures ReturnedAfter(trace, p, i) <==>
          ReturnedAfter(init, p, i) || (Last(trace).Return? && Last(trace).pid == p)
        ensures EndedAfter(trace, p, i) <==>
          EndedAfter(init, p, i) || (Last(trace).Return? && Last(trace).pid == p && Last(trace).result < 1)
      {
      }
      assert !EndedAfter(trace, p, |init|) && !ReturnedAfter(trace, p, |init|);
      assert trace[|init|] == Last(trace);
    }
  }

  predicate EndedAfter(trace: seq<Event>, p: nat, i: nat) {
    exists k :: i < k < |trace| && trace[k].Return? && trace[k].pid == p && trace[k].result < 1
  }

  predicate ReturnedAfter(trace: seq<Event>, p: nat, i: nat) {
    exists k :: i < k < |trace| && trace[k].Return? && trace[k].pid == p
  }

  lemma RunNext(trace: seq<Event>, e: Event)
    requires Legal(trace + [e])
    ensures Legal(trace) && (e.Return? ==> e.pid in InFlight(trace) && e.pid in Run(trace).table)
    ensures Run(trace + [e]) == Apply(Run(trace), e)
  {
    assert Init(trace + [e]) == trace && Last(trace + [e]) == e;
    StepAgrees(Run(trace), trace + [e]);
  }

  /** A call opens a session with nothing read, unless one is open. */
  lemma CallMeans(trace: seq<Event>, p: nat)
    requires Legal(trace + [Call(p)])
    ensures Legal(trace)
    ensures var s, s' := Run(trace), Run(trace + [Call(p)]);
      && s'.allBytes == s.allBytes
      && s'.table == (if p in Active(trace) then s.table else s.table[p := Session(0, false)])
  {
    hide Run, Legal, Active, Since, AllRead;
    RunNext(trace, Call(p));
    assert KeysAgree(Run(trace), trace) && EntriesAgree(Run(trace), trace);
  }

  /** A return adds its result to the total and to the session, and closes the session if it is below 1. */
  lemma ReturnMeans(trace: seq<Event>, p: nat, r: int)
    requires Legal(trace + [Return(p, r)])
    ensures Legal(trace) && p in Run(trace).table
    ensures var s, s' := Run(trace), Run(trace + [Return(p, r)]);
      && s'.allBytes == (s.allBytes + r) % 0x1_0000_0000_0000_0000
      && s'.table == s.table[p := Session((s.table[p].bytes + r) % 0x1_0000_0000_0000_0000, r < 1)]
  {
    hide Run, Legal, Agrees, InFlight, End;
    RunNext(trace, Return(p, r));
    EndMeans(Run(trace), trace, p, r);
  }

  lemma EndMeans(s: State, trace: seq<Event>, p: nat, r: int)
    requires Agrees(s, trace) && p in InFlight(trace)
    ensures p in s.table
    ensures End(s, p, r).allBytes == (s.allBytes + r) % 0x1_0000_0000_0000_0000
    ensures End(s, p, r).table == s.table[p := Session((s.table[p].bytes + r) % 0x1_0000_0000_0000_0000, r < 1)]
  {
    hide Agrees, Active, InFlight, Seen, Since, AllRead;
    ReaderIsCounted(s, trace, p);
  }

  /** The total and a session are exact if and only if they fit their fields. */
  lemma FitsIsExact(trace: seq<Event>, p: nat)
    requires Legal(trace) && p in Run(trace).table
    ensures Run(trace).allBytes == AllRead(trace) <==> 0 <= AllRead(trace) < 0x1_0000_0000_0000_0000
    ensures Run(trace).table[p].bytes == Since(trace, p) <==> 0 <= Since(trace, p) < 0x1_0000_0000_0000_0000
  {
    hide *;
    var s := Run(trace);
    BooksSay(s, trace, p);
    WrapFits(AllRead(trace));
    WrapFits(Since(trace, p));
  }

  lemma BooksSay(s: State, trace: seq<Event>, p: nat)
    requires Agrees(s, trace) && p in s.table
    ensures s.allBytes == Wrap(AllRead(trace)) && s.table[p].bytes == Wrap(Since(trace, p))
  {
  }

  lemma WrapFits(x: int)
    ensures Wrap(x) == x <==> 0 <= x < 0x1_0000_0000_0000_0000
  {
  }

  // ---------- Conservation ----------

  ghost function SumOf(m: map<nat, int>): int {
    if m == map[] then 0 else var k :| k in m; m[k] + SumOf(m - {k})
  }

  lemma {:induction false} SumPick(m: map<nat, int>, k: nat)
    requires k in m
    ensures SumOf(m) == m[k] + SumOf(m - {k})
    decreases |m|
  {
    var c :| c in m && SumOf(m) == m[c] + SumOf(m - {c});
    if c != k {
      assert (m - {c}).Keys == m.Keys - {c} && (m - {k}).Keys == m.Keys - {k};
      SumPick(m - {c}, k);
      SumPick(m - {k}, c);
      assert m - {c} - {k} == m - {k} - {c};
    }
  }

  lemma SumPut(m: map<nat, int>, k: nat, v: int)
    ensures SumOf(m[k := v]) == SumOf(m) - (if k in m then m[k] else 0) + v
  {
    SumPick(m[k := v], k);
    if k in m {
      SumPick(m, k);
      assert m[k := v] - {k} == m - {k};
    } else {
      assert m[k := v] - {k} == m;
    }
  }

  // The exact sum of every session on record.
  ghost function OnRecord(trace: seq<Event>): map<nat, int> { map p | p in Seen(trace) :: Since(trace, p) }

  lemma CallOnRecord(trace: seq<Event>, p: nat)
    requires trace != [] && Last(trace) == Call(p) && Legal(trace)
    ensures OnRecord(trace) == OnRecord(Init(trace))[p := Since(trace, p)]
    ensures p !in Seen(Init(trace)) ==> Since(Init(trace), p) == 0
  {
    AfterCall(trace, p);
    if p !in Seen(Init(trace)) {
      Unread(Init(trace), p);
    }
  }

  lemma ReturnOnRecord(trace: seq<Event>, p: nat, r: int)
    requires trace != [] && Last(trace) == Return(p, r) && Legal(trace)
    ensures p in Seen(Init(trace)) && OnRecord(trace) == OnRecord(Init(trace))[p := Since(trace, p)]
  {
    AfterReturn(trace, p, r);
    assert KeysAgree(Run(Init(trace)), Init(trace));
  }

  /** Every byte read is in the session of some process, or in one whose record has been used again. */
  lemma {:induction false} BytesConserved(trace: seq<Event>)
    requires Legal(trace)
    ensures AllRead(trace) == SumOf(OnRecord(trace)) + Discarded(trace)
  {
    if trace == [] {
      assert OnRecord(trace) == map[];
    } else {
      var init := Init(trace);
      BytesConserved(init);
      match Last(trace)
      case Call(p) =>
        CallOnRecord(trace, p);
        SumPut(OnRecord(init), p, Since(trace, p));
      case Return(p, r) =>
        ReturnOnRecord(trace, p, r);
        SumPut(OnRecord(init), p, Since(trace, p));
    }
  }

  lemma {:induction false} SumWraps(m: map<nat, int>, w: map<nat, int>)
    requires m.Keys == w.Keys && forall k :: k in m ==> w[k] == Wrap(m[k])
    ensures Wrap(SumOf(m)) == Wrap(SumOf(w))
    decreases |m|
  {
    hide Wrap, SumOf;
    if m == map[] {
      assert m == w;
    } else {
      var k :| k in m;
      SumPick(m, k);
      SumPick(w, k);
      assert (m - {k}).Keys == m.Keys - {k} == (w - {k}).Keys;
      SumWraps(m - {k}, w - {k});
      WrapSum(m[k], SumOf(m - {k}), SumOf(w - {k}));
    }
  }

  // The sums that the table holds.
  ghost function Stored(s: State): map<nat, int> { map p | p in s.table :: s.table[p].bytes }

  lemma SameRecords(s: State, trace: seq<Event>)
    requires Agrees(s, trace)
    ensures OnRecord(trace).Keys == Stored(s).Keys
    ensures forall p :: p in OnRecord(trace) ==> Stored(s)[p] == Wrap(OnRecord(trace)[p])
  {
    hide Since, Seen, Active, InFlight, Wrap;
  }

  /** The total of all calls is, in its width, what the entries of the table add up to and what was discarded. */
  lemma TotalConserved(trace: seq<Event>)
    requires Legal(trace)
    ensures Run(trace).allBytes == Wrap(SumOf(Stored(Run(trace))) + Discarded(trace))
  {
    hide Run, Wrap, Legal, KeysAgree, EntriesAgree, SumOf, Discarded, AllRead, Active, Seen, InFlight;
    var s := Run(trace);
    BytesConserved(trace);
    SameRecords(s, trace);
    hide Stored, OnRecord;
    SumWraps(OnRecord(trace), Stored(s));
    WrapSum(Discarded(trace), SumOf(OnRecord(trace)), SumOf(Stored(s)));
    WrapSum(Discarded(trace), SumOf(Stored(s)), SumOf(Stored(s)));
  }

  // ---------- The module ----------

  ghost predicate IsBooks(s: State, trace: seq<Event>) { Legal(trace) && s == Run(trace) }

  lemma NextBooks(s: State, trace: seq<Event>, e: Event)
    requires IsBooks(s, trace) && Legal(trace + [e])
    ensures e.Return? ==> e.pid in s.table
    ensures IsBooks(Apply(s, e), trace + [e])
  {
    assert Init(trace + [e]) == trace;
    StepAgrees(s, trace + [e]);
  }

  class ReadStatistics {
    var allBytes: nat
    var readerCount: nat
    const table: Table<Session>
    // All calls and returns so far, and what the books should say after them.
    ghost var trace: seq<Event>
    ghost var books: State

    ghost predicate Valid()
      reads this, table, table.buckets, table.made
    {
      && IsBooks(books, trace)
      && allBytes == books.allBytes && readerCount == books.readerCount && table.Holds(books.table)
    }

    constructor (hash: nat -> nat, size: nat)
      requires forall k :: hash(k) < size
      ensures Valid() && trace == [] && fresh(table) && fresh(table.buckets) && table.made == {}
    {
      allBytes, readerCount, trace, books := 0, 0, [], State(0, 0, map[]);
      table := new Table(hash, size);
      new;
      table.EmptyHolds(map[]);
    }

    // Makes an entry for a process that has none.
    method NewSession(pid: nat, ghost want: map<nat, Session>) returns (entry: Entry<Session>)
      requires table.Holds(want) && pid !in want
      modifies table`lists, table`made, table.buckets, table.made
      ensures table.Holds(want[pid := Session(0, false)])
      ensures entry.key == pid && entry in Flat(table.lists) && table.Live(entry)
      ensures Subsumes(Flat(table.lists), old(Flat(table.lists)))
      ensures forall e :: e in old(table.made) ==> e.key == old(e.key)
      ensures old(table.made) <= table.made && fresh(table.made - old(table.made))
    {
      entry := table.Alloc(pid, Session(0, false), want);
      hide Table.Holds, Table.Live, Flat, Subsumes;
      table.Insert(entry, want);
    }

    // Finds the entry of a process or makes one, and opens a session in it unless one is open.
    method OpenSession(pid: nat, ghost want: map<nat, Session>) returns (existing: Entry<Session>, began: bool)
      requires table.Holds(want)
      modifies table`lists, table`made, table.buckets, table.made
      ensures began <==> pid !in want || want[pid].finished
      ensures table.Holds(if began then want[pid := Session(0, false)] else want)
      ensures existing.key == pid && existing in Flat(table.lists) && table.Live(existing)
      ensures Subsumes(Flat(table.lists), old(Flat(table.lists)))
      ensures forall e :: e in old(table.made) ==> e.key == old(e.key)
      ensures old(table.made) <= table.made && fresh(table.made - old(table.made))
    {
      assert Subsumes(Flat(table.lists), Flat(table.lists));
      hide *;
      var found := table.Get(pid, want);
      began := true;
      if found == null {
        existing := NewSession(pid, want);
      } else {
        existing := found;
        if existing.value.finished {
          table.SetValue(existing, Session(0, false), want);
        } else {
          began := false;
        }
      }
    }

    /** The part of a call before it enters the original function; the entry is kept until that returns. */
    method BeginRead(pid: nat) returns (existing: Entry<Session>)
      requires Valid() && Legal(trace + [Call(pid)])
      modifies this, table`lists, table`made, table.buckets, table.made
      ensures Valid() && trace == old(trace) + [Call(pid)]
      ensures existing.key == pid && existing in Flat(table.lists) && table.Live(existing)
      ensures Subsumes(Flat(table.lists), old(Flat(table.lists)))
      ensures forall e :: e in old(table.made) ==> e.key == old(e.key)
      ensures old(table.made) <= table.made && fresh(table.made - old(table.made))
    {
      hide IsBooks, Legal, Table.Holds;
      NextBooks(books, trace, Call(pid));
      var began;
      existing, began := OpenSession(pid, books.table);
      if began {
        readerCount := Wrap(readerCount + 1);
      }
      trace, books := trace + [Call(pid)], Begin(books, pid);
    }

    // Books a result in an entry.
    method AddResult(existing: Entry<Session>, result: int, ghost want: map<nat, Session>)
      requires table.Holds(want) && existing in Flat(table.lists) && table.Live(existing)
      modifies existing`value
      ensures existing.key in want && existing.value ==
        Session(Wrap(want[existing.key].bytes + result), result < 1 || want[existing.key].finished)
      ensures table.Holds(want[existing.key := existing.value])
    {
      assert existing.value == want[existing.key];
      hide *;
      var session := existing.value;
      session := session.(bytes := Wrap(session.bytes + result));
      if result < 1 {
        session := session.(finished := true);
      }
      table.SetValue(existing, session, want);
    }

    /** The part after it: the result is booked in the total and in the entry, and may finish the session. */
    method EndRead(existing: Entry<Session>, result: int)
      requires Valid() && Legal(trace + [Return(existing.key, result)])
      requires existing in Flat(table.lists) && table.Live(existing)
      modifies this, existing`value
      ensures Valid() && trace == old(trace) + [Return(existing.key, result)]
    {
      hide IsBooks, Legal, Table.Holds;
      NextBooks(books, trace, Return(existing.key, result));
      allBytes := Wrap(allBytes + result);
      AddResult(existing, result, books.table);
      if result < 1 {
        readerCount := Wrap(readerCount - 1);
      }
      trace, books := trace + [Return(existing.key, result)], End(books, existing.key, result);
    }

    // The entry of a process, as a call in flight keeps it: it is still in the table.
    ghost predicate Keeps(e: Entry<Session>, p: nat)
      reads table, e
    {
      e in table.made && e in Flat(table.lists) && table.Live(e) && e.key == p
    }

    ghost predicate AllKept(held: map<nat, Entry<Session>>)
      reads this, table, held.Values
    {
      forall p :: p in InFlight(trace) ==> p in held && Keeps(held[p], p)
    }

    lemma AllKeptNow(held: map<nat, Entry<Session>>)
      requires forall p :: p in InFlight(trace) ==> p in held && Keeps(held[p], p)
      ensures AllKept(held)
    {
    }

    method HandleCall(pid: nat, held: map<nat, Entry<Session>>) returns (held': map<nat, Entry<Session>>)
      requires Valid() && Legal(trace + [Call(pid)]) && AllKept(held)
      modifies this, table`lists, table`made, table.buckets, table.made
      ensures Valid() && trace == old(trace) + [Call(pid)] && AllKept(held')
      ensures old(table.made) <= table.made && fresh(table.made - old(table.made))
    {
      ghost var before := InFlight(trace);
      assert InFlight(trace + [Call(pid)]) == before + {pid} by {
        assert Init(trace + [Call(pid)]) == trace;
      }
      assert forall p :: p in before ==> p in held && Keeps(held[p], p);
      hide Legal, Valid, InFlight, Flat, AllKept;
      var e := BeginRead(pid);
      held' := held[pid := e];
      forall p | p in InFlight(trace) ensures p in held' && Keeps(held'[p], p) {
        if p != pid {
          assert p in before && old(Keeps(held[p], p));
        }
      }
      AllKeptNow(held');
    }

    method HandleReturn(pid: nat, result: int, held: map<nat, Entry<Session>>)
      requires Valid() && Legal(trace + [Return(pid, result)]) && AllKept(held)
      modifies this, table.made
      ensures Valid() && trace == old(trace) + [Return(pid, result)] && AllKept(held)
    {
      ghost var before := InFlight(trace);
      assert pid in before && InFlight(trace + [Return(pid, result)]) == before - {pid} by {
        assert Init(trace + [Return(pid, result)]) == trace;
      }
      assert forall p :: p in before ==> p in held && Keeps(held[p], p);
      hide Legal, Valid, InFlight, Flat;
      EndRead(held[pid], result);
      forall p | p in InFlight(trace) ensures p in held && Keeps(held[p], p) {
        assert p in before;
      }
    }

    method Handle(event: Event, held: map<nat, Entry<Session>>) returns (held': map<nat, Entry<Session>>)
      requires Valid() && Legal(trace + [event]) && AllKept(held)
      modifies this, table`lists, table`made, table.buckets, table.made
      ensures Valid() && trace == old(trace) + [event] && AllKept(held')
      ensures old(table.made) <= table.made && fresh(table.made - old(table.made))
    {
      hide *;
      match event {
        case Call(p) => held' := HandleCall(p, held);
        case Return(p, r) =>
          HandleReturn(p, r, held);
          held' := held;
      }
    }

    // The first `i` of the events are done.
    ghost predicate Serving(events: seq<Event>, i: nat, held: map<nat, Entry<Session>>)
      reads this, table, table.buckets, table.made, held.Values
    {
      i <= |events| && Legal(events) && Valid() && trace == events[..i] && AllKept(held)
    }

    method ServeNext(events: seq<Event>, i: nat, held: map<nat, Entry<Session>>)
      returns (held': map<nat, Entry<Session>>)
      requires Serving(events, i, held) && i < |events|
      modifies this, table`lists, table`made, table.buckets, table.made
      ensures Serving(events, i + 1, held')
      ensures old(table.made) <= table.made && fresh(table.made - old(table.made))
    {
      hide Valid, Legal, AllKept;
      LegalPrefix(events, i + 1);
      assert events[..i + 1] == events[..i] + [events[i]];
      held' := Handle(events[i], held);
    }

    /** Processes begin and end calls in any order; each keeps its entry while the original function runs. */
    method Serve(events: seq<Event>) returns (held: map<nat, Entry<Session>>)
      requires Valid() && trace == [] && Legal(events)
      modifies this, table, table.buckets, table.made
      ensures Valid() && trace == events && AllKept(held)
    {
      held := map[];
      assert Serving(events, 0, held);
      hide Valid, Legal, AllKept, Serving;
      var i := 0;
      while i < |events|
        invariant i <= |events| && Serving(events, i, held)
        invariant old(table.made) <= table.made && fresh(table.made - old(table.made))
      {
        held := ServeNext(events, i, held);
        i := i + 1;
      }
      Served(events, held);
    }

    lemma Served(events: seq<Event>, held: map<nat, Entry<Session>>)
      requires Serving(events, |events|, held)
      ensures Valid() && trace == events && AllKept(held)
    {
    }

    /**
     Unloading the module: every entry is unlinked and freed, even if there is none.  The entries
     kept by calls in flight are all still there, for their return, if and only if there is no such call.
     */
    method Exit(ghost held: map<nat, Entry<Session>>)
      requires Valid() && AllKept(held)
      modifies table`lists, table`freed, table.buckets, table.made
      ensures table.Holds(map[]) && table.freed == old(table.freed) + Flat(old(table.lists))
      ensures (forall p :: p in InFlight(trace) ==> p in held && table.Live(held[p])) <==> InFlight(trace) == {}
      ensures forall p :: p in InFlight(trace) ==> p in held && !table.Live(held[p])
    {
      ghost var entries := Flat(table.lists);
      assert forall p :: p in InFlight(trace) ==> p in held && held[p] in entries;
      hide InFlight, Valid, AllKept, Flat;
      table.CleanupAny();
      table.EmptyHolds(map[]);
    }
  }

  lemma {:induction false} LegalPrefix(trace: seq<Event>, n: nat)
    requires Legal(trace) && n <= |trace|
    ensures Legal(trace[..n])
    decreases |trace| - n
  {
    if n == |trace| {
      assert trace[..n] == trace;
    } else {
      LegalPrefix(trace, n + 1);
      assert Init(trace[..n + 1]) == trace[..n];
    }
  }
}
