/**
 The chained hash table that both system calls of lab04 and the statistics module keep:
 an array of buckets, each the head of a list of entries linked in both directions.  An
 entry does not point back to its predecessor but to the place that points to it, which is
 a bucket or the `next` field of another entry.
 */
module HashTable {

  datatype Slot<V> = Nowhere | Head(bucket: nat) | NextOf(entry: Entry<V>)

  class Entry<V> {
    var key: nat
    var value: V
    var next: Entry?<V>
    var pprev: Slot<V>

    constructor (key: nat, value: V)
      ensures this.key == key && this.value == value && next == null && pprev == Nowhere
    {
      this.key, this.value, next, pprev := key, value, null, Nowhere;
    }
  }

  // All chains one after the other: the order in which a loop over the table meets the entries.
  function Flat<T>(lists: seq<seq<T>>): seq<T> {
    if lists == [] then [] else Flat(lists[..|lists| - 1]) + lists[|lists| - 1]
  }

  lemma FlatNext<T>(lists: seq<seq<T>>, b: nat)
    requires b < |lists|
    ensures Flat(lists[..b + 1]) == Flat(lists[..b]) + lists[b]
  {
    assert lists[..b + 1][..b] == lists[..b];
  }

  lemma {:induction false} InFlat<T>(lists: seq<seq<T>>, x: T)
    ensures x in Flat(lists) <==> exists b :: 0 <= b < |lists| && x in lists[b]
  {
    if lists != [] {
      var init := lists[..|lists| - 1];
      InFlat(init, x);
      assert forall b :: 0 <= b < |init| ==> init[b] == lists[b];
    }
  }

  // How many entries a loop over the table meets before bucket `b`.
  ghost function Before<T>(lists: seq<seq<T>>, b: nat): nat
    requires b <= |lists|
  {
    if b == 0 then 0 else Before(lists, b - 1) + |lists[b - 1]|
  }

  lemma {:induction false} BeforeIsLength<T>(lists: seq<seq<T>>, b: nat)
    requires b <= |lists|
    ensures Before(lists, b) == |Flat(lists[..b])| <= |Flat(lists)|
  {
    if b > 0 {
      BeforeIsLength(lists, b - 1);
      FlatNext(lists, b - 1);
    }
    FlatPrefix(lists, b);
  }

  lemma BeforeAll<T>(lists: seq<seq<T>>)
    ensures Before(lists, |lists|) == |Flat(lists)|
  {
    BeforeIsLength(lists, |lists|);
    assert lists[..|lists|] == lists;
  }

  // Where in that order an entry stands.
  lemma {:induction false} FlatAt<T>(lists: seq<seq<T>>, b: nat, i: nat)
    requires b < |lists| && i < |lists[b]|
    ensures var n := Before(lists, b) + i; n < |Flat(lists)| && Flat(lists)[n] == lists[b][i]
  {
    BeforeIsLength(lists, b);
    FlatPrefix(lists, b + 1);
    FlatNext(lists, b);
  }

  lemma {:induction false} FlatPrefix<T>(lists: seq<seq<T>>, b: nat)
    requires b <= |lists|
    ensures Flat(lists[..b]) <= Flat(lists)
  {
    if b < |lists| {
      var init := lists[..|lists| - 1];
      FlatPrefix(init, b);
      assert init[..b] == lists[..b];
    } else {
      assert lists[..b] == lists;
    }
  }

  lemma {:induction false} FlatOfEmpty<T>(lists: seq<seq<T>>)
    requires forall b :: 0 <= b < |lists| ==> lists[b] == []
    ensures Flat(lists) == []
  {
    if lists != [] {
      FlatOfEmpty(lists[..|lists| - 1]);
    }
  }

  ghost predicate Subsumes<T>(more: seq<T>, less: seq<T>) { forall x :: x in less ==> x in more }

  ghost predicate OneMore<T>(more: seq<T>, x: T, less: seq<T>) {
    |more| == |less| + 1 && x in more && Subsumes(more, less) && forall y :: y in more ==> y == x || y in less
  }

  /** An entry put in front of one chain is the only one that a loop over the table meets in addition. */
  lemma {:induction false} FlatAdd<T>(lists: seq<seq<T>>, b: nat, x: T)
    requires b < |lists|
    ensures var more := Flat(lists[b := [x] + lists[b]]);
      OneMore(more, x, Flat(lists))
  {
    var longer := lists[b := [x] + lists[b]];
    var init := lists[..|lists| - 1];
    if b == |init| {
      assert longer[..|init|] == init;
    } else {
      assert longer[..|init|] == init[b := [x] + init[b]];
      FlatAdd(init, b, x);
    }
  }

  /**
   Where a clean-up stands: of the chains `whole` those before `bkt` are gone, except for `last`,
   the entry met last, which is in bucket `at`; so are the entries before it in bucket `bkt`.
   All others that it met have been freed, in the order of the chains, after those of `before`.
   */
  ghost predicate Trail<T>(before: seq<T>, whole: seq<seq<T>>, freed: seq<T>, now: seq<seq<T>>,
                           bkt: nat, i: nat, last: seq<T>, at: nat)
  {
    && |now| == |whole| && bkt <= |whole| && |last| <= 1
    && (bkt == |whole| ==> i == 0)
    && (bkt < |whole| ==> i <= |whole[bkt]| && now[bkt] == if i == 0 then whole[bkt] else whole[bkt][i - 1..])
    && (last != [] ==> at < if i == 0 then bkt else bkt + 1)
    && (last == [] ==> forall b :: 0 <= b < bkt ==> whole[b] == [])
    && (i > 0 ==> at == bkt && last == [whole[bkt][i - 1]])
    && (forall b :: 0 <= b < bkt ==> now[b] == if b == at then last else [])
    && (forall b :: bkt < b < |now| ==> now[b] == whole[b])
    && freed + last == before + Flat(whole[..bkt]) + if bkt < |whole| then whole[bkt][..i] else []
  }

  lemma TrailStart<T>(before: seq<T>, whole: seq<seq<T>>)
    ensures Trail(before, whole, before, whole, 0, 0, [], 0)
  {
  }

  lemma TrailStep<T>(before: seq<T>, whole: seq<seq<T>>, freed: seq<T>, now: seq<seq<T>>,
                     bkt: nat, i: nat, last: seq<T>, at: nat)
    requires Trail(before, whole, freed, now, bkt, i, last, at) && bkt < |whole| && i < |whole[bkt]|
    ensures last != [] ==> at < |now| && |now[at]| > 0 && now[at][0] == last[0]
    ensures var after := if last == [] then now else now[at := now[at][1..]];
      Trail(before, whole, freed + last, after, bkt, i + 1, [whole[bkt][i]], bkt) && after[bkt] == whole[bkt][i..]
  {
    assert whole[bkt][..i + 1] == whole[bkt][..i] + [whole[bkt][i]];
  }

  lemma TrailNext<T>(before: seq<T>, whole: seq<seq<T>>, freed: seq<T>, now: seq<seq<T>>,
                     bkt: nat, last: seq<T>, at: nat)
    requires bkt < |whole| && Trail(before, whole, freed, now, bkt, |whole[bkt]|, last, at)
    ensures Trail(before, whole, freed, now, bkt + 1, 0, last, at)
  {
    FlatNext(whole, bkt);
    assert whole[bkt][..|whole[bkt]|] == whole[bkt];
  }

  lemma TrailEnd<T>(before: seq<T>, whole: seq<seq<T>>, freed: seq<T>, now: seq<seq<T>>, last: seq<T>, at: nat)
    requires Trail(before, whole, freed, now, |whole|, 0, last, at)
    ensures freed + last == before + Flat(whole)
    ensures last == [] ==> forall b :: 0 <= b < |whole| ==> whole[b] == []
    ensures last != [] ==> at < |now| && now[at] == last
    ensures forall b :: 0 <= b < |now| && (last == [] || b != at) ==> now[b] == []
  {
    assert whole[..|whole|] == whole;
  }

  ghost function Maybe<V>(e: Entry?<V>): seq<Entry<V>> { if e == null then [] else [e] }

  // The keys of entries that all have different ones.
  lemma KeysOf<V>(entries: seq<Entry<V>>) returns (keys: set<nat>)
    requires forall i, k :: 0 <= i < k < |entries| ==> entries[i].key != entries[k].key
    ensures |keys| == |entries| && keys == set e | e in entries :: e.key
  {
    keys := {};
    for n := 0 to |entries|
      invariant |keys| == n && keys == set e | e in entries[..n] :: e.key
    {
      assert entries[..n + 1] == entries[..n] + [entries[n]];
      keys := keys + {entries[n].key};
    }
    assert entries[..|entries|] == entries;
  }

  lemma OneMoreKey<V>(m: map<nat, V>, k: nat, v: V)
    requires k !in m
    ensures |m[k := v]| == |m| + 1
  {
    assert m[k := v].Keys == m.Keys + {k};
  }

  lemma SameSize<T>(s: set<T>, t: set<T>)
    requires s <= t && |s| == |t|
    ensures s == t
  {
    assert t == s + (t - s);
  }

  class Table<V> {
    const hash: nat -> nat
    const buckets: array<Entry?<V>>
    // The chain of each bucket, the entries allocated so far, and those freed, in order.
    ghost var lists: seq<seq<Entry<V>>>
    ghost var made: set<Entry<V>>
    ghost var freed: seq<Entry<V>>

    // The links of one chain, in both directions.
    ghost predicate Linked(b: nat, chain: seq<Entry<V>>)
      reads chain`next, chain`pprev
    {
      && (forall i :: 0 <= i < |chain| - 1 ==> chain[i].next == chain[i + 1] && chain[i + 1].pprev == NextOf(chain[i]))
      && (chain != [] ==> chain[0].pprev == Head(b) && chain[|chain| - 1].next == null)
    }

    // Every key is in the bucket that it hashes to, and only once.
    ghost predicate Keyed(b: nat, chain: seq<Entry<V>>)
      reads chain`key
    {
      && (forall i :: 0 <= i < |chain| ==> hash(chain[i].key) == b)
      && (forall i, k :: 0 <= i < k < |chain| ==> chain[i].key != chain[k].key)
    }

    ghost predicate Chained(b: nat, chain: seq<Entry<V>>)
      reads chain`next, chain`pprev, chain`key
    {
      Linked(b, chain) && Keyed(b, chain)
    }

    // Not freed yet.
    ghost predicate Live(e: Entry<V>)
      reads this`made, this`freed
    {
      e in made && e !in freed
    }

    ghost predicate InMemory(chain: seq<Entry<V>>)
      reads this`made, this`freed
    {
      forall i :: 0 <= i < |chain| ==> chain[i] in made && chain[i] !in freed
    }

    ghost predicate Valid()
      reads this, buckets, made`next, made`pprev, made`key
    {
      && (forall k :: hash(k) < buckets.Length)
      && |lists| == buckets.Length
      && (forall b :: 0 <= b < |lists| ==> InMemory(lists[b]))
      && (forall b :: 0 <= b < |lists| ==> buckets[b] == if lists[b] == [] then null else lists[b][0])
      && (forall b :: 0 <= b < |lists| ==> Chained(b, lists[b]))
    }

    ghost predicate Empty()
      reads this
    {
      forall b :: 0 <= b < |lists| ==> lists[b] == []
    }

    // The table as a map: an entry for each of its keys, with its value.
    ghost predicate Holds(want: map<nat, V>)
      reads this, buckets, made
    {
      && Valid() && |Flat(lists)| == |want|
      && (forall e :: e in made && e in Flat(lists) ==> e.key in want && e.value == want[e.key])
    }

    constructor (hash: nat -> nat, size: nat)
      requires forall k :: hash(k) < size
      ensures Valid() && Empty() && fresh(buckets) && made == {} && freed == []
      ensures this.hash == hash
    {
      this.hash := hash;
      buckets := new Entry?<V>[size](_ => null);
      lists := seq(size, _ => []);
      made, freed := {}, [];
    }

    // Links may be followed, and entries freed, only while they are allocated.
    function After(e: Entry<V>): Entry?<V>
      requires Live(e)
      reads this, e
    {
      e.next
    }

    // Where the link of an entry leads to.
    lemma NextInChain(b: nat, i: nat)
      requires Valid() && b < |lists| && i < |lists[b]|
      ensures Live(lists[b][i]) && After(lists[b][i]) == if i + 1 < |lists[b]| then lists[b][i + 1] else null
    {
      assert Chained(b, lists[b]) && InMemory(lists[b]);
      assert i + 1 < |lists[b]| ==> lists[b][i].next == lists[b][i + 1];
    }

    // Nothing is freed twice, and nothing that a chain still leads to.
    method Free(e: Entry?<V>)
      requires Valid() && (e != null ==> Live(e) && forall b :: 0 <= b < |lists| ==> e !in lists[b])
      modifies this`freed
      ensures Valid() && freed == old(freed) + Maybe(e)
    {
      if e != null {
        freed := freed + [e];
        assert forall b :: 0 <= b < |lists| ==> Chained(b, lists[b]);
      }
    }

    method Alloc(key: nat, value: V, ghost want: map<nat, V>) returns (e: Entry<V>)
      requires Holds(want)
      modifies this`made
      ensures Holds(want) && fresh(e) && made == old(made) + {e} && e.key == key && e.value == value
      ensures Live(e) && e !in old(made) && |made| == |old(made)| + 1
    {
      FlatInMemory();
      e := new Entry(key, value);
      made := made + {e};
      assert forall b :: 0 <= b < |lists| ==> Chained(b, lists[b]);
    }

    lemma {:induction false} PrefixKeys(n: nat)
      requires Valid() && n <= |lists|
      ensures forall i :: 0 <= i < |Flat(lists[..n])| ==> hash(Flat(lists[..n])[i].key) < n
      ensures forall i, k :: 0 <= i < k < |Flat(lists[..n])| ==> Flat(lists[..n])[i].key != Flat(lists[..n])[k].key
    {
      if n > 0 {
        PrefixKeys(n - 1);
        FlatNext(lists, n - 1);
        assert Chained(n - 1, lists[n - 1]);
      }
    }

    /** No key occurs twice in the whole table, so a loop over the table meets every entry once. */
    lemma KeysUnique()
      requires Valid()
      ensures forall i, k :: 0 <= i < k < |Flat(lists)| ==> Flat(lists)[i].key != Flat(lists)[k].key
    {
      PrefixKeys(|lists|);
      assert lists[..|lists|] == lists;
    }

    lemma FlatInMemory()
      requires Valid()
      ensures forall x :: x in Flat(lists) ==> Live(x)
    {
      forall x | x in Flat(lists) ensures Live(x) {
        InFlat(lists, x);
      }
    }

    lemma EmptyHolds(want: map<nat, V>)
      requires Valid() && Empty()
      ensures Holds(want) <==> want == map[]
    {
      FlatOfEmpty(lists);
      if |want| == 0 {
        assert want.Keys == {};
      }
    }

    // The keys of distinct entries are as many as the entries, so all keys of the map are among them.
    lemma AllKeysThere(want: map<nat, V>, key: nat)
      requires Holds(want) && key in want
      ensures exists e :: e in made && e in Flat(lists) && e.key == key
    {
      KeysUnique();
      FlatInMemory();
      var keys := KeysOf(Flat(lists));
      SameSize(keys, want.Keys);
    }

    // Walks one bucket.
    method Find(key: nat) returns (e: Entry?<V>)
      requires Valid()
      ensures e == null ==> forall x :: x in made && x in Flat(lists) ==> x.key != key
      ensures e != null ==> Live(e) && e in Flat(lists) && e.key == key
    {
      ghost var chain := lists[hash(key)];
      assert Chained(hash(key), chain);
      ghost var i := 0;
      e := buckets[hash(key)];
      while e != null
        invariant i <= |chain| && e == if i < |chain| then chain[i] else null
        invariant forall k :: 0 <= k < i ==> chain[k].key != key
        decreases |chain| - i
      {
        if e.key == key {
          InFlat(lists, chain[i]);
          return;
        }
        assert i + 1 < |chain| ==> chain[i].next == chain[i + 1];
        e := After(e);
        i := i + 1;
      }
      forall x | x in made && x in Flat(lists) ensures x.key != key {
        InFlat(lists, x);
      }
    }

    /** Finds the entry of a key, if there is one. */
    method Get(key: nat, ghost want: map<nat, V>) returns (e: Entry?<V>)
      requires Holds(want)
      ensures e == null <==> key !in want
      ensures e != null ==> Live(e) && e in Flat(lists) && e.key == key && e.value == want[key]
    {
      e := Find(key);
      if key in want {
        AllKeysThere(want, key);
      }
    }

    // Entries of different buckets are different, as their keys are.
    lemma Apart(b: nat, c: nat)
      requires Valid() && b < |lists| && c < |lists| && b != c
      ensures forall x :: x in lists[b] ==> x !in lists[c]
    {
      assert Chained(b, lists[b]) && Chained(c, lists[c]);
      assert forall x :: x in lists[b] ==> hash(x.key) == b;
      assert forall x :: x in lists[c] ==> hash(x.key) == c;
    }

    // Puts an entry in front of one chain; no other entry is touched.
    method Link(e: Entry<V>, b: nat, ghost chain: seq<Entry<V>>)
      requires b < buckets.Length && hash(e.key) == b && Chained(b, chain) && e !in chain
      requires buckets[b] == if chain == [] then null else chain[0]
      requires forall k :: 0 <= k < |chain| ==> chain[k].key != e.key
      modifies buckets, e, chain
      ensures Chained(b, [e] + chain) && buckets[..] == old(buckets[..])[b := e]
      ensures forall x :: x in [e] + chain ==> x.key == old(x.key) && x.value == old(x.value)
    {
      var first := buckets[b];
      e.next := first;
      if first != null {
        first.pprev := NextOf(e);
      }
      buckets[b] := e;
      e.pprev := Head(b);
      ghost var longer := [e] + chain;
      assert forall k :: 0 < k < |longer| ==> longer[k] == chain[k - 1];
    }

    // Takes an entry out of one chain, by way of the place that points to it; no other entry is touched.
    method Unlink(e: Entry<V>, ghost b: nat, ghost chain: seq<Entry<V>>, ghost i: nat)
      requires b < buckets.Length && Linked(b, chain) && i < |chain| && chain[i] == e && buckets[b] == chain[0]
      requires forall k, l :: 0 <= k < l < |chain| ==> chain[k] != chain[l]
      modifies buckets, chain
      ensures Linked(b, chain[..i] + chain[i + 1..])
      ensures buckets[..] == old(buckets[..])[b := if i > 0 then chain[0] else if |chain| > 1 then chain[1] else null]
      ensures forall k :: 0 <= k < |chain| ==>
        chain[k].key == old(chain[k].key) && chain[k].value == old(chain[k].value)
    {
      ghost var rest := chain[..i] + chain[i + 1..];
      assert forall k :: 0 <= k < |rest| ==> rest[k] == if k < i then chain[k] else chain[k + 1];
      var next, place := e.next, e.pprev;
      assert i > 0 ==> chain[i - 1].next == chain[i - 1 + 1] && place == NextOf(chain[i - 1]);
      assert i + 1 < |chain| ==> chain[i + 1] == next;
      match place {
        case Head(h) => buckets[h] := next;
        case NextOf(p) => p.next := next;
        case Nowhere =>
      }
      if next != null {
        next.pprev := place;
      }
      e.next, e.pprev := null, Nowhere;
      forall k | 0 <= k < |rest| - 1 ensures rest[k].next == rest[k + 1] && rest[k + 1].pprev == NextOf(rest[k]) {
        if k + 1 < i {
          assert rest[k] == chain[k] && rest[k + 1] == chain[k + 1];
        } else if k + 1 == i {
          assert rest[k] == chain[i - 1] && rest[k + 1] == chain[i + 1] == next;
        } else {
          assert rest[k] == chain[k + 1] && rest[k + 1] == chain[k + 1 + 1];
        }
      }
    }

    /** Links an entry of a new key at the head of its bucket. */
    method Add(e: Entry<V>)
      requires Valid() && Live(e) && forall x :: x in Flat(lists) ==> x.key != e.key
      modifies this`lists, buckets, made
      ensures Valid() && lists == old(lists)[hash(e.key) := [e] + old(lists[hash(e.key)])]
      ensures forall x :: x in made ==> x.key == old(x.key) && x.value == old(x.value)
    {
      var b := hash(e.key);
      ghost var chain := lists[b];
      forall k | 0 <= k < |chain| ensures chain[k].key != e.key {
        InFlat(lists, chain[k]);
      }
      forall c | 0 <= c < |lists| && c != b ensures forall x :: x in lists[c] ==> x !in chain && x != e {
        Apart(c, b);
        forall x | x in lists[c] ensures x != e {
          InFlat(lists, x);
        }
      }
      Link(e, b, chain);
      lists := lists[b := [e] + chain];
    }

    lemma KeyedRest(b: nat, chain: seq<Entry<V>>, i: nat)
      requires Keyed(b, chain) && i < |chain|
      ensures Keyed(b, chain[..i] + chain[i + 1..])
    {
      ghost var rest := chain[..i] + chain[i + 1..];
      assert forall k :: 0 <= k < |rest| ==> rest[k] == chain[if k < i then k else k + 1];
    }

    ghost predicate MapOf(entries: seq<Entry<V>>, want: map<nat, V>)
      reads entries
    {
      forall x :: x in entries ==> x.key in want && x.value == want[x.key]
    }

    lemma HoldsOneMore(e: Entry<V>, entries: seq<Entry<V>>, want: map<nat, V>)
      requires Valid() && MapOf(entries, want) && |entries| == |want| && e.key !in want
      requires OneMore(Flat(lists), e, entries)
      ensures Holds(want[e.key := e.value])
    {
      OneMoreKey(want, e.key, e.value);
    }

    // `Add` with the entries in view that the table has already: they are as before.
    method AddBeside(e: Entry<V>, ghost entries: seq<Entry<V>>, ghost want: map<nat, V>)
      requires Valid() && Live(e) && entries == Flat(lists) && MapOf(entries, want) && e.key !in want
      modifies this`lists, buckets, made
      ensures Valid() && Live(e) && OneMore(Flat(lists), e, entries) && MapOf(entries, want)
      ensures forall x :: x in made ==> x.key == old(x.key) && x.value == old(x.value)
    {
      FlatInMemory();
      assert e in made && hash(e.key) < |lists|;
      assert forall x :: x in entries ==> x in made && x.key != e.key;
      hide Valid, Flat, OneMore;
      FlatAdd(lists, hash(e.key), e);
      Add(e);
      assert made == old(made);
    }

    // `Add` and `SetValue` as the map sees them.
    method Insert(e: Entry<V>, ghost want: map<nat, V>)
      requires Holds(want) && Live(e) && e.key !in want
      modifies this`lists, buckets, made
      ensures Holds(want[e.key := e.value]) && e.key == old(e.key) && e.value == old(e.value)
      ensures Live(e) && OneMore(Flat(lists), e, old(Flat(lists)))
      ensures forall x :: x in made ==> x.key == old(x.key) && x.value == old(x.value)
    {
      FlatInMemory();
      ghost var entries := Flat(lists);
      assert e in made && |entries| == |want| && MapOf(entries, want);
      hide *;
      AddBeside(e, entries, want);
      HoldsOneMore(e, entries, want);
    }

    method SetValue(e: Entry<V>, value: V, ghost want: map<nat, V>)
      requires Holds(want) && Live(e) && e in Flat(lists)
      modifies e`value
      ensures Holds(want[e.key := value])
    {
      KeysUnique();
      assert forall x :: x in made && x in Flat(lists) && x.key == e.key ==> x == e;
      hide Flat;
      assert want[e.key := value].Keys == want.Keys;
      e.value := value;
    }

    // `Unlink` with the other chains in view: they are all in place.
    method UnlinkBeside(e: Entry<V>, ghost b: nat, ghost i: nat)
      requires Valid() && b < |lists| && i < |lists[b]| && lists[b][i] == e
      modifies buckets, lists[b]
      ensures Chained(b, lists[b][..i] + lists[b][i + 1..])
      ensures forall c :: 0 <= c < |lists| && c != b ==> Chained(c, lists[c])
      ensures forall c :: 0 <= c < |lists| && c != b ==> buckets[c] == old(buckets[c])
      ensures buckets[b] == if i > 0 then lists[b][0] else if |lists[b]| > 1 then lists[b][1] else null
      ensures forall x :: x in lists[b] ==> x.key == old(x.key) && x.value == old(x.value)
    {
      ghost var chain := lists[b];
      forall c | 0 <= c < |lists| && c != b ensures forall x :: x in lists[c] ==> x !in chain {
        Apart(c, b);
      }
      assert Chained(b, chain);
      Unlink(e, b, chain, i);
      KeyedRest(b, chain, i);
    }

    /** Unlinks an entry, wherever it stands in its chain. */
    method Del(e: Entry<V>, ghost b: nat, ghost i: nat)
      requires Valid() && b < |lists| && i < |lists[b]| && lists[b][i] == e
      modifies this`lists, buckets, lists[b]
      ensures Valid() && lists == old(lists)[b := old(lists[b])[..i] + old(lists[b])[i + 1..]]
      ensures forall x :: x in made ==> x.key == old(x.key) && x.value == old(x.value)
    {
      ghost var rest := lists[b][..i] + lists[b][i + 1..];
      assert InMemory(lists[b]) && forall k :: 0 <= k < |rest| ==> rest[k] in lists[b];
      assert InMemory(rest);
      UnlinkBeside(e, b, i);
      hide Chained, InMemory;
      lists := lists[b := rest];
    }

    lemma OnlyOnce(b: nat)
      requires Valid() && b < |lists| && lists[b] != []
      ensures Live(lists[b][0]) && lists[b][0] !in lists[b][1..]
      ensures forall c :: 0 <= c < |lists| && c != b ==> lists[b][0] !in lists[c]
      ensures forall x :: x in lists[b] ==> x in made
    {
      forall c | 0 <= c < |lists| && c != b ensures lists[b][0] !in lists[c] {
        Apart(b, c);
      }
      assert Chained(b, lists[b]) && InMemory(lists[b]);
    }

    // Unlinks and frees the first entry of a chain, or does nothing.
    method Drop(e: Entry?<V>, ghost b: nat)
      requires Valid() && (e != null ==> b < |lists| && lists[b] != [] && lists[b][0] == e)
      modifies this`lists, this`freed, buckets, made
      ensures Valid() && freed == old(freed) + Maybe(e)
      ensures lists == if e == null then old(lists) else old(lists)[b := old(lists)[b][1..]]
    {
      hide *;
      if e != null {
        OnlyOnce(b);
        Del(e, b, 0);
        assert old(lists)[b][..0] + old(lists)[b][1..] == old(lists)[b][1..];
        assert Live(e) && forall c :: 0 <= c < |lists| ==> e !in lists[c];
      }
      Free(e);
    }

    // The clean-up loop stands on entry `i` of bucket `bkt`, or past its last one.
    ghost predicate StandsOn(existing: Entry?<V>, before: seq<Entry<V>>, whole: seq<seq<Entry<V>>>,
                             bkt: nat, i: nat, prev: Entry?<V>, at: nat)
      reads this, buckets, made
    {
      && Valid() && bkt < |whole| == |lists| && i <= |whole[bkt]|
      && Trail(before, whole, freed, lists, bkt, i, Maybe(prev), at)
      && existing == if i < |whole[bkt]| then whole[bkt][i] else null
    }

    // One round of the clean-up loop: it drops the entry before, and then follows the link.
    method Advance(existing: Entry<V>, prev: Entry?<V>, ghost at: nat, ghost bkt: nat, ghost i: nat,
                   ghost before: seq<Entry<V>>, ghost whole: seq<seq<Entry<V>>>)
      returns (next: Entry?<V>)
      requires StandsOn(existing, before, whole, bkt, i, prev, at)
      modifies this`lists, this`freed, buckets, made
      ensures i < |whole[bkt]| && StandsOn(next, before, whole, bkt, i + 1, existing, bkt)
    {
      TrailStep(before, whole, freed, lists, bkt, i, Maybe(prev), at);
      Drop(prev, at);
      NextInChain(bkt, 0);
      next := After(existing);
    }

    lemma BucketBegun(before: seq<Entry<V>>, whole: seq<seq<Entry<V>>>, bkt: nat, prev: Entry?<V>, at: nat)
      requires Valid() && bkt < buckets.Length && Trail(before, whole, freed, lists, bkt, 0, Maybe(prev), at)
      ensures bkt < |whole| && StandsOn(buckets[bkt], before, whole, bkt, 0, prev, at)
    {
    }

    lemma BucketDone(before: seq<Entry<V>>, whole: seq<seq<Entry<V>>>, bkt: nat, i: nat, prev: Entry?<V>, at: nat)
      requires StandsOn(null, before, whole, bkt, i, prev, at)
      ensures Valid() && |lists| == buckets.Length && Trail(before, whole, freed, lists, bkt + 1, 0, Maybe(prev), at)
    {
      TrailNext(before, whole, freed, lists, bkt, Maybe(prev), at);
    }

    // The inner loop, over one bucket.
    method SweepBucket(bkt: nat, prev0: Entry?<V>, ghost at0: nat, ghost before: seq<Entry<V>>,
                       ghost whole: seq<seq<Entry<V>>>)
      returns (prev: Entry?<V>, ghost at: nat)
      requires Valid() && bkt < buckets.Length && Trail(before, whole, freed, lists, bkt, 0, Maybe(prev0), at0)
      modifies this`lists, this`freed, buckets, made
      ensures Valid() && Trail(before, whole, freed, lists, bkt + 1, 0, Maybe(prev), at)
      ensures |lists| == buckets.Length
    {
      hide *;
      prev, at := prev0, at0;
      BucketBegun(before, whole, bkt, prev, at);
      ghost var i := 0;
      var existing := buckets[bkt];
      while existing != null
        invariant i <= |whole[bkt]| && made == old(made)
        invariant StandsOn(existing, before, whole, bkt, i, prev, at)
        decreases |whole[bkt]| - i
      {
        var next := Advance(existing, prev, at, bkt, i, before, whole);
        prev, at, i := existing, bkt, i + 1;
        existing := next;
      }
      BucketDone(before, whole, bkt, i, prev, at);
    }

    /**
     The loop of the clean-up: an entry is unlinked and freed once the loop stands on the next
     one, in the same bucket or a later one, so that no link is read out of a freed entry.  At
     the end just the last entry, if there was any, is still linked.
     */
    method Sweep() returns (prev: Entry?<V>, ghost at: nat)
      requires Valid()
      modifies this`lists, this`freed, buckets, made
      ensures Valid() && Trail(old(freed), old(lists), freed, lists, |lists|, 0, Maybe(prev), at)
    {
      prev, at := null, 0;
      ghost var before, whole := freed, lists;
      TrailStart(before, whole);
      assert |lists| == buckets.Length;
      hide *;
      var bkt := 0;
      while bkt < buckets.Length
        invariant bkt <= |lists| == buckets.Length
        invariant Valid() && Trail(before, whole, freed, lists, bkt, 0, Maybe(prev), at)
      {
        prev, at := SweepBucket(bkt, prev, at, before, whole);
        bkt := bkt + 1;
      }
    }

    /** The clean-up of the system calls, which unlinks the last entry without asking whether there is one. */
    method Cleanup()
      requires Valid() && !Empty()
      modifies this`lists, this`freed, buckets, made
      ensures Valid() && Empty() && freed == old(freed) + Flat(old(lists))
    {
      var prev, at := Sweep();
      TrailEnd(old(freed), old(lists), freed, lists, Maybe(prev), at);
      assert prev != null && at < |lists| && lists[at] == [prev];
      NextInChain(at, 0);
      hide Trail, Valid, Flat;
      Del(prev, at, 0);
      Free(prev);
    }

    /** The clean-up of the module, which also works on an empty table. */
    method CleanupAny()
      requires Valid()
      modifies this`lists, this`freed, buckets, made
      ensures Valid() && Empty() && freed == old(freed) + Flat(old(lists))
    {
      var prev, at := Sweep();
      TrailEnd(old(freed), old(lists), freed, lists, Maybe(prev), at);
      Drop(prev, at);
    }
  }
}
