/** A map of bounded size that forgets the oldest insertion first. */
module LimitedCache {
  import opened Bytes

  ghost predicate Distinct<K>(ks: seq<K>) {
    forall i, j | 0 <= i < j < |ks| :: ks[i] != ks[j]
  }

  /** A queue without repeats, in the order its keys came in. */
  ghost predicate Queue<K>(ks: seq<K>, born: map<K, nat>, clock: nat) {
    && Distinct(ks)
    && (forall i | 0 <= i < |ks| :: ks[i] in born && born[ks[i]] < clock)
    && (forall i, j | 0 <= i < j < |ks| :: born[ks[i]] < born[ks[j]])
  }

  ghost predicate Older<K>(born: map<K, nat>, x: K, y: K) {
    x in born && y in born && born[x] < born[y]
  }

  function SetOf<K>(ks: seq<K>): set<K> {
    set k | k in ks
  }

  function Cut<T>(s: seq<T>, i: nat): (r: seq<T>)
    requires i < |s|
    ensures |r| == |s| - 1
    ensures forall j | 0 <= j < |r| :: r[j] == if j < i then s[j] else s[j + 1]
  {
    s[..i] + s[i + 1..]
  }

  lemma CutHead<T>(s: seq<T>)
    requires s != []
    ensures Cut(s, 0) == s[1..]
  {
  }

  lemma QueueCut<K>(ks: seq<K>, i: nat, born: map<K, nat>, clock: nat)
    requires i < |ks| && Queue(ks, born, clock)
    ensures Queue(Cut(ks, i), born, clock)
    ensures SetOf(Cut(ks, i)) == SetOf(ks) - {ks[i]}
  {
    var r := Cut(ks, i);
    forall k | k in ks && k != ks[i]
      ensures k in r
    {
      var j :| 0 <= j < |ks| && ks[j] == k;
      assert r[if j < i then j else j - 1] == k;
    }
  }

  lemma QueueSnoc<K>(ks: seq<K>, k: K, born: map<K, nat>, clock: nat)
    requires Queue(ks, born, clock) && k !in SetOf(ks)
    ensures Queue(ks + [k], born[k := clock], clock + 1)
    ensures SetOf(ks + [k]) == SetOf(ks) + {k}
  {
  }

  lemma HeadIsOldest<K>(ks: seq<K>, born: map<K, nat>, clock: nat, k: K)
    requires Queue(ks, born, clock) && k in SetOf(ks) && k != ks[0]
    ensures Older(born, ks[0], k)
  {
  }

  // --------------------------------- the reference: an association list, oldest first

  function Lookup<K(==), V>(es: seq<(K, V)>, k: K): Option<V> {
    if es == [] then None else if es[0].0 == k then Some(es[0].1) else Lookup(es[1..], k)
  }

  function Overwrite<K(==), V>(es: seq<(K, V)>, k: K, v: V): (r: seq<(K, V)>)
    ensures |r| == |es|
    ensures forall i | 0 <= i < |es| :: r[i] == if es[i].0 == k then (k, v) else es[i]
  {
    if es == [] then [] else [if es[0].0 == k then (k, v) else es[0]] + Overwrite(es[1..], k, v)
  }

  /** Overwrites in place; a new key goes to the end and pushes out the head of a full list. */
  function Put<K(==), V>(es: seq<(K, V)>, capacity: nat, k: K, v: V): seq<(K, V)> {
    if Lookup(es, k).Some? then Overwrite(es, k, v)
    else
      var longer := es + [(k, v)];
      if |longer| == capacity then longer[1..] else longer
  }

  function Drop<K(==), V>(es: seq<(K, V)>, k: K): seq<(K, V)> {
    if es == [] then [] else if es[0].0 == k then es[1..] else [es[0]] + Drop(es[1..], k)
  }

  lemma {:induction false} DropAt<K, V>(es: seq<(K, V)>, k: K, i: nat)
    requires i < |es| && es[i].0 == k && forall j | 0 <= j < i :: es[j].0 != k
    ensures Drop(es, k) == Cut(es, i)
    decreases |es|
  {
    if i > 0 {
      DropAt(es[1..], k, i - 1);
      assert es[..i] + es[i + 1..] == [es[0]] + (es[1..][..i - 1] + es[1..][i..]);
    }
  }

  ghost predicate Has<K, V>(es: seq<(K, V)>, k: K) {
    exists i | 0 <= i < |es| :: es[i].0 == k
  }

  lemma {:induction false} LookupHas<K, V>(es: seq<(K, V)>, k: K)
    ensures Lookup(es, k).Some? <==> Has(es, k)
    ensures Lookup(es, k).Some? ==> exists i | 0 <= i < |es| :: es[i] == (k, Lookup(es, k).value)
    decreases |es|
  {
    if es != [] {
      LookupHas(es[1..], k);
      forall i | 0 <= i < |es[1..]|
        ensures es[i + 1] == es[1..][i]
      {
      }
      if Has(es, k) && es[0].0 != k {
        var i :| 0 <= i < |es| && es[i].0 == k;
        assert es[1..][i - 1].0 == k;
      }
    }
  }

  // ------------------------------------------------- queue and map as such a list

  /** Queue and map together, as an association list. */
  function Pairs<K, V>(ks: seq<K>, m: map<K, V>): (es: seq<(K, V)>)
    requires SetOf(ks) <= m.Keys
    ensures |es| == |ks| && forall i | 0 <= i < |ks| :: ks[i] in m && es[i] == (ks[i], m[ks[i]])
  {
    assert forall i | 0 <= i < |ks| :: ks[i] in SetOf(ks);
    seq(|ks|, i requires 0 <= i < |ks| && ks[i] in m => (ks[i], m[ks[i]]))
  }

  lemma PairsSnoc<K, V>(ks: seq<K>, m: map<K, V>, k: K, v: V)
    requires SetOf(ks) <= m.Keys && k !in SetOf(ks)
    ensures SetOf(ks + [k]) <= m[k := v].Keys
    ensures Pairs(ks + [k], m[k := v]) == Pairs(ks, m) + [(k, v)]
  {
    assert forall i | 0 <= i < |ks| :: ks[i] in SetOf(ks);
  }

  lemma PairsCut<K, V>(ks: seq<K>, m: map<K, V>, i: nat)
    requires SetOf(ks) <= m.Keys && i < |ks| && SetOf(Cut(ks, i)) <= (m - {ks[i]}).Keys
    ensures Pairs(Cut(ks, i), m - {ks[i]}) == Cut(Pairs(ks, m), i)
  {
  }

  lemma PairsUpdate<K, V>(ks: seq<K>, m: map<K, V>, k: K, v: V)
    requires SetOf(ks) <= m.Keys && k in m
    ensures Pairs(ks, m[k := v]) == Overwrite(Pairs(ks, m), k, v)
  {
  }

  lemma PairsLookup<K, V>(ks: seq<K>, m: map<K, V>, k: K)
    requires SetOf(ks) == m.Keys
    ensures Lookup(Pairs(ks, m), k) == if k in m then Some(m[k]) else None
  {
    var es := Pairs(ks, m);
    LookupHas(es, k);
    if k in m {
      assert k in SetOf(ks);
      var i :| 0 <= i < |ks| && ks[i] == k;
      assert es[i].0 == k;
    }
    if Lookup(es, k).Some? {
      var i :| 0 <= i < |es| && es[i] == (k, Lookup(es, k).value);
      assert ks[i] == k;
    }
  }

  // ------------------------------------------------------------- the cache

  class LimitedCache<K(==), V> {
    const byDefault: V
    const firstGrowth: nat          // the storage a queue without any allocates at its first push
    var capacity: nat               // the queue's storage
    var entries: map<K, V>
    var oldest: seq<K>
    ghost var written: map<K, V>    // the last value ever written for each key
    ghost var born: map<K, nat>     // when each key last came in as a new one
    ghost var clock: nat

    /** Queue and map in step. */
    ghost predicate Sound()
      reads this`entries, this`oldest, this`written, this`born, this`clock
    {
      && Queue(oldest, born, clock)
      && entries.Keys == SetOf(oldest)
      && (forall k | k in entries :: k in written && written[k] == entries[k])
    }

    ghost predicate Valid()
      reads this
    {
      && firstGrowth >= 1
      && (if capacity == 0 then oldest == [] else |oldest| < capacity)
      && Sound()
    }

    /** The cache as an association list. */
    ghost function Contents(): (es: seq<(K, V)>)
      requires Sound()
      reads this
    {
      Pairs(oldest, entries)
    }

    /** The allocator gives at least what is requested. */
    constructor (requested: nat, granted: nat, firstGrowth: nat, byDefault: V)
      requires granted >= requested && firstGrowth >= 1
      ensures Valid() && Contents() == [] && capacity == granted
      ensures this.firstGrowth == firstGrowth && this.byDefault == byDefault
    {
      this.firstGrowth, this.byDefault := firstGrowth, byDefault;
      capacity, entries, oldest := granted, map[], [];
      written, born, clock := map[], map[], 0;
    }

    /** The storage the queue will have after one more push. */
    function Storage(): nat
      reads this
    {
      if capacity == 0 then firstGrowth else capacity
    }

    lemma Found(k: K)
      requires Sound()
      ensures Lookup(Contents(), k) == if k in entries then Some(entries[k]) else None
    {
      PairsLookup(oldest, entries, k);
    }

    method Get(k: K) returns (r: Option<V>)
      requires Valid()
      ensures r == Lookup(Contents(), k)
      ensures r.Some? ==> k in written && r.value == written[k]
    {
      PairsLookup(oldest, entries, k);
      r := if k in entries then Some(entries[k]) else None;
    }

    /** The occupied entry: the value changes, the place in the queue does not. */
    method Update(k: K, v: V)
      requires Valid() && k in entries
      modifies this`entries, this`written
      ensures Valid()
      ensures Contents() == Overwrite(old(Contents()), k, v)
      ensures written == old(written)[k := v] && entries.Keys == old(entries).Keys
    {
      hide Queue;
      hide SetOf;
      hide Overwrite;
      hide Pairs;
      PairsUpdate(oldest, entries, k, v);
      entries := entries[k := v];
      written := written[k := v];
    }

    method Push(k: K, v: V)
      requires Valid() && k !in entries
      modifies this
      ensures Sound() && capacity == old(Storage()) && |oldest| == |old(oldest)| + 1 <= capacity
      ensures Contents() == old(Contents()) + [(k, v)] && |oldest| == |Contents()|
      ensures written == old(written)[k := v] && entries.Keys == old(entries).Keys + {k}
      ensures forall x, y | x != k && y != k && Older(born, x, y) :: Older(old(born), x, y)
    {
      hide Queue;
      hide SetOf;
      hide Pairs;
      PairsSnoc(oldest, entries, k, v);
      QueueSnoc(oldest, k, born, clock);
      capacity := Storage();
      oldest := oldest + [k];
      entries := entries[k := v];
      written := written[k := v];
      born, clock := born[k := clock], clock + 1;
    }

    method Evict()
      requires Sound() && oldest != []
      modifies this`entries, this`oldest
      ensures Sound() && |oldest| == |old(oldest)| - 1
      ensures Contents() == old(Contents())[1..]
      ensures entries.Keys <= old(entries).Keys
      ensures forall x, y | x in old(entries) && x !in entries && y in old(entries) && y != x :: Older(born, x, y)
    {
      hide Queue;
      hide SetOf;
      hide Pairs;
      QueueCut(oldest, 0, born, clock);
      PairsCut(oldest, entries, 0);
      var head := oldest[0];
      forall y | y in entries && y != head
        ensures Older(born, head, y)
      {
        HeadIsOldest(oldest, born, clock, y);
      }
      CutHead(Pairs(oldest, entries));
      entries := entries - {head};
      oldest := Cut(oldest, 0);
    }

    /** The vacant entry: queued last, and the head goes when the queue is full. */
    method Append(k: K, v: V)
      requires Valid() && k !in entries
      modifies this
      ensures Valid() && capacity == old(Storage())
      ensures var longer := old(Contents()) + [(k, v)];
              Contents() == if |longer| == capacity then longer[1..] else longer
      ensures written == old(written)[k := v]
      ensures forall x | x in old(entries) && x !in entries ::
                forall y | y in old(entries) && y != x :: Older(old(born), x, y)
    {
      hide Sound;
      hide Contents;
      hide SetOf;
      hide Queue;
      Push(k, v);
      if capacity == |oldest| {
        Evict();
      }
    }

    method Insert(k: K, v: V)
      requires Valid()
      modifies this
      ensures Valid()
      ensures Contents() == Put(old(Contents()), old(Storage()), k, v)
      ensures capacity == if old(k in entries) then old(capacity) else old(Storage())
      ensures written == old(written)[k := v]
      ensures forall x | x in old(entries) && x != k && x !in entries ::
                forall y | y in old(entries) && y != x :: Older(old(born), x, y)
    {
      hide Sound;
      hide Contents;
      hide Lookup;
      hide Overwrite;
      Found(k);
      if k in entries {
        Update(k, v);
      } else {
        Append(k, v);
      }
    }

    method GetOrInsertDefaultAndEdit(k: K, edit: V -> V)
      requires Valid()
      modifies this
      ensures Valid()
      ensures var before := Lookup(old(Contents()), k);
              var v := edit(if before.Some? then before.value else byDefault);
              && Contents() == Put(old(Contents()), old(Storage()), k, v)
              && capacity == (if old(k in entries) then old(capacity) else old(Storage()))
              && written == old(written)[k := v]
    {
      hide Sound;
      hide Contents;
      hide Lookup;
      hide Overwrite;
      Found(k);
      if k in entries {
        Update(k, edit(entries[k]));
      } else {
        Append(k, edit(byDefault));
      }
    }

    method Position(k: K) returns (i: nat)
      requires k in SetOf(oldest)
      ensures i < |oldest| && oldest[i] == k && forall j | 0 <= j < i :: oldest[j] != k
    {
      i := 0;
      while oldest[i] != k
        invariant i < |oldest|
        invariant forall j | 0 <= j < i :: oldest[j] != k
        invariant k in oldest
        decreases |oldest| - i
      {
        i := i + 1;
      }
    }

    lemma DropAbsent(es: seq<(K, V)>, k: K)
      requires Lookup(es, k) == None
      ensures Drop(es, k) == es
      decreases |es|
    {
      if es != [] {
        DropAbsent(es[1..], k);
      }
    }

    method Remove(k: K) returns (r: Option<V>)
      requires Valid()
      modifies this`entries, this`oldest
      ensures Valid()
      ensures r == Lookup(old(Contents()), k)
      ensures Contents() == Drop(old(Contents()), k)
    {
      hide Queue;
      hide SetOf;
      hide Lookup;
      hide Drop;
      PairsLookup(oldest, entries, k);
      ghost var es := Pairs(oldest, entries);
      if k !in entries {
        DropAbsent(es, k);
        return None;
      }
      r := Some(entries[k]);
      var i := Position(k);
      DropAt(es, k, i);
      QueueCut(oldest, i, born, clock);
      PairsCut(oldest, entries, i);
      entries := entries - {k};
      oldest := Cut(oldest, i);
    }
  }
}
