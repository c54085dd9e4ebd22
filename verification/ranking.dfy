/** Counting by key and ranking by count, as the source does with plain
    objects used as accumulators: keys keep the order in which they were
    first seen, `reduce` with a strict `>` picks the maximum, and a stable
    sort orders by descending count. */
module Ranking {
  import opened Common
  import opened Model

  /** One thing counted: the key it is counted under, the amount it adds
      and the line item it came from. */
  datatype Obs = Obs(key: string, weight: int, item: LineItem)

  /** One key of an accumulator object: the running count and the first
      item seen under the key. */
  datatype Entry = Entry(key: string, count: int, first: LineItem)

  /** The result `reduce` starts from when picking a maximal key. */
  const NoKey: string := "none"

  /** The keys of a sequence of keyed records, in order: `Object.keys` of
      an accumulator, or the names a list of observations is counted under. */
  function Project<T>(x: seq<T>, key: T -> string): (r: seq<string>)
    ensures |r| == |x|
    ensures forall i :: 0 <= i < |x| ==> r[i] == key(x[i])
  {
    seq(|x|, i requires 0 <= i < |x| => key(x[i]))
  }

  function KeysOf(t: seq<Entry>): (r: seq<string>)
    ensures |r| == |t|
    ensures forall i :: 0 <= i < |t| ==> r[i] == t[i].key
  {
    Project(t, (e: Entry) => e.key)
  }

  function ObsKeys(obs: seq<Obs>): (r: seq<string>)
    ensures |r| == |obs|
    ensures forall i :: 0 <= i < |obs| ==> r[i] == obs[i].key
  {
    Project(obs, (o: Obs) => o.key)
  }

  ghost predicate DistinctKeys(t: seq<Entry>)
  {
    forall i, j :: 0 <= i < j < |t| ==> t[i].key != t[j].key
  }

  /** `counts[k]`: the count of the first entry under `k`, or `undefined`. */
  function Lookup(t: seq<Entry>, k: string): (r: Option<int>)
    ensures r.None? <==> k !in KeysOf(t)
    ensures r.Some? ==> exists i :: 0 <= i < |t| && t[i].key == k && r.value == t[i].count
  {
    if t == [] then None
    else if t[0].key == k then Some(t[0].count)
    else
      var r := Lookup(t[1..], k);
      assert KeysOf(t) == [t[0].key] + KeysOf(t[1..]);
      if r.Some? then
        var i :| 0 <= i < |t[1..]| && t[1..][i].key == k && r.value == t[1..][i].count;
        assert t[i + 1].key == k;
        r
      else r
  }

  /** With distinct keys, looking up an entry's key finds that entry. */
  lemma LookupDistinct(t: seq<Entry>, i: nat)
    requires DistinctKeys(t) && i < |t|
    ensures Lookup(t, t[i].key) == Some(t[i].count)
  {
    assert t[i].key in KeysOf(t);
  }

  /** `counts[o.key] = (counts[o.key] || 0) + o.weight`, remembering the
      first item when the key is new. */
  function Bump(t: seq<Entry>, o: Obs): (r: seq<Entry>)
    requires DistinctKeys(t)
    ensures DistinctKeys(r)
    ensures o.key in KeysOf(t) ==> |r| == |t| && KeysOf(r) == KeysOf(t)
    ensures o.key !in KeysOf(t) ==> KeysOf(r) == KeysOf(t) + [o.key]
    ensures o.key !in KeysOf(t) ==> |r| == |t| + 1 && r[|t|] == Entry(o.key, o.weight, o.item)
    ensures forall i :: 0 <= i < |t| ==>
      r[i] == if t[i].key == o.key then t[i].(count := t[i].count + o.weight) else t[i]
  {
    if o.key in KeysOf(t) then
      var r := seq(|t|, i requires 0 <= i < |t| =>
        if t[i].key == o.key then t[i].(count := t[i].count + o.weight) else t[i]);
      assert KeysOf(r) == KeysOf(t);
      r
    else
      var r := t + [Entry(o.key, o.weight, o.item)];
      assert KeysOf(r) == KeysOf(t) + [o.key];
      r
  }

  /** The accumulator object after counting every observation in turn. */
  function Tally(obs: seq<Obs>): (t: seq<Entry>)
    ensures DistinctKeys(t)
  {
    if obs == [] then [] else Bump(Tally(obs[..|obs| - 1]), obs[|obs| - 1])
  }

  /** Reference sum: the total weight of the observations under `k`. */
  function SumFor(obs: seq<Obs>, k: string): int
  {
    if obs == [] then 0
    else SumFor(obs[..|obs| - 1], k) + (if obs[|obs| - 1].key == k then obs[|obs| - 1].weight else 0)
  }

  /** The position of the first observation under `k`. */
  function FirstIndex(obs: seq<Obs>, k: string): (r: nat)
    requires k in ObsKeys(obs)
    ensures r < |obs| && obs[r].key == k
    ensures forall j :: 0 <= j < r ==> obs[j].key != k
  {
    if obs[0].key == k then 0
    else
      assert ObsKeys(obs) == [obs[0].key] + ObsKeys(obs[1..]);
      1 + FirstIndex(obs[1..], k)
  }

  /** The accumulator has one entry per distinct observed key. */
  ghost predicate SameKeys(t: seq<Entry>, obs: seq<Obs>)
  {
    forall k :: k in KeysOf(t) <==> k in ObsKeys(obs)
  }

  /** Each entry holds the summed weight of its key. */
  ghost predicate SummedCounts(t: seq<Entry>, obs: seq<Obs>)
  {
    forall i :: 0 <= i < |t| ==> t[i].count == SumFor(obs, t[i].key)
  }

  /** Each entry holds the first item observed under its key, and entries
      are in order of first appearance. */
  ghost predicate FirstSeenOrder(t: seq<Entry>, obs: seq<Obs>)
    requires SameKeys(t, obs)
  {
    && (forall i :: 0 <= i < |t| ==> t[i].key in KeysOf(t) && t[i].first == obs[FirstIndex(obs, t[i].key)].item)
    && (forall i, j :: 0 <= i < j < |t| ==>
          t[i].key in KeysOf(t) && t[j].key in KeysOf(t) && FirstIndex(obs, t[i].key) < FirstIndex(obs, t[j].key))
  }

  /** What the accumulator holds after counting `obs`. */
  ghost predicate TallyOf(t: seq<Entry>, obs: seq<Obs>)
  {
    DistinctKeys(t) && SameKeys(t, obs) && SummedCounts(t, obs) && FirstSeenOrder(t, obs)
  }

  lemma SumForSnoc(obs: seq<Obs>, o: Obs, k: string)
    ensures SumFor(obs + [o], k) == SumFor(obs, k) + (if o.key == k then o.weight else 0)
  {
    assert (obs + [o])[..|obs|] == obs;
  }

  lemma {:induction false} SumForAbsent(obs: seq<Obs>, k: string)
    requires k !in ObsKeys(obs)
    ensures SumFor(obs, k) == 0
    decreases |obs|
  {
    if obs != [] {
      var n := |obs| - 1;
      assert ObsKeys(obs[..n]) == ObsKeys(obs)[..n];
      SumForAbsent(obs[..n], k);
    }
  }

  lemma TallyStepCounts(t: seq<Entry>, pre: seq<Obs>, o: Obs)
    requires DistinctKeys(t) && SameKeys(t, pre) && SummedCounts(t, pre)
    ensures SummedCounts(Bump(t, o), pre + [o])
  {
    var t' := Bump(t, o);
    forall i | 0 <= i < |t'| ensures t'[i].count == SumFor(pre + [o], t'[i].key) {
      SumForSnoc(pre, o, t'[i].key);
      if i == |t| {
        assert o.key !in KeysOf(t);
        SumForAbsent(pre, o.key);
      }
    }
  }

  /** Where a key is first seen once one more observation is appended. */
  lemma FirstIndexSnoc(pre: seq<Obs>, o: Obs, k: string)
    requires k in ObsKeys(pre) || k == o.key
    ensures k in ObsKeys(pre + [o])
    ensures k in ObsKeys(pre) ==> FirstIndex(pre + [o], k) == FirstIndex(pre, k)
    ensures k !in ObsKeys(pre) ==> FirstIndex(pre + [o], k) == |pre|
  {
    var obs := pre + [o];
    assert obs[..|pre|] == pre;
    assert ObsKeys(obs) == ObsKeys(pre) + [o.key];
    if k in ObsKeys(pre) {
      FirstIndexPrefix(obs, |pre|, k);
    } else {
      assert forall g :: 0 <= g < |pre| ==> obs[g].key == ObsKeys(pre)[g] != k;
    }
  }

  lemma TallyStepKeys(t: seq<Entry>, pre: seq<Obs>, o: Obs)
    requires DistinctKeys(t) && SameKeys(t, pre)
    ensures SameKeys(Bump(t, o), pre + [o])
  {
    assert ObsKeys(pre + [o]) == ObsKeys(pre) + [o.key];
  }

  lemma TallyStepOrder(t: seq<Entry>, pre: seq<Obs>, o: Obs)
    requires DistinctKeys(t) && SameKeys(t, pre) && FirstSeenOrder(t, pre)
    ensures SameKeys(Bump(t, o), pre + [o])
    ensures FirstSeenOrder(Bump(t, o), pre + [o])
  {
    TallyStepKeys(t, pre, o);
    var t' := Bump(t, o);
    var obs := pre + [o];
    forall i | 0 <= i < |t'|
      ensures t'[i].key in KeysOf(t') && t'[i].first == obs[FirstIndex(obs, t'[i].key)].item
    {
      assert KeysOf(t')[i] == t'[i].key;
      if i < |t| {
        assert KeysOf(t)[i] == t[i].key;
        FirstIndexSnoc(pre, o, t[i].key);
      } else {
        FirstIndexSnoc(pre, o, o.key);
      }
    }
    forall i, j | 0 <= i < j < |t'|
      ensures t'[i].key in KeysOf(t') && t'[j].key in KeysOf(t')
      ensures FirstIndex(obs, t'[i].key) < FirstIndex(obs, t'[j].key)
    {
      assert KeysOf(t')[i] == t'[i].key && KeysOf(t')[j] == t'[j].key;
      assert KeysOf(t)[i] == t[i].key;
      FirstIndexSnoc(pre, o, t[i].key);
      if j < |t| {
        assert KeysOf(t)[j] == t[j].key;
        FirstIndexSnoc(pre, o, t[j].key);
      } else {
        FirstIndexSnoc(pre, o, o.key);
      }
    }
  }

  lemma {:induction false} TallyCorrect(obs: seq<Obs>)
    ensures TallyOf(Tally(obs), obs)
    decreases |obs|
  {
    if obs != [] {
      var n := |obs| - 1;
      TallyCorrect(obs[..n]);
      assert obs[..n] + [obs[n]] == obs;
      TallyStepCounts(Tally(obs[..n]), obs[..n], obs[n]);
      TallyStepOrder(Tally(obs[..n]), obs[..n], obs[n]);
    }
  }

  /** The first position of a key seen in a prefix does not move when the
      sequence grows. */
  lemma FirstIndexPrefix(obs: seq<Obs>, n: nat, k: string)
    requires n <= |obs| && k in ObsKeys(obs[..n])
    ensures k in ObsKeys(obs) && FirstIndex(obs, k) == FirstIndex(obs[..n], k)
  {
    var f := FirstIndex(obs[..n], k);
    assert obs[f].key == k;
    assert k in ObsKeys(obs);
    var g := FirstIndex(obs, k);
    assert !(g < f);
    assert !(f < g);
  }

  predicate Greater(a: Option<int>, b: Option<int>)
  {
    a.Some? && b.Some? && a.value > b.value
  }

  /** The reducer `(a, b) => counts[a] > counts[b] ? a : b`. */
  function Pick(t: seq<Entry>, a: string, b: string): string
  {
    if Greater(Lookup(t, a), Lookup(t, b)) then a else b
  }

  /** `Object.keys(counts).reduce((a, b) => counts[a] > counts[b] ? a : b, acc)`
      from the `i`-th key on. */
  function ReduceMax(t: seq<Entry>, acc: string, i: nat): string
    requires i <= |t|
    decreases |t| - i
  {
    if i == |t| then acc
    else ReduceMax(t, Pick(t, acc, t[i].key), i + 1)
  }

  /** The key `reduce` picks, starting from `"none"`. */
  function PickMax(t: seq<Entry>): string
  {
    ReduceMax(t, NoKey, 0)
  }

  /** `t[p]` has the greatest count, and every later entry a smaller one. */
  ghost predicate LastMaximum(t: seq<Entry>, p: int)
  {
    && 0 <= p < |t|
    && (forall j :: 0 <= j < |t| ==> t[j].count <= t[p].count)
    && (forall j :: p < j < |t| ==> t[j].count < t[p].count)
  }

  /** One step of `reduce` when the accumulator is the key of entry `q`. */
  lemma ReduceMaxStep(t: seq<Entry>, q: nat, i: nat)
    requires DistinctKeys(t) && q < |t| && i < |t|
    ensures Pick(t, t[q].key, t[i].key) == if t[q].count > t[i].count then t[q].key else t[i].key
  {
    LookupDistinct(t, q);
    LookupDistinct(t, i);
  }

  /** Entry `q` beats every entry before position `i`: none has a greater
      count, and those after `q` have a smaller one. */
  ghost predicate Leads(t: seq<Entry>, q: nat, i: nat)
    requires q < |t| && i <= |t|
  {
    forall j :: 0 <= j < i ==> t[j].count <= t[q].count && (q < j ==> t[j].count < t[q].count)
  }

  /** The loop invariant of `reduce`: the accumulator is the key of an
      entry that leads everything passed so far. The entry may lie ahead
      when the starting value happens to be a key. */
  lemma {:induction false} ReduceMaxInvariant(t: seq<Entry>, acc: string, i: nat, q: nat) returns (p: nat)
    requires DistinctKeys(t) && i <= |t| && q < |t| && acc == t[q].key
    requires Leads(t, q, i)
    ensures LastMaximum(t, p) && ReduceMax(t, acc, i) == t[p].key
    decreases |t| - i, 1
  {
    if i == |t| {
      p := q;
    } else if t[q].count > t[i].count {
      p := ReduceMaxKeep(t, q, i);
    } else {
      p := ReduceMaxSwitch(t, q, i);
    }
  }

  /** The accumulator stays when the next count is smaller. */
  lemma {:induction false} ReduceMaxKeep(t: seq<Entry>, q: nat, i: nat) returns (p: nat)
    requires DistinctKeys(t) && i < |t| && q < |t| && Leads(t, q, i)
    requires t[q].count > t[i].count
    ensures LastMaximum(t, p) && ReduceMax(t, t[q].key, i) == t[p].key
    decreases |t| - i, 0
  {
    ReduceMaxStep(t, q, i);
    p := ReduceMaxInvariant(t, t[q].key, i + 1, q);
  }

  /** The accumulator moves to the next key when its count is at least as
      large. */
  lemma {:induction false} ReduceMaxSwitch(t: seq<Entry>, q: nat, i: nat) returns (p: nat)
    requires DistinctKeys(t) && i < |t| && q < |t| && Leads(t, q, i)
    requires t[q].count <= t[i].count
    ensures LastMaximum(t, p) && ReduceMax(t, t[q].key, i) == t[p].key
    decreases |t| - i, 0
  {
    ReduceMaxStep(t, q, i);
    forall j | 0 <= j < i + 1 ensures t[j].count <= t[i].count {
      if j < i {
        assert t[j].count <= t[q].count;
      }
    }
    p := ReduceMaxInvariant(t, t[i].key, i + 1, i);
  }

  /** Picking the maximum: `"none"` exactly when there are no keys, and
      otherwise the key of the last entry with the greatest count. */
  lemma PickMaxCorrect(t: seq<Entry>)
    requires DistinctKeys(t)
    ensures t == [] ==> PickMax(t) == NoKey
    ensures t != [] ==> exists p :: LastMaximum(t, p) && PickMax(t) == t[p].key
  {
    if t != [] {
      var first := Lookup(t, NoKey);
      if first.Some? {
        var m :| 0 <= m < |t| && t[m].key == NoKey;
        var p := ReduceMaxInvariant(t, NoKey, 0, m);
      } else {
        LookupDistinct(t, 0);
        var p := ReduceMaxInvariant(t, t[0].key, 1, 0);
      }
    }
  }

  /** Picking the maximum of a tally, stated over the observations: `"none"`
      when there are none, and otherwise an observed key with the greatest
      summed weight, every key first seen after it having a smaller sum. */
  lemma PickMaxOfTally(obs: seq<Obs>)
    ensures obs == [] ==> PickMax(Tally(obs)) == NoKey
    ensures obs != [] ==>
      var r := PickMax(Tally(obs));
      && r in ObsKeys(obs)
      && (forall k :: k in ObsKeys(obs) ==> SumFor(obs, k) <= SumFor(obs, r))
      && (forall k :: k in ObsKeys(obs) && FirstIndex(obs, k) > FirstIndex(obs, r) ==>
            SumFor(obs, k) < SumFor(obs, r))
  {
    var t := Tally(obs);
    TallyCorrect(obs);
    PickMaxCorrect(t);
    if obs != [] {
      assert obs[0].key in ObsKeys(obs);
      assert obs[0].key in KeysOf(t);
      var p :| LastMaximum(t, p) && PickMax(t) == t[p].key;
      TallyMaximum(t, obs, p);
    }
  }

  /** The last maximal entry of a tally, read back over the observations. */
  lemma TallyMaximum(t: seq<Entry>, obs: seq<Obs>, p: nat)
    requires TallyOf(t, obs) && LastMaximum(t, p)
    ensures t[p].key in ObsKeys(obs)
    ensures forall k :: k in ObsKeys(obs) ==> SumFor(obs, k) <= SumFor(obs, t[p].key)
    ensures forall k :: k in ObsKeys(obs) && FirstIndex(obs, k) > FirstIndex(obs, t[p].key) ==>
      SumFor(obs, k) < SumFor(obs, t[p].key)
  {
    assert KeysOf(t)[p] == t[p].key;
    forall k | k in ObsKeys(obs)
      ensures SumFor(obs, k) <= SumFor(obs, t[p].key)
      ensures FirstIndex(obs, k) > FirstIndex(obs, t[p].key) ==> SumFor(obs, k) < SumFor(obs, t[p].key)
    {
      var j := EntryOf(t, obs, k);
      if FirstIndex(obs, k) > FirstIndex(obs, t[p].key) {
        assert p < j;
      }
    }
  }

  /** The position of an observed key's entry in its tally. */
  lemma EntryOf(t: seq<Entry>, obs: seq<Obs>, k: string) returns (j: nat)
    requires TallyOf(t, obs) && k in ObsKeys(obs)
    ensures j < |t| && t[j].key == k && t[j].count == SumFor(obs, k)
  {
    assert k in KeysOf(t);
    j :| 0 <= j < |t| && KeysOf(t)[j] == k;
  }

  /** Entry `a` goes before entry `b` in a stable descending sort: a larger
      count, or the same count and an earlier position. */
  predicate Before(c: seq<int>, a: int, b: int)
    requires 0 <= a < |c| && 0 <= b < |c|
  {
    c[a] > c[b] || (c[a] == c[b] && a < b)
  }

  /** `o` lists positions of `c` in the order a stable descending sort
      puts them. */
  ghost predicate Ranked(c: seq<int>, o: seq<nat>)
  {
    && (forall i :: 0 <= i < |o| ==> o[i] < |c|)
    && (forall i, j :: 0 <= i < j < |o| ==> Before(c, o[i], o[j]))
  }

  function Insert(c: seq<int>, x: nat, o: seq<nat>): (r: seq<nat>)
    requires x < |c| && Ranked(c, o)
    requires forall i :: 0 <= i < |o| ==> x < o[i]
    ensures Ranked(c, r)
    ensures |r| == |o| + 1
    ensures forall y :: y in r <==> y == x || y in o
  {
    if o == [] then [x]
    else if c[x] >= c[o[0]] then
      assert forall j :: 0 <= j < |o| ==> Before(c, x, o[j]) by {
        forall j | 0 <= j < |o| ensures Before(c, x, o[j]) {
          if j > 0 {
            assert Before(c, o[0], o[j]);
          }
        }
      }
      [x] + o
    else
      var rest := Insert(c, x, o[1..]);
      assert forall y :: y in rest ==> Before(c, o[0], y) by {
        forall y | y in rest ensures Before(c, o[0], y) {
          if y != x {
            var j :| 0 <= j < |o[1..]| && o[1..][j] == y;
            assert Before(c, o[0], o[j + 1]);
          }
        }
      }
      assert forall y :: y in o <==> y == o[0] || y in o[1..] by {
        assert o == [o[0]] + o[1..];
      }
      [o[0]] + rest
  }

  /** Insertion sort of the positions `k .. |c|-1`. */
  function SortFrom(c: seq<int>, k: nat): (o: seq<nat>)
    requires k <= |c|
    ensures Ranked(c, o)
    ensures |o| == |c| - k
    ensures forall y :: y in o <==> k <= y < |c|
    decreases |c| - k
  {
    if k == |c| then []
    else
      var o := SortFrom(c, k + 1);
      assert forall i :: 0 <= i < |o| ==> k < o[i] by {
        forall i | 0 <= i < |o| ensures k < o[i] {
          assert o[i] in o;
        }
      }
      Insert(c, k, o)
  }

  /** The order `sort((a, b) => b.count - a.count)` leaves the positions
      of `c` in: a permutation of every position, ranked. */
  function RankIndices(c: seq<int>): (o: seq<nat>)
    ensures Ranked(c, o)
    ensures |o| == |c|
    ensures forall y :: y in o <==> 0 <= y < |c|
  {
    SortFrom(c, 0)
  }

  /** A ranked permutation is unique, so any stable descending sort yields
      exactly `RankIndices`. */
  lemma {:induction false} RankedUnique(c: seq<int>, a: seq<nat>, b: seq<nat>)
    requires Ranked(c, a) && Ranked(c, b) && |a| == |b|
    requires forall y :: y in a <==> y in b
    ensures a == b
    decreases |a|
  {
    if a != [] {
      RankedHead(c, a);
      RankedHead(c, b);
      assert a[0] in a && b[0] in b;
      assert a[0] == b[0];
      RankedUnique(c, a[1..], b[1..]);
      assert a == [a[0]] + a[1..];
      assert b == [b[0]] + b[1..];
    }
  }

  /** The head of a ranked sequence goes before every other member, and
      the members after it are the others. */
  lemma RankedHead(c: seq<int>, o: seq<nat>)
    requires Ranked(c, o) && o != []
    ensures forall y :: y in o ==> y == o[0] || Before(c, o[0], y)
    ensures forall y :: y in o[1..] <==> y in o && y != o[0]
  {
    assert o == [o[0]] + o[1..];
    forall y | y in o[1..] ensures y != o[0] {
      var i :| 0 <= i < |o[1..]| && o[1..][i] == y;
      assert Before(c, o[0], o[i + 1]);
    }
  }

  function Counts(t: seq<Entry>): (r: seq<int>)
    ensures |r| == |t|
    ensures forall i :: 0 <= i < |t| ==> r[i] == t[i].count
  {
    seq(|t|, i requires 0 <= i < |t| => t[i].count)
  }

  /** The entries of `t` in the order a stable sort by descending count
      leaves them. */
  function SortByCount(t: seq<Entry>): (r: seq<Entry>)
    ensures |r| == |t|
    ensures forall i :: 0 <= i < |r| ==> r[i] == t[RankIndices(Counts(t))[i]]
  {
    var o := RankIndices(Counts(t));
    seq(|o|, i requires 0 <= i < |o| => t[o[i]])
  }

  /** The sorted entries are the original ones, by non-increasing count,
      entries of equal count in their original order. */
  lemma SortByCountCorrect(t: seq<Entry>)
    ensures forall e :: e in SortByCount(t) <==> e in t
    ensures forall i, j :: 0 <= i < j < |t| ==> SortByCount(t)[i].count >= SortByCount(t)[j].count
    ensures DistinctKeys(t) ==> DistinctKeys(SortByCount(t))
    ensures forall i, j :: 0 <= i < j < |t| && SortByCount(t)[i].count == SortByCount(t)[j].count ==>
      exists a, b :: 0 <= a < b < |t| && t[a] == SortByCount(t)[i] && t[b] == SortByCount(t)[j]
  {
    var c := Counts(t);
    var o := RankIndices(c);
    var r := SortByCount(t);
    forall e ensures e in r <==> e in t {
      if e in t {
        var a :| 0 <= a < |t| && t[a] == e;
        assert a in o;
        var i :| 0 <= i < |o| && o[i] == a;
        assert r[i] == e;
      }
    }
    forall i, j | 0 <= i < j < |t| ensures r[i].count >= r[j].count {
      assert Before(c, o[i], o[j]);
    }
    if DistinctKeys(t) {
      forall i, j | 0 <= i < j < |r| ensures r[i].key != r[j].key {
        assert Before(c, o[i], o[j]);
        assert o[i] != o[j];
      }
    }
    forall i, j | 0 <= i < j < |t| && r[i].count == r[j].count
      ensures exists a, b :: 0 <= a < b < |t| && t[a] == r[i] && t[b] == r[j]
    {
      assert Before(c, o[i], o[j]);
      assert t[o[i]] == r[i] && t[o[j]] == r[j];
    }
  }

  /** Every key in `u` was observed, and each entry's key was first
      observed before the key of any entry after it. */
  ghost predicate InFirstSeenOrder(u: seq<Entry>, obs: seq<Obs>)
  {
    forall i, j :: 0 <= i < j < |u| ==>
      u[i].key in ObsKeys(obs) && u[j].key in ObsKeys(obs) && FirstIndex(obs, u[i].key) < FirstIndex(obs, u[j].key)
  }

  /** The accumulator lists its keys in first-seen order. */
  lemma TallyInFirstSeenOrder(t: seq<Entry>, obs: seq<Obs>)
    requires TallyOf(t, obs)
    ensures InFirstSeenOrder(t, obs)
  {
  }

  /** Dropping entries keeps the rest in first-seen order. */
  lemma {:induction false} SubsequenceInFirstSeenOrder(u: seq<Entry>, t: seq<Entry>, obs: seq<Obs>)
    requires IsSubsequence(u, t) && InFirstSeenOrder(t, obs)
    ensures InFirstSeenOrder(u, obs)
    decreases |t|
  {
    if u != [] {
      assert t != [];
      var tail := t[1..];
      forall i, j | 0 <= i < j < |tail|
        ensures tail[i].key in ObsKeys(obs) && tail[j].key in ObsKeys(obs)
        ensures FirstIndex(obs, tail[i].key) < FirstIndex(obs, tail[j].key)
      {
        assert tail[i] == t[i + 1] && tail[j] == t[j + 1];
      }
      if u[0] == t[0] {
        SubsequenceInFirstSeenOrder(u[1..], tail, obs);
        SubsequenceMembers(u[1..], tail);
        forall i, j | 0 <= i < j < |u|
          ensures u[i].key in ObsKeys(obs) && u[j].key in ObsKeys(obs)
          ensures FirstIndex(obs, u[i].key) < FirstIndex(obs, u[j].key)
        {
          assert u[j] == u[1..][j - 1] && u[1..][j - 1] in u[1..];
          if i == 0 {
            var m :| 0 <= m < |tail| && tail[m] == u[j];
            assert t[m + 1] == u[j];
          } else {
            assert u[i] == u[1..][i - 1];
          }
        }
      } else {
        SubsequenceInFirstSeenOrder(u, tail, obs);
      }
    }
  }

  /** The stable sort of entries in first-seen order lists entries of
      equal count in first-seen order. */
  lemma SortedTiesFirstSeen(u: seq<Entry>, obs: seq<Obs>)
    requires InFirstSeenOrder(u, obs)
    ensures var s := SortByCount(u);
      forall i, j :: 0 <= i < j < |s| && s[i].count == s[j].count ==>
        s[i].key in ObsKeys(obs) && s[j].key in ObsKeys(obs) && FirstIndex(obs, s[i].key) < FirstIndex(obs, s[j].key)
  {
    var s := SortByCount(u);
    SortByCountCorrect(u);
    forall i, j | 0 <= i < j < |s| && s[i].count == s[j].count
      ensures s[i].key in ObsKeys(obs) && s[j].key in ObsKeys(obs)
      ensures FirstIndex(obs, s[i].key) < FirstIndex(obs, s[j].key)
    {
      var a, b :| 0 <= a < b < |u| && u[a] == s[i] && u[b] == s[j];
    }
  }

  /** An entry left out of a top-`n` cut of the stable sort counts less
      than each entry of the cut, or as much and first seen later. */
  lemma LeftOutRanksBelow(u: seq<Entry>, obs: seq<Obs>, r: seq<Entry>, e: Entry)
    requires InFirstSeenOrder(u, obs) && e in u
    requires |r| <= |SortByCount(u)| && r == SortByCount(u)[..|r|] && e.key !in KeysOf(r)
    ensures forall i :: 0 <= i < |r| ==>
      && e.count <= r[i].count
      && (e.count == r[i].count ==>
            r[i].key in ObsKeys(obs) && e.key in ObsKeys(obs) && FirstIndex(obs, r[i].key) < FirstIndex(obs, e.key))
  {
    var s := SortByCount(u);
    SortByCountCorrect(u);
    SortedTiesFirstSeen(u, obs);
    var p :| 0 <= p < |s| && s[p] == e;
    forall j | 0 <= j < |r| ensures s[j].key != e.key {
      assert KeysOf(r)[j] == s[j].key;
    }
    assert |r| <= p;
  }

  /** A top-`n` cut of the stable sort keeps the first-seen order of tied
      entries. */
  lemma PrefixTiesFirstSeen(u: seq<Entry>, obs: seq<Obs>, r: seq<Entry>)
    requires InFirstSeenOrder(u, obs)
    requires |r| <= |SortByCount(u)| && r == SortByCount(u)[..|r|]
    ensures forall i, j :: 0 <= i < j < |r| && r[i].count == r[j].count ==>
      r[i].key in ObsKeys(obs) && r[j].key in ObsKeys(obs) && FirstIndex(obs, r[i].key) < FirstIndex(obs, r[j].key)
  {
    var s := SortByCount(u);
    SortedTiesFirstSeen(u, obs);
    forall i, j | 0 <= i < j < |r| && r[i].count == r[j].count
      ensures r[i].key in ObsKeys(obs) && r[j].key in ObsKeys(obs)
      ensures FirstIndex(obs, r[i].key) < FirstIndex(obs, r[j].key)
    {
      assert r[i] == s[i] && r[j] == s[j];
    }
  }
}
