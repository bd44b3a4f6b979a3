/**
 Keeping one item for each key: the first of the highest-scored ones, at the place where the key was
 first met.

 Channel deduplication and scope resolution both do this in a loop, with a map from the key to the
 position in the result. `Deduped` is the specification of the result, `Indexed` of the map; `Add` is
 the step that both loops repeat.

 The score and the key are functions of the item.
 */
module BestByKey {

  /** The keys of `l`, each once, by first occurrence. */
  function KeysInOrder<T>(l: seq<T>, key: T -> string): seq<string> {
    if l == [] then []
    else
      var keys, last := KeysInOrder(l[..|l| - 1], key), key(l[|l| - 1]);
      if last in keys then keys else keys + [last]
  }

  predicate HasKey<T>(l: seq<T>, key: T -> string, k: string) {
    exists r :: 0 <= r < |l| && key(l[r]) == k
  }

  ghost predicate DistinctKeys<T>(l: seq<T>, key: T -> string) {
    forall i, j :: 0 <= i < j < |l| ==> key(l[i]) != key(l[j])
  }

  /** No item with the key of `l[p]` scores higher, and none before it scores as high. */
  ghost predicate BestAt<T>(l: seq<T>, key: T -> string, score: T -> real, p: int) {
    && 0 <= p < |l|
    && forall q :: 0 <= q < |l| && key(l[q]) == key(l[p]) ==>
         score(l[q]) <= score(l[p]) && (q < p ==> score(l[q]) < score(l[p]))
  }

  ghost predicate Best<T>(l: seq<T>, key: T -> string, score: T -> real, c: T) {
    exists p :: BestAt(l, key, score, p) && l[p] == c
  }

  /** `d` has one item for each key of `l`, in order of first occurrence, and it is the best one. */
  ghost predicate Deduped<T>(l: seq<T>, key: T -> string, score: T -> real, d: seq<T>) {
    && |d| == |KeysInOrder(l, key)|
    && forall i :: 0 <= i < |d| ==> key(d[i]) == KeysInOrder(l, key)[i] && Best(l, key, score, d[i])
  }

  /** `index` says where in `d` each key stands. */
  ghost predicate Indexed<T>(d: seq<T>, key: T -> string, index: map<string, nat>) {
    && (forall k :: k in index ==> index[k] < |d| && key(d[index[k]]) == k)
    && (forall i :: 0 <= i < |d| ==> key(d[i]) in index)
  }

  lemma HasKeyStep<T>(l: seq<T>, key: T -> string, c: T, k: string)
    ensures HasKey(l + [c], key, k) <==> HasKey(l, key, k) || key(c) == k
  {
    assert forall r :: 0 <= r < |l| ==> (l + [c])[r] == l[r];
    assert (l + [c])[|l|] == c;
  }

  lemma KeysStep<T>(l: seq<T>, key: T -> string, c: T)
    ensures KeysInOrder(l + [c], key) ==
            if key(c) in KeysInOrder(l, key) then KeysInOrder(l, key) else KeysInOrder(l, key) + [key(c)]
  {
    assert (l + [c])[..|l|] == l;
  }

  lemma {:induction false} KeysInOrderAre<T>(l: seq<T>, key: T -> string)
    ensures forall k :: k in KeysInOrder(l, key) <==> HasKey(l, key, k)
    ensures forall i, j :: 0 <= i < j < |KeysInOrder(l, key)| ==> KeysInOrder(l, key)[i] != KeysInOrder(l, key)[j]
  {
    if l != [] {
      var front := l[..|l| - 1];
      KeysInOrderAre(front, key);
      assert front + [l[|l| - 1]] == l;
      forall k ensures k in KeysInOrder(l, key) <==> HasKey(l, key, k) {
        HasKeyStep(front, key, l[|l| - 1], k);
      }
    }
  }

  /** A key that comes earlier in the result was met earlier in the input. */
  lemma {:induction false} KeysAreInOrderOfOccurrence<T>(l: seq<T>, key: T -> string, i: nat, j: nat)
    requires i < j < |KeysInOrder(l, key)|
    ensures exists p :: 0 <= p < |l| && key(l[p]) == KeysInOrder(l, key)[i] &&
              forall q :: 0 <= q <= p ==> key(l[q]) != KeysInOrder(l, key)[j]
  {
    var front, keys := l[..|l| - 1], KeysInOrder(l, key);
    KeysInOrderAre(front, key);
    if j < |KeysInOrder(front, key)| {
      KeysAreInOrderOfOccurrence(front, key, i, j);
      var p :| 0 <= p < |front| && key(front[p]) == keys[i] && forall q :: 0 <= q <= p ==> key(front[q]) != keys[j];
      assert forall q :: 0 <= q <= p ==> l[q] == front[q];
    } else {
      assert HasKey(front, key, keys[i]);
      var p :| 0 <= p < |front| && key(front[p]) == keys[i];
      forall q | 0 <= q <= p ensures key(l[q]) != keys[j] {
        assert key(front[q]) == key(l[q]) && HasKey(front, key, key(l[q]));
      }
    }
  }

  /** The result is determined by the input. */
  lemma DedupedIsUnique<T>(l: seq<T>, key: T -> string, score: T -> real, d: seq<T>, e: seq<T>)
    requires Deduped(l, key, score, d) && Deduped(l, key, score, e)
    ensures d == e && DistinctKeys(d, key)
  {
    KeysInOrderAre(l, key);
    forall i | 0 <= i < |d| ensures d[i] == e[i] {
      var p :| BestAt(l, key, score, p) && l[p] == d[i];
      var q :| BestAt(l, key, score, q) && l[q] == e[i];
      assert key(l[p]) == key(l[q]);
    }
  }

  /** Each input item is stood for by one with its key that scores no less. */
  lemma DedupedCovers<T>(l: seq<T>, key: T -> string, score: T -> real, d: seq<T>, c: T)
    requires Deduped(l, key, score, d) && c in l
    ensures exists i :: 0 <= i < |d| && key(d[i]) == key(c) && score(d[i]) >= score(c)
  {
    KeysInOrderAre(l, key);
    var q :| 0 <= q < |l| && l[q] == c;
    assert HasKey(l, key, key(c));
    var i :| 0 <= i < |d| && KeysInOrder(l, key)[i] == key(c);
    var p :| BestAt(l, key, score, p) && l[p] == d[i];
    assert key(l[q]) == key(l[p]);
  }

  /** The result is made of exactly the items that are best for their key. */
  lemma DedupedAre<T>(l: seq<T>, key: T -> string, score: T -> real, d: seq<T>)
    requires Deduped(l, key, score, d)
    ensures forall c :: c in d <==> Best(l, key, score, c)
  {
    KeysInOrderAre(l, key);
    forall c | Best(l, key, score, c) ensures c in d {
      var p :| BestAt(l, key, score, p) && l[p] == c;
      assert HasKey(l, key, key(c));
      var i :| 0 <= i < |d| && KeysInOrder(l, key)[i] == key(c);
      var q :| BestAt(l, key, score, q) && l[q] == d[i];
      assert key(l[p]) == key(l[q]);
    }
  }

  lemma NewItemIsBest<T>(l: seq<T>, key: T -> string, score: T -> real, c: T)
    requires forall q :: 0 <= q < |l| && key(l[q]) == key(c) ==> score(l[q]) < score(c)
    ensures Best(l + [c], key, score, c)
  {
    assert BestAt(l + [c], key, score, |l|);
  }

  lemma OldBestStays<T>(l: seq<T>, key: T -> string, score: T -> real, c: T, b: T)
    requires Best(l, key, score, b) && (key(c) == key(b) ==> score(c) <= score(b))
    ensures Best(l + [c], key, score, b)
  {
    var p :| BestAt(l, key, score, p) && l[p] == b;
    assert BestAt(l + [c], key, score, p) && (l + [c])[p] == b;
  }

  lemma BetterReplaces<T>(l: seq<T>, key: T -> string, score: T -> real, c: T, b: T)
    requires Best(l, key, score, b) && key(c) == key(b) && score(c) > score(b)
    ensures Best(l + [c], key, score, c)
  {
    var p :| BestAt(l, key, score, p) && l[p] == b;
    NewItemIsBest(l, key, score, c);
  }

  lemma {:induction false} FreshKey<T>(l: seq<T>, key: T -> string, score: T -> real, d: seq<T>, c: T)
    requires Deduped(l, key, score, d) && forall i :: 0 <= i < |d| ==> key(d[i]) != key(c)
    ensures Deduped(l + [c], key, score, d + [c])
  {
    hide Best;
    KeysInOrderAre(l, key);
    KeysStep(l, key, c);
    assert key(c) !in KeysInOrder(l, key);
    assert !HasKey(l, key, key(c));
    NewItemIsBest(l, key, score, c);
    forall i | 0 <= i < |d| ensures Best(l + [c], key, score, d[i]) { OldBestStays(l, key, score, c, d[i]); }
  }

  lemma {:induction false} SeenKey<T>(l: seq<T>, key: T -> string, score: T -> real, d: seq<T>, c: T, at: nat)
    requires Deduped(l, key, score, d) && at < |d| && key(d[at]) == key(c)
    ensures Deduped(l + [c], key, score, if score(c) > score(d[at]) then d[at := c] else d)
  {
    hide Best;
    KeysInOrderAre(l, key);
    KeysStep(l, key, c);
    assert KeysInOrder(l, key)[at] == key(c);
    if score(c) > score(d[at]) { BetterReplaces(l, key, score, c, d[at]); }
    forall i | 0 <= i < |d| && (i != at || score(c) <= score(d[at])) ensures Best(l + [c], key, score, d[i]) {
      OldBestStays(l, key, score, c, d[i]);
    }
  }

  lemma NothingSeen<T>(key: T -> string, score: T -> real)
    ensures Deduped([], key, score, []) && Indexed([], key, map[])
  {
  }

  /** The step that both loops repeat for each item. */
  method Add<T>(ghost l: seq<T>, key: T -> string, score: T -> real, d: seq<T>, index: map<string, nat>, item: T)
      returns (deduped: seq<T>, indexByKey: map<string, nat>)
    requires Deduped(l, key, score, d) && Indexed(d, key, index)
    ensures Deduped(l + [item], key, score, deduped) && Indexed(deduped, key, indexByKey)
  {
    hide Deduped, Best, KeysInOrder;
    deduped, indexByKey := d, index;
    if key(item) in index {
      var at := index[key(item)];
      SeenKey(l, key, score, d, item, at);
      if score(item) > score(d[at]) {
        deduped := d[at := item];
      }
      return;
    }
    FreshKey(l, key, score, d, item);
    indexByKey := index[key(item) := |d|];
    deduped := d + [item];
  }
}
