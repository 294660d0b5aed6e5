/** Small shared types: options, results, bytes and sequence helpers. */
module Prelude {
  datatype Option<+T> = None | Some(value: T) {
    function GetOr(default: T): T {
      if Some? then value else default
    }
  }

  datatype Result<+T, +E> = Ok(value: T) | Err(error: E)

  type byte = x: int | 0 <= x < 256
  type Bytes = seq<byte>

  type Word = w: nat | w < 0x1_0000

  /** An unsigned 16-bit word from its two little-endian bytes. */
  function U16(lo: byte, hi: byte): (r: nat)
    ensures r < 0x1_0000
  {
    lo + 256 * hi
  }

  function Lo(n: nat): byte {
    n % 256
  }

  function Hi(n: nat): byte {
    n / 256 % 256
  }

  predicate Distinct<T(==)>(s: seq<T>) {
    forall i, j :: 0 <= i < j < |s| ==> s[i] != s[j]
  }

  // ----- first occurrences

  /** Each element where it first occurs. */
  function FirstOccurrences<T(==,!new)>(ids: seq<T>): (r: seq<T>)
    ensures forall id :: id in r <==> id in ids
    ensures Distinct(r)
  {
    if ids == [] then []
    else
      var n := |ids| - 1;
      var r := FirstOccurrences(ids[..n]);
      assert ids == ids[..n] + [ids[n]];
      if ids[n] in r then r else r + [ids[n]]
  }

  lemma OneMoreOccurrence<T(!new)>(ids: seq<T>, id: T)
    ensures FirstOccurrences(ids + [id]) ==
      var r := FirstOccurrences(ids); if id in r then r else r + [id]
  {
  }

  /** Their order is the order in which they first occur. */
  lemma {:induction false} FirstOccurrencesInOrder<T(!new)>(ids: seq<T>, i: nat, j: nat)
    requires i < j < |FirstOccurrences(ids)|
    ensures exists p :: 0 <= p < |ids| && ids[p] == FirstOccurrences(ids)[i] && FirstOccurrences(ids)[j] !in ids[..p + 1]
  {
    var n := |ids| - 1;
    var init := ids[..n];
    var r := FirstOccurrences(init);
    if j < |r| {
      FirstOccurrencesInOrder(init, i, j);
      var p :| 0 <= p < |init| && init[p] == r[i] && r[j] !in init[..p + 1];
      assert init[..p + 1] == ids[..p + 1];
    } else {
      assert r[i] in init;
      var p :| 0 <= p < |init| && init[p] == r[i];
      assert forall x :: x in ids[..p + 1] ==> x in init;
      assert ids[p] == r[i];
    }
  }

  // ----- a loop over the keys of a map, in any order

  /** The chosen entries among the keys done. */
  function Part<K, V>(chosen: map<K, V>, done: set<K>): map<K, V> {
    map k | k in chosen && k in done :: chosen[k]
  }

  /** What a loop over keys has written so far. */
  function Written<K, V>(into: map<K, V>, chosen: map<K, V>, done: set<K>): map<K, V> {
    into + Part(chosen, done)
  }

  lemma OneMoreCount<K>(chosen: set<K>, done: set<K>, key: K)
    requires key !in done
    ensures |chosen * (done + {key})| == |chosen * done| + if key in chosen then 1 else 0
  {
    if key in chosen {
      assert chosen * (done + {key}) == chosen * done + {key};
    } else {
      assert chosen * (done + {key}) == chosen * done;
    }
  }

  lemma OneMoreKey<K, V>(into: map<K, V>, chosen: map<K, V>, done: set<K>, key: K)
    ensures Written(into, chosen, done + {key}) ==
      if key in chosen then Written(into, chosen, done)[key := chosen[key]] else Written(into, chosen, done)
  {
  }

  lemma AllKeys<K, V>(into: map<K, V>, chosen: map<K, V>, done: set<K>)
    requires chosen.Keys <= done
    ensures Written(into, chosen, done) == into + chosen && chosen.Keys * done == chosen.Keys
  {
  }

  /** One more key is done. */
  lemma NextKey<K, V>(into: map<K, V>, chosen: map<K, V>, all: set<K>, left: set<K>, key: K)
    requires key in left && left <= all
    ensures Written(into, chosen, all - (left - {key})) ==
      if key in chosen then Written(into, chosen, all - left)[key := chosen[key]] else Written(into, chosen, all - left)
    ensures |chosen.Keys * (all - (left - {key}))| == |chosen.Keys * (all - left)| + if key in chosen then 1 else 0
    ensures |all - (left - {key})| == |all - left| + 1
  {
    assert all - (left - {key}) == (all - left) + {key};
    OneMoreKey(into, chosen, all - left, key);
    OneMoreCount(chosen.Keys, all - left, key);
  }

  lemma NoKeysYet<K, V>(into: map<K, V>, chosen: map<K, V>, all: set<K>)
    ensures Written(into, chosen, all - all) == into && |chosen.Keys * (all - all)| == 0 && |all - all| == 0
  {
  }
}
