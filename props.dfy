/**
 * Own properties of a JavaScript object, in enumeration order. Assigning
 * `obj[key] = value` keeps an existing key at its place and only replaces its
 * value; a new key is added at the end. Both JSON.parse and the encoder's
 * entry store (`this[schema] = values`) build objects this way.
 */
module Props {

  type Props<V> = seq<(string, V)>

  function Keys<V>(ps: Props<V>): (ks: seq<string>)
    ensures |ks| == |ps|
    ensures forall i :: 0 <= i < |ps| ==> ks[i] == ps[i].0
  {
    seq(|ps|, i requires 0 <= i < |ps| => ps[i].0)
  }

  function Values<V>(ps: Props<V>): (vs: seq<V>)
    ensures |vs| == |ps|
    ensures forall i :: 0 <= i < |ps| ==> vs[i] == ps[i].1
  {
    seq(|ps|, i requires 0 <= i < |ps| => ps[i].1)
  }

  /** Binds each key to the value at the same position. */
  function Zip<V>(ks: seq<string>, vs: seq<V>): (ps: Props<V>)
    requires |ks| == |vs|
    ensures Keys(ps) == ks && Values(ps) == vs
  {
    seq(|ks|, i requires 0 <= i < |ks| => (ks[i], vs[i]))
  }

  lemma KeysSnoc<V>(ps: Props<V>)
    requires ps != []
    ensures Keys(ps) == Keys(ps[..|ps| - 1]) + [ps[|ps| - 1].0]
  {
  }

  lemma PrefixOfPrefix<T>(s: seq<T>, n: nat, i: nat)
    requires i <= n <= |s|
    ensures s[..n][..i] == s[..i]
  {
  }

  lemma ZipKeysValues<V>(ps: Props<V>)
    ensures Zip(Keys(ps), Values(ps)) == ps
  {
  }

  predicate Distinct(ks: seq<string>) {
    forall i, j :: 0 <= i < j < |ks| ==> ks[i] != ks[j]
  }

  /** The position of k in ks. */
  function IndexOf(ks: seq<string>, k: string): (i: nat)
    requires k in ks
    ensures i < |ks| && ks[i] == k
  {
    if ks[0] == k then 0 else 1 + IndexOf(ks[1..], k)
  }

  /** `obj[key] = value`. */
  function Put<V>(ps: Props<V>, key: string, value: V): (r: Props<V>)
    requires Distinct(Keys(ps))
    ensures Distinct(Keys(r))
    ensures Keys(r) == if key in Keys(ps) then Keys(ps) else Keys(ps) + [key]
    ensures forall i :: 0 <= i < |ps| && ps[i].0 != key ==> r[i] == ps[i]
    ensures forall i :: 0 <= i < |r| && r[i].0 == key ==> r[i].1 == value
  {
    if key in Keys(ps) then
      var i := IndexOf(Keys(ps), key);
      var r := ps[i := (key, value)];
      assert Keys(r) == Keys(ps);
      r
    else
      var r := ps + [(key, value)];
      assert Keys(r) == Keys(ps) + [key];
      r
  }

  /** An object made by assigning the given pairs in order to an empty object. */
  function Assign<V>(pairs: seq<(string, V)>): (r: Props<V>)
    ensures Distinct(Keys(r)) && |r| <= |pairs|
  {
    if pairs == [] then []
    else
      var last := pairs[|pairs| - 1];
      Put(Assign(pairs[..|pairs| - 1]), last.0, last.1)
  }

  lemma AssignSnoc<V>(pairs: seq<(string, V)>, key: string, value: V)
    ensures Assign(pairs + [(key, value)]) == Put(Assign(pairs), key, value)
  {
    assert (pairs + [(key, value)])[..|pairs|] == pairs;
  }

  /** The keys of ks in order, each at its first occurrence, skipping those in done. */
  function FirstOccurrences(ks: seq<string>, done: set<string>): seq<string> {
    if ks == [] then []
    else if ks[0] in done then FirstOccurrences(ks[1..], done)
    else [ks[0]] + FirstOccurrences(ks[1..], done + {ks[0]})
  }

  lemma {:induction false} FirstOccurrencesSnoc(ks: seq<string>, k: string, done: set<string>)
    ensures FirstOccurrences(ks + [k], done) ==
      FirstOccurrences(ks, done) + (if k in done || k in ks then [] else [k])
    decreases |ks|
  {
    if ks == [] {
      assert ks + [k] == [k];
    } else {
      assert (ks + [k])[1..] == ks[1..] + [k];
      if ks[0] in done {
        FirstOccurrencesSnoc(ks[1..], k, done);
      } else {
        FirstOccurrencesSnoc(ks[1..], k, done + {ks[0]});
      }
    }
  }

  /**
   * The keys of an assigned object are the assigned keys, each once, in the
   * order of their first assignment.
   */
  lemma {:induction false} AssignKeys<V>(pairs: seq<(string, V)>)
    ensures Keys(Assign(pairs)) == FirstOccurrences(Keys(pairs), {})
    ensures forall k :: k in Keys(Assign(pairs)) <==> k in Keys(pairs)
    decreases |pairs|
  {
    if pairs != [] {
      var init, last := pairs[..|pairs| - 1], pairs[|pairs| - 1];
      AssignKeys(init);
      KeysSnoc(pairs);
      FirstOccurrencesSnoc(Keys(init), last.0, {});
    }
  }

  /** Assigning pairs whose keys are all different gives exactly those pairs, in order. */
  lemma {:induction false} AssignOfDistinct<V>(pairs: seq<(string, V)>)
    requires Distinct(Keys(pairs))
    ensures Assign(pairs) == pairs
    decreases |pairs|
  {
    if pairs != [] {
      var init, last := pairs[..|pairs| - 1], pairs[|pairs| - 1];
      assert Keys(init) == Keys(pairs)[..|pairs| - 1];
      AssignOfDistinct(init);
      assert last.0 !in Keys(init);
      assert init + [last] == pairs;
    }
  }

  /** pairs[j] is the last pair with its key. */
  predicate LastOfKey<V>(pairs: seq<(string, V)>, j: int) {
    0 <= j < |pairs| && forall j' :: j < j' < |pairs| ==> pairs[j'].0 != pairs[j].0
  }

  lemma LastOfKeyExtend<V>(pairs: seq<(string, V)>, j: nat)
    requires pairs != [] && LastOfKey(pairs[..|pairs| - 1], j)
    requires pairs[|pairs| - 1].0 != pairs[j].0
    ensures LastOfKey(pairs, j)
  {
    var init := pairs[..|pairs| - 1];
    forall j' | j < j' < |pairs| ensures pairs[j'].0 != pairs[j].0 {
      if j' < |init| {
        assert pairs[j'] == init[j'];
      }
    }
  }

  /** Every property of an assigned object holds the value of the last assignment to its key. */
  lemma {:induction false} AssignLastWins<V>(pairs: seq<(string, V)>, i: nat)
    requires i < |Assign(pairs)|
    ensures exists j :: LastOfKey(pairs, j) && pairs[j] == Assign(pairs)[i]
    decreases |pairs|
  {
    var n := |pairs| - 1;
    var init := pairs[..n];
    var a := Assign(init);
    var r := Assign(pairs);
    assert r == Put(a, pairs[n].0, pairs[n].1);
    if r[i].0 == pairs[n].0 {
      assert r[i] == pairs[n];
      assert LastOfKey(pairs, n);
    } else {
      assert r[i] == a[i];
      AssignLastWins(init, i);
      var j :| LastOfKey(init, j) && init[j] == a[i];
      LastOfKeyExtend(pairs, j);
    }
  }
}
