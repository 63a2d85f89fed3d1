/** A dictionary filled by a sequence of `d[k] = v` statements, performed in
    order: the shape of every loop of the CWE converters. */
module Assignments {

  /** `m` after the assignments `writes`, performed left to right. */
  function Assigned<K, V>(m: map<K, V>, writes: seq<(K, V)>): map<K, V>
    decreases |writes|
  {
    if writes == [] then m
    else
      var last := writes[|writes| - 1];
      Assigned(m, writes[..|writes| - 1])[last.0 := last.1]
  }

  /** One more assignment at the end. */
  lemma AssignedSnoc<K, V>(m: map<K, V>, writes: seq<(K, V)>, k: K, v: V)
    ensures Assigned(m, writes + [(k, v)]) == Assigned(m, writes)[k := v]
  {
    assert (writes + [(k, v)])[..|writes|] == writes;
  }

  /** The assignments of a prefix, and one more. */
  lemma AssignedPrefix<K, V>(m: map<K, V>, writes: seq<(K, V)>, i: nat)
    requires i < |writes|
    ensures Assigned(m, writes[..i + 1]) == Assigned(m, writes[..i])[writes[i].0 := writes[i].1]
  {
    assert writes[..i + 1] == writes[..i] + [writes[i]];
    AssignedSnoc(m, writes[..i], writes[i].0, writes[i].1);
  }

  /** The keys are the old ones and every key assigned. */
  lemma {:induction false} AssignedKeys<K, V>(m: map<K, V>, writes: seq<(K, V)>)
    ensures Assigned(m, writes).Keys == m.Keys + set p | p in writes :: p.0
    decreases |writes|
  {
    if writes != [] {
      var init := writes[..|writes| - 1];
      AssignedKeys(m, init);
      assert writes == init + [writes[|writes| - 1]];
    }
  }

  /** The last assignment to a key decides its value. */
  lemma {:induction false} AssignedLast<K, V>(m: map<K, V>, writes: seq<(K, V)>, i: nat)
    requires i < |writes|
    requires forall j | i < j < |writes| :: writes[j].0 != writes[i].0
    ensures writes[i].0 in Assigned(m, writes)
    ensures Assigned(m, writes)[writes[i].0] == writes[i].1
    decreases |writes|
  {
    if i < |writes| - 1 {
      AssignedLast(m, writes[..|writes| - 1], i);
    }
  }

  /** A key every assignment gives the same value ends with that value. */
  lemma {:induction false} AssignedAgreed<K, V>(m: map<K, V>, writes: seq<(K, V)>, k: K, v: V)
    requires (k, v) in writes
    requires forall p | p in writes && p.0 == k :: p.1 == v
    ensures k in Assigned(m, writes) && Assigned(m, writes)[k] == v
    decreases |writes|
  {
    var init := writes[..|writes| - 1];
    assert writes == init + [writes[|writes| - 1]];
    if writes[|writes| - 1].0 != k {
      AssignedAgreed(m, init, k, v);
    }
  }

  /** A key no assignment touches keeps its old state. */
  lemma {:induction false} AssignedUntouched<K, V>(m: map<K, V>, writes: seq<(K, V)>, k: K)
    requires forall p | p in writes :: p.0 != k
    ensures k in Assigned(m, writes) <==> k in m
    ensures k in m ==> Assigned(m, writes)[k] == m[k]
    decreases |writes|
  {
    if writes != [] {
      var init := writes[..|writes| - 1];
      assert writes == init + [writes[|writes| - 1]];
      AssignedUntouched(m, init, k);
    }
  }

  /** Every value is an old one or an assigned one. */
  lemma {:induction false} AssignedValues<K, V>(m: map<K, V>, writes: seq<(K, V)>)
    ensures Assigned(m, writes).Values <= m.Values + set p | p in writes :: p.1
    decreases |writes|
  {
    if writes != [] {
      var init := writes[..|writes| - 1];
      var last := writes[|writes| - 1];
      AssignedValues(m, init);
      assert writes == init + [last];
      forall v | v in Assigned(m, writes).Values
        ensures v in m.Values + set p | p in writes :: p.1
      {
        var k :| k in Assigned(m, writes) && Assigned(m, writes)[k] == v;
        if k != last.0 {
          assert Assigned(m, init)[k] == v;
          assert v in Assigned(m, init).Values;
          if v !in m.Values {
            var p :| p in init && p.1 == v;
            assert p in writes;
          }
        } else {
          assert last in writes;
        }
      }
    }
  }
}
