/** Expression objects: entries in order of first occurrence, with an index from comparison keys
    to positions. */
module ObjectValue {
  import opened Common

  /** How keys are compared: exactly, or by a folded form that ignores case. */
  datatype Policy = Policy(caseSensitive: bool, fold: string -> string)

  function Key(policy: Policy, key: string): string {
    if policy.caseSensitive then key else policy.fold(key)
  }

  datatype Obj<V> = Obj(entries: seq<(string, V)>, positions: map<string, nat>, policy: Policy)

  // ----- the linear scan

  /** The value of the last entry with an equivalent key. */
  function LastValue<V>(policy: Policy, given: seq<(string, V)>, lookup: string): Option<V> {
    if given == [] then None
    else
      var e := given[|given| - 1];
      if Key(policy, e.0) == lookup then Some(e.1) else LastValue(policy, given[..|given| - 1], lookup)
  }

  /** The keys as first spelled, in order of first occurrence. */
  function FirstSpellings<V>(policy: Policy, given: seq<(string, V)>): seq<string> {
    if given == [] then []
    else
      var before := FirstSpellings(policy, given[..|given| - 1]);
      var key := given[|given| - 1].0;
      if LastValue(policy, given[..|given| - 1], Key(policy, key)).Some? then before else before + [key]
  }

  ghost predicate Spelled(policy: Policy, spellings: seq<string>, lookup: string) {
    exists m :: 0 <= m < |spellings| && Key(policy, spellings[m]) == lookup
  }

  lemma SpelledMore(policy: Policy, spellings: seq<string>, key: string, lookup: string)
    ensures Spelled(policy, spellings + [key], lookup) <==>
              Spelled(policy, spellings, lookup) || Key(policy, key) == lookup
  {
    hide Key;
    var more := spellings + [key];
    if Spelled(policy, spellings, lookup) {
      var m :| 0 <= m < |spellings| && Key(policy, spellings[m]) == lookup;
      assert Key(policy, more[m]) == lookup;
    }
    assert more[|spellings|] == key;
  }

  /** A key is found exactly when one of the first spellings is equivalent to it. */
  lemma {:induction false} SpelledKeys<V>(policy: Policy, given: seq<(string, V)>, lookup: string)
    ensures LastValue(policy, given, lookup).Some? <==> Spelled(policy, FirstSpellings(policy, given), lookup)
    decreases |given|
  {
    hide Key;
    if given != [] {
      var front, key := given[..|given| - 1], given[|given| - 1].0;
      SpelledKeys(policy, front, lookup);
      SpelledMore(policy, FirstSpellings(policy, front), key, lookup);
      hide Spelled;
    }
  }

  // ----- the scan, by positions

  ghost predicate LastAt<V>(policy: Policy, given: seq<(string, V)>, lookup: string, i: nat) {
    && i < |given| && Key(policy, given[i].0) == lookup
    && forall j :: i < j < |given| ==> Key(policy, given[j].0) != lookup
  }

  /** The scan yields the value of the last entry with the key, if there is one. */
  lemma {:induction false} LastValueSays<V>(policy: Policy, given: seq<(string, V)>, lookup: string)
    ensures LastValue(policy, given, lookup).None? <==>
              forall i :: 0 <= i < |given| ==> Key(policy, given[i].0) != lookup
    ensures forall i: nat :: LastAt(policy, given, lookup, i) ==>
                               LastValue(policy, given, lookup) == Some(given[i].1)
    decreases |given|
  {
    hide Key;
    if given != [] {
      LastValueSays(policy, given[..|given| - 1], lookup);
      forall i: nat | LastAt(policy, given, lookup, i) && i < |given| - 1
        ensures LastAt(policy, given[..|given| - 1], lookup, i)
      {
      }
    }
  }

  /** Entry `i` is the first with its key. */
  ghost predicate FirstAt<V>(policy: Policy, given: seq<(string, V)>, i: nat) {
    && i < |given|
    && forall j :: 0 <= j < i ==> Key(policy, given[j].0) != Key(policy, given[i].0)
  }

  /** `at` are the positions of the first entries of their keys, in order. */
  ghost predicate Firsts<V>(policy: Policy, given: seq<(string, V)>, at: seq<nat>) {
    && (forall k :: 0 <= k < |at| ==> FirstAt(policy, given, at[k]))
    && (forall k, l :: 0 <= k < l < |at| ==> at[k] < at[l])
    && forall i: nat :: FirstAt(policy, given, i) ==> i in at
  }

  lemma FirstsMore<V>(policy: Policy, given: seq<(string, V)>, front: seq<nat>) returns (at: seq<nat>)
    requires given != [] && Firsts(policy, given[..|given| - 1], front)
    ensures at == if FirstAt(policy, given, |given| - 1) then front + [|given| - 1] else front
    ensures Firsts(policy, given, at)
  {
    FirstsBefore(policy, given);
    hide FirstAt;
    var n := |given| - 1;
    at := if FirstAt(policy, given, n) then front + [n] else front;
    InRange(policy, given);
    InRange(policy, given[..n]);
    assert forall k :: 0 <= k < |front| ==> at[k] == front[k];
    forall i: nat | FirstAt(policy, given, i)
      ensures i in at
    {
      if i == n {
        assert at[|front|] == n;
      } else {
        assert i in front;
      }
    }
  }

  lemma InRange<V>(policy: Policy, given: seq<(string, V)>)
    ensures forall i: nat :: FirstAt(policy, given, i) ==> i < |given|
  {
  }

  lemma {:induction false} FirstSpellingsSay<V>(policy: Policy, given: seq<(string, V)>) returns (at: seq<nat>)
    ensures Firsts(policy, given, at) && |FirstSpellings(policy, given)| == |at|
    ensures forall k :: 0 <= k < |at| ==> at[k] < |given| && FirstSpellings(policy, given)[k] == given[at[k]].0
    decreases |given|
  {
    if given == [] {
      return [];
    }
    hide Key, Firsts;
    var n := |given| - 1;
    var front := FirstSpellingsSay(policy, given[..n]);
    LastValueSays(policy, given[..n], Key(policy, given[n].0));
    at := FirstsMore(policy, given, front);
    assert forall j :: 0 <= j < n ==> given[..n][j] == given[j];
    assert forall k :: 0 <= k < |front| ==> at[k] == front[k];
  }

  lemma FirstsBefore<V>(policy: Policy, given: seq<(string, V)>)
    requires given != []
    ensures forall i: nat :: i < |given| - 1 ==>
                               (FirstAt(policy, given, i) <==> FirstAt(policy, given[..|given| - 1], i))
  {
    hide Key;
    var n := |given| - 1;
    forall i: nat | i < n
      ensures FirstAt(policy, given, i) <==> FirstAt(policy, given[..n], i)
    {
      assert forall j :: 0 <= j < n ==> given[..n][j] == given[j];
    }
  }

  // ----- the indexed object

  /** The object stands for the list `given`: its keys are the first spellings, its values the
      last ones, and the index knows each key's only position. */
  ghost predicate Represents<V(!new)>(o: Obj<V>, given: seq<(string, V)>) {
    var spellings := FirstSpellings(o.policy, given);
    && |o.entries| == |spellings|
    && (forall m :: 0 <= m < |spellings| ==>
          && o.entries[m].0 == spellings[m]
          && LastValue(o.policy, given, Key(o.policy, spellings[m])) == Some(o.entries[m].1)
          && Key(o.policy, spellings[m]) in o.positions && o.positions[Key(o.policy, spellings[m])] == m)
    && (forall k :: k in o.positions ==> o.positions[k] < |spellings| && Key(o.policy, spellings[o.positions[k]]) == k)
  }

  function Appended<V>(o: Obj<V>, lookup: string, key: string, value: V): Obj<V> {
    o.(positions := o.positions[lookup := |o.entries|], entries := o.entries + [(key, value)])
  }

  lemma ReplaceValue<V(!new)>(o: Obj<V>, given: seq<(string, V)>, key: string, value: V)
    requires Represents(o, given) && Key(o.policy, key) in o.positions
    ensures var at := o.positions[Key(o.policy, key)];
            && at < |o.entries|
            && Represents(o.(entries := o.entries[at := (o.entries[at].0, value)]), given + [(key, value)])
  {
    hide Key;
    var more := given + [(key, value)];
    assert more[..|given|] == given;
    SpelledKeys(o.policy, given, Key(o.policy, key));
  }

  lemma AddEntry<V(!new)>(o: Obj<V>, given: seq<(string, V)>, key: string, value: V)
    requires Represents(o, given) && Key(o.policy, key) !in o.positions
    ensures Represents(Appended(o, Key(o.policy, key), key, value), given + [(key, value)])
  {
    hide Key;
    var more := given + [(key, value)];
    assert more[..|given|] == given;
    SpelledKeys(o.policy, given, Key(o.policy, key));
  }

  /** Builds the object.  `repaired` says whether the branch that repairs the index was taken: it
      never is. */
  method New<V(!new)>(given: seq<(string, V)>, policy: Policy) returns (o: Obj<V>, repaired: bool)
    ensures Represents(o, given) && o.policy == policy && !repaired
  {
    hide Key, Represents;
    o := Obj([], map[], policy);
    repaired := false;
    NothingRepresented(o);
    for i := 0 to |given|
      invariant Represents(o, given[..i]) && o.policy == policy && !repaired
    {
      var (key, value) := given[i];
      var lookup := Key(policy, key);
      assert given[..i + 1] == given[..i] + [(key, value)];
      if lookup in o.positions {
        ReplaceValue(o, given[..i], key, value);
        var at := o.positions[lookup];
        if at < |o.entries| {
          o := o.(entries := o.entries[at := (o.entries[at].0, value)]);
        } else {
          o := Appended(o, lookup, key, value);
          repaired := true;
        }
      } else {
        AddEntry(o, given[..i], key, value);
        o := Appended(o, lookup, key, value);
      }
    }
    assert given[..|given|] == given;
  }

  lemma NothingRepresented<V(!new)>(o: Obj<V>)
    requires o.entries == [] && o.positions == map[]
    ensures Represents(o, [])
  {
  }

  function Get<V>(o: Obj<V>, key: string): Option<V> {
    var lookup := Key(o.policy, key);
    if lookup in o.positions && o.positions[lookup] < |o.entries| then Some(o.entries[o.positions[lookup]].1) else None
  }

  /** A lookup is the linear scan for the last equivalent key. */
  lemma GetIsLinearScan<V(!new)>(o: Obj<V>, given: seq<(string, V)>, key: string)
    requires Represents(o, given)
    ensures Get(o, key) == LastValue(o.policy, given, Key(o.policy, key))
  {
    hide Key;
    SpelledKeys(o.policy, given, Key(o.policy, key));
  }

  /** Iteration shows each key once, as first spelled, in order of first occurrence, with its
      last value; and nothing else represents the list. */
  lemma IterationIsDetermined<V(!new)>(o: Obj<V>, p: Obj<V>, given: seq<(string, V)>)
    requires Represents(o, given) && Represents(p, given) && o.policy == p.policy
    ensures o.entries == p.entries
    ensures forall i, j :: 0 <= i < j < |o.entries| ==> Key(o.policy, o.entries[i].0) != Key(o.policy, o.entries[j].0)
  {
    hide Key;
    var spellings := FirstSpellings(o.policy, given);
    forall m | 0 <= m < |spellings|
      ensures o.entries[m] == p.entries[m]
    {
      assert o.entries[m].0 == spellings[m] && p.entries[m].0 == spellings[m];
    }
  }
}
