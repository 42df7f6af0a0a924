/** The resolution of `vars.NAME`, by positions in its inputs: which assignment counts, which spelling
    is reported, and when the whole succeeds. */
module VarsLaws {
  import opened Common
  import opened Names
  import opened Digraph
  import opened Vars
  import Dotenv

  // ----- names

  /** A canonical name has the capitals of the letters. */
  lemma {:induction false} CanonicalSays(name: string)
    ensures |Canonical(name)| == |name|
    ensures forall i :: 0 <= i < |name| ==> Canonical(name)[i] == Dotenv.Upper(name[i])
  {
    if name != "" {
      CanonicalSays(name[1..]);
    }
  }

  ghost predicate IsName(spelling: string, name: string) {
    Canonical(spelling) == name
  }

  // ----- assignments

  /** Entry `i` is the last assignment to `name`. */
  ghost predicate LastAt(entries: Entries, name: string, i: nat) {
    && i < |entries| && IsName(entries[i].0, name)
    && forall j :: i < j < |entries| ==> !IsName(entries[j].0, name)
  }

  ghost predicate Assigned(entries: Entries, name: string) {
    exists i :: 0 <= i < |entries| && IsName(entries[i].0, name)
  }

  lemma {:induction false} LastSays(entries: Entries, name: string)
    ensures Last(entries, name).Some? <==> Assigned(entries, name)
    ensures forall i: nat :: LastAt(entries, name, i) ==> Last(entries, name) == Some(entries[i].1)
    decreases |entries|
  {
    hide Canonical;
    if entries != [] {
      var n := |entries| - 1;
      LastSays(entries[..n], name);
      if Assigned(entries[..n], name) {
        var i :| 0 <= i < n && IsName(entries[..n][i].0, name);
        assert IsName(entries[i].0, name);
      }
      forall i: nat | LastAt(entries, name, i) && i < n
        ensures LastAt(entries[..n], name, i)
      {
      }
      if Assigned(entries, name) && !IsName(entries[n].0, name) {
        var i :| 0 <= i < |entries| && IsName(entries[i].0, name);
        assert entries[..n][i] == entries[i];
      }
    }
  }

  // ----- the environment

  /** `at` are the positions of the variables called `name`, in order. */
  ghost predicate Called(env: Environment, name: string, at: seq<nat>) {
    && (forall k :: 0 <= k < |at| ==> at[k] < |env| && IsName(env[at[k]].0, name))
    && (forall k, l :: 0 <= k < l < |at| ==> at[k] < at[l])
    && forall i :: 0 <= i < |env| && IsName(env[i].0, name) ==> i in at
  }

  lemma CalledMore(env: Environment, name: string, front: seq<nat>) returns (at: seq<nat>)
    requires env != [] && Called(env[..|env| - 1], name, front)
    ensures at == if IsName(env[|env| - 1].0, name) then front + [|env| - 1] else front
    ensures Called(env, name, at)
  {
    hide IsName;
    var n := |env| - 1;
    if !IsName(env[n].0, name) {
      return front;
    }
    at := front + [n];
    forall i | 0 <= i < |env| && IsName(env[i].0, name)
      ensures i in at
    {
      if i == n {
        assert at[|front|] == n;
      } else {
        assert env[..n][i] == env[i];
        assert i in front;
      }
    }
  }

  lemma {:induction false} MatchingSays(env: Environment, name: string) returns (at: seq<nat>)
    ensures Called(env, name, at) && |Matching(env, name)| == |at|
    ensures forall k :: 0 <= k < |at| ==> at[k] < |env| && Matching(env, name)[k] == env[at[k]]
    decreases |env|
  {
    if env == [] {
      return [];
    }
    hide Canonical, Called, Matching;
    var n := |env| - 1;
    var front := MatchingSays(env[..n], name);
    at := CalledMore(env, name, front);
    MatchingStep(env, name);
    forall k | 0 <= k < |at|
      ensures at[k] < |env| && Matching(env, name)[k] == env[at[k]]
    {
      if k < |front| {
        assert at[k] == front[k];
      }
    }
  }

  lemma MatchingStep(env: Environment, name: string)
    requires env != []
    ensures var n := |env| - 1;
            Matching(env, name) == Matching(env[..n], name) + if IsName(env[n].0, name) then [env[n]] else []
  {
  }

  function NamesAt(env: Environment, at: seq<nat>): (r: seq<string>)
    requires forall k :: 0 <= k < |at| ==> at[k] < |env|
    ensures |r| == |at| && forall k :: 0 <= k < |at| ==> r[k] == env[at[k]].0
  {
    seq(|at|, k requires 0 <= k < |at| => env[at[k]].0)
  }

  lemma {:induction false} SpellingsAre(found: Environment)
    ensures |Spellings(found)| == |found| && forall k :: 0 <= k < |found| ==> Spellings(found)[k] == found[k].0
  {
    if found != [] {
      SpellingsAre(found[1..]);
    }
  }

  lemma {:induction false} SpellingBag(a: Environment, b: Environment)
    requires multiset(a) == multiset(b)
    ensures multiset(Spellings(a)) == multiset(Spellings(b))
    decreases |a|
  {
    hide Spellings;
    if a == [] {
      EmptyBag(b);
    } else {
      var rest := a[1..];
      var i := InBag(a, b);
      var less := b[..i] + b[i + 1..];
      TakenOut(a, 0);
      assert a[..0] + a[1..] == rest;
      TakenOut(b, i);
      Cancel(multiset(rest), multiset(less), a[0]);
      SpellingBag(rest, less);
    }
  }

  lemma EmptyBag(b: Environment)
    requires multiset(b) == multiset{}
    ensures b == []
  {
    assert |multiset(b)| == |b|;
  }

  lemma InBag(a: Environment, b: Environment) returns (i: nat)
    requires a != [] && multiset(a) == multiset(b)
    ensures i < |b| && b[i] == a[0]
  {
    assert a[0] in multiset(a);
    assert a[0] in b;
    i :| 0 <= i < |b| && b[i] == a[0];
  }

  lemma Cancel<T>(a: multiset<T>, b: multiset<T>, x: T)
    requires a + multiset{x} == b + multiset{x}
    ensures a == b
  {
    assert a == a + multiset{x} - multiset{x};
    assert b == b + multiset{x} - multiset{x};
  }

  lemma TakenOut(b: Environment, i: nat)
    requires i < |b|
    ensures var less := b[..i] + b[i + 1..];
            && multiset(b) == multiset(less) + multiset{b[i]}
            && multiset(Spellings(b)) == multiset(Spellings(less)) + multiset{b[i].0}
  {
    hide Spellings;
    var front, back := b[..i], b[i + 1..];
    assert b == front + ([b[i]] + back);
    SpellingsJoin(front, [b[i]] + back);
    SpellingsJoin([b[i]], back);
    SpellingsJoin(front, back);
    SpellingsAre([b[i]]);
    assert Spellings([b[i]]) == [b[i].0];
  }

  lemma {:induction false} SpellingsJoin(a: Environment, b: Environment)
    ensures Spellings(a + b) == Spellings(a) + Spellings(b)
  {
    if a == [] {
      assert a + b == b;
    } else {
      SpellingsJoin(a[1..], b);
      assert (a + b)[1..] == a[1..] + b;
    }
  }

  /** The first of command line, environment and dotenv list that has the name decides.  In the
      environment it must not occur twice, and must be Unicode. */
  lemma LookupSays(src: Sources, name: string) returns (at: seq<nat>)
    ensures Called(src.env, name, at)
    ensures forall i: nat :: LastAt(src.cli, name, i) ==> Lookup(src, name) == Value(src.cli[i].1)
    ensures !Assigned(src.cli, name) && |at| == 1 ==>
              Lookup(src, name) == match src.env[at[0]].1
                                   case Some(v) => Value(v)
                                   case None => NonUnicode(src.env[at[0]].0)
    ensures !Assigned(src.cli, name) && |at| > 1 ==>
              && Lookup(src, name).Ambiguous?
              && multiset(Lookup(src, name).spellings) == multiset(NamesAt(src.env, at))
              && SortedBy(Lookup(src, name).spellings, (s: string) => s)
    ensures !Assigned(src.cli, name) && at == [] ==>
              && (forall i: nat :: LastAt(src.dotenv, name, i) ==> Lookup(src, name) == Value(src.dotenv[i].1))
              && (!Assigned(src.dotenv, name) ==> Lookup(src, name) == Missing)
  {
    hide Canonical, Last, Matching, Assigned, LastAt;
    LastSays(src.cli, name);
    LastSays(src.dotenv, name);
    CliAssigned(src.cli, name);
    at := MatchingSays(src.env, name);
    if |at| > 1 {
      var found := Matching(src.env, name);
      AmbiguousSays(found, NamesAt(src.env, at));
    }
  }

  lemma CliAssigned(entries: Entries, name: string)
    ensures forall i: nat :: LastAt(entries, name, i) ==> Assigned(entries, name)
  {
  }

  lemma AmbiguousSays(found: Environment, names: seq<string>)
    requires |found| > 1 && |names| == |found| && forall k :: 0 <= k < |found| ==> found[k].0 == names[k]
    ensures multiset(Judge(found).spellings) == multiset(names)
    ensures SortedBy(Judge(found).spellings, (s: string) => s)
  {
    hide Sort;
    var sorted := Sort(found, Spelling);
    SpellingBag(sorted, found);
    SpellingsAre(found);
    SpellingsAre(sorted);
    assert Spellings(found) == names;
    SortMembers(found, Spelling);
    var spelled := Spellings(sorted);
    forall i, j | 0 <= i < j < |spelled|
      ensures Leq(spelled[i], spelled[j])
    {
      assert Leq(Spelling(sorted[i]), Spelling(sorted[j]));
    }
  }

  // ----- the names the workflow uses

  /** Use `i` is the first acceptable spelling of `name`. */
  ghost predicate FirstSpelled(vars: seq<(string, seq<Span>)>, name: string, i: nat) {
    && i < |vars| && Acceptable(vars[i].0) && IsName(vars[i].0, name)
    && forall j :: 0 <= j < i ==> !(Acceptable(vars[j].0) && IsName(vars[j].0, name))
  }

  ghost predicate Acceptable(name: string) {
    Dotenv.ConfigurationName(name).None?
  }

  ghost predicate Used(vars: seq<(string, seq<Span>)>, name: string) {
    exists i :: 0 <= i < |vars| && Acceptable(vars[i].0) && IsName(vars[i].0, name)
  }

  lemma {:induction false} LiteralSays(vars: seq<(string, seq<Span>)>, name: string)
    ensures Literal(vars, name).Some? <==> Used(vars, name)
    ensures forall i: nat :: FirstSpelled(vars, name, i) ==>
              Literal(vars, name) == Some((vars[i].0, if vars[i].1 == [] then None else Some(vars[i].1[0])))
    decreases |vars|
  {
    hide Canonical, Dotenv.ConfigurationName;
    if vars != [] {
      var n := |vars| - 1;
      LiteralSays(vars[..n], name);
      UsedBefore(vars, name);
      forall i: nat | FirstSpelled(vars, name, i)
        ensures i < n ==> FirstSpelled(vars[..n], name, i)
        ensures i == n ==> !Used(vars[..n], name)
      {
        assert forall j :: 0 <= j < n ==> vars[..n][j] == vars[j];
      }
    }
  }

  lemma UsedBefore(vars: seq<(string, seq<Span>)>, name: string)
    requires vars != []
    ensures var n := |vars| - 1;
            Used(vars, name) <==> Used(vars[..n], name) || (Acceptable(vars[n].0) && IsName(vars[n].0, name))
  {
    hide Canonical, Dotenv.ConfigurationName;
    var n := |vars| - 1;
    if Used(vars[..n], name) {
      var i :| 0 <= i < n && Acceptable(vars[..n][i].0) && IsName(vars[..n][i].0, name);
      assert Acceptable(vars[i].0) && IsName(vars[i].0, name);
    }
    if i :| 0 <= i < |vars| && Acceptable(vars[i].0) && IsName(vars[i].0, name) && i < n {
      assert vars[..n][i] == vars[i];
    }
  }

  /** `at` are the unacceptable uses, in order. */
  ghost predicate Refused(vars: seq<(string, seq<Span>)>, at: seq<nat>) {
    && (forall k :: 0 <= k < |at| ==> at[k] < |vars| && !Acceptable(vars[at[k]].0) && vars[at[k]].1 != [])
    && (forall k, l :: 0 <= k < l < |at| ==> at[k] < at[l])
    && forall i :: 0 <= i < |vars| && !Acceptable(vars[i].0) && vars[i].1 != [] ==> i in at
  }

  lemma RefusedMore(vars: seq<(string, seq<Span>)>, front: seq<nat>) returns (at: seq<nat>)
    requires vars != [] && Refused(vars[..|vars| - 1], front)
    ensures var v := vars[|vars| - 1];
            at == if !Acceptable(v.0) && v.1 != [] then front + [|vars| - 1] else front
    ensures Refused(vars, at)
  {
    hide Acceptable;
    var n := |vars| - 1;
    if Acceptable(vars[n].0) || vars[n].1 == [] {
      return front;
    }
    at := front + [n];
    forall i | 0 <= i < |vars| && !Acceptable(vars[i].0) && vars[i].1 != []
      ensures i in at
    {
      if i == n {
        assert at[|front|] == n;
      } else {
        assert vars[..n][i] == vars[i];
        assert i in front;
      }
    }
  }

  /** `v` is reported once, with its spelling, its first use and the reason. */
  ghost predicate ReportedAs(v: (string, seq<Span>), report: InvalidVar) {
    && v.1 != [] && report.name == v.0 && report.firstUse == v.1[0]
    && Dotenv.ConfigurationName(v.0) == Some(report.reason)
  }

  lemma {:induction false} InvalidSays(vars: seq<(string, seq<Span>)>) returns (at: seq<nat>)
    ensures Refused(vars, at) && |Invalid(vars)| == |at|
    ensures forall k :: 0 <= k < |at| ==> at[k] < |vars| && ReportedAs(vars[at[k]], Invalid(vars)[k])
    decreases |vars|
  {
    hide Dotenv.ConfigurationName, Refused;
    if vars == [] {
      NothingRefused();
      return [];
    }
    var n := |vars| - 1;
    var front := InvalidSays(vars[..n]);
    at := RefusedMore(vars, front);
    assert forall k :: 0 <= k < |front| ==> at[k] == front[k];
  }

  lemma NothingRefused()
    ensures Refused([], [])
  {
  }

  // ----- the outcome

  /** A name that some input mentions: the workflow, the dotenv list or the command line. */
  ghost predicate Mentioned(src: Sources, name: string) {
    Used(src.extraction.vars, name) || Assigned(src.dotenv, name) || Assigned(src.cli, name)
  }

  /** The value of a name fits, or nobody has one and it is not used anywhere. */
  ghost predicate Settled(src: Sources, name: string) {
    match Lookup(src, name)
    case Value(v) => Utf8Length(v) <= 49_152
    case Missing => forall i: nat :: FirstSpelled(src.extraction.vars, name, i) ==> src.extraction.vars[i].1 == []
    case Ambiguous(_) => false
    case NonUnicode(_) => false
  }

  lemma MentionedSays(src: Sources, name: string)
    ensures IsCandidate(src, name) <==> Mentioned(src, name)
  {
    hide Canonical, Last, Literal;
    LiteralSays(src.extraction.vars, name);
    LastSays(src.dotenv, name);
    LastSays(src.cli, name);
  }

  lemma {:induction false} SomeFirst(vars: seq<(string, seq<Span>)>, name: string)
    requires Used(vars, name)
    ensures exists i: nat :: FirstSpelled(vars, name, i)
    decreases |vars|
  {
    hide Canonical, Dotenv.ConfigurationName;
    var n := |vars| - 1;
    if Used(vars[..n], name) {
      SomeFirst(vars[..n], name);
      var i: nat :| FirstSpelled(vars[..n], name, i);
      assert forall j :: 0 <= j < n ==> vars[..n][j] == vars[j];
      assert FirstSpelled(vars, name, i);
    } else {
      UsedBefore(vars, name);
      assert forall j :: 0 <= j < n ==> vars[..n][j] == vars[j];
      assert FirstSpelled(vars, name, n);
    }
  }

  lemma SettledSays(src: Sources, name: string)
    ensures Settled(src, name) <==> IsSound(src, name) && !IsMissing(src, name)
  {
    hide Canonical, Lookup, Literal, Used, FirstSpelled;
    LiteralSays(src.extraction.vars, name);
    if Used(src.extraction.vars, name) {
      SomeFirst(src.extraction.vars, name);
    } else {
      NoneSpelled(src.extraction.vars, name);
    }
  }

  lemma NoneSpelled(vars: seq<(string, seq<Span>)>, name: string)
    requires !Used(vars, name)
    ensures forall i: nat :: !FirstSpelled(vars, name, i)
  {
  }

  lemma NothingMissing(src: Sources, order: seq<string>)
    ensures Collect(src, order).missing == [] <==> forall n :: n in order ==> !IsMissing(src, n)
  {
    hide Collect, IsMissing, MissingOf;
    var missing := Collect(src, order).missing;
    if missing == [] {
      forall n | n in order
        ensures !IsMissing(src, n)
      {
        if IsMissing(src, n) {
          CollectMissing(src, order, MissingOf(src, n));
        }
      }
    } else {
      CollectMissing(src, order, missing[0]);
      assert missing[0] in missing;
    }
  }

  /** The resolution succeeds exactly when no use is refused, every mentioned name is settled, and the
      whole map is not used without a command line or a complete fetch; it then yields exactly the
      mentioned names that have a value. */
  lemma OutcomeSays(src: Sources, complete: bool, order: seq<string>)
    requires IsOrder(src, order)
    ensures Conclude(src, complete, order).Ok? <==>
              && (forall i :: 0 <= i < |src.extraction.vars| ==>
                    Acceptable(src.extraction.vars[i].0) || src.extraction.vars[i].1 == [])
              && (forall n :: Mentioned(src, n) ==> Settled(src, n))
              && (complete || src.cli != [] || !src.extraction.hasDynamicLookup || src.extraction.dynamicVars == [])
    ensures Conclude(src, complete, order).Ok? ==>
              forall n, v :: (n, v) in Conclude(src, complete, order).value <==>
                               Mentioned(src, n) && Lookup(src, n) == Value(v)
  {
    hide Collect, Mentioned, Settled, IsCandidate, IsSound, IsMissing, Lookup, Invalid, Acceptable;
    forall n
      ensures n in order <==> Mentioned(src, n)
      ensures Settled(src, n) <==> IsSound(src, n) && !IsMissing(src, n)
    {
      MentionedSays(src, n);
      SettledSays(src, n);
    }
    CollectSound(src, order);
    NothingMissing(src, order);
    var at := InvalidSays(src.extraction.vars);
    InvalidEmpty(src.extraction.vars, at);
    forall n, v
      ensures (n, v) in Collect(src, order).entries <==> n in order && Lookup(src, n) == Value(v) && Fits(v)
    {
      CollectEntries(src, order, n, v);
    }
    forall n, v | Settled(src, n) && Lookup(src, n) == Value(v)
      ensures Fits(v)
    {
      SettledFits(src, n);
    }
  }

  lemma SettledFits(src: Sources, name: string)
    requires Settled(src, name) && Lookup(src, name).Value?
    ensures Fits(Lookup(src, name).value)
  {
    hide Lookup;
  }

  lemma InvalidEmpty(vars: seq<(string, seq<Span>)>, at: seq<nat>)
    requires Refused(vars, at)
    ensures at == [] <==> forall i :: 0 <= i < |vars| ==> Acceptable(vars[i].0) || vars[i].1 == []
  {
    hide Acceptable;
    if at != [] {
      assert !Acceptable(vars[at[0]].0);
    }
  }
}
