/** Sequences of digits read as numbers: the termination measure of the backtracking search. */
module Radix {

  function Power(base: nat, e: nat): nat {
    if e == 0 then 1 else base * Power(base, e - 1)
  }

  /** The edges left at each level, read as digits with `slots` places. */
  ghost function Work(left: seq<nat>, slots: nat, base: nat): nat
    requires |left| <= slots
  {
    if left == [] then 0
    else (left[0] + 1) * Power(base, slots) + Work(left[1..], slots - 1, base)
  }

  lemma {:induction false} WorkAppend(front: seq<nat>, x: nat, slots: nat, base: nat)
    requires |front| < slots
    ensures Work(front + [x], slots, base)
         == Work(front, slots, base) + (x + 1) * Power(base, slots - |front|)
    decreases |front|
  {
    if front == [] {
      assert (front + [x])[1..] == [];
    } else {
      assert (front + [x])[1..] == front[1..] + [x];
      WorkAppend(front[1..], x, slots - 1, base);
    }
  }

  lemma Less(a: nat, b: nat, c: nat)
    requires a < b && c > 0
    ensures a * c < b * c
  {
  }

  lemma OneMore(x: nat, c: nat)
    ensures (x + 1) * c == x * c + c
  {
  }

  /** Adding a digit below place `base * place` cannot carry into it. */
  lemma Digits(x: nat, y: nat, place: nat, base: nat)
    requires place > 0 && y + 1 < base
    ensures x * (base * place) + (y + 1) * place < (x + 1) * (base * place)
  {
    Less(y + 1, base, place);
    OneMore(x, base * place);
  }

  /** Looking at one edge uses up more than any new level can add. */
  lemma DescendShrinks(front: seq<nat>, x: nat, y: nat, slots: nat, base: nat)
    requires |front| + 1 < slots && x > 0 && y + 1 < base
    ensures Work(front + [x - 1] + [y], slots, base) < Work(front + [x], slots, base)
  {
    WorkAppend(front, x, slots, base);
    WorkAppend(front, x - 1, slots, base);
    WorkAppend(front + [x - 1], y, slots, base);
    PowerPositive(base, slots - |front| - 1);
    Digits(x, y, Power(base, slots - |front| - 1), base);
  }

  lemma AdvanceShrinks(front: seq<nat>, x: nat, slots: nat, base: nat)
    requires |front| < slots && x > 0 && base > 0
    ensures Work(front + [x - 1], slots, base) < Work(front + [x], slots, base)
  {
    WorkAppend(front, x, slots, base);
    WorkAppend(front, x - 1, slots, base);
    PowerPositive(base, slots - |front|);
    OneMore(x, Power(base, slots - |front|));
  }

  lemma RetreatShrinks(front: seq<nat>, x: nat, slots: nat, base: nat)
    requires |front| < slots && base > 0
    ensures Work(front, slots, base) < Work(front + [x], slots, base)
  {
    WorkAppend(front, x, slots, base);
    PowerPositive(base, slots - |front|);
    OneMore(x, Power(base, slots - |front|));
  }

  lemma {:induction false} PowerPositive(base: nat, e: nat)
    requires base > 0
    ensures Power(base, e) > 0
  {
    if e > 0 {
      PowerPositive(base, e - 1);
    }
  }
}
