/**
 * How long fractional ranks stay exact in binary64 (clause 3.3 of IEEE 754-2008).
 *
 * A rank r is held as the integer r * 2^30. After a respacing the n-th rank is
 * n * 1024, that is n * 2^40 in this scale, and each midpoint halves the unit.
 */
module RankBits {
  import opened Prelude
  import SprintBoard
  import TaskTable

  function Pow2(n: nat): (p: nat)
    ensures p > 0
  {
    if n == 0 then 1 else 2 * Pow2(n - 1)
  }

  const TWO53: nat := 0x20_0000_0000_0000
  const MAX_TASKS: nat := 8192
  const MIDPOINTS: nat := 40

  /**
   * A scaled rank with a 53-bit significand. Only whole units are asked for:
   * a finer exponent would need a larger significand for the same value.
   */
  ghost predicate Binary64(x: nat) {
    exists m: nat, e: nat :: m < 0x20_0000_0000_0000 && x == Scaled(m, e)
  }

  function Scaled(m: nat, e: nat): nat {
    m * Pow2(e)
  }

  ghost predicate Multiple(x: nat, e: nat) {
    exists m: nat :: x == Scaled(m, e)
  }

  /** The rank itself. */
  ghost function Rank(x: nat): real {
    x as real / (0x4000_0000 as real)
  }

  ghost predicate Increasing(ranks: seq<nat>) {
    forall i, j :: 0 <= i < j < |ranks| ==> ranks[i] < ranks[j]
  }

  /** Ranks after `k` midpoints: in range, in order, and multiples of 2^(40-k). */
  ghost predicate WithinBits(ranks: seq<nat>, k: nat) {
    && k <= MIDPOINTS
    && Increasing(ranks)
    && forall i :: 0 <= i < |ranks| ==> ranks[i] <= TWO53 && Multiple(ranks[i], MIDPOINTS - k)
  }

  /** A card dropped between two neighbours, or taken out of the list. */
  datatype Op = Midpoint(slot: nat) | Remove(at: nat)

  ghost predicate Allowed(ranks: seq<nat>, op: Op) {
    match op
    case Midpoint(slot) => 0 < slot < |ranks|
    case Remove(at) => at < |ranks|
  }

  ghost function Apply(ranks: seq<nat>, op: Op): seq<nat>
    requires Allowed(ranks, op)
  {
    match op
    case Midpoint(slot) => ranks[..slot] + [(ranks[slot - 1] + ranks[slot]) / 2] + ranks[slot..]
    case Remove(at) => ranks[..at] + ranks[at + 1..]
  }

  /** The sum and its half are both binary64 values, so neither is rounded. */
  ghost predicate ExactMidpoint(a: nat, b: nat) {
    Binary64(a + b) && (a + b) % 2 == 0 && Binary64((a + b) / 2)
  }

  ghost function Midpoints(ops: seq<Op>): nat {
    if ops == [] then 0 else (if ops[0].Midpoint? then 1 else 0) + Midpoints(ops[1..])
  }

  /** The number of midpoints among the operations. */
  lemma {:induction false} MidpointsInTerms(ops: seq<Op>)
    ensures Midpoints(ops) == |set i: nat | i < |ops| && ops[i].Midpoint?|
    decreases |ops|
  {
    if ops != [] {
      hide Midpoints;
      var n := |ops| - 1;
      MidpointsInTerms(ops[..n]);
      MidpointsOfLast(ops);
      var before, all := (set i: nat | i < n && ops[..n][i].Midpoint?), (set i: nat | i < |ops| && ops[i].Midpoint?);
      forall i: nat
        ensures i in all <==> i in before || (ops[n].Midpoint? && i == n)
      {
        assert i < n ==> ops[..n][i] == ops[i];
      }
      OneMorePlace(before, all, n, ops[n].Midpoint?);
    }
  }

  lemma {:induction false} MidpointsOfLast(ops: seq<Op>)
    requires ops != []
    ensures
      var n := |ops| - 1;
      Midpoints(ops) == Midpoints(ops[..n]) + (if ops[n].Midpoint? then 1 else 0)
  {
    var n := |ops| - 1;
    if n > 0 {
      assert ops[1..][..n - 1] == ops[..n][1..];
      MidpointsOfLast(ops[1..]);
    }
  }

  ghost predicate IsRun(ranks: seq<nat>, ops: seq<Op>)
    decreases |ops|
  {
    ops == [] || (Allowed(ranks, ops[0]) && IsRun(Apply(ranks, ops[0]), ops[1..]))
  }

  ghost function After(ranks: seq<nat>, ops: seq<Op>): seq<nat>
    requires IsRun(ranks, ops)
    decreases |ops|
  {
    if ops == [] then ranks else After(Apply(ranks, ops[0]), ops[1..])
  }

  /** Every midpoint taken on the way is exact. */
  ghost predicate NeverRounds(ranks: seq<nat>, ops: seq<Op>)
    requires IsRun(ranks, ops)
    decreases |ops|
  {
    ops == [] ||
    (&& (ops[0].Midpoint? ==> ExactMidpoint(ranks[ops[0].slot - 1], ranks[ops[0].slot]))
     && NeverRounds(Apply(ranks, ops[0]), ops[1..]))
  }

  /** The ranks after a respacing of `n` tasks; `RebalanceRespaces` ties them to the table. */
  ghost function Respaced(n: nat): seq<nat> {
    seq(n, i requires 0 <= i < n => (i + 1) * 0x100_0000_0000)
  }

  lemma Halved(x: nat, e: nat)
    requires e > 0 && Multiple(x, e)
    ensures Multiple(x, e - 1)
  {
    var m: nat :| x == Scaled(m, e);
    assert x == Scaled(2 * m, e - 1);
  }

  /** The core: with at least one halving left, the midpoint of two ranks is exact and strictly between them. */
  lemma MidpointIsExact(a: nat, b: nat, e: nat)
    requires 0 < e && a < b <= TWO53 && Multiple(a, e) && Multiple(b, e)
    ensures ExactMidpoint(a, b) && a < (a + b) / 2 < b
    ensures Multiple((a + b) / 2, e - 1)
    ensures SprintBoard.PositionBetween(Some(Rank(a)), Some(Rank(b))) == Rank((a + b) / 2)
  {
    var p: nat :| a == Scaled(p, e);
    var q: nat :| b == Scaled(q, e);
    var half := Pow2(e - 1);
    SumOfMultiples(p, q, half);
    assert a + b == Scaled(p + q, e);
    assert (a + b) / 2 == Scaled(p + q, e - 1);
  }

  lemma SumOfMultiples(p: nat, q: nat, half: nat)
    requires half > 0 && p * (2 * half) < q * (2 * half) <= TWO53
    ensures p + q < TWO53
    ensures p * (2 * half) + q * (2 * half) == (p + q) * (2 * half) == 2 * ((p + q) * half)
  {
    Doubles(p, half);
    Doubles(q, half);
    Doubles(p + q, half);
    Distributes(p, q, half);
    AtLeast(p + q, half);
  }

  lemma Doubles(x: nat, half: nat)
    ensures x * (2 * half) == 2 * (x * half)
  {
  }

  lemma Distributes(p: nat, q: nat, half: nat)
    ensures (p + q) * half == p * half + q * half
  {
  }

  lemma AtLeast(x: nat, half: nat)
    requires half > 0
    ensures x * half >= x
  {
  }

  lemma MidpointKeepsBits(ranks: seq<nat>, slot: nat, k: nat)
    requires WithinBits(ranks, k) && k < MIDPOINTS && 0 < slot < |ranks|
    ensures ExactMidpoint(ranks[slot - 1], ranks[slot])
    ensures WithinBits(Apply(ranks, Midpoint(slot)), k + 1)
  {
    MidpointIsExact(ranks[slot - 1], ranks[slot], MIDPOINTS - k);
    var ranks' := Apply(ranks, Midpoint(slot));
    forall i | 0 <= i < |ranks'|
      ensures ranks'[i] <= TWO53 && Multiple(ranks'[i], MIDPOINTS - (k + 1))
    {
      if i < slot {
        Halved(ranks[i], MIDPOINTS - k);
      } else if slot < i {
        Halved(ranks[i - 1], MIDPOINTS - k);
      }
    }
    forall i, j | 0 <= i < j < |ranks'|
      ensures ranks'[i] < ranks'[j]
    {
      if i < slot {
        assert ranks'[i] == ranks[i] <= ranks[slot - 1];
      }
      if slot < j {
        assert ranks'[j] == ranks[j - 1] >= ranks[slot];
      }
    }
  }

  lemma RemoveKeepsBits(ranks: seq<nat>, at: nat, k: nat)
    requires WithinBits(ranks, k) && at < |ranks|
    ensures WithinBits(Apply(ranks, Remove(at)), k)
  {
    var ranks' := Apply(ranks, Remove(at));
    assert forall i :: 0 <= i < |ranks'| ==> ranks'[i] == ranks[if i < at then i else i + 1];
  }

  lemma OpKeepsBits(ranks: seq<nat>, op: Op, k: nat)
    requires WithinBits(ranks, k) && Allowed(ranks, op) && (op.Midpoint? ==> k < MIDPOINTS)
    ensures op.Midpoint? ==> ExactMidpoint(ranks[op.slot - 1], ranks[op.slot])
    ensures WithinBits(Apply(ranks, op), if op.Midpoint? then k + 1 else k)
  {
    if op.Midpoint? {
      MidpointKeepsBits(ranks, op.slot, k);
    } else {
      RemoveKeepsBits(ranks, op.at, k);
    }
  }

  lemma {:induction false} RunKeepsBits(ranks: seq<nat>, ops: seq<Op>, k: nat)
    requires WithinBits(ranks, k) && IsRun(ranks, ops) && k + Midpoints(ops) <= MIDPOINTS
    ensures NeverRounds(ranks, ops) && Increasing(After(ranks, ops))
    decreases |ops|
  {
    if ops != [] {
      OpKeepsBits(ranks, ops[0], k);
      RunKeepsBits(Apply(ranks, ops[0]), ops[1..], if ops[0].Midpoint? then k + 1 else k);
    }
  }

  lemma Pow2Of40()
    ensures Pow2(40) == 0x100_0000_0000
  {
    assert Pow2(10) == 1024;
    assert Pow2(20) == 1024 * 1024;
    assert Pow2(30) == 1024 * 1024 * 1024;
  }

  /**
   * From a respacing of up to 8192 tasks, any mix of removals and at most 40
   * midpoints keeps every rank distinct and in order, and rounds nothing.
   */
  lemma FortyMidpointsAreExact(n: nat, ops: seq<Op>)
    requires n <= 8192 && IsRun(Respaced(n), ops) && Midpoints(ops) <= 40
    ensures NeverRounds(Respaced(n), ops) && Increasing(After(Respaced(n), ops))
  {
    Pow2Of40();
    var ranks := Respaced(n);
    forall i | 0 <= i < n
      ensures ranks[i] <= TWO53 && Multiple(ranks[i], MIDPOINTS)
    {
      assert ranks[i] == Scaled(i + 1, MIDPOINTS);
    }
    RunKeepsBits(ranks, ops, 0);
  }

  // ---- The table's respacing is this one ----

  /** All live tasks of the project, in `Before` order. */
  ghost predicate InOrder(tasks: map<TaskTable.TaskId, TaskTable.Row>, project: TaskTable.ProjectId,
                          order: seq<TaskTable.TaskId>) {
    && (forall id: TaskTable.TaskId :: id in order <==> id in TaskTable.LiveTasks(tasks, project))
    && (forall i, j :: 0 <= i < j < |order| ==>
          order[i] in tasks && order[j] in tasks && TaskTable.Before(tasks[order[i]], tasks[order[j]]))
  }

  /** Of two tasks of the order, the one listed first is the one before. */
  lemma ListedBefore(tasks: map<TaskTable.TaskId, TaskTable.Row>, project: TaskTable.ProjectId,
                     order: seq<TaskTable.TaskId>, i: nat, c: TaskTable.TaskId) returns (j: nat)
    requires InOrder(tasks, project, order) && i < |order| && c in TaskTable.LiveTasks(tasks, project)
    ensures order[i] in TaskTable.LiveTasks(tasks, project)
    ensures j < |order| && order[j] == c
    ensures TaskTable.Before(tasks[c], tasks[order[i]]) <==> j < i
    ensures TaskTable.Before(tasks[order[i]], tasks[c]) <==> i < j
  {
    assert order[i] in order && c in order;
    j :| 0 <= j < |order| && order[j] == c;
  }

  lemma {:induction false} RowNumberIsPlace(tasks: map<TaskTable.TaskId, TaskTable.Row>, project: TaskTable.ProjectId,
                                            order: seq<TaskTable.TaskId>, i: nat)
    requires TaskTable.NumbersDiffer(tasks, project) && InOrder(tasks, project, order) && i < |order|
    ensures order[i] in TaskTable.LiveTasks(tasks, project)
    ensures TaskTable.RowNumber(tasks, project, order[i]) == i + 1
  {
    hide InOrder, TaskTable.RowNumber, TaskTable.Before;
    var live := TaskTable.LiveTasks(tasks, project);
    InOrderIsLive(tasks, project, order, i);
    if i == 0 {
      forall c | c in live
        ensures !TaskTable.Before(tasks[c], tasks[order[0]])
      {
        var _ := ListedBefore(tasks, project, order, 0, c);
      }
      TaskTable.FirstIsNumberOne(tasks, project, order[0]);
    } else {
      RowNumberIsPlace(tasks, project, order, i - 1);
      var _ := ListedBefore(tasks, project, order, i - 1, order[i]);
      OneBefore(tasks, project, order, i);
      forall c | c in live
        ensures !(TaskTable.Before(tasks[order[i - 1]], tasks[c]) && TaskTable.Before(tasks[c], tasks[order[i]]))
      {
        NothingBetween(tasks, project, order, i, c);
      }
      TaskTable.NeighboursAreConsecutive(tasks, project, order[i - 1], order[i]);
    }
  }

  lemma InOrderIsLive(tasks: map<TaskTable.TaskId, TaskTable.Row>, project: TaskTable.ProjectId,
                      order: seq<TaskTable.TaskId>, i: nat)
    requires InOrder(tasks, project, order) && i < |order|
    ensures order[i] in TaskTable.LiveTasks(tasks, project)
  {
    assert order[i] in order;
  }

  lemma OneBefore(tasks: map<TaskTable.TaskId, TaskTable.Row>, project: TaskTable.ProjectId,
                  order: seq<TaskTable.TaskId>, i: nat)
    requires InOrder(tasks, project, order) && 0 < i < |order|
    ensures order[i - 1] in tasks && order[i] in tasks && TaskTable.Before(tasks[order[i - 1]], tasks[order[i]])
  {
  }

  lemma NothingBetween(tasks: map<TaskTable.TaskId, TaskTable.Row>, project: TaskTable.ProjectId,
                       order: seq<TaskTable.TaskId>, i: nat, c: TaskTable.TaskId)
    requires InOrder(tasks, project, order) && 0 < i < |order| && c in TaskTable.LiveTasks(tasks, project)
    ensures order[i - 1] in tasks && order[i] in tasks
    ensures !(TaskTable.Before(tasks[order[i - 1]], tasks[c]) && TaskTable.Before(tasks[c], tasks[order[i]]))
  {
    var j := ListedBefore(tasks, project, order, i, c);
    if j < i - 1 {
      assert TaskTable.Before(tasks[order[j]], tasks[order[i - 1]]);
    }
  }

  /** After `rebalancePositions` the live tasks, in order, hold exactly these ranks. */
  lemma RebalanceRespaces(tasks: map<TaskTable.TaskId, TaskTable.Row>, project: TaskTable.ProjectId,
                          order: seq<TaskTable.TaskId>, i: nat)
    requires TaskTable.NumbersDiffer(tasks, project) && InOrder(tasks, project, order) && i < |order|
    ensures order[i] in tasks
    ensures TaskTable.Rebalanced(tasks, project)[order[i]].position == Rank(Respaced(|order|)[i])
  {
    RowNumberIsPlace(tasks, project, order, i);
  }

  // ---- Forty is the last number that works ----

  /** Dropping above the last card again and again closes the last gap by halves. */
  lemma {:induction false} Pinch(ranks: seq<nat>, k: nat) returns (ops: seq<Op>)
    requires k <= MIDPOINTS && |ranks| >= 2
    requires ranks[|ranks| - 1] == TWO53 && ranks[|ranks| - 2] == TWO53 - Pow2(MIDPOINTS - k)
    ensures IsRun(ranks, ops) && Midpoints(ops) == |ops| == MIDPOINTS - k
    ensures var end := After(ranks, ops); |end| >= 2 && end[|end| - 1] == TWO53 && end[|end| - 2] == TWO53 - 1
    decreases MIDPOINTS - k
  {
    if k == MIDPOINTS {
      ops := [];
    } else {
      hide Apply, After, IsRun, Midpoints, Pow2;
      var op := Midpoint(|ranks| - 1);
      TwoHalves(MIDPOINTS - k);
      TopMidpoint(ranks, Pow2(MIDPOINTS - (k + 1)));
      var rest := Pinch(Apply(ranks, op), k + 1);
      ops := [op] + rest;
      OneMidpointMore(ranks, op, rest);
    }
  }

  lemma TwoHalves(e: nat)
    requires e > 0
    ensures Pow2(e) == 2 * Pow2(e - 1)
  {
  }

  /** A midpoint in the top gap halves it. */
  lemma TopMidpoint(ranks: seq<nat>, half: nat)
    requires |ranks| >= 2 && ranks[|ranks| - 1] == TWO53
    requires 2 * half <= TWO53 && ranks[|ranks| - 2] == TWO53 - 2 * half
    ensures
      var ranks' := Apply(ranks, Midpoint(|ranks| - 1));
      |ranks'| == |ranks| + 1 && ranks'[|ranks'| - 1] == TWO53 && ranks'[|ranks'| - 2] == TWO53 - half
  {
  }

  lemma OneMidpointMore(ranks: seq<nat>, op: Op, rest: seq<Op>)
    requires op.Midpoint? && Allowed(ranks, op) && IsRun(Apply(ranks, op), rest)
    ensures IsRun(ranks, [op] + rest) && Midpoints([op] + rest) == Midpoints(rest) + 1
    ensures After(ranks, [op] + rest) == After(Apply(ranks, op), rest)
  {
    assert ([op] + rest)[1..] == rest;
  }

  lemma EvenWhenScaled(m: nat, e: nat)
    requires e > 0
    ensures Scaled(m, e) % 2 == 0
  {
    assert Scaled(m, e) == 2 * (m * Pow2(e - 1));
  }

  /** After 40 midpoints in the top gap of 8192 tasks, the next sum needs 54 bits. */
  lemma TheFortyFirstMayRound() returns (ops: seq<Op>)
    ensures IsRun(Respaced(8192), ops) && Midpoints(ops) == 40
    ensures var end := After(Respaced(8192), ops);
      |end| >= 2 && !Binary64(end[|end| - 2] + end[|end| - 1])
  {
    Pow2Of40();
    ops := Pinch(Respaced(MAX_TASKS), 0);
    var sum := 2 * TWO53 - 1;
    forall m: nat, e: nat | m < TWO53
      ensures sum != Scaled(m, e)
    {
      if e > 0 {
        EvenWhenScaled(m, e);
      }
    }
  }
}
