/**
 Runs of the fallback store: rows logged to it, rows the primary takes meanwhile, and drains that
 fail at arbitrary batches. The steps are the contracts of `JsonlStore`.
 */
module DrainRetry {
  import opened Wrappers
  import opened Records
  import opened MemoryStore
  import opened JsonlStore

  /**
   The target, what the fallback holds, and the history: every row ever put in the file (the first
   `truncated` of them gone from it again) and every row ever buffered in memory. `torn` is the line, if
   any, whose write ended in the error that gave up the file system: it is buffered as well, and the file
   is not read again.
   */
  datatype State = State(
    target: seq<Record>, fs: bool,
    filed: seq<Record>, truncated: nat,
    buffered: seq<Record>, drained: nat, torn: seq<Record>)
  {
    function File(): seq<Record>
      requires truncated <= |filed|
    {
      filed[truncated..]
    }

    function Memory(): seq<Record>
      requires drained <= |buffered|
    {
      buffered[drained..]
    }

    predicate Fresh(row: Record) {
      && !HasId(target, row.body.eventId)
      && !HasId(filed, row.body.eventId)
      && !HasId(buffered, row.body.eventId)
    }
  }

  datatype Step =
    | Log(row: Record, fault: Fault)
    | Insert(row: Record)
    | Drain(calls: seq<Call>)

  ghost predicate Next(onDuplicate: OnDuplicate, s: State, step: Step, s': State)
    requires s.truncated <= |s.filed| && s.drained <= |s.buffered|
  {
    match step
    case Log(row, fault) =>
      s.Fresh(row) &&
      if s.fs && fault == NoFault then s' == s.(filed := s.filed + [ThroughFile(row)])
      else s' == s.(buffered := s.buffered + [row], fs := false,
                    torn := if s.fs && fault == AfterWrite then s.torn + [ThroughFile(row)] else s.torn)
    case Insert(row) => s.Fresh(row) && s' == s.(target := s.target + [row])
    case Drain(calls) => s' == AfterDrain(onDuplicate, s, calls).0
  }

  /** What `DrainTo` leaves behind, and whether it returned normally. */
  function AfterDrain(onDuplicate: OnDuplicate, s: State, calls: seq<Call>): (State, bool)
    requires s.truncated <= |s.filed| && s.drained <= |s.buffered|
  {
    var memory := SendAll(onDuplicate, s.target, s.Memory(), calls);
    var s1 := s.(target := memory.target, drained := Shrink(|s.buffered|, |memory.left|));
    if !memory.ok || !s.fs then (s1, memory.ok)
    else
      var disk := SendAll(onDuplicate, memory.target, s.File(), memory.calls);
      (s1.(target := disk.target, truncated := if disk.ok then |s.filed| else s.truncated), disk.ok)
  }

  function Shrink(total: nat, left: nat): nat {
    if left <= total then total - left else 0
  }

  // ---- which rows of a list the target holds ------------------------------------------

  /** The target's rows whose id occurs in `rows`, in target order. */
  function Restrict(target: seq<Record>, rows: seq<Record>): seq<Record> {
    if target == [] then []
    else
      var before, last := Restrict(target[..|target| - 1], rows), target[|target| - 1];
      if HasId(rows, last.body.eventId) then before + [last] else before
  }

  /** Of `rows` the target holds exactly the first n, each once, in order. */
  ghost predicate Holds(target: seq<Record>, rows: seq<Record>, n: nat) {
    n <= |rows| && DistinctIds(rows) && Restrict(target, rows) == rows[..n]
  }

  lemma {:induction false} RestrictFinds(target: seq<Record>, rows: seq<Record>, id: Uuid)
    requires HasId(rows, id)
    ensures HasId(target, id) <==> HasId(Restrict(target, rows), id)
  {
    if target != [] {
      var init, last := target[..|target| - 1], target[|target| - 1];
      RestrictFinds(init, rows, id);
      assert target == init + [last];
      IdsAppend(init, last);
      IdsAppend(Restrict(init, rows), last);
    }
  }

  lemma {:induction false} RestrictIgnoresStranger(target: seq<Record>, rows: seq<Record>, r: Record)
    requires !HasId(target, r.body.eventId)
    ensures Restrict(target, rows + [r]) == Restrict(target, rows)
  {
    if target != [] {
      var init, last := target[..|target| - 1], target[|target| - 1];
      assert target == init + [last];
      IdsAppend(init, last);
      IdsAppend(rows, r);
      RestrictIgnoresStranger(init, rows, r);
    }
  }

  lemma RestrictAppend(target: seq<Record>, rows: seq<Record>, r: Record)
    ensures Restrict(target + [r], rows)
         == if HasId(rows, r.body.eventId) then Restrict(target, rows) + [r] else Restrict(target, rows)
  {
    assert (target + [r])[..|target|] == target;
  }

  /** Delivering row i of a list of which the target holds the first n, i not beyond n. */
  lemma DeliverOne(target: seq<Record>, rows: seq<Record>, n: nat, i: nat)
    requires Holds(target, rows, n) && i <= n && i < |rows|
    ensures HasId(target, rows[i].body.eventId) <==> i < n
    ensures i == n ==> Holds(target + [rows[i]], rows, n + 1)
  {
    assert HasId(rows, rows[i].body.eventId);
    RestrictFinds(target, rows, rows[i].body.eventId);
    if i < n {
      assert rows[..n][i] == rows[i];
    } else {
      RestrictAppend(target, rows, rows[i]);
      assert rows[..n] + [rows[n]] == rows[..n + 1];
    }
  }

  /** Re-sending from `from` what is partly there already completes it, without repeating a row. */
  lemma {:induction false} DeliverExtends(target: seq<Record>, rows: seq<Record>, n: nat, from: nat, j: nat)
    requires Holds(target, rows, n) && from <= n && from + j <= |rows|
    ensures Holds(Deliver(target, rows[from..from + j]), rows, if from + j <= n then n else from + j)
  {
    var batch := rows[from..from + j];
    if j > 0 {
      DeliverExtends(target, rows, n, from, j - 1);
      assert batch[..|batch| - 1] == rows[from..from + (j - 1)];
      var i := from + j - 1;
      var before := Deliver(target, rows[from..from + (j - 1)]);
      DeliverOne(before, rows, if i <= n then n else i, i);
    }
  }

  lemma {:induction false} DeliverKeepsOthers(target: seq<Record>, batch: seq<Record>, others: seq<Record>)
    requires Apart(batch, others)
    ensures Restrict(Deliver(target, batch), others) == Restrict(target, others)
  {
    if batch != [] {
      var init, last := batch[..|batch| - 1], batch[|batch| - 1];
      DeliverKeepsOthers(target, init, others);
      RestrictAppend(Deliver(target, init), others, last);
    }
  }

  lemma {:induction false} DeliverConcat(target: seq<Record>, a: seq<Record>, b: seq<Record>)
    ensures Deliver(Deliver(target, a), b) == Deliver(target, a + b)
  {
    if b == [] {
      assert a + b == a;
    } else {
      assert (a + b)[..|a + b| - 1] == a + b[..|b| - 1];
      DeliverConcat(target, a, b[..|b| - 1]);
    }
  }

  lemma TakeAndDrop(rows: seq<Record>, n: nat, i: nat, j: nat)
    requires n <= |rows| && i <= |rows| - n && j <= |rows| - n
    ensures rows[..n] + rows[n..][..j] == rows[..n + j] && rows[n..][i..] == rows[n + i..]
  {
  }

  /** An id-skipping target ends up with some number of leading rows delivered, no fewer than are gone. */
  lemma {:induction false} SendAllDelivers(target: seq<Record>, rows: seq<Record>, calls: seq<Call>)
    returns (i: nat, j: nat)
    ensures var sent := SendAll(Skip, target, rows, calls);
            && i <= j <= |rows| && sent.left == rows[i..]
            && sent.target == Deliver(target, rows[..j])
            && (sent.ok <==> i == |rows|)
    decreases |rows|
  {
    i, j := 0, 0;
    hide SendAll;
    hide Deliver;
    if rows == [] {
      SendNothing(Skip, target, calls);
    } else {
      var n := BatchSize(rows);
      SendBatch(Skip, target, rows[..n], rows[n..], calls);
      assert rows[..n] + rows[n..] == rows;
      match Head(calls)
      case Fails(stored) =>
        j := if stored < n then stored else n;
        assert rows[..n][..j] == rows[..j];
      case Works =>
        i, j := SendAllDelivers(Deliver(target, rows[..n]), rows[n..], Tail(calls));
        DeliverConcat(target, rows[..n], rows[n..][..j]);
        TakeAndDrop(rows, n, i, j);
        i, j := n + i, n + j;
    }
  }

  // ---- the invariant ------------------------------------------------------------------

  /**
   Of the filed rows the target holds a prefix that covers everything truncated from the file, and of the
   buffered rows one that covers those no longer in memory. Once memory is in use the file system is given up.
   */
  ghost predicate Inv(s: State) {
    && s.truncated <= |s.filed| && s.drained <= |s.buffered|
    && HoldsBeyond(s.target, s.filed, s.truncated)
    && HoldsBeyond(s.target, s.buffered, s.drained)
    && Apart(s.filed, s.buffered) && Apart(s.buffered, s.filed)
    && (s.fs ==> s.buffered == [] && s.torn == [])
    && IsCopied(s.torn, s.buffered)
  }

  /** Each line is that of a buffered row. */
  ghost predicate IsCopied(lines: seq<Record>, buffered: seq<Record>) {
    forall t | t in lines :: exists k :: 0 <= k < |buffered| && ThroughFile(buffered[k]) == t
  }

  lemma CopiedStays(lines: seq<Record>, buffered: seq<Record>, row: Record)
    requires IsCopied(lines, buffered)
    ensures IsCopied(lines, buffered + [row]) && IsCopied(lines + [ThroughFile(row)], buffered + [row])
  {
    var after := buffered + [row];
    forall t | t in lines + [ThroughFile(row)] ensures exists k :: 0 <= k < |after| && ThroughFile(after[k]) == t {
      if t in lines {
        var k :| 0 <= k < |buffered| && ThroughFile(buffered[k]) == t;
        assert after[k] == buffered[k];
      } else {
        assert after[|buffered|] == row;
      }
    }
    forall t | t in lines ensures exists k :: 0 <= k < |after| && ThroughFile(after[k]) == t {
      assert t in lines + [ThroughFile(row)];
    }
  }

  ghost predicate HoldsBeyond(target: seq<Record>, rows: seq<Record>, least: nat) {
    exists n: nat :: least <= n && Holds(target, rows, n)
  }

  ghost predicate Apart(rows: seq<Record>, others: seq<Record>) {
    forall i | 0 <= i < |rows| :: !HasId(others, rows[i].body.eventId)
  }

  lemma LogKeepsHolds(target: seq<Record>, rows: seq<Record>, n: nat, r: Record)
    requires Holds(target, rows, n) && !HasId(target, r.body.eventId) && !HasId(rows, r.body.eventId)
    ensures Holds(target, rows + [r], n)
  {
    RestrictIgnoresStranger(target, rows, r);
    forall i, j | 0 <= i < j < |rows + [r]| ensures (rows + [r])[i].body.eventId != (rows + [r])[j].body.eventId {
      assert HasId(rows, rows[i].body.eventId);
    }
  }

  lemma LogStep(s: State, row: Record, fault: Fault, s': State)
    requires Inv(s) && Next(Skip, s, Log(row, fault), s')
    ensures Inv(s')
  {
    if s.fs && fault == NoFault {
      LogFiled(s, row);
    } else {
      LogBuffered(s, row, s'.torn);
    }
  }

  lemma LogFiled(s: State, row: Record)
    requires Inv(s) && s.fs && s.Fresh(row)
    ensures Inv(s.(filed := s.filed + [ThroughFile(row)]))
  {
    hide Holds;
    var stored := ThroughFile(row);
    var n: nat :| s.truncated <= n && Holds(s.target, s.filed, n);
    LogKeepsHolds(s.target, s.filed, n, stored);
    IdsAppend(s.filed, stored);
  }

  lemma LogBuffered(s: State, row: Record, torn: seq<Record>)
    requires Inv(s) && s.Fresh(row) && torn in [s.torn, s.torn + [ThroughFile(row)]]
    ensures Inv(s.(buffered := s.buffered + [row], fs := false, torn := torn))
  {
    hide Holds;
    hide IsCopied;
    CopiedStays(s.torn, s.buffered, row);
    var m: nat :| s.drained <= m && Holds(s.target, s.buffered, m);
    LogKeepsHolds(s.target, s.buffered, m, row);
    IdsAppend(s.buffered, row);
    forall i | 0 <= i < |s.filed| ensures !HasId(s.buffered + [row], s.filed[i].body.eventId) {
      assert HasId(s.filed, s.filed[i].body.eventId);
    }
  }

  lemma InsertStep(s: State, row: Record, s': State)
    requires Inv(s) && Next(Skip, s, Insert(row), s')
    ensures Inv(s')
  {
    var n: nat :| s.truncated <= n && Holds(s.target, s.filed, n);
    var m: nat :| s.drained <= m && Holds(s.target, s.buffered, m);
    RestrictAppend(s.target, s.filed, row);
    RestrictAppend(s.target, s.buffered, row);
    assert Holds(s'.target, s'.filed, n) && Holds(s'.target, s'.buffered, m);
  }

  /** Delivering some of `rows` from `from` on completes them and leaves what is held of `others`. */
  lemma DeliverPart(target: seq<Record>, rows: seq<Record>, n: nat, from: nat, j: nat, others: seq<Record>, m: nat)
    returns (n': nat)
    requires Holds(target, rows, n) && from <= n && from + j <= |rows|
    requires Holds(target, others, m) && Apart(rows, others)
    ensures n <= n' && from + j <= n' && (n == from ==> n' == from + j)
    ensures var target' := Deliver(target, rows[from..from + j]);
            Holds(target', rows, n') && Holds(target', others, m)
  {
    n' := if from + j <= n then n else from + j;
    DeliverExtends(target, rows, n, from, j);
    DeliverKeepsOthers(target, rows[from..from + j], others);
  }

  lemma SendTail(target: seq<Record>, rows: seq<Record>, from: nat, calls: seq<Call>) returns (i: nat, j: nat)
    requires from <= |rows|
    ensures var sent := SendAll(Skip, target, rows[from..], calls);
            && i <= j && from + j <= |rows| && |sent.left| == |rows| - (from + i)
            && sent.target == Deliver(target, rows[from..from + j])
            && (sent.ok <==> from + i == |rows|)
  {
    i, j := SendAllDelivers(target, rows[from..], calls);
    assert rows[from..][..j] == rows[from..from + j];
  }

  lemma MemoryDrain(s: State, calls: seq<Call>)
    requires Inv(s)
    ensures var memory := SendAll(Skip, s.target, s.Memory(), calls);
            var s1 := s.(target := memory.target, drained := Shrink(|s.buffered|, |memory.left|));
            Inv(s1) && (memory.ok ==> Holds(s1.target, s1.buffered, |s1.buffered|) && s1.drained == |s1.buffered|)
  {
    hide Holds;
    hide Apart;
    hide SendAll;
    var n: nat :| s.truncated <= n && Holds(s.target, s.filed, n);
    var m: nat :| s.drained <= m && Holds(s.target, s.buffered, m);
    var i, j := SendTail(s.target, s.buffered, s.drained, calls);
    var m' := DeliverPart(s.target, s.buffered, m, s.drained, j, s.filed, n);
    HoldsAtMost(Deliver(s.target, s.buffered[s.drained..s.drained + j]), s.buffered, m');
  }

  lemma HoldsAtMost(target: seq<Record>, rows: seq<Record>, n: nat)
    requires Holds(target, rows, n)
    ensures n <= |rows|
  {
  }

  lemma FileDrain(s: State, calls: seq<Call>)
    requires Inv(s) && s.fs
    ensures var disk := SendAll(Skip, s.target, s.File(), calls);
            var s1 := s.(target := disk.target, truncated := if disk.ok then |s.filed| else s.truncated);
            Inv(s1) && (disk.ok ==> Holds(s1.target, s1.filed, |s1.filed|))
            && (Holds(s.target, s.buffered, |s.buffered|) ==> Holds(s1.target, s1.buffered, |s1.buffered|))
  {
    hide Holds;
    hide Apart;
    hide SendAll;
    var n: nat :| s.truncated <= n && Holds(s.target, s.filed, n);
    var m: nat :| s.drained <= m && Holds(s.target, s.buffered, m);
    var i, j := SendTail(s.target, s.filed, s.truncated, calls);
    FileDrainPart(s, n, m, j);
    LessIsBeyond(Deliver(s.target, s.filed[s.truncated..s.truncated + j]), s.filed, s.truncated + j, s.truncated);
    if Holds(s.target, s.buffered, |s.buffered|) {
      FileDrainPart(s, n, |s.buffered|, j);
    }
  }

  lemma FileDrainPart(s: State, n: nat, m: nat, j: nat)
    requires s.truncated <= n && s.truncated + j <= |s.filed| && Apart(s.filed, s.buffered)
    requires Holds(s.target, s.filed, n) && Holds(s.target, s.buffered, m)
    ensures var target := Deliver(s.target, s.filed[s.truncated..s.truncated + j]);
      && Holds(target, s.buffered, m) && HoldsBeyond(target, s.filed, s.truncated + j)
      && (s.truncated + j == |s.filed| ==> Holds(target, s.filed, |s.filed|))
  {
    hide Apart;
    hide Holds;
    var n' := DeliverPart(s.target, s.filed, n, s.truncated, j, s.buffered, m);
    HoldsAtMost(Deliver(s.target, s.filed[s.truncated..s.truncated + j]), s.filed, n');
  }

  lemma LessIsBeyond(target: seq<Record>, rows: seq<Record>, more: nat, least: nat)
    requires HoldsBeyond(target, rows, more) && least <= more
    ensures HoldsBeyond(target, rows, least)
  {
    var n: nat :| more <= n && Holds(target, rows, n);
  }

  /**
   A drain keeps the invariant however it fails. When it succeeds the target holds every buffered row,
   and every filed row while the file system is up: each once, in the order they were logged.
   */
  lemma DrainStep(s: State, calls: seq<Call>)
    requires Inv(s)
    ensures var (s', ok) := AfterDrain(Skip, s, calls);
            && Inv(s')
            && (ok ==> Holds(s'.target, s'.buffered, |s'.buffered|))
            && (ok && s.fs ==> Holds(s'.target, s'.filed, |s'.filed|) && s'.truncated == |s'.filed|)
  {
    MemoryDrain(s, calls);
    var memory := SendAll(Skip, s.target, s.Memory(), calls);
    var s1 := s.(target := memory.target, drained := Shrink(|s.buffered|, |memory.left|));
    if memory.ok && s.fs {
      FileDrain(s1, memory.calls);
    }
  }

  // ---- runs ---------------------------------------------------------------------------

  ghost predicate StepAt(onDuplicate: OnDuplicate, states: seq<State>, steps: seq<Step>, i: nat)
    requires i < |steps| && |states| == |steps| + 1
  {
    && states[i].truncated <= |states[i].filed| && states[i].drained <= |states[i].buffered|
    && Next(onDuplicate, states[i], steps[i], states[i + 1])
  }

  ghost predicate IsRun(onDuplicate: OnDuplicate, states: seq<State>, steps: seq<Step>) {
    && |states| == |steps| + 1
    && forall i | 0 <= i < |steps| :: StepAt(onDuplicate, states, steps, i)
  }

  ghost predicate Initial(s: State) {
    s.filed == [] && s.buffered == [] && s.truncated == 0 && s.drained == 0 && s.torn == []
  }

  lemma {:induction false} RunKeepsInv(states: seq<State>, steps: seq<Step>, i: nat)
    requires IsRun(Skip, states, steps) && Initial(states[0]) && i < |states|
    ensures Inv(states[i])
  {
    if i == 0 {
      NothingHeld(states[0].target);
      assert Holds(states[0].target, states[0].filed, 0);
    } else {
      RunKeepsInv(states, steps, i - 1);
      assert StepAt(Skip, states, steps, i - 1);
      match steps[i - 1]
      case Log(row, fault) => LogStep(states[i - 1], row, fault, states[i]);
      case Insert(row) => InsertStep(states[i - 1], row, states[i]);
      case Drain(calls) => DrainStep(states[i - 1], calls);
    }
  }

  lemma {:induction false} NothingHeld(target: seq<Record>)
    ensures Restrict(target, []) == []
  {
    if target != [] {
      NothingHeld(target[..|target| - 1]);
    }
  }

  /**
   In no run, however drains fail, does a logged row vanish from both sides; and the line left by a torn
   write is that of a buffered row, so it is delivered from memory.
   */
  lemma NoRowVanishes(states: seq<State>, steps: seq<Step>, i: nat, k: nat)
    requires IsRun(Skip, states, steps) && Initial(states[0]) && i < |states|
    ensures var s := states[i];
      && (k < |s.filed| ==> HasId(s.target, s.filed[k].body.eventId) || (s.truncated <= k && s.filed[k] in s.File()))
      && (k < |s.buffered| ==> HasId(s.target, s.buffered[k].body.eventId) || (s.drained <= k && s.buffered[k] in s.Memory()))
      && (s.torn != [] ==> !s.fs) && IsCopied(s.torn, s.buffered)
  {
    RunKeepsInv(states, steps, i);
    var s := states[i];
    if k < s.truncated {
      var n: nat :| s.truncated <= n && Holds(s.target, s.filed, n);
      DeliverOne(s.target, s.filed, n, k);
    } else if k < |s.filed| {
      assert s.File()[k - s.truncated] == s.filed[k];
    }
    if k < s.drained {
      var m: nat :| s.drained <= m && Holds(s.target, s.buffered, m);
      DeliverOne(s.target, s.buffered, m, k);
    } else if k < |s.buffered| {
      assert s.Memory()[k - s.drained] == s.buffered[k];
    }
  }

  // ---- a file system given up ---------------------------------------------------------

  ghost predicate HasAll(target: seq<Record>, rows: seq<Record>) {
    forall k | 0 <= k < |rows| :: HasId(target, rows[k].body.eventId)
  }

  lemma HoldsAll(target: seq<Record>, rows: seq<Record>)
    requires Holds(target, rows, |rows|)
    ensures HasAll(target, rows)
  {
    forall k | 0 <= k < |rows| ensures HasId(target, rows[k].body.eventId) {
      DeliverOne(target, rows, |rows|, k);
    }
  }

  lemma OthersAreNeitherSentNorLost(target: seq<Record>, batch: seq<Record>, others: seq<Record>)
    requires Apart(batch, others)
    ensures HasAll(Deliver(target, batch), others) <==> HasAll(target, others)
  {
    DeliverKeepsOthers(target, batch, others);
    forall k | 0 <= k < |others|
      ensures HasId(Deliver(target, batch), others[k].body.eventId) <==> HasId(target, others[k].body.eventId)
    {
      assert HasId(others, others[k].body.eventId);
      RestrictFinds(target, others, others[k].body.eventId);
      RestrictFinds(Deliver(target, batch), others, others[k].body.eventId);
    }
  }

  /**
   A drain that returns normally has delivered the filed rows exactly if the file system is still in use,
   or the target had them already: once it is given up, the file is not read again.
   */
  lemma FiledRowsDeliveredIff(s: State, calls: seq<Call>)
    requires Inv(s) && AfterDrain(Skip, s, calls).1
    ensures HasAll(AfterDrain(Skip, s, calls).0.target, s.filed) <==> s.fs || HasAll(s.target, s.filed)
  {
    hide SendAll;
    hide Holds;
    DrainStep(s, calls);
    var s' := AfterDrain(Skip, s, calls).0;
    if s.fs {
      HoldsAll(s'.target, s'.filed);
    } else {
      var i, j := SendTail(s.target, s.buffered, s.drained, calls);
      var batch := s.buffered[s.drained..s.drained + j];
      forall k | 0 <= k < |batch| ensures !HasId(s.filed, batch[k].body.eventId) {
        assert batch[k] == s.buffered[s.drained + k];
      }
      OthersAreNeitherSentNorLost(s.target, batch, s.filed);
    }
  }

  /** A run ends in a drain that returned normally, and the target lacks a row the fallback took. */
  ghost predicate Strands(states: seq<State>, steps: seq<Step>, row: Record) {
    && IsRun(Skip, states, steps) && Initial(states[0]) && |steps| >= 1
    && steps[|steps| - 1] == Drain([]) && states[|steps| - 1].truncated <= |states[|steps| - 1].filed|
    && states[|steps| - 1].drained <= |states[|steps| - 1].buffered|
    && AfterDrain(Skip, states[|steps| - 1], []).1
    && ThroughFile(row) in states[|steps|].filed && !HasId(states[|steps|].target, row.body.eventId)
  }

  /** One row is filed, the next write fails, and the drain then succeeds without the first row. */
  lemma FiledRowIsStranded(first: Record, second: Record)
    requires first.body.eventId != second.body.eventId
    ensures exists states, steps :: Strands(states, steps, first)
  {
    var s0 := State([], true, [], 0, [], 0, []);
    var s1 := State([], true, [ThroughFile(first)], 0, [], 0, []);
    var s2 := State([], false, [ThroughFile(first)], 0, [second], 0, []);
    var s3 := State([second], false, [ThroughFile(first)], 0, [second], 1, []);
    assert [] + [ThroughFile(first)] == [ThroughFile(first)] && [] + [second] == [second];
    DrainOne(s2, second);
    var states, steps := [s0, s1, s2, s3], [Log(first, NoFault), Log(second, BeforeWrite), Drain([])];
    assert StepAt(Skip, states, steps, 0) && StepAt(Skip, states, steps, 1) && StepAt(Skip, states, steps, 2);
    assert Strands(states, steps, first);
  }

  lemma DrainOne(s: State, row: Record)
    requires !s.fs && s.target == [] && s.buffered == [row] && s.drained == 0 && s.truncated <= |s.filed|
    ensures AfterDrain(Skip, s, []) == (s.(target := [row], drained := 1), true)
  {
    assert s.Memory() == [row] && [row][..1] == [row] && [row][..0] == [] && [row][1..] == [];
    SendBatch(Skip, [], [row], [], []);
    assert [row] + [] == [row];
    assert Deliver([], [row]) == [row];
    SendNothing(Skip, [row], []);
  }

  // ---- a target with a primary key ----------------------------------------------------

  /** The target already holds the row the file starts with: an earlier drain got a batch through and failed. */
  ghost predicate Stuck(s: State) {
    && s.truncated < |s.filed| && s.drained <= |s.buffered| && (s.fs ==> s.buffered == [])
    && HasId(s.target, s.filed[s.truncated].body.eventId)
  }

  lemma {:induction false} SendingOnlyAdds(target: seq<Record>, rows: seq<Record>, calls: seq<Call>, id: Uuid)
    requires HasId(target, id)
    ensures HasId(SendAll(Reject, target, rows, calls).target, id)
    decreases |rows|
  {
    if rows != [] {
      var n := if |rows| < DRAIN_BATCH_SIZE then |rows| else DRAIN_BATCH_SIZE;
      var i :| 0 <= i < |target| && target[i].body.eventId == id;
      assert (target + rows[..n])[i] == target[i];
      assert HasId(target + rows[..n], id);
      if Head(calls).Works? && AllNew(target, rows[..n]) {
        SendingOnlyAdds(target + rows[..n], rows[n..], Tail(calls), id);
      }
    }
  }

  lemma StuckFileIsRefused(target: seq<Record>, rows: seq<Record>, calls: seq<Call>)
    requires rows != [] && HasId(target, rows[0].body.eventId)
    ensures var sent := SendAll(Reject, target, rows, calls); !sent.ok && sent.target == target
  {
    hide SendAll;
    var batch, more := rows[..BatchSize(rows)], rows[BatchSize(rows)..];
    assert batch + more == rows && batch[0] == rows[0];
    SendBatch(Reject, target, batch, more, calls);
    assert !AllNew(target, batch);
  }

  lemma StuckDrain(s: State, calls: seq<Call>)
    requires Stuck(s)
    ensures var (s', ok) := AfterDrain(Reject, s, calls);
      Stuck(s') && s'.truncated == s.truncated && (s.fs ==> !ok)
  {
    hide SendAll;
    if s.fs {
      assert s.Memory() == [];
      SendNothing(Reject, s.target, calls);
      assert s.File()[0] == s.filed[s.truncated];
      StuckFileIsRefused(s.target, s.File(), calls);
    } else {
      SendingOnlyAdds(s.target, s.Memory(), calls, s.filed[s.truncated].body.eventId);
    }
  }

  lemma StuckStep(s: State, step: Step, s': State)
    requires Stuck(s) && Next(Reject, s, step, s')
    ensures Stuck(s') && s'.truncated == s.truncated
    ensures step.Drain? && s.fs ==> !AfterDrain(Reject, s, step.calls).1
  {
    match step
    case Log(_, _) =>
    case Insert(row) => IdsAppend(s.target, row);
    case Drain(calls) => StuckDrain(s, calls);
  }

  /**
   A target with a primary key rejects the first batch of every later drain once it holds the file's
   first row. From then on, whatever is logged or inserted, no drain of the file ever succeeds again.
   */
  lemma {:induction false} StuckForever(states: seq<State>, steps: seq<Step>, i: nat)
    requires IsRun(Reject, states, steps) && Stuck(states[0]) && i < |states|
    ensures Stuck(states[i]) && states[i].truncated == states[0].truncated
  {
    if i > 0 {
      StuckForever(states, steps, i - 1);
      assert StepAt(Reject, states, steps, i - 1);
      StuckStep(states[i - 1], steps[i - 1], states[i]);
    }
  }

  /** With at most one batch of rows, a send is all or nothing unless its one call fails having stored some. */
  lemma OneBatchIsAllOrNothing(onDuplicate: OnDuplicate, target: seq<Record>, rows: seq<Record>, calls: seq<Call>)
    requires |rows| <= DRAIN_BATCH_SIZE
    ensures var sent := SendAll(onDuplicate, target, rows, calls);
            if sent.ok then sent.left == [] && (rows != [] ==> Write(onDuplicate, target, rows) == Some(sent.target))
            else sent.left == rows && (Head(calls).Works? || Head(calls) == Fails(0) ==> sent.target == target)
  {
    if rows != [] {
      SendBatch(onDuplicate, target, rows, [], calls);
      assert rows + [] == rows && rows[..0] == [];
    }
  }

  /** A file nothing of which has reached the target. */
  ghost predicate Untouched(s: State) {
    && s.fs && s.buffered == [] && s.drained == 0 && s.truncated <= |s.filed|
    && AllNew(s.target, s.File())
  }

  /** The second batch fails: the first is in the target, and still in the file. */
  lemma FailedSecondBatch(s: State)
    requires Untouched(s) && |s.File()| > DRAIN_BATCH_SIZE
    ensures var (s', ok) := AfterDrain(Reject, s, [Works, Fails(0)]); !ok && Stuck(s')
  {
    var rows := s.File();
    var batch, more := rows[..DRAIN_BATCH_SIZE], rows[DRAIN_BATCH_SIZE..];
    assert batch + more == rows && s.Memory() == [];
    forall i | 0 <= i < |batch| ensures !HasId(s.target, batch[i].body.eventId) {
      assert batch[i] == rows[i];
    }
    SendNothing(Reject, s.target, [Works, Fails(0)]);
    SendBatch(Reject, s.target, batch, more, [Works, Fails(0)]);
    assert Tail([Works, Fails(0)]) == [Fails(0)];
    assert !SendAll(Reject, s.target + batch, more, [Fails(0)]).ok;
    assert (s.target + batch)[|s.target|] == rows[0] == s.filed[s.truncated];
  }

  /** A failing call stored nothing: no commit went through unacknowledged. */
  predicate IsAcknowledged(calls: seq<Call>) {
    forall c | c in calls :: c.Works? || c == Fails(0)
  }

  /** The only batch is committed but the acknowledgement is lost: the rows are in the target, and in the file. */
  lemma LostAcknowledgement(s: State)
    requires Untouched(s) && s.File() != []
    ensures var (s', ok) := AfterDrain(Reject, s, [Fails(DRAIN_BATCH_SIZE)]); !ok && Stuck(s')
  {
    var rows, calls := s.File(), [Fails(DRAIN_BATCH_SIZE)];
    var batch, more := rows[..BatchSize(rows)], rows[BatchSize(rows)..];
    assert batch + more == rows && s.Memory() == [];
    forall i | 0 <= i < |batch| ensures !HasId(s.target, batch[i].body.eventId) {
      assert batch[i] == rows[i];
    }
    SendNothing(Reject, s.target, calls);
    SendBatch(Reject, s.target, batch, more, calls);
    assert AllNew(s.target, batch);
    assert (s.target + batch)[|s.target|] == rows[0] == s.filed[s.truncated];
  }

  /** A drain can leave any untouched file with rows stuck, by a lost acknowledgement. */
  lemma CanGetStuckIff(s: State)
    requires Untouched(s)
    ensures (exists calls :: Stuck(AfterDrain(Reject, s, calls).0)) <==> s.File() != []
  {
    if s.File() != [] {
      LostAcknowledgement(s);
      assert Stuck(AfterDrain(Reject, s, [Fails(DRAIN_BATCH_SIZE)]).0);
    } else {
      forall calls ensures !Stuck(AfterDrain(Reject, s, calls).0) {
        assert s.Memory() == [];
        SendNothing(Reject, s.target, calls);
      }
    }
  }

  /** While no acknowledgement is lost, exactly a file of more than one batch can get stuck. */
  lemma CanGetStuckAcknowledgedIff(s: State)
    requires Untouched(s)
    ensures (exists calls :: IsAcknowledged(calls) && Stuck(AfterDrain(Reject, s, calls).0)) <==> |s.File()| > DRAIN_BATCH_SIZE
  {
    if |s.File()| > DRAIN_BATCH_SIZE {
      FailedSecondBatch(s);
      assert IsAcknowledged([Works, Fails(0)]) && Stuck(AfterDrain(Reject, s, [Works, Fails(0)]).0);
    } else {
      forall calls | IsAcknowledged(calls) ensures !Stuck(AfterDrain(Reject, s, calls).0) {
        assert s.Memory() == [];
        SendNothing(Reject, s.target, calls);
        OneBatchIsAllOrNothing(Reject, s.target, s.File(), calls);
        if s.truncated < |s.filed| {
          assert s.File()[0] == s.filed[s.truncated];
        }
      }
    }
  }
}
