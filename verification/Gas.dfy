/** The gas budget of a transaction and of a block. */
module Gas {
  import opened GoInt
  import opened Options
  import opened Arithmetic
  import opened Blocks
  import opened Sequences

  const MAX_BLOCK_GAS_LIMIT: int := 800_000_000

  // What storing, looking up and deleting the record of a delayed transaction costs.
  const PUT_COST: nat := 300
  const GET_COST: nat := 300
  const DEL_COST: nat := 300

  datatype Code = Success | RuntimeError | OutOfGas | Timeout

  /** The gas that a cost stands for. */
  function ToGas(net: nat, cpu: nat): nat {
    10 * net + cpu
  }

  /**
   What the virtual machine reports about one action: its cost, its status, the length of its return
   value, and whether the publisher's total gas no longer covers the limit. Running an action leaves the
   gas paid so far unchanged.
   */
  datatype Action = Action(net: nat, cpu: nat, code: Code, retLen: nat, short: bool)

  /**
   A transaction with its size in bytes and the outcomes of its actions; if it is deferred, `known` says that the
   state has a record of the delayed transaction it belongs to.
   */
  datatype Job = Job(tx: Tx, size: nat, actions: seq<Action>, known: bool)

  /** The budget of a transaction in units of gas. */
  function Budget(t: Tx): int
    requires t.gasRatio > 0
  {
    t.gasLimit / t.gasRatio
  }

  /** The gas charged for an action when `left` units remain, and the status it ends with. */
  function Charge(a: Action, left: nat): (r: (nat, Code))
    ensures r.0 <= left
  {
    var cost := ToGas(a.net + a.retLen, a.cpu);
    if a.code == OutOfGas || left < cost || a.short then (left, OutOfGas)
    else if a.code == Timeout then (left, Timeout)
    else (cost, a.code)
  }

  /** The gas paid and the gas left when the loop of Run is done with the actions, and the last status. */
  function Spend(actions: seq<Action>, paid: nat, left: nat): (r: (nat, nat, Code))
    ensures r.0 + r.1 == paid + left
  {
    if actions == [] then (paid, left, Success)
    else
      var (gas, code) := Charge(actions[0], left);
      if code == Success then Spend(actions[1..], paid + gas, left - gas) else (paid + gas, left - gas, code)
  }

  // ---------------------------------------------------------------- the bill of the actions

  /** Reference: what the first k actions cost. */
  function Total(actions: seq<Action>, k: nat): nat
    requires k <= |actions|
  {
    if k == 0 then 0
    else var a := actions[k - 1]; Total(actions, k - 1) + 10 * (a.net + a.retLen) + a.cpu
  }

  /** Action i succeeds, and all actions up to it are within the limit. */
  ghost predicate Smooth(actions: seq<Action>, limit: nat, i: nat)
    requires i < |actions|
  {
    actions[i].code == Success && !actions[i].short && Total(actions, i + 1) <= limit
  }

  /** The loop stops at action k, or behind the last one. */
  ghost predicate StopsBefore(actions: seq<Action>, limit: nat, k: nat) {
    && k <= |actions| && (forall i :: 0 <= i < k ==> Smooth(actions, limit, i))
    && (k < |actions| ==> !Smooth(actions, limit, k))
  }

  /** What the actions come to if the loop stops at action k: the gas for them and the status. */
  ghost function Bill(actions: seq<Action>, limit: nat, k: nat): (nat, Code)
    requires k <= |actions|
  {
    if k == |actions| then (Total(actions, k), Success)
    else
      var a, cost := actions[k], Total(actions, k + 1);
      if a.code == OutOfGas || a.short || cost > limit then (limit, OutOfGas)
      else if a.code == Timeout then (limit, Timeout)
      else (cost, a.code)
  }

  lemma {:induction false} StopExists(actions: seq<Action>, limit: nat, j: nat) returns (k: nat)
    requires j <= |actions| && forall i :: 0 <= i < j ==> Smooth(actions, limit, i)
    ensures StopsBefore(actions, limit, k)
    decreases |actions| - j
  {
    if j < |actions| && Smooth(actions, limit, j) {
      k := StopExists(actions, limit, j + 1);
    } else {
      k := j;
    }
  }

  lemma {:induction false} TotalRest(actions: seq<Action>, k: nat)
    requires 0 < k <= |actions|
    ensures Total(actions, k) == Total(actions, 1) + Total(actions[1..], k - 1)
  {
    if k > 1 {
      TotalRest(actions, k - 1);
      assert actions[1..][k - 2] == actions[k - 1];
    }
  }

  lemma FirstCost(actions: seq<Action>)
    requires actions != []
    ensures Total(actions, 1) == ToGas(actions[0].net + actions[0].retLen, actions[0].cpu)
  {
  }

  lemma SmoothRest(actions: seq<Action>, limit: nat, i: nat)
    requires 0 < i < |actions| && Total(actions, 1) <= limit
    ensures Smooth(actions, limit, i) <==> Smooth(actions[1..], limit - Total(actions, 1), i - 1)
  {
    TotalRest(actions, i + 1);
  }

  /**
   The bill: every action that succeeds, and one that ends in a runtime error, is charged what it costs; the first
   action that is reported out of gas or short, or with which the actions exceed the limit, takes all that is left,
   and so does one that runs out of time.
   */
  lemma {:induction false} SpendExact(actions: seq<Action>, paid: nat, limit: nat, k: nat)
    requires StopsBefore(actions, limit, k)
    ensures var (gas, code) := Bill(actions, limit, k);
            gas <= limit && Spend(actions, paid, limit) == (paid + gas, limit - gas, code)
    decreases |actions|
  {
    hide Total, ToGas;
    if actions == [] {
      NoCost(actions);
    } else {
      FirstCost(actions);
      if k > 0 {
        var cost := Total(actions, 1);
        assert Smooth(actions, limit, 0);
        forall i | 0 < i < |actions|
          ensures Smooth(actions, limit, i) <==> Smooth(actions[1..], limit - cost, i - 1)
        {
          SmoothRest(actions, limit, i);
        }
        RestStops(actions, limit, k);
        SpendExact(actions[1..], paid + cost, limit - cost, k - 1);
        TotalRest(actions, k);
        if k < |actions| {
          TotalRest(actions, k + 1);
        }
      }
    }
  }

  lemma NoCost(actions: seq<Action>)
    ensures Total(actions, 0) == 0
  {
  }

  lemma RestStops(actions: seq<Action>, limit: nat, k: nat)
    requires StopsBefore(actions, limit, k) && k > 0 && Total(actions, 1) <= limit
    ensures StopsBefore(actions[1..], limit - Total(actions, 1), k - 1)
  {
    hide Smooth;
    var rest, left := actions[1..], limit - Total(actions, 1);
    forall i | 0 <= i < k - 1 ensures Smooth(rest, left, i) {
      SmoothRest(actions, limit, i + 1);
    }
    if k < |actions| {
      SmoothRest(actions, limit, k);
    }
  }

  lemma {:induction false} SpendShift(actions: seq<Action>, paid: nat, more: nat, left: nat)
    ensures var r := Spend(actions, paid, left); Spend(actions, paid + more, left) == (r.0 + more, r.1, r.2)
    decreases |actions|
  {
    if actions != [] {
      var (gas, code) := Charge(actions[0], left);
      if code == Success {
        SpendShift(actions[1..], paid + gas, more, left - gas);
      }
    }
  }

  /** A transaction that ends for lack of gas or time has used up what it was given. */
  lemma {:induction false} NothingLeft(actions: seq<Action>, paid: nat, left: nat)
    requires Spend(actions, paid, left).2 in {OutOfGas, Timeout}
    ensures Spend(actions, paid, left).1 == 0
    decreases |actions|
  {
    var (gas, code) := Charge(actions[0], left);
    if code == Success {
      NothingLeft(actions[1..], paid + gas, left - gas);
    }
  }

  /** The result of Run: `Fatal` stops the node, `Refused` is an error, otherwise there is a status and a bill. */
  datatype RunResult = Fatal | Refused | Finished(code: Code, paid: nat)

  /**
   What running a prepared transaction comes to. The record of a delayed transaction is paid for on top of the
   budget, both when the delayed transaction stores it and when the deferred one uses it up.
   */
  function Outcome(time: int64, j: Job): RunResult
    requires j.tx.gasRatio > 0
  {
    var bytes, budget := ToGas(j.size, 0), Budget(j.tx);
    if bytes >= budget then Fatal
    else if j.tx.delay > 0 then Finished(Success, bytes + PUT_COST)
    else if !j.tx.isDefer then
      var (paid, left, code) := Spend(j.actions, bytes, budget - bytes); Finished(code, paid)
    else if !j.known then Refused
    else if j.tx.IsExpired(time) then Finished(RuntimeError, bytes + GET_COST + DEL_COST)
    else
      var (paid, left, code) := Spend(j.actions, bytes + GET_COST, budget - bytes); Finished(code, paid + DEL_COST)
  }

  /**
   The outcome of a prepared transaction in numbers. Of the limit divided by the ratio, ten units for every byte are
   gone; what is left is for the actions.
   */
  lemma OutcomeExact(time: int64, j: Job) returns (k: nat)
    requires j.tx.gasRatio > 0
    ensures var left := j.tx.gasLimit / j.tx.gasRatio - 10 * j.size;
            var late := time >= j.tx.expiration || time - j.tx.time > 90_000_000_000;
            && (Outcome(time, j) == Fatal <==> left <= 0)
            && (left > 0 && j.tx.delay > 0 ==> Outcome(time, j) == Finished(Success, 10 * j.size + 300))
            && (left > 0 && j.tx.delay <= 0 && j.tx.isDefer ==>
                  && (!j.known <==> Outcome(time, j) == Refused)
                  && (j.known && j.tx.IsExpired(time) ==>
                        Outcome(time, j) == Finished(RuntimeError, 10 * j.size + 600)))
            && (left > 0 && j.tx.delay <= 0 && (j.tx.isDefer ==> j.known && !j.tx.IsExpired(time)) ==>
                  && StopsBefore(j.actions, left, k)
                  && var (gas, code) := Bill(j.actions, left, k);
                     Outcome(time, j) == Finished(code, 10 * j.size + gas + if j.tx.isDefer then 600 else 0))
            && (j.tx.WellTimed() && time >= 0 ==> (j.tx.IsExpired(time) <==> late))
  {
    hide Spend, Bill, StopsBefore;
    k := 0;
    var left := Budget(j.tx) - ToGas(j.size, 0);
    if left > 0 {
      k := StopExists(j.actions, left, 0);
      SpendExact(j.actions, ToGas(j.size, 0), left, k);
      SpendExact(j.actions, ToGas(j.size, 0) + GET_COST, left, k);
    }
  }

  /** PayCost stops the node if the bill exceeds the limit. */
  predicate Overdrawn(t: Tx, paid: nat) {
    t.gasLimit < paid * t.gasRatio
  }

  class Isolator {
    var paid: nat        // GasPaid

    constructor ()
      ensures paid == 0
    {
      paid := 0;
    }

    method ClearTx()
      modifies this
      ensures paid == 0
    {
      paid := 0;
    }

    method PayCost(net: nat, cpu: nat)
      modifies this
      ensures paid == old(paid) + ToGas(net, cpu)
    {
      paid := paid + ToGas(net, cpu);
    }

    /** PrepareTx: the bytes of the transaction are paid for, and must leave some of its limit. */
    method PrepareTx(j: Job, admitted: bool) returns (ok: bool)
      requires paid == 0
      modifies this
      ensures paid == ToGas(j.size, 0)
      ensures ok <==> j.tx.CheckGas() && paid * j.tx.gasRatio < j.tx.gasLimit && admitted
    {
      PayCost(j.size, 0);
      ok := j.tx.CheckGas() && paid * j.tx.gasRatio < j.tx.gasLimit && admitted;
    }

    /** Run */
    method Run(j: Job, time: int64) returns (r: RunResult)
      requires j.tx.gasRatio > 0 && paid == ToGas(j.size, 0)
      modifies this
      ensures r == Outcome(time, j)
      ensures r.Finished? ==> paid == r.paid
    {
      var vmGasLimit := Budget(j.tx) - paid;
      if vmGasLimit <= 0 {
        return Fatal;
      }
      if j.tx.delay > 0 {
        PayCost(0, PUT_COST);
        return Finished(Success, paid);
      }
      if j.tx.isDefer {
        if !j.known {
          return Refused;
        }
        PayCost(0, GET_COST);
        if j.tx.IsExpired(time) {
          PayCost(0, DEL_COST);
          return Finished(RuntimeError, paid);
        }
      }
      var code := RunActions(j, vmGasLimit);
      if j.tx.isDefer {
        PayCost(0, DEL_COST);
      }
      r := Finished(code, paid);
    }

    /** The loop of Run. At every action, the gas paid and the gas that remains keep their sum. */
    method RunActions(j: Job, limit: nat) returns (code: Code)
      modifies this
      ensures var s := Spend(j.actions, old(paid), limit); paid == s.0 && code == s.2
    {
      var vmGasLimit := limit;
      var i := 0;
      while i < |j.actions|
        invariant 0 <= i <= |j.actions| && vmGasLimit >= 0 && paid + vmGasLimit == old(paid) + limit
        invariant Spend(j.actions[i..], paid, vmGasLimit) == Spend(j.actions, old(paid), limit)
      {
        var a := j.actions[i];
        assert j.actions[i..][0] == a && j.actions[i..][1..] == j.actions[i + 1..];
        var net, cpu, status := a.net + a.retLen, a.cpu, a.code;
        if status == OutOfGas || vmGasLimit < ToGas(net, cpu) || a.short {
          status, net, cpu := OutOfGas, 0, vmGasLimit;
        } else if status == Timeout {
          net, cpu := 0, vmGasLimit;
        }
        PayCost(net, cpu);
        if status != Success {
          return status;
        }
        vmGasLimit := vmGasLimit - ToGas(net, cpu);
        i := i + 1;
      }
      code := Success;
    }
  }

  lemma BillExact(t: Tx, paid: nat)
    requires t.CheckGas()
    ensures Overdrawn(t, paid) <==> paid > Budget(t)
  {
    var q := Budget(t);
    assert t.gasLimit == q * t.gasRatio + t.gasLimit % t.gasRatio;
    if paid <= q {
      MulMono(paid, q, t.gasRatio);
    } else {
      MulMono(q + 1, paid, t.gasRatio);
    }
  }

  /**
   A plain transaction never pays more than its limit. A deferred one does exactly if its actions, or its bytes if it
   has expired, leave less gas than the record costs; a delayed one, if its bytes do.
   */
  lemma OverdrawnExact(time: int64, j: Job)
    requires j.tx.CheckGas() && Outcome(time, j).Finished?
    ensures var left := Budget(j.tx) - ToGas(j.size, 0);
            Overdrawn(j.tx, Outcome(time, j).paid) <==>
            if j.tx.delay > 0 then left < PUT_COST
            else if !j.tx.isDefer then false
            else if j.tx.IsExpired(time) then left < GET_COST + DEL_COST
            else Spend(j.actions, ToGas(j.size, 0), left).1 < GET_COST + DEL_COST
  {
    hide Spend, Overdrawn, Budget;
    var p := ToGas(j.size, 0);
    BillExact(j.tx, Outcome(time, j).paid);
    SpendShift(j.actions, p, GET_COST, Budget(j.tx) - p);
  }

  /** So every deferred transaction that ends for lack of gas or time stops the node. */
  lemma DeferredOverdraws(time: int64, j: Job)
    requires j.tx.CheckGas() && j.tx.isDefer && j.tx.delay <= 0 && Outcome(time, j).Finished?
    requires Outcome(time, j).code in {OutOfGas, Timeout}
    ensures Overdrawn(j.tx, Outcome(time, j).paid)
  {
    hide Spend, Overdrawn, Budget;
    var p := ToGas(j.size, 0);
    OverdrawnExact(time, j);
    SpendShift(j.actions, p, GET_COST, Budget(j.tx) - p);
    NothingLeft(j.actions, p, Budget(j.tx) - p);
  }

  /** For example, one of 100 bytes with a budget of 10000 whose only action runs out of time is billed 10600 units. */
  lemma DeferredCanBeFatal(time: int64, t: Tx)
    requires t.gasRatio == 100 && t.gasLimit == 1_000_000 && t.isDefer && t.delay == 0 && !t.IsExpired(time)
    ensures var j := Job(t, 100, [Action(0, 0, Timeout, 0, false)], true);
            t.CheckGas() && Outcome(time, j) == Finished(Timeout, 10_600) && Overdrawn(t, 10_600)
  {
    var j := Job(t, 100, [Action(0, 0, Timeout, 0, false)], true);
    assert Charge(j.actions[0], 9_000) == (9_000, Timeout);
  }

  /**
   PrepareTx compares the paid gas with the limit before dividing by the ratio, Run after it. So Run can
   meet an empty budget, which stops the node, exactly if less than one unit of gas is left of the limit.
   */
  lemma PreparedLeavesGas(t: Tx, paid: nat)
    requires t.CheckGas() && paid * t.gasRatio < t.gasLimit
    ensures paid < Budget(t) <==> (paid + 1) * t.gasRatio <= t.gasLimit
    ensures t.gasLimit % t.gasRatio == 0 ==> paid < Budget(t)
  {
    var q := Budget(t);
    assert t.gasLimit == q * t.gasRatio + t.gasLimit % t.gasRatio;
    if paid < q {
      MulMono(paid + 1, q, t.gasRatio);
    } else {
      MulMono(q + 1, paid + 1, t.gasRatio);
      MulMono(q, paid, t.gasRatio);
    }
  }

  /** For example, 600 bytes cost 6000 units, the whole budget of a limit of 600050 at ratio 100. */
  lemma PreparedCanBeFatal(t: Tx)
    requires t.gasRatio == 100 && t.gasLimit == 600050
    ensures t.CheckGas() && ToGas(600, 0) * t.gasRatio < t.gasLimit && ToGas(600, 0) >= Budget(t)
  {
  }

  // ---------------------------------------------------------------- filling a block

  /** A transaction with its receipt's gas usage. */
  datatype Entry = Entry(job: Job, gasUsage: int)

  function TotalGas(entries: seq<Entry>): int {
    if entries == [] then 0 else TotalGas(entries[..|entries| - 1]) + entries[|entries| - 1].gasUsage
  }

  /** What `verify` comes to for one transaction; `Stops` stops the node. */
  datatype Check = Good | Bad | Stops

  /** Arrival and expiry, the gas the transaction offers, and the gas usage that executing it again gives. */
  function Checked(time: int64, e: Entry): Check {
    var t := e.job.tx;
    if !t.IsCreatedBefore(time) || (t.IsExpired(time) && !t.isDefer) then Bad
    else if !t.CheckGas() || ToGas(e.job.size, 0) * t.gasRatio >= t.gasLimit then Bad
    else
      match Outcome(time, e.job)
      case Fatal => Stops
      case Refused => Bad
      case Finished(_, paid) =>
        if Overdrawn(t, paid) then Stops else if e.gasUsage == paid * t.gasRatio then Good else Bad
  }

  predicate Verifies(time: int64, e: Entry) {
    Checked(time, e) == Good
  }

  /** What baseVerify accepts. */
  ghost predicate Accepted(time: int64, entries: seq<Entry>) {
    TotalGas(entries) <= MAX_BLOCK_GAS_LIMIT && forall i :: 0 <= i < |entries| ==> Verifies(time, entries[i])
  }

  /** A transaction offered by the pool, and what happens to it outside the gas rules. */
  datatype Candidate = Candidate(job: Job, bad: bool, admitted: bool, hurried: bool, pays: bool)

  /** The verdict on one candidate: its entry in the block, or why it is left out; `Exit` stops the node. */
  datatype Verdict = Take(entry: Entry) | Skip | Stop | Exit

  /** The candidate may be executed when `rest` is left of the gas of the block. */
  predicate Eligible(time: int64, c: Candidate, rest: int) {
    var t := c.job.tx;
    && t.IsCreatedBefore(time) && t.delay <= 0 && !c.bad && (!t.IsExpired(time) || t.isDefer) && t.gasLimit <= rest
    && t.CheckGas() && ToGas(c.job.size, 0) * t.gasRatio < t.gasLimit && c.admitted
  }

  /** The candidate stops the node: it has no budget once its bytes are paid for, or its bill exceeds its limit. */
  predicate Kills(time: int64, c: Candidate) {
    && c.job.tx.CheckGas()
    && match Outcome(time, c.job)
       case Fatal => true
       case Refused => false
       case Finished(_, paid) => Overdrawn(c.job.tx, paid)
  }

  /** The candidate runs out of the time that is left for it, which ends the filling of the block. */
  predicate Interrupts(time: int64, c: Candidate) {
    && c.job.tx.CheckGas() && c.hurried
    && Outcome(time, c.job).Finished? && Outcome(time, c.job).code == Timeout
  }

  function Judge(time: int64, c: Candidate, rest: int): Verdict {
    if !Eligible(time, c, rest) || Outcome(time, c.job).Refused? then Skip
    else if Interrupts(time, c) then Stop
    else if Kills(time, c) then Exit
    else if !c.pays then Skip
    else Take(Entry(c.job, Outcome(time, c.job).paid * c.job.tx.gasRatio))
  }

  /** The entries made of the candidates, in order, with `rest` left of the gas of the block; None if the node exits. */
  function Filled(time: int64, candidates: seq<Candidate>, rest: int): Option<seq<Entry>>
    decreases |candidates|, 0
  {
    if candidates == [] then Some([]) else After(Judge(time, candidates[0], rest), time, candidates[1..], rest)
  }

  /** The entries from a verdict on. */
  function After(v: Verdict, time: int64, candidates: seq<Candidate>, rest: int): Option<seq<Entry>>
    decreases |candidates|, 1
  {
    match v
    case Exit => None
    case Stop => Some([])
    case Skip => Filled(time, candidates, rest)
    case Take(e) => Prepend([e], Filled(time, candidates, rest - e.gasUsage))
  }

  function Prepend(front: seq<Entry>, more: Option<seq<Entry>>): Option<seq<Entry>> {
    match more case None => None case Some(entries) => Some(front + entries)
  }

  /** What is taken verifies and stays within the rest of the block. */
  lemma TakenVerifies(time: int64, c: Candidate, rest: int)
    requires Judge(time, c, rest).Take?
    ensures var e := Judge(time, c, rest).entry;
            e.job == c.job && Verifies(time, e) && 0 <= e.gasUsage <= c.job.tx.gasLimit <= rest
  {
    UsageIsPositive(Outcome(time, c.job).paid, c.job.tx.gasRatio);
  }

  /** A well-timed ordinary transaction verifies only in a block that it is in time for. */
  lemma VerifiedIsInTime(time: int64, e: Entry)
    requires Verifies(time, e) && e.job.tx.WellTimed()
    ensures e.job.tx.isDefer || e.job.tx.InTime(time)
  {
    TimesExact(e.job.tx, time);
  }

  /** What a block may hold, in numbers: in time unless deferred, within the gas bounds, billed as the run bills it. */
  lemma VerifiesExact(time: int64, e: Entry)
    requires e.job.tx.WellTimed() && time >= 0
    ensures var t, bytesGas := e.job.tx, 10 * e.job.size;
            Verifies(time, e) <==>
            && t.time <= time && (t.isDefer || t.InTime(time))
            && 100 <= t.gasRatio <= 10_000 && 600_000 <= t.gasLimit <= 400_000_000 && bytesGas * t.gasRatio < t.gasLimit
            && Outcome(time, e.job).Finished?
            && var paid := Outcome(time, e.job).paid; e.gasUsage == paid * t.gasRatio <= t.gasLimit
  {
    TimesExact(e.job.tx, time);
  }

  /** What may be tried for a block, in numbers. */
  lemma EligibleExact(time: int64, c: Candidate, rest: int)
    requires c.job.tx.WellTimed() && time >= 0
    ensures var t := c.job.tx;
            Eligible(time, c, rest) <==>
            && t.time <= time && (t.isDefer || t.InTime(time)) && t.delay <= 0 && !c.bad && c.admitted
            && 100 <= t.gasRatio <= 10_000 && 600_000 <= t.gasLimit <= 400_000_000 && t.gasLimit <= rest
            && 10 * c.job.size * t.gasRatio < t.gasLimit
  {
    TimesExact(c.job.tx, time);
  }

  /** When each verdict is given, read off the outcome of the run. */
  lemma JudgeExact(time: int64, c: Candidate, rest: int)
    ensures !Eligible(time, c, rest) ==> Judge(time, c, rest) == Skip
    ensures Eligible(time, c, rest) ==>
            var v, o, ratio := Judge(time, c, rest), Outcome(time, c.job), c.job.tx.gasRatio;
            var ends := o.Finished? && o.code == Timeout && c.hurried;
            && (v == Stop <==> ends)
            && (v == Exit <==> o.Fatal? || (o.Finished? && !ends && o.paid * ratio > c.job.tx.gasLimit))
            && (v.Take? <==> o.Finished? && !ends && o.paid * ratio <= c.job.tx.gasLimit && c.pays)
            && (v.Take? ==> v.entry == Entry(c.job, o.paid * ratio))
  {
    hide Outcome;
  }

  lemma UsageIsPositive(a: nat, b: nat)
    ensures a * b >= 0
  {
  }

  lemma {:induction false} TotalGasFirst(e: Entry, entries: seq<Entry>)
    ensures TotalGas([e] + entries) == e.gasUsage + TotalGas(entries)
    decreases |entries|
  {
    if entries == [] {
      assert [e] + entries == [e] && TotalGas([e][..0]) == 0;
    } else {
      var n := |entries| - 1;
      TotalGasFirst(e, entries[..n]);
      assert ([e] + entries)[..n + 1] == [e] + entries[..n];
    }
  }

  /** The entries pass baseVerify, whatever the candidates are. */
  lemma {:induction false} FilledIsAccepted(time: int64, candidates: seq<Candidate>, rest: nat)
    requires Filled(time, candidates, rest).Some?
    ensures var entries := Filled(time, candidates, rest).value;
            0 <= TotalGas(entries) <= rest && forall i :: 0 <= i < |entries| ==> Verifies(time, entries[i])
    decreases |candidates|
  {
    hide Verifies, Judge;
    if candidates != [] {
      var v := Judge(time, candidates[0], rest);
      if v.Take? {
        TakenVerifies(time, candidates[0], rest);
        FilledIsAccepted(time, candidates[1..], rest - v.entry.gasUsage);
        TotalGasFirst(v.entry, Filled(time, candidates[1..], rest - v.entry.gasUsage).value);
      } else if v.Skip? {
        FilledIsAccepted(time, candidates[1..], rest);
      }
    }
  }

  /** No candidate that still fits at the end is left out, unless one ended the filling early. */
  lemma {:induction false} FilledIsMaximal(time: int64, candidates: seq<Candidate>, rest: nat, k: nat) returns (i: nat)
    requires Filled(time, candidates, rest).Some?
    requires k < |candidates| && forall j :: 0 <= j < |candidates| ==> !Interrupts(time, candidates[j])
    requires candidates[k].pays && Eligible(time, candidates[k], rest - TotalGas(Filled(time, candidates, rest).value))
    requires !Outcome(time, candidates[k].job).Refused?
    ensures var entries := Filled(time, candidates, rest).value; i < |entries| && entries[i].job == candidates[k].job
    decreases |candidates|
  {
    hide Verifies, Outcome, Budget;
    var v := Judge(time, candidates[0], rest);
    FilledIsAccepted(time, candidates, rest);
    if v.Take? {
      TakenVerifies(time, candidates[0], rest);
      TotalGasFirst(v.entry, Filled(time, candidates[1..], rest - v.entry.gasUsage).value);
      if k > 0 {
        i := FilledIsMaximal(time, candidates[1..], rest - v.entry.gasUsage, k - 1);
        i := i + 1;
      } else {
        i := 0;
      }
    } else {
      i := FilledIsMaximal(time, candidates[1..], rest, k - 1);
    }
  }

  /** The node exits only at a candidate that stops it. */
  lemma {:induction false} ExitNeedsKiller(time: int64, candidates: seq<Candidate>, rest: int) returns (k: nat)
    requires Filled(time, candidates, rest).None?
    ensures k < |candidates| && Kills(time, candidates[k])
    decreases |candidates|
  {
    hide Kills, Eligible, Interrupts, Outcome;
    var v := Judge(time, candidates[0], rest);
    if v.Exit? {
      k := 0;
    } else {
      k := ExitNeedsKiller(time, candidates[1..], if v.Take? then rest - v.entry.gasUsage else rest);
      k := k + 1;
    }
  }

  /** The body of the loop of baseGen for one candidate. */
  method Consider(isolator: Isolator, time: int64, c: Candidate, blockGasLimit: int) returns (v: Verdict)
    modifies isolator
    ensures v == Judge(time, c, blockGasLimit)
  {
    isolator.ClearTx();
    var t := c.job.tx;
    if !t.IsCreatedBefore(time) || t.delay > 0 || c.bad || (t.IsExpired(time) && !t.isDefer) ||
        t.gasLimit > blockGasLimit {
      return Skip;
    }
    var ok := isolator.PrepareTx(c.job, c.admitted);
    if !ok {
      return Skip;
    }
    var r := isolator.Run(c.job, time);
    if r.Fatal? {
      return Exit;
    }
    if r.Refused? {
      return Skip;
    }
    if r.code == Timeout && c.hurried {
      return Stop;
    }
    if t.gasLimit < isolator.paid * t.gasRatio {
      return Exit;
    }
    if !c.pays {
      return Skip;
    }
    v := Take(Entry(c.job, isolator.paid * t.gasRatio));
  }

  /** baseGen: whatever the pool offers, a block that is built passes the checks of its verifiers on gas and times. */
  method BaseGen(time: int64, candidates: seq<Candidate>) returns (r: Option<seq<Entry>>)
    ensures r == Filled(time, candidates, MAX_BLOCK_GAS_LIMIT)
    ensures r.Some? ==> Accepted(time, r.value) && TotalGas(r.value) <= 800_000_000
    ensures r.Some? ==>
              forall i :: 0 <= i < |r.value| && r.value[i].job.tx.WellTimed() ==>
                r.value[i].job.tx.isDefer || r.value[i].job.tx.InTime(time)
  {
    hide Judge, Filled, After, Verifies, TotalGas;
    if Filled(time, candidates, MAX_BLOCK_GAS_LIMIT).Some? {
      FilledIsAccepted(time, candidates, MAX_BLOCK_GAS_LIMIT);
      ghost var all := Filled(time, candidates, MAX_BLOCK_GAS_LIMIT).value;
      forall i | 0 <= i < |all| && all[i].job.tx.WellTimed()
        ensures all[i].job.tx.isDefer || all[i].job.tx.InTime(time)
      {
        VerifiedIsInTime(time, all[i]);
      }
    }
    var isolator := new Isolator();
    var blockGasLimit := MAX_BLOCK_GAS_LIMIT;
    var entries: seq<Entry> := [];
    var k := 0;
    assert candidates[0..] == candidates;
    PrependNothing(Filled(time, candidates, MAX_BLOCK_GAS_LIMIT));
    while k < |candidates|
      invariant 0 <= k <= |candidates|
      invariant Prepend(entries, Filled(time, candidates[k..], blockGasLimit)) ==
                Filled(time, candidates, MAX_BLOCK_GAS_LIMIT)
    {
      FilledNext(time, candidates, k, blockGasLimit, entries);
      var v := Consider(isolator, time, candidates[k], blockGasLimit);
      if v.Exit? {
        return None;
      }
      if v.Stop? {
        return Some(entries);
      }
      if v.Take? {
        entries := entries + [v.entry];
        blockGasLimit := blockGasLimit - v.entry.gasUsage;
      }
      k := k + 1;
    }
    FilledEnd(time, candidates[k..], blockGasLimit, entries);
    r := Some(entries);
  }

  lemma PrependNothing(more: Option<seq<Entry>>)
    ensures Prepend([], more) == more
  {
    assert more.Some? ==> [] + more.value == more.value;
  }

  /** One round of that loop. */
  lemma FilledNext(time: int64, candidates: seq<Candidate>, k: nat, rest: int, entries: seq<Entry>)
    requires k < |candidates|
    ensures Prepend(entries, Filled(time, candidates[k..], rest)) ==
            match Judge(time, candidates[k], rest)
            case Exit => None
            case Stop => Some(entries)
            case Skip => Prepend(entries, Filled(time, candidates[k + 1..], rest))
            case Take(e) => Prepend(entries + [e], Filled(time, candidates[k + 1..], rest - e.gasUsage))
  {
    hide Judge;
    assert candidates[k..][1..] == candidates[k + 1..];
    var v := Judge(time, candidates[k], rest);
    assert entries + [] == entries;
    if v.Take? && Filled(time, candidates[k + 1..], rest - v.entry.gasUsage).Some? {
      Regroup(entries, [v.entry], Filled(time, candidates[k + 1..], rest - v.entry.gasUsage).value);
    }
  }

  lemma FilledEnd(time: int64, candidates: seq<Candidate>, rest: int, entries: seq<Entry>)
    requires candidates == []
    ensures Prepend(entries, Filled(time, candidates, rest)) == Some(entries)
  {
    assert entries + [] == entries;
  }

  /** The node stops at entry k, after all entries before it were good. */
  ghost predicate StopsAt(time: int64, entries: seq<Entry>, k: int) {
    && 0 <= k < |entries| && Checked(time, entries[k]) == Stops
    && forall i :: 0 <= i < k ==> Checked(time, entries[i]) == Good
  }

  /** baseVerify */
  method BaseVerify(time: int64, entries: seq<Entry>) returns (r: Check)
    ensures r == Good <==>
            TotalGas(entries) <= 800_000_000 && forall i :: 0 <= i < |entries| ==> Verifies(time, entries[i])
    ensures r == Stops <==> TotalGas(entries) <= MAX_BLOCK_GAS_LIMIT && exists k :: StopsAt(time, entries, k)
  {
    hide Checked;
    var blockGas := 0;
    for k := 0 to |entries|
      invariant blockGas == TotalGas(entries[..k])
    {
      assert entries[..k + 1][..k] == entries[..k];
      blockGas := blockGas + entries[k].gasUsage;
    }
    assert entries[..|entries|] == entries;
    if blockGas > MAX_BLOCK_GAS_LIMIT {
      return Bad;
    }
    var isolator := new Isolator();
    for k := 0 to |entries|
      invariant forall i :: 0 <= i < k ==> Checked(time, entries[i]) == Good
    {
      r := Verify(isolator, time, entries[k]);
      if r != Good {
        assert r == Stops ==> StopsAt(time, entries, k);
        return r;
      }
    }
    r := Good;
  }

  /** verify, for a transaction that the rest of the verification admits. */
  method Verify(isolator: Isolator, time: int64, e: Entry) returns (r: Check)
    modifies isolator
    ensures r == Checked(time, e)
  {
    var t := e.job.tx;
    if !t.IsCreatedBefore(time) || (t.IsExpired(time) && !t.isDefer) {
      return Bad;
    }
    isolator.ClearTx();
    var prepared := isolator.PrepareTx(e.job, true);
    if !prepared {
      return Bad;
    }
    var run := isolator.Run(e.job, time);
    if run.Fatal? {
      return Stops;
    }
    if run.Refused? {
      return Bad;
    }
    if t.gasLimit < isolator.paid * t.gasRatio {
      return Stops;
    }
    r := if e.gasUsage == isolator.paid * t.gasRatio then Good else Bad;
  }
}
