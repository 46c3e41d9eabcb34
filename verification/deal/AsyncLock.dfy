/**
 * The promise-chain mutex and the table of locks, as a system of interleaved steps. A ticket is one call of
 * runExclusive; chain[i] says whether the promise that ticket i awaits has resolved.
 */
module AsyncLocks {
  import opened Text
  import opened Hex

  datatype Phase = Waiting | Running | Finished(threw: bool)

  datatype AsyncLock = AsyncLock(tickets: seq<Phase>, chain: seq<bool>)

  /** A fresh lock: no ticket, and the queue is a resolved promise. */
  const FRESH := AsyncLock([], [true])

  datatype Step =
    | Call(id: Text)                          // runExclusive is called: the ticket takes its place in the queue
    | Start(key: Text, i: nat)                // await previous returns, the critical section begins
    | End(key: Text, i: nat, threw: bool)     // the section returns or throws; finally releases
    | Settle(key: Text, i: nat)               // previous.then(() => current) resolves

  type Locks = map<Text, AsyncLock>

  predicate Enabled(w: Locks, s: Step) {
    match s
    case Call(_) => true
    case Start(k, i) => k in w && i < |w[k].tickets| && i < |w[k].chain| && w[k].tickets[i] == Waiting && w[k].chain[i]
    case End(k, i, _) => k in w && i < |w[k].tickets| && w[k].tickets[i] == Running
    case Settle(k, i) =>
      && k in w && i < |w[k].tickets| && i + 1 < |w[k].chain|
      && w[k].chain[i] && w[k].tickets[i].Finished? && !w[k].chain[i + 1]
  }

  function Apply(w: Locks, s: Step): Locks
    requires Enabled(w, s)
  {
    match s
    case Call(id) =>
      var k := Lower(id);
      var l := if k in w then w[k] else FRESH;
      w[k := AsyncLock(l.tickets + [Waiting], l.chain + [false])]
    case Start(k, i) => w[k := w[k].(tickets := w[k].tickets[i := Running])]
    case End(k, i, threw) => w[k := w[k].(tickets := w[k].tickets[i := Finished(threw)])]
    case Settle(k, i) => w[k := w[k].(chain := w[k].chain[i + 1 := true])]
  }

  /** Any interleaving: a step that is not enabled is not taken. */
  function Run(w: Locks, steps: seq<Step>): Locks
    decreases |steps|
  {
    if steps == [] then w
    else if Enabled(w, steps[0]) then Run(Apply(w, steps[0]), steps[1..])
    else Run(w, steps[1..])
  }

  predicate LockInv(l: AsyncLock) {
    && |l.chain| == |l.tickets| + 1
    && l.chain[0]
    && (forall i :: 0 <= i < |l.tickets| && l.chain[i + 1] ==> l.tickets[i].Finished?)
    && (forall i, j :: 0 <= i < j < |l.chain| && l.chain[j] ==> l.chain[i])
    && (forall i :: 0 <= i < |l.tickets| && l.tickets[i] != Waiting ==> l.chain[i])
  }

  predicate Inv(w: Locks) {
    forall k <- w :: LockInv(w[k]) && Lower(k) == k
  }

  lemma {:induction false} EnqueueKeeps(l: AsyncLock)
    requires LockInv(l)
    ensures LockInv(AsyncLock(l.tickets + [Waiting], l.chain + [false]))
  {
  }

  lemma {:induction false} AdvanceKeeps(l: AsyncLock, i: nat, p: Phase)
    requires LockInv(l) && i < |l.tickets|
    requires if p == Running then l.tickets[i] == Waiting && l.chain[i] else l.tickets[i] == Running && p.Finished?
    ensures LockInv(l.(tickets := l.tickets[i := p]))
  {
  }

  lemma {:induction false} SettleKeeps(l: AsyncLock, i: nat)
    requires LockInv(l) && i < |l.tickets| && l.chain[i] && l.tickets[i].Finished?
    ensures LockInv(l.(chain := l.chain[i + 1 := true]))
  {
    var m := l.(chain := l.chain[i + 1 := true]);
    forall a, b | 0 <= a < b < |m.chain| && m.chain[b] ensures m.chain[a] {
      assert b == i + 1 ==> l.chain[a] || a == i;
    }
  }

  lemma {:induction false} StepKeepsInv(w: Locks, s: Step)
    requires Inv(w) && Enabled(w, s)
    ensures Inv(Apply(w, s))
  {
    hide Lower, LockInv;
    match s {
      case Call(id) =>
        LowerTwice(id);
        FreshInv();
        EnqueueKeeps(if Lower(id) in w then w[Lower(id)] else FRESH);
      case Start(k, i) => AdvanceKeeps(w[k], i, Running);
      case End(k, i, threw) => AdvanceKeeps(w[k], i, Finished(threw));
      case Settle(k, i) => SettleKeeps(w[k], i);
    }
  }

  lemma {:induction false} FreshInv()
    ensures LockInv(FRESH)
  {
  }

  lemma {:induction false} RunKeepsInv(w: Locks, steps: seq<Step>)
    requires Inv(w)
    ensures Inv(Run(w, steps))
    decreases |steps|
  {
    hide Inv;
    if steps != [] {
      if Enabled(w, steps[0]) {
        StepKeepsInv(w, steps[0]);
        RunKeepsInv(Apply(w, steps[0]), steps[1..]);
      } else {
        RunKeepsInv(w, steps[1..]);
      }
    }
  }

  /**
   * Mutual exclusion and order, in every reachable state and under every interleaving: when a ticket has left the
   * queue, every earlier ticket of its key has finished. So at most one section per key runs, in arrival order.
   */
  lemma {:induction false} MutualExclusion(steps: seq<Step>, k: Text, i: nat, j: nat)
    requires var w := Run(map[], steps);
      k in w && i < j < |w[k].tickets| && w[k].tickets[j] != Waiting
    ensures Run(map[], steps)[k].tickets[i].Finished?
  {
    hide Lower, Run;
    RunKeepsInv(map[], steps);
    var l := Run(map[], steps)[k];
    assert LockInv(l);
    assert l.chain[j] ==> l.chain[i + 1];
  }

  /** Contract ids that differ only in letter case share one lock; a step on one key leaves all others alone. */
  lemma {:induction false} KeysAreIndependent(w: Locks, s: Step, k: Text)
    requires Enabled(w, s)
    requires k != match s case Call(id) => Lower(id) case Start(q, _) => q case End(q, _, _) => q case Settle(q, _) => q
    ensures k in Apply(w, s) <==> k in w
    ensures k in w ==> Apply(w, s)[k] == w[k]
  {
    hide Lower;
  }

  /** How many links of a lock's chain are still to resolve. */
  function Unsettled(l: AsyncLock): nat {
    Count(l.chain)
  }

  function Count(chain: seq<bool>): nat {
    if chain == [] then 0 else (if chain[0] then 0 else 1) + Count(chain[1..])
  }

  lemma {:induction false} CountDrops(chain: seq<bool>, i: nat)
    requires i < |chain| && !chain[i]
    ensures Count(chain[i := true]) == Count(chain) - 1
  {
    if i == 0 {
      assert chain[0 := true][1..] == chain[1..];
    } else {
      assert chain[i := true][1..] == chain[1..][i - 1 := true];
      CountDrops(chain[1..], i - 1);
    }
  }

  /** A link whose predecessor has resolved. */
  lemma {:induction false} FirstOpenLink(l: AsyncLock, j: nat) returns (i: nat)
    requires LockInv(l) && j < |l.chain| && !l.chain[j]
    ensures i < j && l.chain[i] && !l.chain[i + 1]
  {
    if l.chain[j - 1] {
      i := j - 1;
    } else {
      i := FirstOpenLink(l, j - 1);
    }
  }

  /**
   * A section that throws still enables its successor: while some ticket waits and no section of the key runs, the
   * oldest waiting ticket can start, or a link can settle that brings it nearer; settling cannot go on for ever.
   */
  lemma {:induction false} SuccessorIsEnabled(w: Locks, k: Text, j: nat)
    requires Inv(w) && k in w && j < |w[k].tickets| && w[k].tickets[j] == Waiting
    requires forall i :: 0 <= i < j ==> w[k].tickets[i].Finished?
    ensures Enabled(w, Start(k, j))
      || exists i: nat :: i < j && Enabled(w, Settle(k, i))
                          && Unsettled(Apply(w, Settle(k, i))[k]) < Unsettled(w[k])
                          && Apply(w, Settle(k, i))[k].tickets == w[k].tickets
  {
    hide Lower;
    var l := w[k];
    assert LockInv(l);
    if !l.chain[j] {
      var i := FirstOpenLink(l, j);
      CountDrops(l.chain, i + 1);
      assert Enabled(w, Settle(k, i));
      assert Unsettled(Apply(w, Settle(k, i))[k]) < Unsettled(w[k]);
    }
  }

  /** Settling alone always gets there: from any reachable state the oldest waiting ticket is a few settlements away. */
  lemma {:induction false} SuccessorStarts(w: Locks, k: Text, j: nat) returns (steps: seq<Step>)
    requires Inv(w) && k in w && j < |w[k].tickets| && w[k].tickets[j] == Waiting
    requires forall i :: 0 <= i < j ==> w[k].tickets[i].Finished?
    ensures k in Run(w, steps) && j < |Run(w, steps)[k].tickets| && Run(w, steps)[k].tickets[j] == Running
    decreases Unsettled(w[k])
  {
    hide LockInv, Lower, Count;
    SuccessorIsEnabled(w, k, j);
    if Enabled(w, Start(k, j)) {
      steps := [Start(k, j)];
      assert Run(Apply(w, Start(k, j)), []) == Apply(w, Start(k, j));
      assert steps[1..] == [];
    } else {
      var i: nat :| i < j && Enabled(w, Settle(k, i))
                    && Unsettled(Apply(w, Settle(k, i))[k]) < Unsettled(w[k])
                    && Apply(w, Settle(k, i))[k].tickets == w[k].tickets;
      StepKeepsInv(w, Settle(k, i));
      var more := SuccessorStarts(Apply(w, Settle(k, i)), k, j);
      steps := [Settle(k, i)] + more;
      assert steps[1..] == more;
    }
  }
}
