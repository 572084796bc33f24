/** ThreadChange: the context-propagation wrapper. A task handed to an executor is wrapped so
    that registered listeners hear `willChange` on the submitting thread, then `didChange`,
    the wrapped body and `finish` on the thread that runs it. Threads are not modelled:
    the static listener list, the submitting thread's `alreadyApplied` flag, a counter that
    stands in for the random transaction UUIDs, and the trace of hook calls form one object. */
module ThreadChange {
  import opened Jdk

  /** A registered ThreadChangeListener. Listeners are compared with `equals`; here, by identity. */
  datatype Listener = Listener(id: nat)

  /** The three hooks of ThreadChangeListener. */
  datatype Phase = WillChange | DidChange | Finish

  /** One step of the trace: a hook delivered to a listener with a transaction id, or a task body running. */
  datatype Event = Hook(phase: Phase, change: nat, listener: Listener) | Body(task: nat)

  /** A Runnable or Callable as the executor sees it: the caller's own task, or the wrapper that
      `applyContext` builds around a task for the transaction `change`. */
  datatype Task = Plain(name: nat) | Wrapped(change: nat, inner: Task)

  /** Every transaction id a task carries lies below `bound`. */
  predicate Issued(t: Task, bound: nat) {
    match t
    case Plain(_) => true
    case Wrapped(c, inner) => c < bound && Issued(inner, bound)
  }

  /** The hooks one `forEach` broadcast delivers: the same id to every listener, in list order. */
  function Broadcast(phase: Phase, change: nat, ls: seq<Listener>): (es: seq<Event>)
    ensures |es| == |ls|
    ensures forall k :: 0 <= k < |es| ==> es[k].Hook? && es[k].phase == phase
    decreases |ls|
  {
    if ls == [] then [] else [Hook(phase, change, ls[0])] + Broadcast(phase, change, ls[1..])
  }

  /** The k-th hook of a broadcast goes to the k-th listener, with the transaction's id. */
  lemma {:induction false} BroadcastAt(phase: Phase, change: nat, ls: seq<Listener>, k: nat)
    requires k < |ls|
    ensures Broadcast(phase, change, ls)[k] == Hook(phase, change, ls[k])
    decreases |ls|
  {
    if k > 0 {
      BroadcastAt(phase, change, ls[1..], k - 1);
    }
  }

  /** Broadcasting to a concatenation of lists is broadcasting to each in turn. */
  lemma BroadcastAppend(phase: Phase, change: nat, a: seq<Listener>, b: seq<Listener>)
    ensures Broadcast(phase, change, a + b) == Broadcast(phase, change, a) + Broadcast(phase, change, b)
  {
    var lhs := Broadcast(phase, change, a + b);
    var rhs := Broadcast(phase, change, a) + Broadcast(phase, change, b);
    assert |lhs| == |rhs|;
    forall k | 0 <= k < |lhs| ensures lhs[k] == rhs[k] {
      BroadcastAt(phase, change, a + b, k);
      if k < |a| {
        assert (a + b)[k] == a[k];
        BroadcastAt(phase, change, a, k);
      } else {
        assert (a + b)[k] == b[k - |a|];
        BroadcastAt(phase, change, b, k - |a|);
      }
    }
  }

  /** No `finish` hook occurs in the trace. */
  predicate NoFinish(es: seq<Event>) {
    forall k :: 0 <= k < |es| ==> es[k].Hook? ==> es[k].phase != Finish
  }

  /** The trace of running task `t` with listeners `ls` when its innermost body completes or
      throws: each wrapper broadcasts `didChange`, runs what it wraps and, only if that
      completed, broadcasts `finish`. There is no `finally`, so a throwing body skips `finish`. */
  function RunTrace(t: Task, ls: seq<Listener>, completes: bool): (es: seq<Event>)
    ensures !completes ==> NoFinish(es)
  {
    match t
    case Plain(n) => [Body(n)]
    case Wrapped(c, inner) =>
      Broadcast(DidChange, c, ls) + RunTrace(inner, ls, completes)
      + (if completes then Broadcast(Finish, c, ls) else [])
  }

  /** Running a wrapper after a trace appends its three phases one after the other: the
      `didChange` broadcast, the run of what it wraps, and the `finish` broadcast if that completed. */
  lemma AppendWrappedRun(before: seq<Event>, c: nat, inner: Task, ls: seq<Listener>, completes: bool)
    ensures before + RunTrace(Wrapped(c, inner), ls, completes)
            == before + Broadcast(DidChange, c, ls) + RunTrace(inner, ls, completes)
               + (if completes then Broadcast(Finish, c, ls) else [])
  {
  }

  /** Every hook in `es` carries an id below `bound`. */
  predicate HooksBelow(es: seq<Event>, bound: nat) {
    forall k :: 0 <= k < |es| && es[k].Hook? ==> es[k].change < bound
  }

  /** Hooks below a bound in two traces are hooks below it in their concatenation. */
  lemma HooksBelowAppend(a: seq<Event>, b: seq<Event>, bound: nat)
    requires HooksBelow(a, bound) && HooksBelow(b, bound)
    ensures HooksBelow(a + b, bound)
  {
    forall k | 0 <= k < |a + b| && (a + b)[k].Hook? ensures (a + b)[k].change < bound {
      if k >= |a| {
        assert (a + b)[k] == b[k - |a|];
      }
    }
  }

  /** A broadcast carries only its own transaction's id. */
  lemma HooksBelowBroadcast(phase: Phase, change: nat, ls: seq<Listener>, bound: nat)
    requires change < bound
    ensures HooksBelow(Broadcast(phase, change, ls), bound)
  {
    forall k | 0 <= k < |ls| ensures Broadcast(phase, change, ls)[k] == Hook(phase, change, ls[k]) {
      BroadcastAt(phase, change, ls, k);
    }
  }

  /** Running a task whose ids are all below a bound delivers only hooks below it. */
  lemma {:induction false} HooksBelowRunTrace(t: Task, ls: seq<Listener>, completes: bool, bound: nat)
    requires Issued(t, bound)
    ensures HooksBelow(RunTrace(t, ls, completes), bound)
  {
    match t
    case Plain(n) =>
    case Wrapped(c, inner) =>
      HooksBelowBroadcast(DidChange, c, ls, bound);
      HooksBelowRunTrace(inner, ls, completes, bound);
      HooksBelowAppend(Broadcast(DidChange, c, ls), RunTrace(inner, ls, completes), bound);
      HooksBelowBroadcast(Finish, c, ls, bound);
      assert HooksBelow([], bound);
      HooksBelowAppend(Broadcast(DidChange, c, ls) + RunTrace(inner, ls, completes),
                       if completes then Broadcast(Finish, c, ls) else [], bound);
  }

  /** The first position of `l` in `ls`, or |ls| when it is not registered. */
  function FirstIndex(ls: seq<Listener>, l: Listener): (i: nat)
    ensures i <= |ls|
    ensures i < |ls| <==> l in ls
    ensures i < |ls| ==> ls[i] == l
    ensures l !in ls[..i]
    decreases |ls|
  {
    if ls == [] then 0 else if ls[0] == l then 0 else 1 + FirstIndex(ls[1..], l)
  }

  /** `List.remove(Object)`: the list without the first occurrence of `l`, or unchanged. */
  function RemoveFirst(ls: seq<Listener>, l: Listener): (r: seq<Listener>)
    ensures l !in ls ==> r == ls
    ensures l in ls ==> exists i :: 0 <= i < |ls| && ls[i] == l && l !in ls[..i] && r == ls[..i] + ls[i + 1..]
    ensures multiset(r) == multiset(ls) - multiset{l}
  {
    var i := FirstIndex(ls, l);
    if i == |ls| then ls
    else
      assert ls == ls[..i] + [ls[i]] + ls[i + 1..];
      ls[..i] + ls[i + 1..]
  }

  /** The static state of ThreadChange as seen from one submitting thread. */
  class State {
    /** `onThreadChangeListeners`. */
    var listeners: seq<Listener>
    /** The submitting thread's `alreadyApplied` thread-local. */
    var alreadyApplied: bool
    /** The id the next ThreadChangeTransaction receives. */
    var nextChange: nat
    /** Every hook call and task body so far, in order. */
    var trace: seq<Event>

    /** Every hook in the trace carries an id that was already handed out. */
    ghost predicate Valid()
      reads this
    {
      HooksBelow(trace, nextChange)
    }

    /** A fresh thread: no listeners, the flag unset, nothing traced. */
    constructor ()
      ensures Valid()
      ensures listeners == [] && !alreadyApplied && nextChange == 0 && trace == []
    {
      listeners := [];
      alreadyApplied := false;
      nextChange := 0;
      trace := [];
    }

    /** `addThreadChangeListener`: appends. */
    method AddListener(l: Listener)
      requires Valid()
      modifies this`listeners
      ensures Valid()
      ensures listeners == old(listeners) + [l]
    {
      listeners := listeners + [l];
    }

    /** `removeThreadChangeListener`: removes the first equal listener only. */
    method RemoveListener(l: Listener)
      requires Valid()
      modifies this`listeners
      ensures Valid()
      ensures listeners == RemoveFirst(old(listeners), l)
    {
      listeners := RemoveFirst(listeners, l);
    }

    /** `createThreadChangeTransaction`: a new transaction whose id no earlier hook carried. */
    method CreateTransaction() returns (change: nat)
      requires Valid()
      modifies this`nextChange
      ensures Valid()
      ensures change == old(nextChange) && nextChange == change + 1
      ensures forall k :: 0 <= k < |trace| && trace[k].Hook? ==> trace[k].change != change
    {
      change := nextChange;
      nextChange := nextChange + 1;
    }

    /** ThreadChangeTransaction's `willChange`, `didChange` and `finish`: one hook per listener,
        in list order, all with the transaction's id. */
    method Fire(phase: Phase, change: nat)
      requires Valid() && change < nextChange
      modifies this`trace
      ensures Valid()
      ensures trace == old(trace) + Broadcast(phase, change, listeners)
    {
      var delivered: seq<Event> := [];
      var i := 0;
      while i < |listeners|
        invariant 0 <= i <= |listeners|
        invariant delivered == Broadcast(phase, change, listeners[..i])
        invariant trace == old(trace)
      {
        BroadcastAppend(phase, change, listeners[..i], [listeners[i]]);
        assert listeners[..i + 1] == listeners[..i] + [listeners[i]];
        delivered := delivered + [Hook(phase, change, listeners[i])];
        i := i + 1;
      }
      assert listeners[..i] == listeners;
      HooksBelowBroadcast(phase, change, listeners, nextChange);
      HooksBelowAppend(trace, delivered, nextChange);
      trace := trace + delivered;
    }

    /** `applyContext(Runnable)`: a transaction is always created; when the flag is already set the
        task comes back unchanged and no hook fires; otherwise the flag is set, `willChange` is
        broadcast now, and a wrapper for the new transaction is returned. The flag is never cleared. */
    method ApplyContext(task: Task) returns (r: Task)
      requires Valid()
      modifies this`nextChange, this`alreadyApplied, this`trace
      ensures Valid()
      ensures nextChange == old(nextChange) + 1
      ensures alreadyApplied
      ensures old(alreadyApplied) ==> r == task && trace == old(trace)
      ensures !old(alreadyApplied) ==>
                r == Wrapped(old(nextChange), task)
                && trace == old(trace) + Broadcast(WillChange, old(nextChange), listeners)
      ensures Issued(task, old(nextChange)) ==> Issued(r, nextChange)
    {
      var change := CreateTransaction();
      if alreadyApplied {
        r := task;
        if Issued(task, old(nextChange)) {
          IssuedMonotone(task, old(nextChange), nextChange);
        }
        return;
      }
      alreadyApplied := true;
      Fire(WillChange, change);
      r := Wrapped(change, task);
      if Issued(task, old(nextChange)) {
        IssuedMonotone(task, old(nextChange), nextChange);
      }
    }

    /** `applyContext(Callable)`: builds a ThreadChangeCallable, whose constructor creates a
        transaction and broadcasts `willChange`. The flag is neither read nor set. */
    method ApplyContextCallable(task: Task) returns (r: Task)
      requires Valid()
      modifies this`nextChange, this`trace
      ensures Valid()
      ensures nextChange == old(nextChange) + 1
      ensures r == Wrapped(old(nextChange), task)
      ensures trace == old(trace) + Broadcast(WillChange, old(nextChange), listeners)
      ensures Issued(task, old(nextChange)) ==> Issued(r, nextChange)
    {
      var change := CreateTransaction();
      Fire(WillChange, change);
      r := Wrapped(change, task);
      if Issued(task, old(nextChange)) {
        IssuedMonotone(task, old(nextChange), nextChange);
      }
    }

    /** Running a Runnable whose innermost body ends with `body`: the wrapper lambda of
        `applyContext` broadcasts `didChange`, runs the wrapped Runnable and then `finish`; an exception from
        the body propagates and skips `finish`. */
    method Run(t: Task, body: Completion) returns (c: Completion)
      requires Valid() && Issued(t, nextChange)
      modifies this`trace
      ensures Valid()
      ensures c == body
      ensures trace == old(trace) + RunTrace(t, listeners, body.Completes?)
      decreases t
    {
      match t
      case Plain(n) =>
        assert HooksBelow([Body(n)], nextChange);
        HooksBelowAppend(trace, [Body(n)], nextChange);
        trace := trace + [Body(n)];
        c := body;
      case Wrapped(change, inner) =>
        ghost var before := trace;
        Fire(DidChange, change);
        ghost var didChange := Broadcast(DidChange, change, listeners);
        c := Run(inner, body);
        ghost var ran := RunTrace(inner, listeners, body.Completes?);
        if c.Completes? {
          Fire(Finish, change);
        }
        ghost var finish := if body.Completes? then Broadcast(Finish, change, listeners) else [];
        assert trace == before + didChange + ran + finish;
        AppendWrappedRun(before, change, inner, listeners, body.Completes?);
    }

    /** ThreadChangeCallable's `call()` around a body with outcome `body`: `didChange`, the body,
        then `finish` and the body's value; a throwing body propagates and skips `finish`. */
    method Call<V>(t: Task, body: Outcome<V>) returns (o: Outcome<V>)
      requires Valid() && Issued(t, nextChange)
      modifies this`trace
      ensures Valid()
      ensures o == body
      ensures trace == old(trace) + RunTrace(t, listeners, body.Returns?)
      decreases t
    {
      match t
      case Plain(n) =>
        assert HooksBelow([Body(n)], nextChange);
        HooksBelowAppend(trace, [Body(n)], nextChange);
        trace := trace + [Body(n)];
        o := body;
      case Wrapped(change, inner) =>
        ghost var before := trace;
        Fire(DidChange, change);
        ghost var didChange := Broadcast(DidChange, change, listeners);
        o := Call(inner, body);
        ghost var ran := RunTrace(inner, listeners, body.Returns?);
        if o.Returns? {
          Fire(Finish, change);
        }
        ghost var finish := if body.Returns? then Broadcast(Finish, change, listeners) else [];
        assert trace == before + didChange + ran + finish;
        AppendWrappedRun(before, change, inner, listeners, body.Returns?);
    }
  }

  /** A thread that registers `ls` and then wraps two Runnables: the first is wrapped under
      transaction 0 and fires `willChange` to every listener; the flag is never cleared, so the
      second, although it consumes transaction 1, comes back as it was and fires nothing. */
  method SecondWrapIsIdentity(ls: seq<Listener>, a: nat, b: nat) returns (first: Task, second: Task, trace: seq<Event>)
    ensures first == Wrapped(0, Plain(a))
    ensures second == Plain(b)
    ensures trace == Broadcast(WillChange, 0, ls)
  {
    var s := new State();
    var i := 0;
    while i < |ls|
      invariant 0 <= i <= |ls|
      invariant s.Valid() && s.listeners == ls[..i]
      invariant !s.alreadyApplied && s.nextChange == 0 && s.trace == []
    {
      s.AddListener(ls[i]);
      assert ls[..i + 1] == ls[..i] + [ls[i]];
      i := i + 1;
    }
    assert ls[..i] == ls;
    first := s.ApplyContext(Plain(a));
    second := s.ApplyContext(Plain(b));
    trace := s.trace;
  }

  /** Ids below a bound are below any larger bound. */
  lemma IssuedMonotone(t: Task, lo: nat, hi: nat)
    requires lo <= hi && Issued(t, lo)
    ensures Issued(t, hi)
  {
  }

  // ---------------------------------------------------------------------------
  // The listener of ThreadChangeTest, as a protocol over the trace

  /** What the test listener observes: the worker thread's thread-local and its map from
      transaction id to the value captured at `willChange`. */
  datatype Probe = Probe(worker: Nullable<string>, store: map<nat, string>)

  /** Either every assertion so far held, with the listener's state, or one failed. */
  datatype Check = Holds(probe: Probe) | AssertionError

  /** One event as the test listener `l` sees it, with `user` the submitting thread's value:
      `willChange` captures `user`; `didChange` asserts a captured value exists and nothing is
      installed, then installs it; `finish` asserts something is installed and the id is known,
      then clears both; the test's task body asserts it sees `user`. */
  function Step(l: Listener, user: string, st: Check, e: Event): (r: Check)
    ensures st.AssertionError? ==> r.AssertionError?
    ensures e.Hook? && e.listener != l ==> r == st
  {
    match st
    case AssertionError => AssertionError
    case Holds(p) =>
      match e
      case Body(_) => if p.worker == NonNull(user) then st else AssertionError
      case Hook(phase, c, who) =>
        if who != l then st
        else match phase
          case WillChange => Holds(p.(store := p.store[c := user]))
          case DidChange =>
            if c !in p.store || p.worker != Null then AssertionError
            else Holds(p.(worker := NonNull(p.store[c])))
          case Finish =>
            if p.worker == Null || c !in p.store then AssertionError
            else Holds(Probe(Null, p.store - {c}))
  }

  /** The listener's state after a whole trace. */
  function Replay(l: Listener, user: string, st: Check, es: seq<Event>): (r: Check)
    ensures (forall k :: 0 <= k < |es| ==> es[k].Hook? && es[k].listener != l) ==> r == st
    decreases |es|
  {
    if es == [] then st else Replay(l, user, Step(l, user, st, es[0]), es[1..])
  }

  /** Replaying two traces one after the other is replaying their concatenation. */
  lemma {:induction false} ReplayAppend(l: Listener, user: string, st: Check, xs: seq<Event>, ys: seq<Event>)
    ensures Replay(l, user, st, xs + ys) == Replay(l, user, Replay(l, user, st, xs), ys)
    decreases |xs|
  {
    if xs != [] {
      assert (xs + ys)[0] == xs[0];
      assert (xs + ys)[1..] == xs[1..] + ys;
      ReplayAppend(l, user, Step(l, user, st, xs[0]), xs[1..], ys);
    } else {
      assert xs + ys == ys;
    }
  }

  /** A failed assertion stays failed. */
  lemma {:induction false} ReplayFailed(l: Listener, user: string, es: seq<Event>)
    ensures Replay(l, user, AssertionError, es) == AssertionError
    decreases |es|
  {
    if es != [] {
      ReplayFailed(l, user, es[1..]);
    }
  }

  /** Hooks addressed to other listeners leave the test listener untouched. */
  lemma {:induction false} ReplayOthers(l: Listener, user: string, st: Check, phase: Phase, c: nat, ls: seq<Listener>)
    requires l !in ls
    ensures Replay(l, user, st, Broadcast(phase, c, ls)) == st
    decreases |ls|
  {
    if ls != [] {
      var es := Broadcast(phase, c, ls);
      assert es[0] == Hook(phase, c, ls[0]);
      assert es[1..] == Broadcast(phase, c, ls[1..]);
      assert l !in ls[1..] by { assert forall k :: 0 <= k < |ls| - 1 ==> ls[1..][k] == ls[k + 1]; }
      ReplayOthers(l, user, st, phase, c, ls[1..]);
    }
  }

  /** With `l` registered once, a broadcast reaches the test listener exactly once. */
  lemma BroadcastOnce(l: Listener, user: string, st: Check, phase: Phase, c: nat,
                      before: seq<Listener>, after: seq<Listener>)
    requires l !in before && l !in after
    ensures Replay(l, user, st, Broadcast(phase, c, before + [l] + after))
            == Step(l, user, st, Hook(phase, c, l))
  {
    BroadcastAppend(phase, c, before + [l], after);
    BroadcastAppend(phase, c, before, [l]);
    var one := Broadcast(phase, c, [l]);
    assert one == [Hook(phase, c, l)];
    ReplayAppend(l, user, st, Broadcast(phase, c, before) + one, Broadcast(phase, c, after));
    ReplayAppend(l, user, st, Broadcast(phase, c, before), one);
    ReplayOthers(l, user, st, phase, c, before);
    ReplayOthers(l, user, Step(l, user, st, Hook(phase, c, l)), phase, c, after);
  }

  /** The submit-then-run trace of one Runnable or Callable wrapped for transaction `c`. */
  function Submission(c: nat, n: nat, ls: seq<Listener>, completes: bool): seq<Event>
  {
    Broadcast(WillChange, c, ls) + RunTrace(Wrapped(c, Plain(n)), ls, completes)
  }

  /** Replaying a submission is replaying its phases in turn: willChange, didChange, the body,
      and finish when the body completes. */
  lemma ReplaySubmission(l: Listener, user: string, st: Check, c: nat, n: nat, ls: seq<Listener>, completes: bool)
    ensures Replay(l, user, st, Submission(c, n, ls, completes))
            == Replay(l, user,
                      Step(l, user, Replay(l, user, Replay(l, user, st, Broadcast(WillChange, c, ls)),
                                           Broadcast(DidChange, c, ls)), Body(n)),
                      if completes then Broadcast(Finish, c, ls) else [])
  {
    var will := Broadcast(WillChange, c, ls);
    var did := Broadcast(DidChange, c, ls);
    var fin := if completes then Broadcast(Finish, c, ls) else [];
    assert RunTrace(Plain(n), ls, completes) == [Body(n)];
    assert Submission(c, n, ls, completes) == will + (did + ([Body(n)] + fin));
    ReplayAppend(l, user, st, will, did + ([Body(n)] + fin));
    var st1 := Replay(l, user, st, will);
    ReplayAppend(l, user, st1, did, [Body(n)] + fin);
    var st2 := Replay(l, user, st1, did);
    assert ([Body(n)] + fin)[1..] == fin;
  }

  /** With `l` registered once and a clean worker thread, a submission's willChange, didChange
      and body leave the submitter's value installed on the worker and the entry in the map;
      what remains is the finish broadcast when the body completed. */
  lemma SubmittedOnceInstalls(l: Listener, user: string, store: map<nat, string>, c: nat, n: nat,
                              before: seq<Listener>, after: seq<Listener>, completes: bool)
    requires l !in before && l !in after
    ensures Replay(l, user, Holds(Probe(Null, store)), Submission(c, n, before + [l] + after, completes))
            == Replay(l, user, Holds(Probe(NonNull(user), store[c := user])),
                      if completes then Broadcast(Finish, c, before + [l] + after) else [])
  {
    var ls := before + [l] + after;
    var st0 := Holds(Probe(Null, store));
    var st1 := Holds(Probe(Null, store[c := user]));
    var st2 := Holds(Probe(NonNull(user), store[c := user]));
    ReplaySubmission(l, user, st0, c, n, ls, completes);
    BroadcastOnce(l, user, st0, WillChange, c, before, after);
    assert Step(l, user, st0, Hook(WillChange, c, l)) == st1;
    BroadcastOnce(l, user, st1, DidChange, c, before, after);
    assert Step(l, user, st1, Hook(DidChange, c, l)) == st2;
    assert Step(l, user, st2, Body(n)) == st2;
  }

  /** A wrapped task that completes, with the test listener registered once and a clean worker
      thread: every assertion holds, the body sees the submitter's value, the worker's thread-local
      is cleared again and the transaction leaves no entry behind. */
  lemma CompletedRunLeavesNoEntry(l: Listener, user: string, store: map<nat, string>, c: nat, n: nat,
                                  before: seq<Listener>, after: seq<Listener>)
    requires l !in before && l !in after
    ensures Replay(l, user, Holds(Probe(Null, store)), Submission(c, n, before + [l] + after, true))
            == Holds(Probe(Null, store - {c}))
  {
    var ls := before + [l] + after;
    var st2 := Holds(Probe(NonNull(user), store[c := user]));
    SubmittedOnceInstalls(l, user, store, c, n, before, after, true);
    BroadcastOnce(l, user, st2, Finish, c, before, after);
    assert Step(l, user, st2, Hook(Finish, c, l)) == Holds(Probe(Null, store[c := user] - {c}));
    assert store[c := user] - {c} == store - {c};
  }

  /** A wrapped task whose body throws: `finish` never comes, so the worker thread keeps the
      submitter's value installed and the transaction's entry stays in the map. */
  lemma FailedRunLeaksContext(l: Listener, user: string, store: map<nat, string>, c: nat, n: nat,
                              before: seq<Listener>, after: seq<Listener>)
    requires l !in before && l !in after
    ensures Replay(l, user, Holds(Probe(Null, store)), Submission(c, n, before + [l] + after, false))
            == Holds(Probe(NonNull(user), store[c := user]))
  {
    SubmittedOnceInstalls(l, user, store, c, n, before, after, false);
  }

  /** A listener registered twice captures the submitter's value twice; the second capture
      stores the same value, so the willChange broadcast ends as if it had been heard once. */
  lemma WillChangeTwice(l: Listener, user: string, store: map<nat, string>, c: nat,
                        before: seq<Listener>, mid: seq<Listener>, after: seq<Listener>)
    requires l !in before && l !in mid && l !in after
    ensures Replay(l, user, Holds(Probe(Null, store)), Broadcast(WillChange, c, before + [l] + mid + [l] + after))
            == Holds(Probe(Null, store[c := user]))
  {
    var first := before + [l] + mid;
    var second := [l] + after;
    assert first + second == before + [l] + mid + [l] + after;
    assert second == [] + [l] + after;
    var st0 := Holds(Probe(Null, store));
    var st1 := Holds(Probe(Null, store[c := user]));
    BroadcastAppend(WillChange, c, first, second);
    ReplayAppend(l, user, st0, Broadcast(WillChange, c, first), Broadcast(WillChange, c, second));
    BroadcastOnce(l, user, st0, WillChange, c, before, mid);
    BroadcastOnce(l, user, st1, WillChange, c, [], after);
    assert store[c := user][c := user] == store[c := user];
  }

  /** A listener registered twice installs the captured value at its first didChange and
      fails the "nothing installed yet" assertion at its second. */
  lemma DidChangeTwice(l: Listener, user: string, store: map<nat, string>, c: nat,
                       before: seq<Listener>, mid: seq<Listener>, after: seq<Listener>)
    requires l !in before && l !in mid && l !in after && c in store
    ensures Replay(l, user, Holds(Probe(Null, store)), Broadcast(DidChange, c, before + [l] + mid + [l] + after))
            == AssertionError
  {
    var first := before + [l] + mid;
    var second := [l] + after;
    assert first + second == before + [l] + mid + [l] + after;
    assert second == [] + [l] + after;
    var st1 := Holds(Probe(Null, store));
    var st2 := Holds(Probe(NonNull(store[c]), store));
    BroadcastAppend(DidChange, c, first, second);
    ReplayAppend(l, user, st1, Broadcast(DidChange, c, first), Broadcast(DidChange, c, second));
    BroadcastOnce(l, user, st1, DidChange, c, before, mid);
    BroadcastOnce(l, user, st2, DidChange, c, [], after);
  }

  /** The test listener registered twice fails its "Context is not cleared" assertion: the second
      `didChange` finds the value the first one installed. */
  lemma TwiceRegisteredFails(l: Listener, user: string, store: map<nat, string>, c: nat, n: nat, completes: bool,
                             before: seq<Listener>, mid: seq<Listener>, after: seq<Listener>)
    requires l !in before && l !in mid && l !in after
    ensures Replay(l, user, Holds(Probe(Null, store)), Submission(c, n, before + [l] + mid + [l] + after, completes))
            == AssertionError
  {
    ReplaySubmission(l, user, Holds(Probe(Null, store)), c, n, before + [l] + mid + [l] + after, completes);
    WillChangeTwice(l, user, store, c, before, mid, after);
    DidChangeTwice(l, user, store[c := user], c, before, mid, after);
    ReplayFailed(l, user, if completes then Broadcast(Finish, c, before + [l] + mid + [l] + after) else []);
  }
}
