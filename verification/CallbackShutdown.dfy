/** Shutdown quiescence of the C interface: once `castmirror_shutdown` has seen no callback in flight, nothing
    registered before it is running or will run again. */
module CallbackShutdown {
  import opened Arithmetic

  datatype Kind = StateChanged | DevicesChanged | StatsUpdated | Logged

  /** A client's callback and user data, as one token. */
  type Client = nat

  datatype Invocation = Invocation(kind: Kind, client: Client)

  /** The sections of any thread that hold `cb_mutex`, in the order the mutex gives them. */
  datatype Event =
    | Register(kind: Kind, client: Client)
    | Unregister(kind: Kind)
    | Enter(thread: nat, kind: Kind)
    | Leave(thread: nat)
    | ClearAll

  /** A callback may itself cause further callbacks on its thread, so a thread runs a stack of invocations,
      each from its registration read to its scope exit. */
  datatype State = State(registered: map<Kind, Client>, inFlight: int, threads: seq<seq<Invocation>>)

  function Step(s: State, e: Event): State {
    match e
    case Register(kind, client) => s.(registered := s.registered[kind := client])
    case Unregister(kind) => s.(registered := s.registered - {kind})
    case Enter(t, kind) =>
      if t < |s.threads| && kind in s.registered
      then s.(inFlight := s.inFlight + 1,
              threads := s.threads[t := s.threads[t] + [Invocation(kind, s.registered[kind])]])
      else s
    case Leave(t) =>
      if t < |s.threads| && s.threads[t] != []
      then s.(inFlight := s.inFlight - 1, threads := s.threads[t := s.threads[t][..|s.threads[t]| - 1]])
      else s
    case ClearAll => s.(registered := map[])
  }

  function Start(threads: nat): State { State(map[], 0, seq(threads, _ => [])) }

  function Run(threads: nat, es: seq<Event>): State {
    if es == [] then Start(threads) else Step(Run(threads, es[..|es| - 1]), es[|es| - 1])
  }

  // ---------- The counter ----------

  function Running(threads: seq<seq<Invocation>>): nat {
    if threads == [] then 0 else |threads[0]| + Running(threads[1..])
  }

  /** The counter is the number of running invocations. */
  ghost predicate Counts(s: State) { s.inFlight == Running(s.threads) }

  lemma {:induction false} RunningUpdate(threads: seq<seq<Invocation>>, t: nat, stack: seq<Invocation>)
    requires t < |threads|
    ensures Running(threads[t := stack]) == Running(threads) - |threads[t]| + |stack|
  {
    var u := threads[t := stack];
    if t == 0 {
      assert u[1..] == threads[1..];
    } else {
      assert u[1..] == threads[1..][t - 1 := stack];
      RunningUpdate(threads[1..], t - 1, stack);
    }
  }

  lemma {:induction false} NothingRunsIff(threads: seq<seq<Invocation>>)
    ensures Running(threads) == 0 <==> forall t :: 0 <= t < |threads| ==> threads[t] == []
  {
    if threads != [] {
      NothingRunsIff(threads[1..]);
      if forall t :: 0 <= t < |threads| - 1 ==> threads[1..][t] == [] {
        assert forall t :: 0 < t < |threads| ==> threads[t] == threads[1..][t - 1];
      }
    }
  }

  lemma StartCounts(threads: nat)
    ensures Counts(Start(threads))
  {
    NothingRunsIff(Start(threads).threads);
  }

  lemma StepCounts(s: State, e: Event)
    requires Counts(s)
    ensures Counts(Step(s, e)) && |Step(s, e).threads| == |s.threads|
  {
    if e.Enter? && e.thread < |s.threads| && e.kind in s.registered {
      RunningUpdate(s.threads, e.thread, s.threads[e.thread] + [Invocation(e.kind, s.registered[e.kind])]);
    } else if e.Leave? && e.thread < |s.threads| && s.threads[e.thread] != [] {
      RunningUpdate(s.threads, e.thread, s.threads[e.thread][..|s.threads[e.thread]| - 1]);
    }
  }

  /** For any number of threads and any interleaving. */
  lemma {:induction false} CounterCounts(threads: nat, es: seq<Event>)
    ensures Counts(Run(threads, es)) && |Run(threads, es).threads| == threads
  {
    hide Step, Counts;
    if es == [] {
      StartCounts(threads);
    } else {
      CounterCounts(threads, es[..|es| - 1]);
      StepCounts(Run(threads, es[..|es| - 1]), es[|es| - 1]);
    }
  }

  ghost predicate Quiet(s: State) { forall t :: 0 <= t < |s.threads| ==> s.threads[t] == [] }

  /** The wait's predicate holds exactly when no thread is inside a callback. */
  lemma PredicateMeansQuiet(threads: nat, es: seq<Event>)
    ensures Run(threads, es).inFlight == 0 <==> Quiet(Run(threads, es))
  {
    CounterCounts(threads, es);
    NothingRunsIff(Run(threads, es).threads);
  }

  // ---------- Shutdown ----------

  /** The client was registered for the kind after position `c`, before position `j`. */
  ghost predicate RegisteredBetween(es: seq<Event>, c: nat, j: nat, kind: Kind, client: Client)
    requires j <= |es|
  {
    exists r :: c < r < j && es[r] == Register(kind, client)
  }

  ghost predicate OnlyNewRegistered(es: seq<Event>, c: nat, j: nat, s: State)
    requires j <= |es|
  {
    forall k :: k in s.registered ==> RegisteredBetween(es, c, j, k, s.registered[k])
  }

  ghost predicate OnlyNewRuns(es: seq<Event>, c: nat, j: nat, s: State)
    requires j <= |es|
  {
    forall t, i :: 0 <= t < |s.threads| && 0 <= i < |s.threads[t]| ==>
      RegisteredBetween(es, c, j, s.threads[t][i].kind, s.threads[t][i].client)
  }

  lemma NewStaysNew(es: seq<Event>, c: nat, j: nat)
    requires j < |es|
    ensures forall k, x :: RegisteredBetween(es, c, j, k, x) ==> RegisteredBetween(es, c, j + 1, k, x)
    ensures es[j].Register? && c < j ==> RegisteredBetween(es, c, j + 1, es[j].kind, es[j].client)
  {
  }

  lemma StepKeepsNewRegistered(es: seq<Event>, c: nat, j: nat, s: State)
    requires c < j < |es| && OnlyNewRegistered(es, c, j, s)
    ensures OnlyNewRegistered(es, c, j + 1, Step(s, es[j]))
  {
    hide RegisteredBetween;
    NewStaysNew(es, c, j);
  }

  lemma StepKeepsNewRuns(es: seq<Event>, c: nat, j: nat, s: State)
    requires c < j < |es| && OnlyNewRegistered(es, c, j, s) && OnlyNewRuns(es, c, j, s)
    ensures OnlyNewRuns(es, c, j + 1, Step(s, es[j]))
  {
    hide RegisteredBetween;
    NewStaysNew(es, c, j);
  }

  lemma {:induction false} ClearedStaysClear(threads: nat, es: seq<Event>, c: nat, j: nat)
    requires c < j <= |es| && es[c] == ClearAll
    ensures OnlyNewRegistered(es, c, j, Run(threads, es[..j]))
  {
    assert es[..j][..j - 1] == es[..j - 1];
    if c + 1 < j {
      ClearedStaysClear(threads, es, c, j - 1);
      StepKeepsNewRegistered(es, c, j - 1, Run(threads, es[..j - 1]));
    }
  }

  /** If after the registrations were dropped the wait found the counter at zero, then from that moment on,
      in every interleaving, every running callback and every registration was made after the drop. */
  lemma {:induction false} ShutdownQuiesces(threads: nat, es: seq<Event>, c: nat, w: nat, j: nat)
    requires c < w <= j <= |es| && es[c] == ClearAll && Run(threads, es[..w]).inFlight == 0
    ensures OnlyNewRegistered(es, c, j, Run(threads, es[..j])) && OnlyNewRuns(es, c, j, Run(threads, es[..j]))
  {
    hide Step;
    ClearedStaysClear(threads, es, c, j);
    if j == w {
      PredicateMeansQuiet(threads, es[..w]);
    } else {
      assert es[..j][..j - 1] == es[..j - 1];
      ClearedStaysClear(threads, es, c, j - 1);
      ShutdownQuiesces(threads, es, c, w, j - 1);
      StepKeepsNewRuns(es, c, j - 1, Run(threads, es[..j - 1]));
    }
  }

  /** Without that wait, right after the drop nothing older runs exactly when no callback was in flight at it. */
  lemma DropAloneEnoughIff(threads: nat, es: seq<Event>)
    ensures var all := es + [ClearAll];
            OnlyNewRuns(all, |es|, |es| + 1, Run(threads, all)) <==> Run(threads, es).inFlight == 0
  {
    var all, s := es + [ClearAll], Run(threads, es);
    assert all[..|es|] == es;
    assert Run(threads, all).threads == s.threads;
    PredicateMeansQuiet(threads, es);
    if !Quiet(s) {
      var t :| 0 <= t < |s.threads| && s.threads[t] != [];
      var x := s.threads[t][0];
      assert !RegisteredBetween(all, |es|, |es| + 1, x.kind, x.client);
    }
  }

  /** And a callback can be in flight at the drop. */
  lemma DropAloneIsNotEnough(kind: Kind, client: Client)
    ensures var es := [Register(kind, client), Enter(0, kind), ClearAll];
            Run(1, es).inFlight == 1 && !OnlyNewRuns(es, 2, 3, Run(1, es))
  {
    var es := [Register(kind, client), Enter(0, kind), ClearAll];
    assert es[..2] == [Register(kind, client), Enter(0, kind)] && es[..2][..1] == [Register(kind, client)];
    assert es[..2][..1][..0] == [];
    var s := Run(1, es[..2]);
    assert s == Step(Run(1, es[..2][..1]), Enter(0, kind));
    assert Run(1, es[..2][..1]) == Step(Run(1, []), Register(kind, client));
    assert s.threads[0] == [Invocation(kind, client)];
    assert Run(1, es) == Step(s, ClearAll);
    assert Run(1, es).threads[0][0] == Invocation(kind, client);
  }

  // ---------- Registration ----------

  /** No event of positions `from` to `to` registers or drops the kind. */
  predicate Untouched(es: seq<Event>, from: nat, to: nat, kind: Kind)
    requires to <= |es|
  {
    forall i :: from <= i < to ==>
      es[i] != ClearAll && !(es[i].Register? && es[i].kind == kind) && !(es[i].Unregister? && es[i].kind == kind)
  }

  lemma {:induction false} RegistrationLasts(threads: nat, es: seq<Event>, c: nat, j: nat, kind: Kind)
    requires c < j <= |es| && Untouched(es, c + 1, j, kind)
    ensures var s, r := Run(threads, es[..c + 1]), Run(threads, es[..j]);
            (kind in r.registered <==> kind in s.registered) &&
            (kind in r.registered ==> r.registered[kind] == s.registered[kind])
  {
    assert es[..j][..j - 1] == es[..j - 1];
    if c + 1 < j { RegistrationLasts(threads, es, c, j - 1, kind); }
  }

  /** A dispatch runs the client registered last, and after an unregistration or a drop of everything nobody. */
  lemma DispatchRunsLatest(threads: nat, es: seq<Event>, c: nat, j: nat, t: nat, kind: Kind)
    requires c < j < |es| && Untouched(es, c + 1, j, kind) && es[j] == Enter(t, kind) && t < threads
    ensures var before, after := Run(threads, es[..j]), Run(threads, es[..j + 1]);
            && t < |before.threads|
            && (es[c] == Unregister(kind) || es[c] == ClearAll ==> after == before)
            && (es[c].Register? && es[c].kind == kind ==>
                  after.threads == before.threads[t := before.threads[t] + [Invocation(kind, es[c].client)]])
  {
    RegistrationLasts(threads, es, c, j, kind);
    CounterCounts(threads, es[..j]);
    assert es[..j + 1][..j] == es[..j] && es[..c + 1][..c] == es[..c];
  }

  // ---------- The shared callback state ----------

  class CallbackState {
    var registered: map<Kind, Client>
    var callbacksInFlight: int
    ghost var threads: seq<seq<Invocation>>

    ghost function View(): State
      reads this
    {
      State(registered, callbacksInFlight, threads)
    }

    ghost predicate Valid()
      reads this
    {
      Counts(View())
    }

    constructor (ghost n: nat)
      ensures Valid() && View() == Start(n)
    {
      registered, callbacksInFlight, threads := map[], 0, seq(n, _ => []);
      new;
      StartCounts(n);
    }

    /** The registration calls; no client unregisters. */
    method SetCallback(kind: Kind, client: Option<Client>)
      requires Valid()
      modifies this
      ensures Valid()
      ensures View() == Step(old(View()), if client.Some? then Register(kind, client.value) else Unregister(kind))
    {
      if client.Some? {
        registered := registered[kind := client.value];
      } else {
        registered := registered - {kind};
      }
    }

    /** The registration read of a dispatch; the invocation counts from here. */
    method EnterCallback(ghost t: nat, kind: Kind) returns (client: Option<Client>)
      requires Valid() && t < |threads|
      modifies this
      ensures Valid() && View() == Step(old(View()), Enter(t, kind))
      ensures client == if kind in old(registered) then Some(old(registered)[kind]) else None
      ensures client.Some? ==> threads[t] == old(threads[t]) + [Invocation(kind, client.value)]
    {
      StepCounts(View(), Enter(t, kind));
      client := if kind in registered then Some(registered[kind]) else None;
      if client.Some? {
        callbacksInFlight := callbacksInFlight + 1;
        threads := threads[t := threads[t] + [Invocation(kind, client.value)]];
      }
    }

    /** The scope exit of an invocation; `notify` is whether the waiting shutdown is woken. */
    method LeaveCallback(ghost t: nat) returns (notify: bool)
      requires Valid() && t < |threads| && threads[t] != []
      modifies this
      ensures Valid() && View() == Step(old(View()), Leave(t))
      ensures notify <==> Quiet(View())
    {
      StepCounts(View(), Leave(t));
      callbacksInFlight := callbacksInFlight - 1;
      threads := threads[t := threads[t][..|threads[t]| - 1]];
      NothingRunsIff(threads);
      notify := callbacksInFlight == 0;
    }

    /** Shutdown's first section: drop every registration. */
    method DropRegistrations()
      requires Valid()
      modifies this
      ensures Valid() && View() == Step(old(View()), ClearAll)
    {
      registered := registered - {StateChanged};
      registered := registered - {DevicesChanged};
      registered := registered - {StatsUpdated};
      registered := registered - {Logged};
      assert registered == map[] by {
        forall k: Kind ensures k !in registered {
          assert k.StateChanged? || k.DevicesChanged? || k.StatsUpdated? || k.Logged?;
        }
      }
    }

    /** The predicate shutdown waits for. */
    method Idle() returns (idle: bool)
      requires Valid()
      ensures idle <==> Quiet(View())
    {
      NothingRunsIff(threads);
      idle := callbacksInFlight == 0;
    }
  }
}
