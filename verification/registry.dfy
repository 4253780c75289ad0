/** Who owns which public port: the server's registry and the sessions' proxies, over every
    interleaving of the sessions' message loops, the heartbeat and the dashboard
    (internal/app/server/server.go:134-158, internal/app/server/control.go:116-199, 274-324). */
module Registry {
  import opened Text
  import opened RtpPool

  datatype Proxy = Proxy(session: nat, name: string, kind: string, port: int)

  /** Where a session's message loop is in handleNewProxy: registered and starting, failed to start
      and about to unregister, or started and about to be entered into the session. */
  datatype Pc = Starting(id: nat) | Failed(id: nat) | Started(id: nat)

  /** proxies holds every proxy ever registered; leaving those that were taken out of their session and
      still have to be unregistered; late those entered into a session that had closed before. */
  datatype State = State(
    allow: seq<PortRange>,
    registry: map<string, nat>,
    proxies: seq<Proxy>,
    loops: map<nat, Pc>,
    held: map<(nat, string), nat>,
    leaving: set<nat>,
    closed: set<nat>,
    late: set<nat>)

  datatype Action =
    | Register(session: nat, name: string, kind: string, port: int)
    | StartOk(session: nat)
    | StartFail(session: nat)
    | UndoRegister(session: nat)
    | Enter(session: nat)
    | Take(session: nat, name: string)
    | Close(session: nat)
    | Unregister(id: nat)

  /** fmt.Sprintf("%s:%d", proxyType, port) */
  function ProxyKey(kind: string, port: int): string {
    kind + ":" + Itoa(port)
  }

  function KeyOf(p: Proxy): string { ProxyKey(p.kind, p.port) }

  // ---------------------------------------------------------------- keys

  lemma LastColon(a: string, d: string, b: string, e: string)
    requires a + ":" + d == b + ":" + e && forall k :: 0 <= k < |d| ==> d[k] != ':'
    ensures |b| <= |a|
  {
    var s := a + ":" + d;
    assert s[|b|] == ':' by { assert (b + ":" + e)[|b|] == ':'; }
    assert forall j :: |a| < j < |s| ==> s[j] == d[j - |a| - 1];
  }

  lemma ItoaInjective(m: int, n: int)
    requires Itoa(m) == Itoa(n)
    ensures m == n
  {
    hide Digits, DecValue;
    if m < 0 { assert Itoa(m)[1..] == Digits(-m); }
    if n < 0 { assert Itoa(n)[1..] == Digits(-n); }
    assert m >= 0 ==> Itoa(m)[0] != '-';
    assert n >= 0 ==> Itoa(n)[0] != '-';
    assert m >= 0 ==> DecValue(Digits(m)) == m;
    assert n >= 0 ==> DecValue(Digits(n)) == n;
    assert m < 0 ==> DecValue(Digits(-m)) == -m;
    assert n < 0 ==> DecValue(Digits(-n)) == -n;
  }

  /** Different type and port never share a key, whatever the type's text is. */
  lemma ProxyKeyInjective(k1: string, p1: int, k2: string, p2: int)
    requires ProxyKey(k1, p1) == ProxyKey(k2, p2)
    ensures k1 == k2 && p1 == p2
  {
    hide Itoa;
    NoColon(p1);
    NoColon(p2);
    LastColon(k1, Itoa(p1), k2, Itoa(p2));
    LastColon(k2, Itoa(p2), k1, Itoa(p1));
    var s := ProxyKey(k1, p1);
    assert k1 == s[..|k1|] && k2 == s[..|k2|];
    assert Itoa(p1) == s[|k1| + 1..] && Itoa(p2) == s[|k2| + 1..];
    ItoaInjective(p1, p2);
  }

  lemma NoColon(n: int)
    ensures forall k :: 0 <= k < |Itoa(n)| ==> Itoa(n)[k] != ':'
  {
    hide Digits, DecValue;
  }

  // ---------------------------------------------------------------- steps

  function Init(allow: seq<PortRange>): State {
    State(allow, map[], [], map[], map[], {}, {}, {})
  }

  /** A session runs one message loop; closing, taking proxies out and unregistering them can come
      from other goroutines at any time. Only the loop adds names to its session, so its check that a
      name is new cannot go stale before it registers, and the two are one action. */
  predicate Enabled(s: State, a: Action) {
    match a
    case Register(session, _, _, _) => session !in s.loops
    case StartOk(session) => session in s.loops && s.loops[session].Starting?
    case StartFail(session) => session in s.loops && s.loops[session].Starting?
    case UndoRegister(session) =>
      session in s.loops && s.loops[session].Failed? && s.loops[session].id < |s.proxies|
    case Enter(session) =>
      session in s.loops && s.loops[session].Started? && s.loops[session].id < |s.proxies|
    case Take(_, _) => true
    case Close(_) => true
    case Unregister(id) => id in s.leaving && id < |s.proxies|
  }

  /** RegisterProxy's checks. */
  predicate Accepts(allow: seq<PortRange>, registry: set<string>, kind: string, port: int) {
    ProxyKey(kind, port) !in registry && IsPortAllowed(allow, port)
  }

  function Step(s: State, a: Action): State
    requires Enabled(s, a)
  {
    match a
    case Register(session, name, kind, port) =>
      if name == "" || (session, name) in s.held || !Accepts(s.allow, s.registry.Keys, kind, port) then s
      else s.(registry := s.registry[ProxyKey(kind, port) := |s.proxies|],
              proxies := s.proxies + [Proxy(session, name, kind, port)],
              loops := s.loops[session := Starting(|s.proxies|)])
    case StartOk(session) => s.(loops := s.loops[session := Started(s.loops[session].id)])
    case StartFail(session) => s.(loops := s.loops[session := Failed(s.loops[session].id)])
    case UndoRegister(session) =>
      s.(registry := s.registry - {KeyOf(s.proxies[s.loops[session].id])}, loops := s.loops - {session})
    case Enter(session) =>
      var id := s.loops[session].id;
      s.(held := s.held[(session, s.proxies[id].name) := id], loops := s.loops - {session},
         late := if session in s.closed then s.late + {id} else s.late)
    case Take(session, name) =>
      if (session, name) !in s.held then s
      else s.(held := s.held - {(session, name)}, leaving := s.leaving + {s.held[(session, name)]})
    case Close(session) =>
      if session in s.closed then s
      else s.(closed := s.closed + {session},
              held := map k | k in s.held && k.0 != session :: s.held[k],
              leaving := s.leaving + set k | k in s.held && k.0 == session :: s.held[k])
    case Unregister(id) => s.(registry := s.registry - {KeyOf(s.proxies[id])}, leaving := s.leaving - {id})
  }

  predicate ValidRun(s: State, run: seq<Action>)
    decreases |run|
  {
    run == [] || (Enabled(s, run[0]) && ValidRun(Step(s, run[0]), run[1..]))
  }

  function Run(s: State, run: seq<Action>): State
    requires ValidRun(s, run)
    decreases |run|
  {
    if run == [] then s else Run(Step(s, run[0]), run[1..])
  }

  // ---------------------------------------------------------------- the invariant

  /** Where a proxy is: on its way in, in a session, or on its way out. */
  datatype Place = InLoop(session: nat) | InSession(key: (nat, string)) | Out

  ghost predicate At(s: State, id: nat, p: Place) {
    match p
    case InLoop(session) => session in s.loops && s.loops[session].id == id
    case InSession(k) => k in s.held && s.held[k] == id
    case Out => id in s.leaving
  }

  /** A proxy that is somewhere is the one registered under its key. */
  ghost predicate Registered(s: State, id: nat) {
    id < |s.proxies| && KeyOf(s.proxies[id]) in s.registry && s.registry[KeyOf(s.proxies[id])] == id
  }

  ghost predicate Fits(s: State, id: nat, p: Place) {
    id < |s.proxies| &&
    match p
    case InLoop(session) => s.proxies[id].session == session && (session, s.proxies[id].name) !in s.held
    case InSession(k) => k == (s.proxies[id].session, s.proxies[id].name)
    case Out => true
  }

  ghost predicate Somewhere(s: State, id: nat) { exists p :: At(s, id, p) }

  /** Whoever has a proxy has the registered one, and has it where it belongs. */
  ghost predicate OwnersInv(s: State) {
    forall id: nat, p :: At(s, id, p) ==> Registered(s, id) && Fits(s, id, p)
  }

  ghost predicate OnePlace(s: State) {
    forall id: nat, p, q :: At(s, id, p) && At(s, id, q) ==> p == q
  }

  ghost predicate Placed(s: State) {
    forall k :: k in s.registry ==>
      s.registry[k] < |s.proxies| && KeyOf(s.proxies[s.registry[k]]) == k && Somewhere(s, s.registry[k])
  }

  /** What a closed session still holds was entered after the close, and only that was. */
  ghost predicate LateInv(s: State) {
    && (forall k :: k in s.held && k.0 in s.closed ==> s.held[k] in s.late)
    && (forall id :: id in s.late ==> id < |s.proxies| && s.proxies[id].session in s.closed)
  }

  ghost predicate Inv(s: State) { OwnersInv(s) && OnePlace(s) && Placed(s) && LateInv(s) }

  lemma InitInv(allow: seq<PortRange>)
    ensures Inv(Init(allow))
  {
  }

  // ---------------------------------------------------------------- one step keeps it

  lemma RegisterInv(s: State, a: Action)
    requires Inv(s) && a.Register? && Enabled(s, a)
    ensures Inv(Step(s, a))
  {
    hide ProxyKey, IsPortAllowed;
    var s' := Step(s, a);
    var n := |s.proxies|;
    if s' != s {
      forall id: nat, p ensures At(s', id, p) <==> At(s, id, p) || (id == n && p == InLoop(a.session)) {
      }
      SomewhereKept(s, s', n);
      assert Somewhere(s', n) by { assert At(s', n, InLoop(a.session)); }
      hide At, Somewhere;
      assert OwnersInv(s') by { hide OnePlace, Placed, LateInv; }
      assert OnePlace(s') by { hide Placed, LateInv, Fits; }
      assert Placed(s') by { hide OwnersInv, OnePlace, LateInv; }
      assert LateInv(s') by { hide OwnersInv, OnePlace, Placed; }
      hide *;
    }
  }

  /** A registered proxy that keeps a place keeps its entry accounted for. */
  lemma SomewhereKept(s: State, s': State, except: nat)
    requires forall id: nat, p :: id != except && At(s, id, p) ==> exists q :: At(s', id, q)
    ensures forall id: nat :: id != except && Somewhere(s, id) ==> Somewhere(s', id)
  {
  }

  lemma StartInv(s: State, a: Action)
    requires Inv(s) && (a.StartOk? || a.StartFail?) && Enabled(s, a)
    ensures Inv(Step(s, a))
  {
    hide KeyOf;
    var s' := Step(s, a);
    forall id: nat, p ensures At(s', id, p) <==> At(s, id, p) {
    }
  }

  lemma UndoAt(s: State, a: Action)
    requires a.UndoRegister? && Enabled(s, a)
    ensures forall i: nat, p :: At(Step(s, a), i, p) <==> At(s, i, p) && p != InLoop(a.session)
  {
    hide KeyOf;
    forall i: nat, p ensures At(Step(s, a), i, p) <==> At(s, i, p) && p != InLoop(a.session) {
    }
  }

  lemma UndoInv(s: State, a: Action)
    requires Inv(s) && a.UndoRegister? && Enabled(s, a)
    ensures Inv(Step(s, a))
  {
    hide KeyOf;
    var s' := Step(s, a);
    var id := s.loops[a.session].id;
    assert At(s, id, InLoop(a.session));
    UndoAt(s, a);
    assert forall i: nat, p :: At(s', i, p) ==> i != id;
    SomewhereKept(s, s', id);
    assert s' == s.(registry := s.registry - {KeyOf(s.proxies[id])}, loops := s.loops - {a.session});
    hide At, Somewhere, Step, Enabled;
    assert OwnersInv(s') by { hide Placed, LateInv; }
    assert OnePlace(s') by { hide Placed, LateInv, OwnersInv; }
    assert Placed(s') by { hide OwnersInv, OnePlace, LateInv; }
    assert LateInv(s') by { hide OwnersInv, OnePlace, Placed; }
    hide *;
  }

  lemma EnterInv(s: State, a: Action)
    requires Inv(s) && a.Enter? && Enabled(s, a)
    ensures Inv(Step(s, a))
  {
    hide KeyOf;
    var s' := Step(s, a);
    var id := s.loops[a.session].id;
    var k := (a.session, s.proxies[id].name);
    assert At(s, id, InLoop(a.session));
    assert Fits(s, id, InLoop(a.session));
    forall i: nat, p ensures At(s', i, p) <==>
      (At(s, i, p) && p != InLoop(a.session)) || (i == id && p == InSession(k))
    {
    }
    assert Somewhere(s', id) by { assert At(s', id, InSession(k)); }
    SomewhereKept(s, s', id);
    hide At, Somewhere;
    assert OwnersInv(s') by { hide Placed, LateInv; }
    assert OnePlace(s') by { hide Placed, LateInv, OwnersInv; }
    assert Placed(s') by { hide OwnersInv, OnePlace, LateInv; }
    assert LateInv(s') by { hide OwnersInv, OnePlace, Placed; }
    hide *;
  }

  lemma TakeInv(s: State, a: Action)
    requires Inv(s) && a.Take? && (a.session, a.name) in s.held
    ensures Inv(Step(s, a))
  {
    hide KeyOf;
    var s' := Step(s, a);
    var k := (a.session, a.name);
    var id := s.held[k];
    assert At(s, id, InSession(k));
    forall i: nat, p ensures At(s', i, p) <==> (At(s, i, p) && p != InSession(k)) || (i == id && p == Out) {
    }
    assert Somewhere(s', id) by { assert At(s', id, Out); }
    SomewhereKept(s, s', id);
    hide At, Somewhere;
    assert OwnersInv(s') by { hide Placed, LateInv; }
    assert OnePlace(s') by { hide Placed, LateInv, OwnersInv; }
    assert Placed(s') by { hide OwnersInv, OnePlace, LateInv; }
    assert LateInv(s') by { hide OwnersInv, OnePlace, Placed; }
    hide *;
  }

  /** s' is s once session is closed. */
  ghost predicate Closing(s: State, s': State, session: nat) {
    && session !in s.closed
    && s' == s.(closed := s.closed + {session},
                held := map k | k in s.held && k.0 != session :: s.held[k],
                leaving := s.leaving + set k | k in s.held && k.0 == session :: s.held[k])
  }

  ghost predicate ClosedPlaces(s: State, s': State, session: nat) {
    forall i: nat, p :: At(s', i, p) <==>
      if p == Out then At(s, i, Out) || exists name :: At(s, i, InSession((session, name)))
      else At(s, i, p) && !(p.InSession? && p.key.0 == session)
  }

  lemma CloseAt(s: State, s': State, session: nat)
    requires Closing(s, s', session)
    ensures ClosedPlaces(s, s', session)
  {
    forall i: nat, p ensures At(s', i, p) <==>
      if p == Out then At(s, i, Out) || exists name :: At(s, i, InSession((session, name)))
      else At(s, i, p) && !(p.InSession? && p.key.0 == session)
    {
      if p == Out && i in s'.leaving && i !in s.leaving {
        var k :| k in s.held && k.0 == session && s.held[k] == i;
        assert At(s, i, InSession((session, k.1)));
      }
    }
  }

  lemma CloseKeeps(s: State, s': State, session: nat)
    requires ClosedPlaces(s, s', session)
    ensures forall i: nat :: Somewhere(s, i) ==> Somewhere(s', i)
  {
    hide At;
    forall i: nat | Somewhere(s, i) ensures Somewhere(s', i) {
      var p :| At(s, i, p);
      if p.InSession? && p.key.0 == session {
        assert At(s, i, InSession((session, p.key.1)));
        assert At(s', i, Out);
      } else {
        assert At(s', i, p);
      }
    }
  }

  lemma CloseOwners(s: State, s': State, session: nat)
    requires OwnersInv(s) && Closing(s, s', session) && ClosedPlaces(s, s', session)
    ensures OwnersInv(s')
  {
    hide At, KeyOf;
  }

  lemma CloseInv(s: State, a: Action)
    requires Inv(s) && a.Close? && a.session !in s.closed
    ensures Inv(Step(s, a))
  {
    hide KeyOf;
    var s' := Step(s, a);
    assert Closing(s, s', a.session);
    hide Step;
    CloseAt(s, s', a.session);
    CloseKeeps(s, s', a.session);
    CloseOwners(s, s', a.session);
    hide At, Somewhere, OwnersInv;
    assert OnePlace(s') by { hide Placed, LateInv; }
    hide ClosedPlaces;
    assert Placed(s') by { hide OnePlace, LateInv; }
    assert LateInv(s') by { hide OnePlace, Placed; }
    hide *;
  }

  lemma UnregisterAt(s: State, a: Action)
    requires a.Unregister? && Enabled(s, a)
    ensures forall i: nat, p :: At(Step(s, a), i, p) <==> At(s, i, p) && !(i == a.id && p == Out)
  {
    hide KeyOf;
    forall i: nat, p ensures At(Step(s, a), i, p) <==> At(s, i, p) && !(i == a.id && p == Out) {
    }
  }

  lemma UnregisterInv(s: State, a: Action)
    requires Inv(s) && a.Unregister? && Enabled(s, a)
    ensures Inv(Step(s, a))
  {
    hide KeyOf;
    var s' := Step(s, a);
    assert At(s, a.id, Out);
    UnregisterAt(s, a);
    assert forall i: nat, p :: At(s', i, p) ==> i != a.id;
    SomewhereKept(s, s', a.id);
    assert s' == s.(registry := s.registry - {KeyOf(s.proxies[a.id])}, leaving := s.leaving - {a.id});
    assert KeyOf(s.proxies[a.id]) in s.registry && s.registry[KeyOf(s.proxies[a.id])] == a.id;
    hide At, Somewhere, Step, Enabled;
    assert OwnersInv(s') by { hide Placed, LateInv; }
    assert OnePlace(s') by { hide Placed, LateInv, OwnersInv; }
    assert Placed(s') by { hide OwnersInv, OnePlace, LateInv; }
    assert LateInv(s') by { hide OwnersInv, OnePlace, Placed; }
    hide *;
  }

  lemma StepInv(s: State, a: Action)
    requires Inv(s) && Enabled(s, a)
    ensures Inv(Step(s, a))
  {
    hide Inv;
    match a
    case Register(_, _, _, _) => RegisterInv(s, a);
    case StartOk(_) => StartInv(s, a);
    case StartFail(_) => StartInv(s, a);
    case UndoRegister(_) => UndoInv(s, a);
    case Enter(_) => EnterInv(s, a);
    case Take(session, name) => if (session, name) in s.held { TakeInv(s, a); }
    case Close(session) => if session !in s.closed { CloseInv(s, a); }
    case Unregister(_) => UnregisterInv(s, a);
  }

  // ---------------------------------------------------------------- whole runs

  lemma {:induction false} RunKeeps(s: State, run: seq<Action>)
    requires Inv(s) && ValidRun(s, run)
    ensures Inv(Run(s, run))
    decreases |run|
  {
    hide Inv, Step, Enabled;
    if run != [] {
      StepInv(s, run[0]);
      RunKeeps(Step(s, run[0]), run[1..]);
    }
  }

  /** In every reachable state: whoever has a proxy, in a session, in its message loop or on the way
      out, has the one registered under its key; no two of them have the same key; and every
      registered proxy is somewhere, so none is left registered with nobody to remove it. */
  lemma OwnersAreRegistered(allow: seq<PortRange>, run: seq<Action>)
    requires ValidRun(Init(allow), run)
    ensures var s := Run(Init(allow), run);
      && (forall id: nat, p :: At(s, id, p) ==> Registered(s, id))
      && (forall i: nat, j: nat, p, q :: At(s, i, p) && At(s, j, q) && (i != j || p != q) ==>
            i != j && KeyOf(s.proxies[i]) != KeyOf(s.proxies[j]))
      && (forall k :: k in s.registry ==> Somewhere(s, s.registry[k]))
  {
    hide Run, ValidRun, Step, KeyOf;
    InitInv(allow);
    RunKeeps(Init(allow), run);
  }

  /** Deleting by key only ever removes the caller's own registration. */
  lemma RemovesOwn(allow: seq<PortRange>, run: seq<Action>, a: Action)
    requires ValidRun(Init(allow), run)
    requires var s := Run(Init(allow), run); Enabled(s, a) && (a.Unregister? || a.UndoRegister?)
    ensures var s := Run(Init(allow), run); var id := if a.Unregister? then a.id else s.loops[a.session].id;
      Registered(s, id) && Step(s, a).registry == s.registry - {KeyOf(s.proxies[id])}
      && forall i: nat, p :: At(s, i, p) && i != id ==> Registered(Step(s, a), i)
  {
    hide Run, ValidRun, KeyOf;
    InitInv(allow);
    RunKeeps(Init(allow), run);
    var s := Run(Init(allow), run);
    assert At(s, if a.Unregister? then a.id else s.loops[a.session].id,
              if a.Unregister? then Out else InLoop(a.session));
    StepInv(s, a);
  }

  /** A session that holds a proxy is closed if and only if the proxy was entered after it was closed. */
  lemma ClosedHoldsOnlyLate(allow: seq<PortRange>, run: seq<Action>, k: (nat, string))
    requires ValidRun(Init(allow), run)
    requires k in Run(Init(allow), run).held
    ensures var s := Run(Init(allow), run); k.0 in s.closed <==> s.held[k] in s.late
  {
    hide Run, ValidRun, Step, KeyOf;
    InitInv(allow);
    RunKeeps(Init(allow), run);
    var s := Run(Init(allow), run);
    assert At(s, s.held[k], InSession(k));
  }

  /** A handleNewProxy that nobody interrupts: the proxy is registered and held when its name and key are
      new, its port is allowed and it starts; and else the registry and the sessions are as before. */
  lemma NewProxyRun(s: State, session: nat, name: string, kind: string, port: int, started: bool)
      returns (run: seq<Action>)
    requires session !in s.loops
    ensures ValidRun(s, run)
    ensures var s' := Run(s, run); var id := |s.proxies|; var key := ProxyKey(kind, port);
      if name != "" && (session, name) !in s.held && key !in s.registry && IsPortAllowed(s.allow, port) && started
      then
        && s'.registry == s.registry[key := id] && s'.held == s.held[(session, name) := id]
        && s'.proxies == s.proxies + [Proxy(session, name, kind, port)]
        && s'.loops == s.loops && s'.leaving == s.leaving && s'.closed == s.closed
      else s'.registry == s.registry && s'.held == s.held && s'.loops == s.loops && s'.leaving == s.leaving
  {
    hide ProxyKey, IsPortAllowed;
    var a0 := Register(session, name, kind, port);
    var s1 := Step(s, a0);
    run := [a0];
    RunOne(s, a0, []);
    if s1 != s {
      var a1 := if started then StartOk(session) else StartFail(session);
      var a2 := if started then Enter(session) else UndoRegister(session);
      var s2 := Step(s1, a1);
      RunOne(s2, a2, []);
      RunOne(s1, a1, [a2] + []);
      RunOne(s, a0, [a1] + ([a2] + []));
      run := [a0] + ([a1] + ([a2] + []));
    }
  }

  /** Taking a proxy out of its session and unregistering it: it is gone from both, nothing else is. */
  lemma CloseProxyRun(allow: seq<PortRange>, before: seq<Action>, session: nat, name: string)
    requires ValidRun(Init(allow), before) && (session, name) in Run(Init(allow), before).held
    ensures var s := Run(Init(allow), before); var id := s.held[(session, name)];
      && id < |s.proxies| && s.proxies[id].session == session && s.proxies[id].name == name
      && ValidRun(s, [Take(session, name), Unregister(id)])
      && var s' := Run(s, [Take(session, name), Unregister(id)]);
        && s'.held == s.held - {(session, name)} && s'.leaving == s.leaving
        && s'.registry == s.registry - {KeyOf(s.proxies[id])} && KeyOf(s.proxies[id]) in s.registry
        && s'.loops == s.loops && s'.closed == s.closed
  {
    hide ValidRun, Run, KeyOf;
    InitInv(allow);
    RunKeeps(Init(allow), before);
    var s := Run(Init(allow), before);
    var id := s.held[(session, name)];
    assert At(s, id, InSession((session, name)));
    assert id !in s.leaving by { assert id in s.leaving ==> At(s, id, Out); }
    var s1 := Step(s, Take(session, name));
    var s2 := Step(s1, Unregister(id));
    NothingMore(s2);
    RunOne(s1, Unregister(id), []);
    RunOne(s, Take(session, name), [Unregister(id)] + []);
    assert [Take(session, name)] + ([Unregister(id)] + []) == [Take(session, name), Unregister(id)];
  }

  lemma NothingMore(s: State)
    ensures ValidRun(s, []) && Run(s, []) == s
  {
  }

  /** Closing a session takes all it holds out and leaves what others hold. */
  lemma CloseEmpties(s: State, session: nat, k: (nat, string))
    requires session !in s.closed && k in s.held
    ensures var s' := Step(s, Close(session));
      && session in s'.closed && s'.registry == s.registry
      && (k.0 == session ==> k !in s'.held && s.held[k] in s'.leaving)
      && (k.0 != session ==> k in s'.held && s'.held[k] == s.held[k])
  {
  }

  lemma RunOne(s: State, a: Action, rest: seq<Action>)
    ensures ValidRun(s, [a] + rest) <==> Enabled(s, a) && ValidRun(Step(s, a), rest)
    ensures ValidRun(s, [a] + rest) ==> Run(s, [a] + rest) == Run(Step(s, a), rest)
  {
    hide Step, Enabled;
    assert ([a] + rest)[1..] == rest;
  }

  /** That does happen: a session closed while its loop was starting a proxy keeps the port for good. */
  lemma EnterAfterClose() returns (run: seq<Action>)
    ensures ValidRun(Init([]), run)
    ensures var s := Run(Init([]), run);
      0 in s.closed && (0, "a") in s.held && ProxyKey("udp", 5060) in s.registry && s.loops == map[] && s.leaving == {}
  {
    hide ProxyKey;
    var a0, a1, a2, a3 := Register(0, "a", "udp", 5060), StartOk(0), Close(0), Enter(0);
    var s0 := Init([]);
    var s1 := Step(s0, a0);
    var s2 := Step(s1, a1);
    var s3 := Step(s2, a2);
    var s4 := Step(s3, a3);
    assert s4.loops == map[] && s3.leaving == {};
    assert ValidRun(s4, []) && Run(s4, []) == s4;
    RunOne(s3, a3, []);
    RunOne(s2, a2, [a3] + []);
    RunOne(s1, a1, [a2] + ([a3] + []));
    RunOne(s0, a0, [a1] + ([a2] + ([a3] + [])));
    run := [a0] + ([a1] + ([a2] + ([a3] + [])));
  }
}
