/**
 The TCP role tracker (ebpf/tcp-link-trace.c with ebpf/headers/common.h).

 `conn_tracing_map` holds the role of each socket, `conn_ctx_map` that of each connection key.
 Connect and accept hooks insert a role, tcp_set_state decides it from the handshake, and CLOSE or
 a destroy hook drops it. The class `Tracker` is the maps with their hooks; the theorems say what
 a socket's entry means over a whole run.
 */
module TcpLink {
  import opened Common
  import opened MapHelpers
  import RingBuf

  type Sock = nat
  type ConnKey = nat   // what get_conn_key reads from a socket at the moment of a hook
  type Id = n: int | 0 <= n < TWO_16

  datatype Role = Unknown | Client | Server

  // The socket states of the kernel, as it numbers them.
  type Tcp = n: int | 1 <= n <= 12 witness 1
  const ESTABLISHED: Tcp := 1
  const SYN_SENT: Tcp := 2
  const SYN_RECV: Tcp := 3
  const FIN_WAIT1: Tcp := 4
  const FIN_WAIT2: Tcp := 5
  const TIME_WAIT: Tcp := 6
  const CLOSE: Tcp := 7
  const CLOSE_WAIT: Tcp := 8
  const LAST_ACK: Tcp := 9
  const LISTEN: Tcp := 10
  const CLOSING: Tcp := 11
  const NEW_SYN_RECV: Tcp := 12

  datatype ConnValue = ConnValue(id: Id, role: Role)

  const MAX_ENTRIES: nat := 10_000_000

  const AF_INET := 2
  const AF_INET6 := 10
  const IPPROTO_ICMP := 1
  const IPPROTO_TCP := 6
  const IPPROTO_UDP := 17

  // What set_conn_info reads from a socket.
  datatype SockInfo = SockInfo(family: nat, protocol: nat, rcvSaddr: nat, daddr: nat)

  // A submitted event.
  datatype Event = Event(loc: nat, role: Role, oldState: Tcp, newState: Tcp, info: SockInfo)

  // A socket that set_conn_info finds no fault with.
  predicate Reportable(i: SockInfo) {
    && (i.family == AF_INET || i.family == AF_INET6)
    && (i.protocol == IPPROTO_TCP || i.protocol == IPPROTO_UDP || i.protocol == IPPROTO_ICMP)
    && (i.family == AF_INET ==> i.rcvSaddr != 0 && i.daddr != 0)
  }

  function Emitted(events: seq<Event>, e: Event, reserved: bool): seq<Event> {
    if reserved && Reportable(e.info) then events + [e] else events
  }

  // The three transitions by which tcp_set_state decides a role.
  function Decide(oldState: Tcp, newState: Tcp): Option<Role> {
    if oldState == CLOSE && newState == SYN_SENT then Some(Client)
    else if oldState == SYN_SENT && newState == ESTABLISHED then Some(Client)
    else if oldState == SYN_RECV && newState == ESTABLISHED then Some(Server)
    else None
  }

  // A hook as it fires. `reserved` is the outcome of the ring buffer reservation.
  datatype Hook =
    | ConnectFile(sk: Sock, key: ConnKey, id: Id)
    | Begin(sk: Sock, key: ConnKey, id: Id, role: Role)
    | SetState(sk: Sock, key: ConnKey, id: Id, oldState: Tcp, newState: Tcp, info: SockInfo, reserved: bool)
    | Drop(sk: Sock, key: ConnKey)

  datatype Maps = Maps(tracing: map<Sock, Role>, ctx: map<ConnKey, ConnValue>)

  // Both maps after the two BPF_NOEXIST updates at the head of k_set_state.
  function Entered(m: Maps, sk: Sock, key: ConnKey, id: Id): Maps {
    Maps(Update(m.tracing, MAX_ENTRIES, sk, Unknown, BPF_NOEXIST),
         Update(m.ctx, MAX_ENTRIES, key, ConnValue(id, Unknown), BPF_NOEXIST))
  }

  // The branches of k_set_state.
  function Settled(e: Maps, sk: Sock, key: ConnKey, id: Id, oldState: Tcp, newState: Tcp): Maps {
    match Decide(oldState, newState)
    case Some(role) => e.(tracing := Update(e.tracing, MAX_ENTRIES, sk, role, MapHelpers.BPF_ANY))
    case None =>
      if sk in e.tracing
      then e.(ctx := Update(e.ctx, MAX_ENTRIES, key, ConnValue(id, e.tracing[sk]), MapHelpers.BPF_ANY))
      else e
  }

  function AfterSetState(m: Maps, sk: Sock, key: ConnKey, id: Id, oldState: Tcp, newState: Tcp): Maps {
    var d := Settled(Entered(m, sk, key, id), sk, key, id, oldState, newState);
    if newState == CLOSE then d.(tracing := d.tracing - {sk}) else d
  }

  function After(m: Maps, h: Hook): Maps {
    match h
    case ConnectFile(sk, key, id) => m.(ctx := GetOrInit(m.ctx, MAX_ENTRIES, key, ConnValue(id, Client)))
    case Begin(sk, key, id, role) =>
      Maps(GetOrInit(m.tracing, MAX_ENTRIES, sk, role), GetOrInit(m.ctx, MAX_ENTRIES, key, ConnValue(id, role)))
    case SetState(sk, key, id, oldState, newState, _, _) => AfterSetState(m, sk, key, id, oldState, newState)
    case Drop(sk, key) => Maps(m.tracing - {sk}, m.ctx - {key})
  }

  // What the hook on tcp_close does, as it is declared.
  function AfterClose(m: Maps, word: Sock, key: ConnKey, timeout: int): Maps {
    if timeout != 0 then After(m, Drop(word, key)) else m
  }

  // The location and role that k_set_state reports, if any, with the tracing map past its head.
  function Reported(tracing: map<Sock, Role>, sk: Sock, oldState: Tcp, newState: Tcp): Option<(nat, Role)> {
    if oldState == CLOSE && newState == SYN_SENT then Some((4, Client))
    else if oldState == SYN_SENT && newState == ESTABLISHED then Some((5, Client))
    else if oldState == SYN_RECV && newState == ESTABLISHED then Some((6, Server))
    else if sk in tracing then Some((7, tracing[sk]))
    else None
  }

  predicate Handshake(oldState: Tcp, newState: Tcp) {
    (oldState == CLOSE && newState == SYN_SENT)
    || (oldState == SYN_SENT && newState == ESTABLISHED)
    || (oldState == SYN_RECV && newState == ESTABLISHED)
  }

  // What is reported: a handshake transition at its own location with the role that it decides, any
  // other one of a tracked socket at location 7 with the role that is stored.
  lemma ReportedExactly(m: Maps, sk: Sock, key: ConnKey, id: Id, oldState: Tcp, newState: Tcp)
    ensures
      var r := Reported(Entered(m, sk, key, id).tracing, sk, oldState, newState);
      && (oldState == CLOSE && newState == SYN_SENT ==> r == Some((4, Client)))
      && (oldState == SYN_SENT && newState == ESTABLISHED ==> r == Some((5, Client)))
      && (oldState == SYN_RECV && newState == ESTABLISHED ==> r == Some((6, Server)))
      && (!Handshake(oldState, newState) && HasRoom(m.tracing, sk) ==>
            r == Some((7, if sk in m.tracing then m.tracing[sk] else Unknown)))
  {
  }

  lemma EmittedExactly(events: seq<Event>, info: SockInfo, reserved: bool)
    ensures forall e: Event | e.info == info ::
      Emitted(events, e, reserved) == if reserved && Reportable(info) then events + [e] else events
  {
  }

  class Tracker {
    var tracing: map<Sock, Role>
    var ctx: map<ConnKey, ConnValue>
    var events: seq<Event>

    constructor ()
      ensures tracing == map[] && ctx == map[] && events == []
    {
      tracing, ctx, events := map[], map[], [];
    }

    function State(): Maps
      reads this
    {
      Maps(tracing, ctx)
    }

    // set_conn_info: fills the event, or marks it as failed.
    method SetConnInfo(info: SockInfo, err: RingBuf.Flag) returns (newErr: RingBuf.Flag)
      ensures newErr == if Reportable(info) then err else RingBuf.CLEAN_ERR_FAILED
      ensures newErr == err || newErr == RingBuf.CLEAN_ERR_FAILED
      ensures err != RingBuf.CLEAN_ERR_FAILED ==>
        (newErr == err <==>
           && info.family in {2, 10} && info.protocol in {6, 17, 1}
           && (info.family == 2 ==> info.rcvSaddr > 0 && info.daddr > 0))
    {
      newErr := err;
      if info.family != AF_INET && info.family != AF_INET6 {
        return RingBuf.CLEAN_ERR_FAILED;
      }
      if info.protocol != IPPROTO_TCP && info.protocol != IPPROTO_UDP && info.protocol != IPPROTO_ICMP {
        return RingBuf.CLEAN_ERR_FAILED;
      }
      if info.family == AF_INET && (info.rcvSaddr <= 0 || info.daddr <= 0) {
        return RingBuf.CLEAN_ERR_FAILED;
      }
    }

    // handle_new_connection with its guard: the event is submitted exactly if a record could be
    // reserved and the socket is reportable.
    method HandleNewConnection(e: Event, reserved: bool)
      modifies this`events
      ensures events == Emitted(old(events), e, reserved)
      ensures reserved && Reportable(e.info) ==> events == old(events) + [e]
      ensures !reserved || !Reportable(e.info) ==> events == old(events)
    {
      if !reserved {
        return;
      }
      var err := SetConnInfo(e.info, RingBuf.CLEAN_ERR_INIT);
      if err == RingBuf.CLEAN_ERR_INIT {
        err := RingBuf.CLEAN_ERR_SUCCESS;
      }
      if err <= 0 {
        events := events + [e];
      }
    }

    // fentry/__sys_connect_file, once the file descriptor record has been found
    method FentrySysConnectFile(sk: Sock, key: ConnKey, id: Id)
      modifies this`ctx
      ensures State() == After(old(State()), ConnectFile(sk, key, id))
    {
      ctx := GetOrInit(ctx, MAX_ENTRIES, key, ConnValue(id, Client));
    }

    // fexit/__sys_connect and fentry/tcp_v6_connect
    method OnConnect(sk: Sock, key: ConnKey, id: Id)
      modifies this`tracing, this`ctx
      ensures State() == After(old(State()), Begin(sk, key, id, Client))
    {
      tracing := GetOrInit(tracing, MAX_ENTRIES, sk, Client);
      ctx := GetOrInit(ctx, MAX_ENTRIES, key, ConnValue(id, Client));
    }

    // fexit/tcp_v4_connect
    method FexitTcpV4Connect(sk: Sock, key: ConnKey, id: Id, retval: int)
      modifies this`tracing, this`ctx
      ensures retval == 0 ==> State() == After(old(State()), Begin(sk, key, id, Client))
      ensures retval != 0 ==> State() == old(State())
    {
      if retval == 0 {
        OnConnect(sk, key, id);
      }
    }

    // fentry/inet_csk_accept
    method FentryInetCskAccept(sk: Sock, key: ConnKey, id: Id)
      modifies this`tracing, this`ctx
      ensures State() == After(old(State()), Begin(sk, key, id, Server))
    {
      tracing := GetOrInit(tracing, MAX_ENTRIES, sk, Server);
      ctx := GetOrInit(ctx, MAX_ENTRIES, key, ConnValue(id, Server));
    }

    // kprobe/tcp_set_state
    method KSetState(sk: Sock, key: ConnKey, id: Id, oldState: Tcp, newState: Tcp, info: SockInfo, reserved: bool)
      modifies this
      ensures State() == AfterSetState(old(State()), sk, key, id, oldState, newState)
      ensures
        var r := Reported(Entered(old(State()), sk, key, id).tracing, sk, oldState, newState);
        events == if r == None then old(events)
                  else Emitted(old(events), Event(r.value.0, r.value.1, oldState, newState, info), reserved)
      ensures reserved && Reportable(info) && Handshake(oldState, newState) ==>
        events == old(events) + [Event(if newState == SYN_SENT then 4 else if oldState == SYN_SENT then 5 else 6,
                                       if oldState == SYN_RECV then Server else Client, oldState, newState, info)]
      ensures reserved && Reportable(info) && !Handshake(oldState, newState) && HasRoom(old(tracing), sk) ==>
        events == old(events)
                  + [Event(7, if sk in old(tracing) then old(tracing)[sk] else Unknown, oldState, newState, info)]
    {
      ReportedExactly(State(), sk, key, id, oldState, newState);
      EmittedExactly(events, info, reserved);
      hide Update, Emitted, Settled, Reported;
      tracing := Update(tracing, MAX_ENTRIES, sk, Unknown, BPF_NOEXIST);
      ctx := Update(ctx, MAX_ENTRIES, key, ConnValue(id, Unknown), BPF_NOEXIST);
      assert State() == Entered(old(State()), sk, key, id);
      var r := SetRole(sk, key, id, oldState, newState);
      if r.Some? {
        HandleNewConnection(Event(r.value.0, r.value.1, oldState, newState, info), reserved);
      }
      if newState == CLOSE {
        tracing := tracing - {sk};
      }
    }

    // The branches of k_set_state; each yields the location and role that it reports.
    method SetRole(sk: Sock, key: ConnKey, id: Id, oldState: Tcp, newState: Tcp) returns (r: Option<(nat, Role)>)
      modifies this`tracing, this`ctx
      ensures State() == Settled(old(State()), sk, key, id, oldState, newState)
      ensures r == Reported(old(tracing), sk, oldState, newState)
    {
      hide Update;
      r := None;
      if oldState == CLOSE && newState == SYN_SENT {
        tracing := Update(tracing, MAX_ENTRIES, sk, Client, MapHelpers.BPF_ANY);
        r := Some((4, Client));
      } else if oldState == SYN_SENT && newState == ESTABLISHED {
        tracing := Update(tracing, MAX_ENTRIES, sk, Client, MapHelpers.BPF_ANY);
        r := Some((5, Client));
      } else if oldState == SYN_RECV && newState == ESTABLISHED {
        tracing := Update(tracing, MAX_ENTRIES, sk, Server, MapHelpers.BPF_ANY);
        r := Some((6, Server));
      } else if sk in tracing {
        var role := tracing[sk];
        ctx := Update(ctx, MAX_ENTRIES, key, ConnValue(id, role), MapHelpers.BPF_ANY);
        r := Some((7, role));
      }
    }

    // tcp_v4_destroy_sock and both tcp_destroy_sock tracepoints
    method OnDestroy(sk: Sock, key: ConnKey)
      modifies this`tracing, this`ctx
      ensures State() == After(old(State()), Drop(sk, key))
    {
      tracing := tracing - {sk};
      ctx := ctx - {key};
    }

    // fexit/tcp_close, as it is declared: the kernel's function has a timeout as its second argument
    // and returns nothing, so that what the hook takes for the registers is the socket, and for the
    // return value the timeout. `word` is what it then finds in the socket where the first argument's
    // register would lie, and `key` is read through that.
    method FexitTcpClose(word: Sock, key: ConnKey, timeout: int)
      modifies this`tracing, this`ctx
      ensures State() == AfterClose(old(State()), word, key, timeout)
    {
      if timeout != 0 {
        OnDestroy(word, key);
      }
    }

    // Any run of hooks: the maps go through AfterAll, and whatever is submitted on the way is the event of
    // a socket with known family and protocol and, for INET, both addresses.
    method Fire(hs: seq<Hook>)
      requires forall i :: 0 <= i < |hs| && hs[i].Begin? ==> hs[i].role != Unknown
      modifies this
      ensures State() == AfterAll(old(State()), hs)
      ensures old(events) <= events
      ensures forall i :: |old(events)| <= i < |events| ==> Reportable(events[i].info)
    {
      hide After, AfterSetState;
      for n := 0 to |hs|
        invariant AfterAll(State(), hs[n..]) == AfterAll(old(State()), hs)
        invariant old(events) <= events
        invariant forall i :: |old(events)| <= i < |events| ==> Reportable(events[i].info)
      {
        assert hs[n..][0] == hs[n] && hs[n..][1..] == hs[n + 1..];
        FireOne(hs[n]);
      }
      assert hs[|hs|..] == [];
    }

    method FireOne(h: Hook)
      requires h.Begin? ==> h.role != Unknown
      modifies this
      ensures State() == After(old(State()), h)
      ensures old(events) <= events
      ensures forall i :: |old(events)| <= i < |events| ==> Reportable(events[i].info)
    {
      hide AfterSetState, State;
      match h
      case ConnectFile(sk, key, id) => FentrySysConnectFile(sk, key, id);
      case Begin(sk, key, id, role) =>
        if role == Client {
          OnConnect(sk, key, id);
        } else {
          FentryInetCskAccept(sk, key, id);
        }
      case SetState(sk, key, id, oldState, newState, info, reserved) =>
        KSetState(sk, key, id, oldState, newState, info, reserved);
      case Drop(sk, key) => OnDestroy(sk, key);
    }
  }

  /* ---- One socket over a run ---- */

  function AfterAll(m: Maps, hs: seq<Hook>): Maps
    decreases hs
  {
    if hs == [] then m else AfterAll(After(m, hs[0]), hs[1..])
  }

  // The hooks that concern one socket's role, each with whether its insertion finds room.
  datatype Local = Init(role: Role, fits: bool) | Move(oldState: Tcp, newState: Tcp, fits: bool) | Gone

  predicate HasRoom(tracing: map<Sock, Role>, sk: Sock) {
    sk in tracing || |tracing| < MAX_ENTRIES
  }

  function Project(m: Maps, hs: seq<Hook>, sk: Sock): seq<Local>
    decreases hs
  {
    if hs == [] then []
    else
      var rest := Project(After(m, hs[0]), hs[1..], sk);
      if hs[0].sk != sk then rest
      else match hs[0]
           case ConnectFile(_, _, _) => rest
           case Begin(_, _, _, role) => [Init(role, HasRoom(m.tracing, sk))] + rest
           case SetState(_, _, _, oldState, newState, _, _) =>
             [Move(oldState, newState, HasRoom(m.tracing, sk))] + rest
           case Drop(_, _) => [Gone] + rest
  }

  // A hook's effect on the role of its socket.
  function RoleAfter(role: Option<Role>, l: Local): Option<Role> {
    match l
    case Init(r, fits) => if role.Some? || !fits then role else Some(r)
    case Move(oldState, newState, fits) =>
      if newState == CLOSE || (role == None && !fits) then None
      else if Decide(oldState, newState).Some? then Decide(oldState, newState)
      else if role == None then Some(Unknown)
      else role
    case Gone => None
  }

  function Fold(role: Option<Role>, ls: seq<Local>): Option<Role>
    decreases ls
  {
    if ls == [] then role else Fold(RoleAfter(role, ls[0]), ls[1..])
  }

  // A socket's entry depends on that socket's own hooks alone.
  lemma {:induction false} RoleIsFold(m: Maps, hs: seq<Hook>, sk: Sock)
    ensures Lookup(AfterAll(m, hs).tracing, sk) == Fold(Lookup(m.tracing, sk), Project(m, hs, sk))
    decreases hs
  {
    if hs != [] {
      var n := After(m, hs[0]);
      RoleIsFold(n, hs[1..], sk);
      OneHook(m, hs[0], sk);
      var ls, rest := Project(m, hs, sk), Project(n, hs[1..], sk);
      if |ls| != |rest| {
        assert ls[1..] == rest;
      }
    }
  }

  lemma OneHook(m: Maps, h: Hook, sk: Sock)
    ensures
      var role := Lookup(m.tracing, sk);
      Lookup(After(m, h).tracing, sk)
        == if h.sk != sk then role
           else match h
                case ConnectFile(_, _, _) => role
                case Begin(_, _, _, r) => RoleAfter(role, Init(r, HasRoom(m.tracing, sk)))
                case SetState(_, _, _, oldState, newState, _, _) =>
                  RoleAfter(role, Move(oldState, newState, HasRoom(m.tracing, sk)))
                case Drop(_, _) => RoleAfter(role, Gone)
  {
    if h.SetState? {
      OneSetState(m, h.sk, h.key, h.id, h.oldState, h.newState, sk);
      hide AfterSetState, RoleAfter;
    }
  }

  lemma OneSetState(m: Maps, owner: Sock, key: ConnKey, id: Id, oldState: Tcp, newState: Tcp, sk: Sock)
    ensures
      var role := Lookup(m.tracing, sk);
      Lookup(AfterSetState(m, owner, key, id, oldState, newState).tracing, sk)
        == if owner != sk then role else RoleAfter(role, Move(oldState, newState, HasRoom(m.tracing, sk)))
  {
    var e := Entered(m, owner, key, id);
    var d := Settled(e, owner, key, id, oldState, newState);
    assert owner != sk ==> Lookup(e.tracing, sk) == Lookup(m.tracing, sk);
    assert owner in e.tracing <==> HasRoom(m.tracing, owner);
    assert owner != sk ==> Lookup(d.tracing, sk) == Lookup(e.tracing, sk);
    hide Entered;
    SettledRole(e, owner, key, id, oldState, newState);
    hide Settled;
  }

  lemma SettledRole(e: Maps, sk: Sock, key: ConnKey, id: Id, oldState: Tcp, newState: Tcp)
    requires sk in e.tracing || |e.tracing| >= MAX_ENTRIES
    ensures
      Lookup(Settled(e, sk, key, id, oldState, newState).tracing, sk)
        == if sk in e.tracing && Decide(oldState, newState).Some? then Decide(oldState, newState)
           else Lookup(e.tracing, sk)
  {
    hide Decide;
  }

  // After a tcp_set_state step that found room the socket is tracked exactly if it is not closed.
  lemma TrackedUnlessClosed(m: Maps, sk: Sock, key: ConnKey, id: Id, oldState: Tcp, newState: Tcp)
    requires HasRoom(m.tracing, sk)
    ensures sk in AfterSetState(m, sk, key, id, oldState, newState).tracing <==> newState != CLOSE
  {
  }

  // The hook on tcp_close untracks the socket that is closed only by chance: exactly if that was not
  // tracked before, or the timeout is not 0 and the word found in the socket is its own address.
  lemma CloseUntracksExactlyIf(m: Maps, sk: Sock, word: Sock, key: ConnKey, timeout: int)
    ensures sk !in AfterClose(m, word, key, timeout).tracing <==> sk !in m.tracing || (timeout != 0 && word == sk)
  {
  }

  lemma ClosedSocketStays(role: Role, key: ConnKey)
    ensures AfterClose(Maps(map[1 := role], map[]), 2, key, 1).tracing == map[1 := role]
    ensures AfterClose(Maps(map[1 := role], map[]), 1, key, 0).tracing == map[1 := role]
  {
    assert map[1 := role] - {2} == map[1 := role];
  }

  lemma {:induction false} FoldAppend(role: Option<Role>, a: seq<Local>, b: seq<Local>)
    ensures Fold(role, a + b) == Fold(Fold(role, a), b)
    decreases a
  {
    if a == [] {
      assert a + b == b;
    } else {
      assert (a + b)[1..] == a[1..] + b;
      FoldAppend(RoleAfter(role, a[0]), a[1..], b);
    }
  }

  predicate EndsLife(l: Local) {
    l.Gone? || (l.Move? && l.newState == CLOSE)
  }

  // Nothing before the last CLOSE or destroy matters.
  lemma OnlyThisLifeCounts(role: Option<Role>, before: seq<Local>, end: Local, life: seq<Local>)
    requires EndsLife(end)
    ensures Fold(role, before + [end] + life) == Fold(None, life)
  {
    FoldAppend(role, before + [end], life);
    FoldAppend(role, before, [end]);
    assert Fold(Fold(role, before), [end]) == RoleAfter(Fold(role, before), end) by {
      assert [end][1..] == [];
    }
  }

  // One lifetime: hooks that all found room, with no CLOSE and no destroy.
  ghost predicate Life(ls: seq<Local>) {
    forall i :: 0 <= i < |ls| ==> !EndsLife(ls[i]) && ls[i].fits
  }

  function Decision(l: Local): Option<Role> {
    if l.Move? then Decide(l.oldState, l.newState) else None
  }

  // The role decided last, if any handshake transition has been seen.
  function LastDecision(ls: seq<Local>): Option<Role> {
    if ls == [] then None
    else if Decision(ls[|ls| - 1]).Some? then Decision(ls[|ls| - 1])
    else LastDecision(ls[..|ls| - 1])
  }

  function FirstRole(l: Local): Role {
    if l.Init? then l.role else Unknown
  }

  // What the entry means within a lifetime: the last handshake decision if there is one, and
  // otherwise the role of the first hook, which no later connect or accept hook overwrites.
  lemma {:induction false} RoleWithinLife(ls: seq<Local>)
    requires Life(ls)
    ensures Fold(None, ls)
         == if ls == [] then None
            else if LastDecision(ls).Some? then LastDecision(ls)
            else Some(FirstRole(ls[0]))
  {
    if ls != [] {
      var init, last := ls[..|ls| - 1], ls[|ls| - 1];
      assert ls == init + [last];
      RoleWithinLife(init);
      FoldAppend(None, init, [last]);
      assert [last][1..] == [];
      assert Fold(Fold(None, init), [last]) == RoleAfter(Fold(None, init), last);
    }
  }

  lemma SetStateFrame(m: Maps, sk: Sock, key: ConnKey, id: Id, oldState: Tcp, newState: Tcp)
    ensures
      var n := AfterSetState(m, sk, key, id, oldState, newState);
      && n.tracing.Keys <= m.tracing.Keys + {sk}
      && forall k :: k != key ==> Lookup(n.ctx, k) == Lookup(m.ctx, k)
  {
    var e := Entered(m, sk, key, id);
    assert e.tracing.Keys <= m.tracing.Keys + {sk};
    assert forall k :: k != key ==> Lookup(e.ctx, k) == Lookup(m.ctx, k);
    hide Entered, Decide;
    var d := Settled(e, sk, key, id, oldState, newState);
    assert d.tracing.Keys <= e.tracing.Keys + {sk};
    assert forall k :: k != key ==> Lookup(d.ctx, k) == Lookup(e.ctx, k);
    hide Settled;
  }

  lemma KeysAfter(m: Maps, h: Hook)
    ensures After(m, h).tracing.Keys <= m.tracing.Keys + {h.sk}
  {
    if h.SetState? {
      SetStateFrame(m, h.sk, h.key, h.id, h.oldState, h.newState);
      hide AfterSetState;
    }
  }

  // With no more sockets than map entries every insertion finds room.
  lemma {:induction false} EveryInsertionFits(m: Maps, hs: seq<Hook>, sk: Sock, socks: set<Sock>)
    requires m.tracing.Keys <= socks && |socks| <= MAX_ENTRIES
    requires forall i :: 0 <= i < |hs| ==> hs[i].sk in socks
    ensures forall l :: l in Project(m, hs, sk) && !l.Gone? ==> l.fits
    decreases hs
  {
    if hs != [] {
      if hs[0].sk !in m.tracing {
        SubsetSize(m.tracing.Keys, socks);
        assert |m.tracing| == |m.tracing.Keys|;
      }
      KeysAfter(m, hs[0]);
      hide After;
      EveryInsertionFits(After(m, hs[0]), hs[1..], sk, socks);
    }
  }

  /* ---- Agreement of the two maps ---- */

  // A step that decides nothing reports the stored role, and leaves the key's entry with it.
  lemma OtherStepsAgree(m: Maps, sk: Sock, key: ConnKey, id: Id, oldState: Tcp, newState: Tcp)
    requires Decide(oldState, newState) == None && HasRoom(m.tracing, sk)
    requires key in m.ctx || |m.ctx| < MAX_ENTRIES
    ensures
      var role := if sk in m.tracing then m.tracing[sk] else Unknown;
      && Reported(Entered(m, sk, key, id).tracing, sk, oldState, newState) == Some((7, role))
      && Lookup(AfterSetState(m, sk, key, id, oldState, newState).ctx, key) == Some(ConnValue(id, role))
  {
  }

  // A deciding step stores the role for the socket only: the key's entry has it afterwards exactly
  // if it had it before.
  lemma DecidingStepsSkipTheKey(m: Maps, sk: Sock, key: ConnKey, id: Id, oldState: Tcp, newState: Tcp)
    requires Decide(oldState, newState).Some? && HasRoom(m.tracing, sk)
    requires key in m.ctx || |m.ctx| < MAX_ENTRIES
    ensures
      var role := Decide(oldState, newState).value;
      var n := AfterSetState(m, sk, key, id, oldState, newState);
      && Lookup(n.tracing, sk) == Some(role)
      && key in n.ctx
      && (n.ctx[key].role == role <==> key in m.ctx && m.ctx[key].role == role)
      && n.ctx[key] == (if key in m.ctx then m.ctx[key] else ConnValue(id, Unknown))
  {
  }

  // Where a handshake transition reports a role, that is the role it leaves in the map.
  lemma ReportedRoleIsStored(m: Maps, sk: Sock, key: ConnKey, id: Id, oldState: Tcp, newState: Tcp)
    requires HasRoom(m.tracing, sk) && newState != CLOSE
    ensures
      var r := Reported(Entered(m, sk, key, id).tracing, sk, oldState, newState);
      r.Some? && Lookup(AfterSetState(m, sk, key, id, oldState, newState).tracing, sk) == Some(r.value.1)
  {
  }

  // A hook touches no key but its own.
  lemma OtherKeysStay(m: Maps, h: Hook, key: ConnKey)
    requires h.key != key
    ensures Lookup(After(m, h).ctx, key) == Lookup(m.ctx, key)
  {
    if h.SetState? {
      SetStateFrame(m, h.sk, h.key, h.id, h.oldState, h.newState);
      hide AfterSetState;
    }
  }

  // The key's entry under the other hooks: connect and accept hooks enter their role where there is
  // room and none, and a destroy hook removes the entry.
  lemma KeyUnderOtherHooks(m: Maps, h: Hook, key: ConnKey)
    requires !h.SetState? && h.key == key
    ensures
      var before, r := Lookup(m.ctx, key), Lookup(After(m, h).ctx, key);
      && (h.Drop? ==> r == None)
      && (!h.Drop? && before.Some? ==> r == before)
      && (!h.Drop? && before == None && |m.ctx| < MAX_ENTRIES ==>
            r == Some(ConnValue(h.id, if h.ConnectFile? then Client else h.role)))
      && (!h.Drop? && before == None && |m.ctx| >= MAX_ENTRIES ==> r == None)
  {
  }

  /* ---- Role stability ---- */

  // The state diagram of TCP, Figure 5 in section 3.3.2 of RFC 9293; a socket may also be closed
  // from any state.
  predicate Edge(a: Tcp, b: Tcp) {
    || (a == CLOSE && b in {LISTEN, SYN_SENT})
    || (a == LISTEN && b in {SYN_RECV, SYN_SENT, CLOSE})
    || (a == SYN_SENT && b in {SYN_RECV, ESTABLISHED, CLOSE})
    || (a == SYN_RECV && b in {ESTABLISHED, FIN_WAIT1, LISTEN, CLOSE})
    || (a == ESTABLISHED && b in {FIN_WAIT1, CLOSE_WAIT, CLOSE})
    || (a == FIN_WAIT1 && b in {FIN_WAIT2, CLOSING, TIME_WAIT, CLOSE})
    || (a == FIN_WAIT2 && b in {TIME_WAIT, CLOSE})
    || (a == CLOSE_WAIT && b in {LAST_ACK, CLOSE})
    || (a == CLOSING && b in {TIME_WAIT, CLOSE})
    || (a in {LAST_ACK, TIME_WAIT} && b == CLOSE)
  }

  predicate InHandshake(a: Tcp) {
    a == CLOSE || a == LISTEN || a == SYN_SENT || a == SYN_RECV
  }

  // The states of one lifetime: from CLOSE, or from SYN-RECEIVED for the child of a listening
  // socket, along the diagram, with pauses, and never back to CLOSE.
  ghost predicate Path(p: seq<Tcp>) {
    && |p| > 0
    && (p[0] == CLOSE || p[0] == SYN_RECV)
    && (forall i :: 0 <= i < |p| - 1 ==> p[i + 1] == p[i] || (Edge(p[i], p[i + 1]) && p[i + 1] != CLOSE))
  }

  ghost predicate Takes(p: seq<Tcp>, a: Tcp, b: Tcp) {
    exists i :: StepAt(p, i, a, b)
  }

  predicate StepAt(p: seq<Tcp>, i: int, a: Tcp, b: Tcp) {
    0 <= i < |p| - 1 && p[i] == a && p[i + 1] == b
  }

  predicate DecidesAt(p: seq<Tcp>, i: int, role: Role) {
    0 <= i < |p| - 1 && Decide(p[i], p[i + 1]) == Some(role)
  }

  // Two steps of the path decide different roles.
  ghost predicate Disagree(p: seq<Tcp>) {
    exists i, j :: DecidesAt(p, i, Client) && DecidesAt(p, j, Server)
  }

  // A path that has left the handshake never comes back to it.
  lemma {:induction false} NoWayBack(p: seq<Tcp>, i: nat, j: nat)
    requires Path(p) && i <= j < |p| && !InHandshake(p[i])
    ensures !InHandshake(p[j])
    decreases j
  {
    if i < j {
      NoWayBack(p, i, j - 1);
      assert p[j - 1 + 1] == p[j - 1] || Edge(p[j - 1], p[j - 1 + 1]);
    }
  }

  // From SYN-SENT to SYN-RECEIVED within a lifetime only by a crossing of two SYNs, if LISTEN is
  // not in between.
  lemma {:induction false} CrossedBetween(p: seq<Tcp>, i: nat, j: nat)
    requires Path(p) && i < j < |p| && p[i] == SYN_SENT && p[j] == SYN_RECV
    ensures Takes(p, SYN_SENT, SYN_RECV)
    decreases j - i
  {
    assert p[i + 1] == p[i] || Edge(p[i], p[i + 1]);
    if p[i + 1] == SYN_SENT {
      CrossedBetween(p, i + 1, j);
    } else if p[i + 1] == SYN_RECV {
      assert StepAt(p, i, SYN_SENT, SYN_RECV);
    } else {
      NoWayBack(p, i + 1, j);
    }
  }

  lemma CloseIsFirst(p: seq<Tcp>, i: nat)
    requires Path(p) && i < |p| && p[i] == CLOSE
    ensures forall k :: 0 <= k <= i ==> p[k] == CLOSE
    decreases i
  {
    if i > 0 {
      var q := i - 1;
      assert p[q + 1] == p[q];
      CloseIsFirst(p, i - 1);
    }
  }

  lemma ClientThenServer(p: seq<Tcp>, i: nat, j: nat)
    requires Path(p) && DecidesAt(p, i, Client) && DecidesAt(p, j, Server)
    ensures p[i] == CLOSE && p[i + 1] == SYN_SENT && i + 1 < j && p[j] == SYN_RECV && p[j + 1] == ESTABLISHED
  {
    hide Path, Edge;
    if p[i] == SYN_SENT {
      // ESTABLISHED twice: the handshake would have been re-entered.
      if i < j {
        NoWayBack(p, i + 1, j);
      } else {
        NoWayBack(p, j + 1, i);
      }
    } else if j <= i {
      CloseIsFirst(p, i);
    }
  }

  // A simultaneous open that was established.
  ghost predicate Crossed(p: seq<Tcp>) {
    Takes(p, CLOSE, SYN_SENT) && Takes(p, SYN_SENT, SYN_RECV) && Takes(p, SYN_RECV, ESTABLISHED)
  }

  // The decided roles of a lifetime disagree exactly when it was opened actively, its SYN crossed
  // with the peer's (simultaneous open), and it was then established out of SYN-RECEIVED.
  lemma DisagreementNeedsSimultaneousOpen(p: seq<Tcp>)
    requires Path(p)
    ensures Disagree(p) <==> Crossed(p)
  {
    hide Path;
    if Disagree(p) {
      var i, j :| DecidesAt(p, i, Client) && DecidesAt(p, j, Server);
      ClientThenServer(p, i, j);
      CrossedBetween(p, i + 1, j);
      assert StepAt(p, i, CLOSE, SYN_SENT) && StepAt(p, j, SYN_RECV, ESTABLISHED);
    }
    if Takes(p, CLOSE, SYN_SENT) && Takes(p, SYN_RECV, ESTABLISHED) {
      var i :| StepAt(p, i, CLOSE, SYN_SENT);
      var j :| StepAt(p, j, SYN_RECV, ESTABLISHED);
      assert DecidesAt(p, i, Client) && DecidesAt(p, j, Server);
    }
  }

  // The hooks of a lifetime along a path: a tcp_set_state step moves along it, another hook pauses.
  ghost predicate Along(ls: seq<Local>, p: seq<Tcp>) {
    && |p| == |ls| + 1
    && (forall i :: 0 <= i < |ls| && ls[i].Move? ==> ls[i].oldState == p[i] && ls[i].newState == p[i + 1])
    && (forall i :: 0 <= i < |ls| && !ls[i].Move? ==> p[i + 1] == p[i])
  }

  lemma {:induction false} LastDecisionIsAStep(ls: seq<Local>)
    requires LastDecision(ls).Some?
    ensures exists i :: 0 <= i < |ls| && Decision(ls[i]) == LastDecision(ls)
  {
    var init, last := ls[..|ls| - 1], ls[|ls| - 1];
    if Decision(last) == None {
      LastDecisionIsAStep(init);
      var i :| 0 <= i < |init| && Decision(init[i]) == LastDecision(init);
      assert ls[i] == init[i];
    } else {
      assert Decision(ls[|ls| - 1]) == LastDecision(ls);
    }
  }

  lemma {:induction false} DecisionsStay(ls: seq<Local>, n: nat)
    requires n <= |ls| && LastDecision(ls[..n]).Some?
    ensures LastDecision(ls).Some?
    decreases |ls|
  {
    if n == |ls| {
      assert ls[..n] == ls;
    } else {
      assert ls[..|ls| - 1][..n] == ls[..n];
      DecisionsStay(ls[..|ls| - 1], n);
    }
  }

  // Once decided, the socket's role never changes.
  ghost predicate Stable(ls: seq<Local>) {
    forall n, k :: 0 <= n <= k <= |ls| ==> SameRole(ls, n, k)
  }

  ghost predicate SameRole(ls: seq<Local>, n: nat, k: nat)
    requires n <= k <= |ls|
  {
    LastDecision(ls[..n]).Some? ==> Fold(None, ls[..k]) == Fold(None, ls[..n])
  }

  // A role that has been decided in the first n hooks is what one of them decided along the path.
  lemma DecidedRole(ls: seq<Local>, p: seq<Tcp>, n: nat) returns (i: nat)
    requires Life(ls) && Along(ls, p) && n <= |ls| && LastDecision(ls[..n]).Some?
    ensures Fold(None, ls[..n]).Some? && DecidesAt(p, i, Fold(None, ls[..n]).value)
  {
    hide Fold, LastDecision;
    LastDecisionIsAStep(ls[..n]);
    RoleWithinLife(ls[..n]);
    i :| 0 <= i < n && Decision(ls[..n][i]) == LastDecision(ls[..n]);
    assert ls[..n][i] == ls[i];
  }

  // And what a step of the path decides is the role right after it.
  lemma RoleAfterDecision(ls: seq<Local>, p: seq<Tcp>, i: nat, role: Role)
    requires Life(ls) && Along(ls, p) && DecidesAt(p, i, role)
    ensures LastDecision(ls[..i + 1]).Some? && Fold(None, ls[..i + 1]) == Some(role)
  {
    assert ls[i].Move?;
    assert ls[..i + 1][i] == ls[i];
    hide Fold;
    RoleWithinLife(ls[..i + 1]);
  }

  // Over a lifetime a decided role stays, whatever other hooks fire, exactly if the lifetime is no
  // simultaneous open that was established.
  lemma RoleIsStable(ls: seq<Local>, p: seq<Tcp>)
    requires Life(ls) && Along(ls, p) && Path(p)
    ensures Stable(ls) <==> !Crossed(p)
  {
    hide Fold, LastDecision, Crossed, Path, Life, Along;
    DisagreementNeedsSimultaneousOpen(p);
    if Disagree(p) {
      var i: nat, j: nat :| DecidesAt(p, i, Client) && DecidesAt(p, j, Server);
      ClientThenServer(p, i, j);
      AlongLength(ls, p);
      RoleAfterDecision(ls, p, i, Client);
      RoleAfterDecision(ls, p, j, Server);
      assert !SameRole(ls, i + 1, j + 1);
    } else {
      forall n, k | 0 <= n <= k <= |ls|
        ensures SameRole(ls, n, k)
      {
        if LastDecision(ls[..n]).Some? {
          assert ls[..k][..n] == ls[..n];
          DecisionsStay(ls[..k], n);
          var i := DecidedRole(ls, p, n);
          var j := DecidedRole(ls, p, k);
        }
      }
    }
  }

  lemma AlongLength(ls: seq<Local>, p: seq<Tcp>)
    requires Along(ls, p)
    ensures |p| == |ls| + 1
  {
  }
}
