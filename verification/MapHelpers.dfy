/**
 The get-or-init helpers over BPF hash maps: ebpf/headers/bpf/bpf_map_helpers.h, which inserts with
 BPF_NOEXIST, and ebpf/headers/bpf/map_helpers.h, which inserts with BPF_ANY and is the one that
 bpf_all.h includes.
 */
module MapHelpers {
  import opened Common

  datatype Flag = BPF_ANY | BPF_NOEXIST
  datatype Err = Success | EEXIST | OtherError

  // bpf_map_update_elem on a hash map with room for `max` keys.
  function UpdateErr<K, V>(m: map<K, V>, max: nat, k: K, flag: Flag): Err {
    if flag == BPF_NOEXIST && k in m then EEXIST
    else if k !in m && |m| >= max then OtherError
    else Success
  }

  function Update<K, V>(m: map<K, V>, max: nat, k: K, v: V, flag: Flag): map<K, V> {
    if UpdateErr(m, max, k, flag) == Success then m[k := v] else m
  }

  // The operation both helpers are meant to be, as one step.
  function GetOrInit<K, V>(m: map<K, V>, max: nat, k: K, init: V): map<K, V> {
    if k in m || |m| >= max then m else m[k := init]
  }

  class HashMap<K(==), V(==)> {
    var m: map<K, V>
    const max: nat

    constructor (max: nat)
      ensures m == map[] && this.max == max
    {
      m := map[];
      this.max := max;
    }

    method LookupElem(k: K) returns (v: Option<V>)
      ensures v == Lookup(m, k)
    {
      v := if k in m then Some(m[k]) else None;
    }

    method UpdateElem(k: K, v: V, flag: Flag) returns (err: Err)
      modifies this
      ensures err == UpdateErr(old(m), max, k, flag)
      ensures m == Update(old(m), max, k, v, flag)
      ensures err == Success <==> if k in old(m) then flag == BPF_ANY else |old(m)| < max
      ensures err == EEXIST <==> k in old(m) && flag == BPF_NOEXIST
      ensures m == if err == Success then old(m)[k := v] else old(m)
    {
      if flag == BPF_NOEXIST && k in m {
        return EEXIST;
      }
      if k !in m && |m| >= max {
        return OtherError;
      }
      m := m[k := v];
      err := Success;
    }

    method DeleteElem(k: K)
      modifies this
      ensures m == old(m) - {k}
    {
      m := m - {k};
    }

    // bpf_map_lookup_or_try_init, in either version, with no other thread in between: both are one
    // atomic get-or-init, and return what the map then holds.
    method LookupOrTryInit(k: K, init: V, flag: Flag) returns (v: Option<V>)
      modifies this
      ensures m == GetOrInit(old(m), max, k, init)
      ensures v == Lookup(m, k)
      ensures k in old(m) ==> m == old(m) && v == Some(old(m)[k])
      ensures k !in old(m) && |old(m)| < max ==> m == old(m)[k := init] && v == Some(init)
      ensures k !in old(m) && |old(m)| >= max ==> m == old(m) && v == None
    {
      v := LookupElem(k);
      if v.Some? {
        return;
      }
      var err := UpdateElem(k, init, flag);
      if err != Success && err != EEXIST {
        return None;
      }
      v := LookupElem(k);
    }

    method LookupAndDelete(k: K) returns (v: Option<V>)
      modifies this
      ensures v == Lookup(old(m), k)
      ensures m == old(m) - {k}
    {
      v := LookupElem(k);
      if v.Some? {
        DeleteElem(k);
      } else {
        assert m - {k} == m;
      }
    }
  }

  /* ---- Many threads at once ---- */

  type Tid = nat
  type Key = nat
  type Val = nat

  // One call of the helper by one thread.
  datatype Call = Call(key: Key, init: Val)

  // Where a call stands: before its lookup, before its update, before its second lookup, done.
  datatype Pc = Start | Missed | Stored | Done(ret: Option<Val>)

  // A completed effect on the map, in the order in which the effects took place.
  datatype Effect = Effect(tid: Tid, ret: Option<Val>)

  datatype State = State(m: map<Key, Val>, pcs: map<Tid, Pc>, effects: seq<Effect>)

  // The next step of thread t; `fails` says that its update, if it is next, meets an error of the
  // kernel's own (such as no memory). `effects` only records the step that decides the call.
  function Step(calls: map<Tid, Call>, max: nat, flag: Flag, s: State, t: Tid, fails: bool): State
    requires t in calls && s.pcs.Keys == calls.Keys
  {
    var c := calls[t];
    match s.pcs[t]
    case Start =>
      if c.key in s.m then
        s.(pcs := s.pcs[t := Done(Some(s.m[c.key]))], effects := s.effects + [Effect(t, Some(s.m[c.key]))])
      else s.(pcs := s.pcs[t := Missed])
    case Missed =>
      var err := UpdateErr(s.m, max, c.key, flag);
      if err == OtherError || (err == Success && fails) then
        s.(pcs := s.pcs[t := Done(None)], effects := s.effects + [Effect(t, None)])
      else
        var m := Update(s.m, max, c.key, c.init, flag);
        State(m, s.pcs[t := Stored], s.effects + [Effect(t, Some(m[c.key]))])
    case Stored => s.(pcs := s.pcs[t := Done(Lookup(s.m, c.key))])
    case Done(_) => s
  }

  datatype Turn = Turn(tid: Tid, fails: bool)

  function Run(calls: map<Tid, Call>, max: nat, flag: Flag, s: State, turns: seq<Turn>): (r: State)
    requires s.pcs.Keys == calls.Keys && forall i :: 0 <= i < |turns| ==> turns[i].tid in calls
    ensures r.pcs.Keys == calls.Keys
    decreases turns
  {
    if turns == [] then s
    else Run(calls, max, flag, Step(calls, max, flag, s, turns[0].tid, turns[0].fails), turns[1..])
  }

  function Initial(calls: map<Tid, Call>, m: map<Key, Val>): State {
    State(m, map t | t in calls :: Start, [])
  }

  // The effects are those of atomic calls made in their order from m0, ending in m: a call whose key
  // is there returns its value; another one inserts its own value, or fails and changes nothing.
  ghost predicate Atomic(calls: map<Tid, Call>, m0: map<Key, Val>, effects: seq<Effect>, m: map<Key, Val>)
    decreases effects
  {
    if effects == [] then m == m0
    else
      var last := effects[|effects| - 1];
      && last.tid in calls
      && var c := calls[last.tid];
         exists before :: Atomic(calls, m0, effects[..|effects| - 1], before) && AtomicCall(c, before, last.ret, m)
  }

  ghost predicate Inv(calls: map<Tid, Call>, m0: map<Key, Val>, s: State) {
    && s.pcs.Keys == calls.Keys
    && Atomic(calls, m0, s.effects, s.m)
    && (forall t :: t in calls ==> CallRight(t, calls[t].key, s.pcs[t], s.m, s.effects))
    && EffectsOnce(s)
  }

  // A thread alone, whose update meets no failure, goes through its steps as through one get-or-init.
  lemma AloneIsGetOrInit(calls: map<Tid, Call>, max: nat, flag: Flag, m: map<Key, Val>, t: Tid)
    requires t in calls
    ensures
      var turn := Turn(t, false);
      var turns := [turn] + ([turn] + ([turn] + []));
      && Valid(calls, turns)
      && var r := Run(calls, max, flag, Initial(calls, m), turns);
         && r.m == GetOrInit(m, max, calls[t].key, calls[t].init)
         && r.pcs[t] == Done(Lookup(r.m, calls[t].key))
  {
    var turn, s0 := Turn(t, false), Initial(calls, m);
    RunStep(calls, max, flag, s0, turn, [turn] + ([turn] + []));
    var s1 := Step(calls, max, flag, s0, t, false);
    RunStep(calls, max, flag, s1, turn, [turn] + []);
    var s2 := Step(calls, max, flag, s1, t, false);
    RunStep(calls, max, flag, s2, turn, []);
    hide Run;
  }

  // A call has at most one effect, and none before its deciding step.
  ghost predicate EffectsOnce(s: State) {
    && (forall i, j :: 0 <= i < j < |s.effects| ==> s.effects[i].tid != s.effects[j].tid)
    && (forall e :: e in s.effects ==> e.tid in s.pcs && !Undecided(s.pcs[e.tid]))
  }

  predicate Undecided(pc: Pc) {
    pc == Start || pc == Missed
  }

  // Past its effect a call has recorded it, and the value it returns is the one in the map.
  predicate CallRight(t: Tid, key: Key, pc: Pc, m: map<Key, Val>, effects: seq<Effect>) {
    match pc
    case Start => true
    case Missed => true
    case Stored => key in m && Effect(t, Some(m[key])) in effects
    case Done(ret) => Effect(t, ret) in effects && (ret.Some? ==> Lookup(m, key) == ret)
  }

  // Nothing that is in the map ever changes or goes away.
  ghost predicate Keeps(m: map<Key, Val>, n: map<Key, Val>) {
    forall k :: k in m ==> k in n && n[k] == m[k]
  }

  // What one atomic call does.
  predicate AtomicCall(c: Call, before: map<Key, Val>, ret: Option<Val>, m: map<Key, Val>) {
    if c.key in before then m == before && ret == Some(before[c.key])
    else (m == before[c.key := c.init] && ret == Some(c.init)) || (m == before && ret == None)
  }

  lemma AtomicExtends(calls: map<Tid, Call>, m0: map<Key, Val>, effects: seq<Effect>, before: map<Key, Val>,
                      e: Effect, m: map<Key, Val>)
    requires Atomic(calls, m0, effects, before) && e.tid in calls && AtomicCall(calls[e.tid], before, e.ret, m)
    ensures Atomic(calls, m0, effects + [e], m)
  {
    var es := effects + [e];
    assert es[..|es| - 1] == effects;
  }

  // A step either has no effect or that of the atomic call, and leaves its own call right.
  lemma StepFacts(calls: map<Tid, Call>, max: nat, s: State, t: Tid, fails: bool)
    requires t in calls && s.pcs.Keys == calls.Keys
    requires CallRight(t, calls[t].key, s.pcs[t], s.m, s.effects)
    ensures
      var r := Step(calls, max, BPF_NOEXIST, s, t, fails);
      && t in r.pcs && r.pcs == s.pcs[t := r.pcs[t]]
      && CallRight(t, calls[t].key, r.pcs[t], r.m, r.effects)
      && Keeps(s.m, r.m)
      && ((r.effects == s.effects && r.m == s.m)
          || (&& |r.effects| == |s.effects| + 1
              && r.effects == s.effects + [Effect(t, r.effects[|s.effects|].ret)]
              && AtomicCall(calls[t], s.m, r.effects[|s.effects|].ret, r.m)
              && Undecided(s.pcs[t]) && !Undecided(r.pcs[t])))
      && (!Undecided(s.pcs[t]) ==> !Undecided(r.pcs[t]))
  {
  }

  lemma OneMoreEffect(s: State, t: Tid, pc: Pc, ret: Option<Val>, m: map<Key, Val>)
    requires EffectsOnce(s) && t in s.pcs && Undecided(s.pcs[t]) && !Undecided(pc)
    ensures EffectsOnce(State(m, s.pcs[t := pc], s.effects + [Effect(t, ret)]))
  {
  }

  lemma OthersStayRight(u: Tid, key: Key, pc: Pc, m: map<Key, Val>, n: map<Key, Val>,
                        effects: seq<Effect>, more: seq<Effect>)
    requires CallRight(u, key, pc, m, effects) && Keeps(m, n)
    ensures CallRight(u, key, pc, n, effects + more)
  {
  }

  lemma StepKeepsInv(calls: map<Tid, Call>, max: nat, m0: map<Key, Val>, s: State, t: Tid, fails: bool)
    requires Inv(calls, m0, s) && t in calls
    ensures Inv(calls, m0, Step(calls, max, BPF_NOEXIST, s, t, fails))
    ensures Keeps(s.m, Step(calls, max, BPF_NOEXIST, s, t, fails).m)
  {
    hide Atomic, CallRight, Step, Keeps, AtomicCall, Undecided;
    var r := Step(calls, max, BPF_NOEXIST, s, t, fails);
    StepFacts(calls, max, s, t, fails);
    var more := r.effects[|s.effects|..];
    if r.effects == s.effects {
      assert more == [];
    } else {
      OneMoreEffect(s, t, r.pcs[t], r.effects[|s.effects|].ret, r.m);
      AtomicExtends(calls, m0, s.effects, s.m, Effect(t, r.effects[|s.effects|].ret), r.m);
    }
    assert r.effects == s.effects + more;
    forall u | u in calls && u != t
      ensures CallRight(u, calls[u].key, r.pcs[u], r.m, r.effects)
    {
      OthersStayRight(u, calls[u].key, s.pcs[u], s.m, r.m, s.effects, more);
    }
  }

  // Any number of threads, any interleaving, arbitrary failures, no deletes: the NOEXIST helper
  // never overwrites; every call that returns a value returns what the map holds from then on; and
  // each call takes effect at most once, as an atomic call, in the step that decides it.
  lemma {:induction false} NoexistIsAtomic(calls: map<Tid, Call>, max: nat, m0: map<Key, Val>, s: State,
                                           turns: seq<Turn>)
    requires Inv(calls, m0, s) && forall i :: 0 <= i < |turns| ==> turns[i].tid in calls
    ensures Inv(calls, m0, Run(calls, max, BPF_NOEXIST, s, turns))
    ensures Keeps(s.m, Run(calls, max, BPF_NOEXIST, s, turns).m)
    ensures s.effects <= Run(calls, max, BPF_NOEXIST, s, turns).effects
    decreases turns
  {
    hide Inv;
    if turns != [] {
      InvKeys(calls, m0, s);
      StepKeepsInv(calls, max, m0, s, turns[0].tid, turns[0].fails);
      var next := Step(calls, max, BPF_NOEXIST, s, turns[0].tid, turns[0].fails);
      NoexistIsAtomic(calls, max, m0, next, turns[1..]);
    }
  }

  // The order of the effects keeps that of the calls: a call that has returned before another one
  // starts has its effect first. With NoexistIsAtomic, the calls are linearizable.
  lemma EffectsKeepRealTime(calls: map<Tid, Call>, max: nat, m0: map<Key, Val>, s: State, turns: seq<Turn>,
                            t: Tid, u: Tid)
    requires Inv(calls, m0, s) && forall i :: 0 <= i < |turns| ==> turns[i].tid in calls
    requires t in calls && u in calls && s.pcs[t].Done? && s.pcs[u] == Start
    ensures
      var effects := Run(calls, max, BPF_NOEXIST, s, turns).effects;
      && (exists i :: 0 <= i < |effects| && effects[i].tid == t)
      && (forall i, j | 0 <= i < |effects| && 0 <= j < |effects| && effects[i].tid == t && effects[j].tid == u ::
            i < j)
  {
    NoexistIsAtomic(calls, max, m0, s, turns);
    var effects := Run(calls, max, BPF_NOEXIST, s, turns).effects;
    assert CallRight(t, calls[t].key, s.pcs[t], s.m, s.effects);
    var n :| 0 <= n < |s.effects| && s.effects[n].tid == t;
    assert effects[n] == s.effects[n];
    assert forall j :: 0 <= j < |s.effects| ==> s.effects[j] in s.effects && effects[j] == s.effects[j];
  }

  lemma InvKeys(calls: map<Tid, Call>, m0: map<Key, Val>, s: State)
    requires Inv(calls, m0, s)
    ensures s.pcs.Keys == calls.Keys
  {
  }

  // What the threads see, from the start: two calls for the same key that both return a value
  // return the same one, which was there before or is the init value of one of the calls.
  lemma AllCallersAgree(calls: map<Tid, Call>, max: nat, m0: map<Key, Val>, turns: seq<Turn>, t: Tid, u: Tid)
    requires forall i :: 0 <= i < |turns| ==> turns[i].tid in calls
    requires t in calls && u in calls && calls[t].key == calls[u].key
    requires var r := Run(calls, max, BPF_NOEXIST, Initial(calls, m0), turns);
      r.pcs[t].Done? && r.pcs[t].ret.Some? && r.pcs[u].Done? && r.pcs[u].ret.Some?
    ensures var r := Run(calls, max, BPF_NOEXIST, Initial(calls, m0), turns);
      && r.pcs[t].ret == r.pcs[u].ret == Lookup(r.m, calls[t].key)
      && (calls[t].key in m0 ==> r.pcs[t].ret.value == m0[calls[t].key])
      && (calls[t].key !in m0 ==> exists w :: w in calls && calls[w] == Call(calls[t].key, r.pcs[t].ret.value))
  {
    var s := Initial(calls, m0);
    assert Inv(calls, m0, s);
    NoexistIsAtomic(calls, max, m0, s, turns);
    var r := Run(calls, max, BPF_NOEXIST, s, turns);
    ValuesComeFromCalls(calls, m0, r.effects, r.m);
  }

  lemma {:induction false} ValuesComeFromCalls(calls: map<Tid, Call>, m0: map<Key, Val>, effects: seq<Effect>,
                                               m: map<Key, Val>)
    requires Atomic(calls, m0, effects, m)
    ensures forall k :: k in m && k !in m0 ==> exists w :: w in calls && calls[w] == Call(k, m[k])
    decreases effects
  {
    if effects != [] {
      var last := effects[|effects| - 1];
      var c := calls[last.tid];
      var before :| Atomic(calls, m0, effects[..|effects| - 1], before) && AtomicCall(c, before, last.ret, m);
      ValuesComeFromCalls(calls, m0, effects[..|effects| - 1], before);
    }
  }

  /* ---- The BPF_ANY version ---- */

  predicate Valid(calls: map<Tid, Call>, turns: seq<Turn>) {
    forall i :: 0 <= i < |turns| ==> turns[i].tid in calls
  }

  // After these turns, one more keeps what is in the map.
  ghost predicate KeepsNext(calls: map<Tid, Call>, max: nat, m0: map<Key, Val>, turns: seq<Turn>, next: Turn)
    requires Valid(calls, turns) && next.tid in calls
  {
    var s := Run(calls, max, BPF_ANY, Initial(calls, m0), turns);
    Keeps(s.m, Step(calls, max, BPF_ANY, s, next.tid, next.fails).m)
  }

  // Calls for the same absent key come with the same value.
  ghost predicate Agree(calls: map<Tid, Call>, m0: map<Key, Val>) {
    forall t, u :: t in calls && u in calls && calls[t].key == calls[u].key && calls[t].key !in m0 ==>
      calls[t].init == calls[u].init
  }

  // The BPF_ANY version never overwrites, in any run with any failures, exactly if the map is full
  // or its callers agree on the values for absent keys.
  lemma AnyKeepsIffCallersAgree(calls: map<Tid, Call>, max: nat, m0: map<Key, Val>)
    ensures (forall turns: seq<Turn>, next: Turn | Valid(calls, turns) && next.tid in calls ::
               KeepsNext(calls, max, m0, turns, next))
       <==> |m0| >= max || Agree(calls, m0)
  {
    if |m0| >= max || Agree(calls, m0) {
      forall turns: seq<Turn>, next: Turn | Valid(calls, turns) && next.tid in calls
        ensures KeepsNext(calls, max, m0, turns, next)
      {
        AnyRunKeepsInv(calls, max, m0, Initial(calls, m0), turns);
        AnyStepKeepsInv(calls, max, m0, Run(calls, max, BPF_ANY, Initial(calls, m0), turns), next);
      }
    } else {
      var t, u :| t in calls && u in calls && calls[t].key == calls[u].key && calls[t].key !in m0
        && calls[t].init != calls[u].init;
      var a, b := Turn(t, false), Turn(u, false);
      var turns := [a] + ([b] + ([a] + []));
      ThirdTurnStores(calls, max, m0, t, u);
      hide Run, Step;
      assert !KeepsNext(calls, max, m0, turns, b) by {
        var s := Run(calls, max, BPF_ANY, Initial(calls, m0), turns);
        LateUpdateReplaces(calls, max, s, u);
      }
    }
  }

  // Two threads miss, and one of them stores its value.
  lemma ThirdTurnStores(calls: map<Tid, Call>, max: nat, m0: map<Key, Val>, t: Tid, u: Tid)
    requires t in calls && u in calls && t != u && calls[t].key == calls[u].key
    requires calls[t].key !in m0 && |m0| < max
    ensures
      var a, b := Turn(t, false), Turn(u, false);
      var turns := [a] + ([b] + ([a] + []));
      && Valid(calls, turns)
      && var s := Run(calls, max, BPF_ANY, Initial(calls, m0), turns);
         s.m == m0[calls[t].key := calls[t].init] && s.pcs[u] == Missed && s.pcs[t] == Stored
  {
    var a, b := Turn(t, false), Turn(u, false);
    var s0 := Initial(calls, m0);
    RunStep(calls, max, BPF_ANY, s0, a, [b] + ([a] + []));
    var s1 := Step(calls, max, BPF_ANY, s0, t, false);
    RunStep(calls, max, BPF_ANY, s1, b, [a] + []);
    var s2 := Step(calls, max, BPF_ANY, s1, u, false);
    RunStep(calls, max, BPF_ANY, s2, a, []);
    assert s2.m == m0 && s2.pcs[t] == Missed && s2.pcs[u] == Missed;
    hide Run;
  }

  // What every run keeps that starts on m0.
  ghost predicate AnyInv(calls: map<Tid, Call>, max: nat, m0: map<Key, Val>, s: State) {
    && s.pcs.Keys == calls.Keys
    && Keeps(m0, s.m)
    && (|m0| >= max ==> s.m == m0)
    && FromCalls(calls, m0, s.m)
    && (forall t :: t in calls && s.pcs[t] == Missed ==> calls[t].key !in m0)
  }

  // Every new entry is what some call brought.
  ghost predicate FromCalls(calls: map<Tid, Call>, m0: map<Key, Val>, m: map<Key, Val>) {
    forall k :: k in m && k !in m0 ==> exists w :: w in calls && calls[w] == Call(k, m[k])
  }

  lemma StoreFromCall(calls: map<Tid, Call>, m0: map<Key, Val>, m: map<Key, Val>, t: Tid)
    requires t in calls && calls[t].key !in m0 && FromCalls(calls, m0, m) && Keeps(m0, m)
    ensures FromCalls(calls, m0, m[calls[t].key := calls[t].init])
    ensures Keeps(m0, m[calls[t].key := calls[t].init])
    ensures Agree(calls, m0) ==> Keeps(m, m[calls[t].key := calls[t].init])
  {
    assert calls[t] == Call(calls[t].key, calls[t].init);
  }

  lemma AnyStepKeepsInv(calls: map<Tid, Call>, max: nat, m0: map<Key, Val>, s: State, next: Turn)
    requires AnyInv(calls, max, m0, s) && next.tid in calls
    ensures AnyInv(calls, max, m0, Step(calls, max, BPF_ANY, s, next.tid, next.fails))
    ensures |m0| >= max || Agree(calls, m0) ==> Keeps(s.m, Step(calls, max, BPF_ANY, s, next.tid, next.fails).m)
  {
    AnyStepFacts(calls, max, s, next);
    if s.pcs[next.tid] == Missed {
      StoreFromCall(calls, m0, s.m, next.tid);
    }
    hide Step, FromCalls, Keeps, Agree;
    MapKeepsItself(s.m);
  }

  lemma MapKeepsItself(m: map<Key, Val>)
    ensures Keeps(m, m)
  {
  }

  // Only a call that missed writes, and only what its key's absence or presence allows.
  lemma AnyStepFacts(calls: map<Tid, Call>, max: nat, s: State, next: Turn)
    requires s.pcs.Keys == calls.Keys && next.tid in calls
    ensures
      var c, r := calls[next.tid], Step(calls, max, BPF_ANY, s, next.tid, next.fails);
      && next.tid in r.pcs && r.pcs == s.pcs[next.tid := r.pcs[next.tid]]
      && (r.pcs[next.tid] == Missed ==> c.key !in s.m)
      && (r.m == s.m
          || (s.pcs[next.tid] == Missed && (c.key in s.m || |s.m| < max) && r.m == s.m[c.key := c.init]))
  {
  }

  lemma AnyInvKeys(calls: map<Tid, Call>, max: nat, m0: map<Key, Val>, s: State)
    requires AnyInv(calls, max, m0, s)
    ensures s.pcs.Keys == calls.Keys
  {
  }

  lemma {:induction false} AnyRunKeepsInv(calls: map<Tid, Call>, max: nat, m0: map<Key, Val>, s: State,
                                          turns: seq<Turn>)
    requires AnyInv(calls, max, m0, s) && Valid(calls, turns)
    ensures AnyInv(calls, max, m0, Run(calls, max, BPF_ANY, s, turns))
    decreases turns
  {
    hide AnyInv;
    if turns != [] {
      AnyInvKeys(calls, max, m0, s);
      AnyStepKeepsInv(calls, max, m0, s, turns[0]);
      hide Step;
      AnyRunKeepsInv(calls, max, m0, Step(calls, max, BPF_ANY, s, turns[0].tid, turns[0].fails), turns[1..]);
    }
  }

  // What an overwriting run looks like to its callers: two threads miss, one stores and returns its
  // value, then the other one replaces it and returns a different one.
  lemma AnyOverwrites(calls: map<Tid, Call>, max: nat, m0: map<Key, Val>, t: Tid, u: Tid)
    requires t in calls && u in calls && calls[t].key == calls[u].key && calls[t].init != calls[u].init
    requires calls[t].key !in m0 && |m0| < max
    ensures
      var a, b := Turn(t, false), Turn(u, false);
      var r := Run(calls, max, BPF_ANY, Initial(calls, m0), [a] + ([b] + ([a] + ([a] + ([b] + ([b] + []))))));
      && r.pcs[t] == Done(Some(calls[t].init))
      && r.pcs[u] == Done(Some(calls[u].init))
      && r.pcs[t].ret != r.pcs[u].ret
      && r.m == m0[calls[u].key := calls[u].init]
  {
    var a, b := Turn(t, false), Turn(u, false);
    var s0 := Initial(calls, m0);
    var s1 := Step(calls, max, BPF_ANY, s0, t, false);
    var s2 := Step(calls, max, BPF_ANY, s1, u, false);
    assert s2.m == m0 && s2.pcs.Keys == calls.Keys && s2.pcs[t] == Missed && s2.pcs[u] == Missed;
    var s3 := Step(calls, max, BPF_ANY, s2, t, false);
    var s4 := Step(calls, max, BPF_ANY, s3, t, false);
    StoreAndReturn(calls, max, s2, t);
    var s5 := Step(calls, max, BPF_ANY, s4, u, false);
    var s6 := Step(calls, max, BPF_ANY, s5, u, false);
    StoreAndReturn(calls, max, s4, u);
    SixSteps(calls, max, BPF_ANY, s0, t, u);
    hide Step, Run, Initial;
  }

  lemma SixSteps(calls: map<Tid, Call>, max: nat, flag: Flag, s0: State, t: Tid, u: Tid)
    requires s0.pcs.Keys == calls.Keys && t in calls && u in calls
    ensures
      var a, b := Turn(t, false), Turn(u, false);
      var s1 := Step(calls, max, flag, s0, t, false);
      && s1.pcs.Keys == calls.Keys
      && var s2 := Step(calls, max, flag, s1, u, false);
      && s2.pcs.Keys == calls.Keys
      && var s3 := Step(calls, max, flag, s2, t, false);
      && s3.pcs.Keys == calls.Keys
      && var s4 := Step(calls, max, flag, s3, t, false);
      && s4.pcs.Keys == calls.Keys
      && var s5 := Step(calls, max, flag, s4, u, false);
      && s5.pcs.Keys == calls.Keys
      && Run(calls, max, flag, s0, [a] + ([b] + ([a] + ([a] + ([b] + ([b] + []))))))
         == Step(calls, max, flag, s5, u, false)
  {
    hide Step;
    var a, b := Turn(t, false), Turn(u, false);
    RunStep(calls, max, flag, s0, a, [b] + ([a] + ([a] + ([b] + ([b] + [])))));
    var s1 := Step(calls, max, flag, s0, t, false);
    RunStep(calls, max, flag, s1, b, [a] + ([a] + ([b] + ([b] + []))));
    var s2 := Step(calls, max, flag, s1, u, false);
    RunStep(calls, max, flag, s2, a, [a] + ([b] + ([b] + [])));
    var s3 := Step(calls, max, flag, s2, t, false);
    RunStep(calls, max, flag, s3, a, [b] + ([b] + []));
    var s4 := Step(calls, max, flag, s3, t, false);
    RunStep(calls, max, flag, s4, b, [b] + []);
    RunStep(calls, max, flag, Step(calls, max, flag, s4, u, false), b, []);
  }

  // The last two steps of a call that missed.
  lemma StoreAndReturn(calls: map<Tid, Call>, max: nat, s: State, t: Tid)
    requires t in calls && s.pcs.Keys == calls.Keys && s.pcs[t] == Missed
    requires calls[t].key in s.m || |s.m| < max
    ensures
      var n := Step(calls, max, BPF_ANY, s, t, false);
      && n.pcs.Keys == calls.Keys
      && var r := Step(calls, max, BPF_ANY, n, t, false);
         && r.m == s.m[calls[t].key := calls[t].init]
         && r.pcs == s.pcs[t := Done(Some(calls[t].init))]
  {
    var n := Step(calls, max, BPF_ANY, s, t, false);
    assert n.m == s.m[calls[t].key := calls[t].init] && n.pcs == s.pcs[t := Stored];
  }

  lemma RunStep(calls: map<Tid, Call>, max: nat, flag: Flag, s: State, turn: Turn, rest: seq<Turn>)
    requires s.pcs.Keys == calls.Keys && turn.tid in calls
    requires forall i :: 0 <= i < |rest| ==> rest[i].tid in calls
    ensures forall i :: 0 <= i < |[turn] + rest| ==> ([turn] + rest)[i].tid in calls
    ensures Step(calls, max, flag, s, turn.tid, turn.fails).pcs.Keys == calls.Keys
    ensures Run(calls, max, flag, s, [turn] + rest)
         == Run(calls, max, flag, Step(calls, max, flag, s, turn.tid, turn.fails), rest)
  {
    assert ([turn] + rest)[1..] == rest;
  }

  // An update that comes when the key is already there.
  predicate Late(calls: map<Tid, Call>, s: State, t: Tid)
    requires t in calls && s.pcs.Keys == calls.Keys
  {
    s.pcs[t] == Missed && calls[t].key in s.m
  }

  // A turn on which the two versions part: a late update that fails, which NOEXIST would not even
  // attempt, or that brings another value.
  predicate Parts(calls: map<Tid, Call>, s: State, turn: Turn)
    requires turn.tid in calls && s.pcs.Keys == calls.Keys
  {
    Late(calls, s, turn.tid) && (turn.fails || s.m[calls[turn.tid].key] != calls[turn.tid].init)
  }

  lemma StepsAlikeUnlessParts(calls: map<Tid, Call>, max: nat, s: State, turn: Turn)
    requires turn.tid in calls && s.pcs.Keys == calls.Keys
    ensures Step(calls, max, BPF_ANY, s, turn.tid, turn.fails) == Step(calls, max, BPF_NOEXIST, s, turn.tid, turn.fails)
       <==> !Parts(calls, s, turn)
  {
    var t, c := turn.tid, calls[turn.tid];
    var any, noexist := Step(calls, max, BPF_ANY, s, t, turn.fails), Step(calls, max, BPF_NOEXIST, s, t, turn.fails);
    if Late(calls, s, t) {
      assert noexist.m == s.m && noexist.pcs[t] == Stored;
      if turn.fails {
        assert any.pcs[t] == Done(None);
      } else {
        assert any.m == s.m[c.key := c.init] && any.m[c.key] == c.init;
      }
    }
  }

  ghost predicate SomePart(calls: map<Tid, Call>, max: nat, s: State, turns: seq<Turn>)
    requires s.pcs.Keys == calls.Keys && Valid(calls, turns)
    decreases turns
  {
    turns != []
    && (Parts(calls, s, turns[0])
        || SomePart(calls, max, Step(calls, max, BPF_NOEXIST, s, turns[0].tid, turns[0].fails), turns[1..]))
  }

  ghost predicate AlikeTo(calls: map<Tid, Call>, max: nat, s: State, turns: seq<Turn>, n: int)
    requires s.pcs.Keys == calls.Keys && Valid(calls, turns)
  {
    0 <= n <= |turns| ==>
      Run(calls, max, BPF_ANY, s, turns[..n]) == Run(calls, max, BPF_NOEXIST, s, turns[..n])
  }

  // The two versions run alike, all along, exactly if no turn of the run parts them.
  lemma {:induction false} AnyRunsAlikeUnlessParted(calls: map<Tid, Call>, max: nat, s: State, turns: seq<Turn>)
    requires s.pcs.Keys == calls.Keys && Valid(calls, turns)
    ensures (forall n :: AlikeTo(calls, max, s, turns, n)) <==> !SomePart(calls, max, s, turns)
    decreases turns
  {
    if turns != [] {
      StepsAlikeUnlessParts(calls, max, s, turns[0]);
      var any := Step(calls, max, BPF_ANY, s, turns[0].tid, turns[0].fails);
      var next := Step(calls, max, BPF_NOEXIST, s, turns[0].tid, turns[0].fails);
      StepKeepsKeys(calls, max, s, turns[0]);
      hide Step, Parts;
      AnyRunsAlikeUnlessParted(calls, max, next, turns[1..]);
      forall n | 1 <= n <= |turns|
        ensures Run(calls, max, BPF_ANY, s, turns[..n]) == Run(calls, max, BPF_ANY, any, turns[1..][..n - 1])
        ensures Run(calls, max, BPF_NOEXIST, s, turns[..n]) == Run(calls, max, BPF_NOEXIST, next, turns[1..][..n - 1])
      {
        assert turns[..n][1..] == turns[1..][..n - 1];
      }
      if forall n :: AlikeTo(calls, max, s, turns, n) {
        assert AlikeTo(calls, max, s, turns, 1);
        assert turns[1..][..0] == [];
        forall n
          ensures AlikeTo(calls, max, next, turns[1..], n)
        {
          assert AlikeTo(calls, max, s, turns, n + 1);
        }
      }
      if !SomePart(calls, max, s, turns) {
        forall n
          ensures AlikeTo(calls, max, s, turns, n)
        {
          assert AlikeTo(calls, max, next, turns[1..], n - 1);
        }
      }
    }
  }

  lemma StepKeepsKeys(calls: map<Tid, Call>, max: nat, s: State, turn: Turn)
    requires s.pcs.Keys == calls.Keys && turn.tid in calls
    ensures Step(calls, max, BPF_ANY, s, turn.tid, turn.fails).pcs.Keys == calls.Keys
    ensures Step(calls, max, BPF_NOEXIST, s, turn.tid, turn.fails).pcs.Keys == calls.Keys
  {
  }

  // A late update of the BPF_ANY version replaces the value in the map by the caller's own.
  lemma LateUpdateReplaces(calls: map<Tid, Call>, max: nat, s: State, t: Tid)
    requires t in calls && s.pcs.Keys == calls.Keys && Late(calls, s, t)
    ensures Step(calls, max, BPF_ANY, s, t, false).m == s.m[calls[t].key := calls[t].init]
    ensures Step(calls, max, BPF_NOEXIST, s, t, false).m == s.m
    ensures Keeps(s.m, Step(calls, max, BPF_ANY, s, t, false).m) <==> s.m[calls[t].key] == calls[t].init
  {
    var n := Step(calls, max, BPF_ANY, s, t, false).m;
    assert n[calls[t].key] == calls[t].init;
  }
}
