/**
 The ring buffer guard and its error flag (ebpf/headers/bpf/bpf_cleanup.h), for any number of
 probe activations at once.

 An activation reserves a record (or finds no room), works on it while setting the flag, and at its
 end the destructor submits or discards the record by the flag.
 */
module RingBuf {
  import opened Common

  // CLEAN_ERR_SUCCESS = 0, CLEAN_ERR_INIT = 1, CLEAN_ERR_FAILED = 2
  type Flag = n: int | 0 <= n <= 2
  const CLEAN_ERR_SUCCESS: Flag := 0
  const CLEAN_ERR_INIT: Flag := 1
  const CLEAN_ERR_FAILED: Flag := 2

  // What the programs do with the flag: `*err = CLEAN_ERR_FAILED`, and
  // `if (*err == CLEAN_ERR_INIT) *err = CLEAN_ERR_SUCCESS`.
  datatype Op = Fail | Settle

  function FlagAfter(err: Flag, op: Op): Flag {
    match op
    case Fail => CLEAN_ERR_FAILED
    case Settle => if err == CLEAN_ERR_INIT then CLEAN_ERR_SUCCESS else err
  }

  function FlagOf(ops: seq<Op>): Flag {
    if ops == [] then CLEAN_ERR_INIT else FlagAfter(FlagOf(ops[..|ops| - 1]), ops[|ops| - 1])
  }

  // The flag is sticky: any failure, before or after settling, decides it.
  lemma {:induction false} FlagMeaning(ops: seq<Op>)
    ensures FlagOf(ops) == if Fail in ops then CLEAN_ERR_FAILED
                           else if Settle in ops then CLEAN_ERR_SUCCESS else CLEAN_ERR_INIT
  {
    if ops != [] {
      var init, last := ops[..|ops| - 1], ops[|ops| - 1];
      FlagMeaning(init);
      LastOf(ops, Fail);
      LastOf(ops, Settle);
    }
  }

  lemma LastOf(ops: seq<Op>, op: Op)
    requires ops != []
    ensures op in ops <==> op in ops[..|ops| - 1] || op == ops[|ops| - 1]
  {
    assert ops == ops[..|ops| - 1] + [ops[|ops| - 1]];
  }

  type Activation = nat
  type RecordId = nat

  // A running activation: its record, if it got one, its flag, and how it came to that flag.
  datatype Guard = Guard(data: Option<RecordId>, err: Flag, ops: seq<Op>)

  datatype Fate = Held(owner: Activation) | Submitted(ops: seq<Op>) | Discarded(ops: seq<Op>)

  datatype State = State(guards: map<Activation, Guard>, fates: map<RecordId, Fate>)

  datatype Action =
    | Enter(a: Activation, room: bool)  // guard_ring_buf: reserve
    | Set(a: Activation, op: Op)
    | Leave(a: Activation)              // guard_ring_buf_destructor

  function NextId(s: State): RecordId {
    |s.fates|
  }

  function Step(s: State, x: Action): State {
    match x
    case Enter(a, room) =>
      if a in s.guards then s
      else if room then
        State(s.guards[a := Guard(Some(NextId(s)), CLEAN_ERR_INIT, [])], s.fates[NextId(s) := Held(a)])
      else s.(guards := s.guards[a := Guard(None, CLEAN_ERR_INIT, [])])
    case Set(a, op) =>
      if a !in s.guards then s
      else
        var g := s.guards[a];
        s.(guards := s.guards[a := Guard(g.data, FlagAfter(g.err, op), g.ops + [op])])
    case Leave(a) =>
      if a !in s.guards then s
      else
        var g := s.guards[a];
        if g.data == None then s.(guards := s.guards - {a})
        else
          State(s.guards - {a},
                s.fates[g.data.value := if g.err > 0 then Discarded(g.ops) else Submitted(g.ops)])
  }

  // The ring buffer with the guards of the running activations.
  class Ring {
    var guards: map<Activation, Guard>
    var fates: map<RecordId, Fate>

    constructor ()
      ensures Now() == State(map[], map[]) && Inv(Now())
    {
      guards, fates := map[], map[];
    }

    function Now(): State
      reads this
    {
      State(guards, fates)
    }

    // guard_ring_buf_constructor; `room` is the outcome of bpf_ringbuf_reserve
    method GuardRingBuf(a: Activation, room: bool)
      requires a !in guards
      modifies this
      ensures Now() == Step(old(Now()), Enter(a, room))
      ensures a in guards && guards[a].err == CLEAN_ERR_INIT
      ensures guards[a].data == if room then Some(|old(fates)|) else None
      ensures fates == if room then old(fates)[|old(fates)| := Held(a)] else old(fates)
    {
      var data: Option<RecordId> := None;
      if room {
        data := Some(|fates|);
        fates := fates[|fates| := Held(a)];
      }
      guards := guards[a := Guard(data, CLEAN_ERR_INIT, [])];
    }

    method SetErr(a: Activation, op: Op)
      requires a in guards
      modifies this
      ensures Now() == Step(old(Now()), Set(a, op))
    {
      var g := guards[a];
      var err := g.err;
      if op == Fail {
        err := CLEAN_ERR_FAILED;
      } else if err == CLEAN_ERR_INIT {
        err := CLEAN_ERR_SUCCESS;
      }
      guards := guards[a := Guard(g.data, err, g.ops + [op])];
    }

    // guard_ring_buf_destructor
    method Destructor(a: Activation)
      requires a in guards
      modifies this
      ensures Now() == Step(old(Now()), Leave(a))
      ensures a !in guards
      ensures
        var g := old(guards)[a];
        fates == if g.data == None then old(fates)
                 else if g.err == CLEAN_ERR_SUCCESS then old(fates)[g.data.value := Submitted(g.ops)]
                 else old(fates)[g.data.value := Discarded(g.ops)]
    {
      var g := guards[a];
      guards := guards - {a};
      if g.data == None {
        return;
      }
      if g.err > 0 {
        fates := fates[g.data.value := Discarded(g.ops)];
      } else {
        fates := fates[g.data.value := Submitted(g.ops)];
      }
    }
  }

  function Run(s: State, xs: seq<Action>): State
    decreases xs
  {
    if xs == [] then s else Run(Step(s, xs[0]), xs[1..])
  }

  ghost predicate Numbered(fates: map<RecordId, Fate>) {
    forall r :: r in fates <==> 0 <= r < |fates|
  }

  ghost predicate FlagsRight(guards: map<Activation, Guard>) {
    forall a :: a in guards ==> guards[a].err == FlagOf(guards[a].ops)
  }

  // Held records and the activations that hold one are in one-to-one correspondence.
  ghost predicate Paired(s: State) {
    && (forall a :: a in s.guards && s.guards[a].data.Some? ==>
          s.guards[a].data.value in s.fates && s.fates[s.guards[a].data.value] == Held(a))
    && (forall r :: r in s.fates && s.fates[r].Held? ==>
          s.fates[r].owner in s.guards && s.guards[s.fates[r].owner].data == Some(r))
  }

  // A record was submitted exactly if its activation settled the flag and never failed.
  ghost predicate FatesRight(fates: map<RecordId, Fate>) {
    forall r :: r in fates ==> FateRight(fates[r])
  }

  predicate FateRight(f: Fate) {
    match f
    case Held(_) => true
    case Submitted(ops) => Settle in ops && Fail !in ops
    case Discarded(ops) => Settle !in ops || Fail in ops
  }

  ghost predicate Inv(s: State) {
    Numbered(s.fates) && FlagsRight(s.guards) && Paired(s) && FatesRight(s.fates)
  }

  // A record that has been submitted or discarded stays so.
  ghost predicate FinalStays(s: State, t: State) {
    forall r :: r in s.fates ==> r in t.fates && (!s.fates[r].Held? ==> t.fates[r] == s.fates[r])
  }

  // A record n with a new fate: another one at the end, or one that was held.
  lemma NewFate(fates: map<RecordId, Fate>, n: RecordId, f: Fate)
    requires Numbered(fates) && FatesRight(fates) && FateRight(f)
    requires n == |fates| || n in fates
    ensures Numbered(fates[n := f]) && FatesRight(fates[n := f])
  {
    assert fates[n := f].Keys == fates.Keys + {n};
    assert |fates[n := f]| == |fates[n := f].Keys| && |fates| == |fates.Keys|;
  }

  // How many of the actions reserve a record.
  function Reservations(s: State, xs: seq<Action>): nat
    decreases xs
  {
    if xs == [] then 0
    else (if xs[0].Enter? && xs[0].room && xs[0].a !in s.guards then 1 else 0)
         + Reservations(Step(s, xs[0]), xs[1..])
  }

  // No record comes from nowhere and none is lost: a run has one more for each reservation.
  lemma {:induction false} OneRecordEach(s: State, xs: seq<Action>)
    requires Inv(s)
    ensures |Run(s, xs).fates| == |s.fates| + Reservations(s, xs)
    decreases xs
  {
    if xs != [] {
      StepKeepsInv(s, xs[0]);
      RecordsAfter(s, xs[0]);
      OneRecordEach(Step(s, xs[0]), xs[1..]);
    }
    hide Step, Inv;
  }

  lemma RecordsAfter(s: State, x: Action)
    requires Inv(s)
    ensures |Step(s, x).fates|
         == |s.fates| + if x.Enter? && x.room && x.a !in s.guards then 1 else 0
  {
    hide FlagsRight, FatesRight;
    var t := Step(s, x);
    assert |s.fates| == |s.fates.Keys| && |t.fates| == |t.fates.Keys|;
    if x.Enter? && x.room && x.a !in s.guards {
      assert NextId(s) !in s.fates;
      assert t.fates.Keys == s.fates.Keys + {NextId(s)};
    } else {
      assert t.fates.Keys == s.fates.Keys;
    }
  }

  lemma PairedAfterEnter(s: State, a: Activation, n: RecordId, g: Guard)
    requires Paired(s) && a !in s.guards && n !in s.fates && g.data == Some(n)
    ensures Paired(State(s.guards[a := g], s.fates[n := Held(a)]))
  {
  }

  lemma PairedAfterLeave(s: State, a: Activation, f: Fate)
    requires Paired(s) && a in s.guards && s.guards[a].data.Some? && !f.Held?
    ensures Paired(State(s.guards - {a}, s.fates[s.guards[a].data.value := f]))
  {
  }

  lemma EnterKeepsInv(s: State, a: Activation, room: bool)
    requires Inv(s)
    ensures Inv(Step(s, Enter(a, room))) && FinalStays(s, Step(s, Enter(a, room)))
  {
    FlagMeaning([]);
    hide FlagOf;
    if a !in s.guards && room {
      assert NextId(s) !in s.fates;
      PairedAfterEnter(s, a, NextId(s), Guard(Some(NextId(s)), CLEAN_ERR_INIT, []));
      NewFate(s.fates, NextId(s), Held(a));
      hide Paired, Numbered, FatesRight;
    }
  }

  lemma SetKeepsInv(s: State, a: Activation, op: Op)
    requires Inv(s)
    ensures Inv(Step(s, Set(a, op))) && FinalStays(s, Step(s, Set(a, op)))
  {
    hide FlagOf, FlagAfter, FatesRight, Numbered;
    if a in s.guards {
      FlagAppend(s.guards[a].ops, op);
    }
  }

  lemma LeaveKeepsInv(s: State, a: Activation)
    requires Inv(s)
    ensures Inv(Step(s, Leave(a))) && FinalStays(s, Step(s, Leave(a)))
  {
    hide FlagOf;
    if a in s.guards && s.guards[a].data.Some? {
      var g := s.guards[a];
      FlagMeaning(g.ops);
      var f := if g.err > 0 then Discarded(g.ops) else Submitted(g.ops);
      PairedAfterLeave(s, a, f);
      NewFate(s.fates, g.data.value, f);
      hide Numbered, FatesRight;
    }
  }

  lemma StepKeepsInv(s: State, x: Action)
    requires Inv(s)
    ensures Inv(Step(s, x)) && FinalStays(s, Step(s, x))
  {
    hide Inv, Step, FinalStays;
    match x
    case Enter(a, room) => EnterKeepsInv(s, a, room);
    case Set(a, op) => SetKeepsInv(s, a, op);
    case Leave(a) => LeaveKeepsInv(s, a);
  }

  lemma FlagAppend(ops: seq<Op>, op: Op)
    ensures FlagOf(ops + [op]) == FlagAfter(FlagOf(ops), op)
  {
    assert (ops + [op])[..|ops|] == ops;
  }

  // Over any run of any activations: every reserved record is held by the one activation that
  // reserved it until that one leaves, is then submitted or discarded for good, and is submitted
  // exactly when its activation settled the flag and never failed.
  lemma {:induction false} EveryRecordFinalisedOnce(s: State, xs: seq<Action>)
    requires Inv(s)
    ensures Inv(Run(s, xs)) && FinalStays(s, Run(s, xs))
    ensures Run(s, xs).guards == map[] ==> forall r :: r in Run(s, xs).fates ==> !Run(s, xs).fates[r].Held?
    decreases xs
  {
    hide FlagOf;
    if xs != [] {
      StepKeepsInv(s, xs[0]);
      EveryRecordFinalisedOnce(Step(s, xs[0]), xs[1..]);
    }
  }
}
