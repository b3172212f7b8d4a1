/**
 Entry/exit pairing of the traced netfilter calls (ebpf/iptables-trace.c).

 Two probe families, one for `ipt_do_table` and one for `nft_do_chain`, share the hash map
 `skbtracer_ipt`, which holds at most one slot per thread. Calls nest, and threads interleave.
 The class `Tracer` is the map with its probes; the functions below it give a run of probe
 firings its meaning; the theorems say which calls are reported, and with what data.
 */
module IptablesTrace {
  import opened Common

  const MAX_ENTRIES: nat := 1024

  type Tid = nat  // the value of bpf_get_current_pid_tgid()

  // The arguments an entry probe sees. Pointers are numbers and 0 is NULL.
  datatype Entry =
    | IptEntry(skb: nat, state: nat, table: nat, now: nat)
    | NftEntry(skb: nat, chain: nat, now: nat)

  // struct ipt_do_table_args: the value of a slot
  datatype Args = Args(skb: nat, state: nat, table: nat, chain: nat, startNs: nat)

  datatype Kind = Ipt | Nft

  // What an exit probe sends to user space.
  datatype Report =
    | IptReport(skb: nat, state: nat, table: nat, verdict: nat, delay: int)
    | NftReport(skb: nat, chain: nat, startNs: nat, verdict: nat, delay: int)

  // What an exit probe sees; `reserved` tells whether bpf_ringbuf_reserve found room.
  datatype Exit = Exit(kind: Kind, verdict: nat, now: nat, reserved: bool)

  datatype Event = Enter(tid: Tid, entry: Entry) | Leave(tid: Tid, exit: Exit)

  function ArgsOf(e: Entry): Args {
    match e
    case IptEntry(skb, state, table, now) => Args(skb, state, table, 0, now)
    case NftEntry(skb, chain, now) => Args(skb, 0, 0, chain, now)
  }

  function KindOf(e: Entry): Kind {
    if e.IptEntry? then Ipt else Nft
  }

  // The u64 difference of two clock readings.
  function Delay(start: nat, now: nat): int {
    (now - start) % TWO_64
  }

  function ReportOf(a: Args, x: Exit): Report {
    match x.kind
    case Ipt => IptReport(a.skb, a.state, a.table, x.verdict, Delay(a.startNs, x.now))
    case Nft => NftReport(a.skb, a.chain, a.startNs, x.verdict, Delay(a.startNs, x.now))
  }

  // bpf_map_update_elem with BPF_ANY on a hash map fails only for a new key in a full map.
  predicate Fits(slots: map<Tid, Args>, tid: Tid) {
    tid in slots || |slots| < MAX_ENTRIES
  }

  function Store(slots: map<Tid, Args>, tid: Tid, a: Args): map<Tid, Args> {
    if Fits(slots, tid) then slots[tid := a] else slots
  }

  class Tracer {
    var slots: map<Tid, Args>

    constructor ()
      ensures slots == map[]
    {
      slots := map[];
    }

    // bpf_map_update_elem(&skbtracer_ipt, &pid_tgid, &args, BPF_ANY); the callers ignore `ok`
    method UpdateElem(tid: Tid, a: Args) returns (ok: bool)
      modifies this
      ensures ok == Fits(old(slots), tid)
      ensures slots == Store(old(slots), tid, a)
      ensures ok <==> tid in old(slots) || |old(slots)| < 1024
      ensures slots == if ok then old(slots)[tid := a] else old(slots)
    {
      ok := tid in slots || |slots| < MAX_ENTRIES;
      if ok {
        slots := slots[tid := a];
      }
    }

    // bpf_map_lookup_and_delete, taken as one step
    method Take(tid: Tid) returns (a: Option<Args>)
      modifies this
      ensures a == Lookup(old(slots), tid)
      ensures slots == old(slots) - {tid}
    {
      a := None;
      if tid in slots {
        a := Some(slots[tid]);
      }
      slots := slots - {tid};
    }

    method IptDoTableIn(tid: Tid, skb: nat, state: nat, table: nat, now: nat)
      modifies this
      ensures slots == After(old(slots), Enter(tid, IptEntry(skb, state, table, now)))
    {
      var args := Args(skb, state, table, 0, now);
      var _ := UpdateElem(tid, args);
    }

    method KNftDoChain(tid: Tid, skb: nat, chain: nat, now: nat)
      modifies this
      ensures slots == After(old(slots), Enter(tid, NftEntry(skb, chain, now)))
    {
      var args := Args(skb, 0, 0, chain, now);
      var _ := UpdateElem(tid, args);
    }

    method IptDoTableOut(tid: Tid, verdict: nat, now: nat, reserved: bool) returns (r: Option<Report>)
      modifies this
      ensures slots == After(old(slots), Leave(tid, Exit(Ipt, verdict, now, reserved)))
      ensures r == Output(old(slots), Leave(tid, Exit(Ipt, verdict, now, reserved)))
    {
      r := None;
      var args := Take(tid);
      if args == None || !reserved {
        return;
      }
      var delay := (now - args.value.startNs) % TWO_64;
      r := Some(IptReport(args.value.skb, args.value.state, args.value.table, verdict, delay));
    }

    method KrNftDoChain(tid: Tid, verdict: nat, now: nat, reserved: bool) returns (r: Option<Report>)
      modifies this
      ensures slots == After(old(slots), Leave(tid, Exit(Nft, verdict, now, reserved)))
      ensures r == Output(old(slots), Leave(tid, Exit(Nft, verdict, now, reserved)))
    {
      r := None;
      var args := Take(tid);
      if args == None || !reserved {
        return;
      }
      var delay := (now - args.value.startNs) % TWO_64;
      r := Some(NftReport(args.value.skb, args.value.chain, args.value.startNs, verdict, delay));
    }

    // The nf_log_trace probe: it emits only while the thread holds a slot, and changes nothing.
    method IptDoTableTrace(tid: Tid, reserved: bool) returns (emitted: bool)
      ensures emitted == (tid in slots && reserved)
    {
      emitted := false;
      if tid !in slots {
        return;
      }
      emitted := reserved;
    }

    // Any run of firings of all threads, with the reports of thread t.
    method Replay(h: seq<Event>, t: Tid) returns (r: seq<Report>)
      modifies this
      ensures slots == Run(old(slots), h)
      ensures r == Reports(old(slots), h, t)
    {
      hide After, Output;
      r := [];
      for n := 0 to |h|
        invariant Run(slots, h[n..]) == Run(old(slots), h)
        invariant r + Reports(slots, h[n..], t) == Reports(old(slots), h, t)
      {
        assert h[n..][0] == h[n] && h[n..][1..] == h[n + 1..];
        var out := Fire(h[n]);
        if h[n].tid == t {
          r := r + ToSeq(out);
        }
      }
      assert h[|h|..] == [] && r + [] == r;
    }

    method Fire(e: Event) returns (r: Option<Report>)
      modifies this
      ensures slots == After(old(slots), e)
      ensures r == Output(old(slots), e)
    {
      r := None;
      match e
      case Enter(tid, IptEntry(skb, state, table, now)) => IptDoTableIn(tid, skb, state, table, now);
      case Enter(tid, NftEntry(skb, chain, now)) => KNftDoChain(tid, skb, chain, now);
      case Leave(tid, Exit(Ipt, verdict, now, reserved)) => r := IptDoTableOut(tid, verdict, now, reserved);
      case Leave(tid, Exit(Nft, verdict, now, reserved)) => r := KrNftDoChain(tid, verdict, now, reserved);
    }
  }

  /* ---- Runs ---- */

  function After(slots: map<Tid, Args>, e: Event): map<Tid, Args> {
    match e
    case Enter(tid, entry) => Store(slots, tid, ArgsOf(entry))
    case Leave(tid, _) => slots - {tid}
  }

  function Output(slots: map<Tid, Args>, e: Event): Option<Report> {
    if e.Leave? && e.tid in slots && e.exit.reserved
    then Some(ReportOf(slots[e.tid], e.exit))
    else None
  }

  function Run(slots: map<Tid, Args>, h: seq<Event>): map<Tid, Args>
    decreases h
  {
    if h == [] then slots else Run(After(slots, h[0]), h[1..])
  }

  // The reports of thread t over a run, in order.
  function Reports(slots: map<Tid, Args>, h: seq<Event>, t: Tid): seq<Report>
    decreases h
  {
    if h == [] then []
    else (if h[0].tid == t then ToSeq(Output(slots, h[0])) else [])
         + Reports(After(slots, h[0]), h[1..], t)
  }

  // One thread's view of the run: its own probe firings, each entry with the outcome of its store.
  datatype Local = LEnter(entry: Entry, stored: bool) | LLeave(exit: Exit)

  function Project(slots: map<Tid, Args>, h: seq<Event>, t: Tid): seq<Local>
    decreases h
  {
    if h == [] then []
    else
      var rest := Project(After(slots, h[0]), h[1..], t);
      if h[0].tid != t then rest
      else match h[0]
           case Enter(_, entry) => [LEnter(entry, Fits(slots, t))] + rest
           case Leave(_, exit) => [LLeave(exit)] + rest
  }

  /* ---- Calls ---- */

  // A traced call with the traced calls made inside it. `stored` is the outcome of its entry
  // probe's map update; `reserved` is that of its exit probe's ring buffer reservation.
  datatype Call = Call(entry: Entry, stored: bool, children: seq<Call>,
                       verdict: nat, endNs: nat, reserved: bool)

  function ExitOf(c: Call): Exit {
    Exit(KindOf(c.entry), c.verdict, c.endNs, c.reserved)
  }

  // The probe firings of a call: entry, those of the calls inside it, exit.
  function Flatten(c: Call): seq<Local> {
    [LEnter(c.entry, c.stored)] + FlattenAll(c.children) + [LLeave(ExitOf(c))]
  }

  function FlattenAll(cs: seq<Call>): seq<Local> {
    if cs == [] then [] else Flatten(cs[0]) + FlattenAll(cs[1..])
  }

  // A call's own skb, table or chain, verdict and the u64 difference of its own two clock readings.
  function OwnReport(c: Call): Report {
    match c.entry
    case IptEntry(skb, state, table, now) => IptReport(skb, state, table, c.verdict, Delay(now, c.endNs))
    case NftEntry(skb, chain, now) => NftReport(skb, chain, now, c.verdict, Delay(now, c.endNs))
  }

  // Field by field, what a report says of its call.
  lemma OwnReportFields(c: Call)
    ensures
      var r := OwnReport(c);
      && r.skb == c.entry.skb && r.verdict == c.verdict
      && (c.entry.IptEntry? ==> r.IptReport? && r.state == c.entry.state && r.table == c.entry.table)
      && (c.entry.NftEntry? ==> r.NftReport? && r.chain == c.entry.chain && r.startNs == c.entry.now)
  {
  }

  // The innermost calls whose entry was stored and whose record was reserved, in the order in which
  // they return.
  function Leaves(c: Call): seq<Call> {
    if c.children != [] then LeavesAll(c.children)
    else if c.stored && c.reserved then [c]
    else []
  }

  function LeavesAll(cs: seq<Call>): seq<Call> {
    if cs == [] then [] else Leaves(cs[0]) + LeavesAll(cs[1..])
  }

  function OwnReports(cs: seq<Call>): seq<Report> {
    seq(|cs|, i requires 0 <= i < |cs| => OwnReport(cs[i]))
  }

  /* ---- One thread on its own ---- */

  function LocalSlot(slot: Option<Args>, ls: seq<Local>): Option<Args>
    decreases ls
  {
    if ls == [] then slot
    else LocalSlot(LocalAfter(slot, ls[0]), ls[1..])
  }

  function LocalAfter(slot: Option<Args>, l: Local): Option<Args> {
    match l
    case LEnter(entry, stored) => if stored then Some(ArgsOf(entry)) else slot
    case LLeave(_) => None
  }

  function LocalReports(slot: Option<Args>, ls: seq<Local>): seq<Report>
    decreases ls
  {
    if ls == [] then []
    else (if ls[0].LLeave? && slot.Some? && ls[0].exit.reserved
          then [ReportOf(slot.value, ls[0].exit)] else [])
         + LocalReports(LocalAfter(slot, ls[0]), ls[1..])
  }

  // A store fails only when the thread holds no slot.
  ghost predicate Honest(slot: Option<Args>, ls: seq<Local>) {
    forall i :: 0 <= i < |ls| && ls[i].LEnter? && !ls[i].stored ==> LocalSlot(slot, ls[..i]) == None
  }

  lemma {:induction false} LocalAppend(slot: Option<Args>, a: seq<Local>, b: seq<Local>)
    ensures LocalSlot(slot, a + b) == LocalSlot(LocalSlot(slot, a), b)
    ensures LocalReports(slot, a + b) == LocalReports(slot, a) + LocalReports(LocalSlot(slot, a), b)
    decreases a
  {
    if a == [] {
      assert a + b == b;
    } else {
      assert (a + b)[1..] == a[1..] + b;
      LocalAppend(LocalAfter(slot, a[0]), a[1..], b);
    }
  }

  lemma HonestSplit(slot: Option<Args>, a: seq<Local>, b: seq<Local>)
    requires Honest(slot, a + b)
    ensures Honest(slot, a)
    ensures Honest(LocalSlot(slot, a), b)
  {
    forall i | 0 <= i < |a| && a[i].LEnter? && !a[i].stored
      ensures LocalSlot(slot, a[..i]) == None
    {
      assert (a + b)[..i] == a[..i] && (a + b)[i] == a[i];
    }
    forall i | 0 <= i < |b| && b[i].LEnter? && !b[i].stored
      ensures LocalSlot(LocalSlot(slot, a), b[..i]) == None
    {
      assert (a + b)[..|a| + i] == a + b[..i] && (a + b)[|a| + i] == b[i];
      LocalAppend(slot, a, b[..i]);
    }
  }

  lemma OneFiring(slot: Option<Args>, l: Local)
    ensures LocalSlot(slot, [l]) == LocalAfter(slot, l)
    ensures LocalReports(slot, [l])
         == if l.LLeave? && slot.Some? && l.exit.reserved then [ReportOf(slot.value, l.exit)] else []
  {
    assert [l][1..] == [];
  }

  lemma HonestCons(slot: Option<Args>, l: Local, rest: seq<Local>)
    requires l.LEnter? && !l.stored ==> slot == None
    requires Honest(LocalAfter(slot, l), rest)
    ensures Honest(slot, [l] + rest)
  {
    var ls := [l] + rest;
    forall i | 0 <= i < |ls| && ls[i].LEnter? && !ls[i].stored
      ensures LocalSlot(slot, ls[..i]) == None
    {
      if i > 0 {
        assert ls[..i] == [l] + rest[..i - 1];
        OneFiring(slot, l);
        LocalAppend(slot, [l], rest[..i - 1]);
      }
    }
  }

  lemma HonestHead(slot: Option<Args>, l: Local)
    requires Honest(slot, [l])
    ensures l.LEnter? && !l.stored ==> slot == None
  {
    assert [l][..0] == [] && [l][0] == l;
  }

  // What the other threads do never reaches a thread's slot or its reports.
  lemma {:induction false} Locality(slots: map<Tid, Args>, h: seq<Event>, t: Tid)
    ensures Lookup(Run(slots, h), t) == LocalSlot(Lookup(slots, t), Project(slots, h, t))
    ensures Reports(slots, h, t) == LocalReports(Lookup(slots, t), Project(slots, h, t))
    ensures Honest(Lookup(slots, t), Project(slots, h, t))
    decreases h
  {
    if h != [] {
      var next := After(slots, h[0]);
      Locality(next, h[1..], t);
      var ls, rest := Project(slots, h, t), Project(next, h[1..], t);
      if h[0].tid == t {
        assert ls == [ls[0]] + rest && ls[1..] == rest;
        assert Lookup(next, t) == LocalAfter(Lookup(slots, t), ls[0]);
        HonestCons(Lookup(slots, t), ls[0], rest);
      } else {
        assert Lookup(next, t) == Lookup(slots, t);
      }
    }
  }

  /* ---- Clock ---- */

  function LocalTime(l: Local): nat {
    match l case LEnter(entry, _) => entry.now case LLeave(exit) => exit.now
  }

  // One thread's own readings do not go back, and fit in 64 bits.
  ghost predicate LocalMonotone(ls: seq<Local>) {
    && (forall i :: 0 <= i < |ls| ==> LocalTime(ls[i]) < TWO_64)
    && (forall i, j :: 0 <= i < j < |ls| ==> LocalTime(ls[i]) <= LocalTime(ls[j]))
  }

  lemma MonotoneSplit(a: seq<Local>, b: seq<Local>)
    requires LocalMonotone(a + b)
    ensures LocalMonotone(a) && LocalMonotone(b)
  {
    forall i | 0 <= i < |a|
      ensures a[i] == (a + b)[i]
    {
    }
    forall i | 0 <= i < |b|
      ensures b[i] == (a + b)[|a| + i]
    {
    }
  }

  lemma MonotoneEnds(first: Local, body: seq<Local>, last: Local)
    requires LocalMonotone([first] + body + [last])
    ensures LocalTime(first) <= LocalTime(last) < TWO_64
  {
    var ls := [first] + body + [last];
    assert ls[0] == first && ls[|ls| - 1] == last;
  }

  // The call took the time that its report gives.
  predicate TrueDelay(c: Call) {
    OwnReport(c).delay == c.endNs - c.entry.now
  }

  // That is so exactly if its own readings are in order, and less than 2^64 apart.
  lemma DelayIsDuration(c: Call)
    ensures TrueDelay(c) <==> 0 <= c.endNs - c.entry.now < TWO_64
  {
  }

  lemma {:induction false} MonotoneCall(c: Call)
    requires LocalMonotone(Flatten(c))
    ensures forall leaf :: leaf in Leaves(c) ==> TrueDelay(leaf)
    decreases c, 0
  {
    var enter, inner, leave := LEnter(c.entry, c.stored), FlattenAll(c.children), LLeave(ExitOf(c));
    MonotoneEnds(enter, inner, leave);
    MonotoneSplit([enter] + inner, [leave]);
    MonotoneSplit([enter], inner);
    hide LocalMonotone;
    if c.children == [] {
      DelayIsDuration(c);
    } else {
      MonotoneCalls(c.children);
    }
  }

  lemma {:induction false} MonotoneCalls(cs: seq<Call>)
    requires LocalMonotone(FlattenAll(cs))
    ensures forall leaf :: leaf in LeavesAll(cs) ==> TrueDelay(leaf)
    decreases cs, 1
  {
    if cs != [] {
      MonotoneSplit(Flatten(cs[0]), FlattenAll(cs[1..]));
      hide LocalMonotone;
      MonotoneCall(cs[0]);
      MonotoneCalls(cs[1..]);
    }
  }

  /* ---- Theorems ---- */

  // Over the firings of one call: afterwards the thread holds no slot, and only leaves reported.
  lemma {:induction false} CallMeaning(slot: Option<Args>, c: Call)
    requires Honest(slot, Flatten(c))
    ensures LocalSlot(slot, Flatten(c)) == None
    ensures LocalReports(slot, Flatten(c)) == OwnReports(Leaves(c))
    decreases c, 0
  {
    var enter, leave := [LEnter(c.entry, c.stored)], [LLeave(ExitOf(c))];
    var inner := FlattenAll(c.children);
    var body := enter + inner;
    assert Flatten(c) == body + leave;
    HonestSplit(slot, body, leave);
    HonestSplit(slot, enter, inner);
    HonestHead(slot, enter[0]);
    hide Honest, Flatten, FlattenAll;
    var inside := LocalSlot(slot, enter);
    OneFiring(slot, enter[0]);
    OneFiring(LocalSlot(slot, body), leave[0]);
    CallsMeaning(inside, c.children);
    LocalAppend(slot, enter, inner);
    LocalAppend(slot, body, leave);
    hide LocalSlot, LocalReports;
    assert LocalReports(slot, body) == OwnReports(LeavesAll(c.children));
    assert ReportOf(ArgsOf(c.entry), ExitOf(c)) == OwnReport(c);
    assert OwnReports([c]) == [OwnReport(c)];
  }

  lemma {:induction false} CallsMeaning(slot: Option<Args>, cs: seq<Call>)
    requires Honest(slot, FlattenAll(cs))
    ensures LocalSlot(slot, FlattenAll(cs)) == if cs == [] then slot else None
    ensures LocalReports(slot, FlattenAll(cs)) == OwnReports(LeavesAll(cs))
    decreases cs, 1
  {
    if cs != [] {
      HonestSplit(slot, Flatten(cs[0]), FlattenAll(cs[1..]));
      CallMeaning(slot, cs[0]);
      CallsMeaning(None, cs[1..]);
      LocalAppend(slot, Flatten(cs[0]), FlattenAll(cs[1..]));
      assert OwnReports(Leaves(cs[0])) + OwnReports(LeavesAll(cs[1..])) == OwnReports(LeavesAll(cs));
    }
  }

  // In every interleaving, a thread whose traced calls form a forest gets exactly the reports of
  // the forest's leaves, each with its own data; and if the thread's own clock readings are in order,
  // whatever those of other threads, each with its true duration.
  lemma OnlyLeavesAreReported(slots: map<Tid, Args>, h: seq<Event>, t: Tid, forest: seq<Call>)
    requires Project(slots, h, t) == FlattenAll(forest)
    ensures Reports(slots, h, t) == OwnReports(LeavesAll(forest))
    ensures LocalMonotone(Project(slots, h, t)) ==> forall leaf :: leaf in LeavesAll(forest) ==> TrueDelay(leaf)
    ensures forest != [] ==> t !in Run(slots, h)
  {
    Locality(slots, h, t);
    CallsMeaning(Lookup(slots, t), forest);
    if LocalMonotone(Project(slots, h, t)) {
      MonotoneCalls(forest);
    }
  }

  // The same for one completed call at any moment of any run, whatever happened before and however
  // many enclosing calls are still open: its exit finds a slot exactly when the call is a leaf whose
  // entry was stored, and then the slot is its own. No clock is needed for that.
  lemma ExitFindsOwnEntry(slots: map<Tid, Args>, before: seq<Event>, t: Tid, c: Call, body: seq<Event>)
    requires var s0 := Run(slots, before);
      && c.stored == Fits(s0, t)
      && Project(After(s0, Enter(t, c.entry)), body, t) == FlattenAll(c.children)
    ensures
      var s := Run(After(Run(slots, before), Enter(t, c.entry)), body);
      && (t in s <==> c.children == [] && c.stored)
      && (t in s ==> s[t] == ArgsOf(c.entry))
      && Output(s, Leave(t, ExitOf(c)))
         == if c.children == [] && c.stored && c.reserved then Some(OwnReport(c)) else None
    ensures TrueDelay(c) <==> 0 <= c.endNs - c.entry.now < TWO_64
  {
    var s0 := Run(slots, before);
    var s1 := After(s0, Enter(t, c.entry));
    Locality(s1, body, t);
    CallsMeaning(Lookup(s1, t), c.children);
    DelayIsDuration(c);
    hide Run, Project, Honest, FlattenAll, LocalSlot, LocalReports, TrueDelay;
    assert c.children == [] && c.stored ==> Lookup(Run(s1, body), t) == Some(ArgsOf(c.entry));
    assert ReportOf(ArgsOf(c.entry), ExitOf(c)) == OwnReport(c);
    hide ReportOf, OwnReport;
  }

  // The threads that fire probes in a run.
  function Tids(h: seq<Event>): set<Tid> {
    set i | 0 <= i < |h| :: h[i].tid
  }

  // With no more threads than map entries no store ever fails.
  lemma {:induction false} EveryEntryIsStored(slots: map<Tid, Args>, h: seq<Event>, t: Tid, tids: set<Tid>)
    requires slots.Keys <= tids && Tids(h) <= tids && |tids| <= MAX_ENTRIES
    ensures forall l :: l in Project(slots, h, t) && l.LEnter? ==> l.stored
    decreases h
  {
    if h != [] {
      assert h[0].tid in Tids(h);
      assert Tids(h[1..]) <= Tids(h);
      if h[0].tid !in slots {
        SubsetSize(slots.Keys, tids);
        assert |slots| == |slots.Keys|;
      }
      EveryEntryIsStored(After(slots, h[0]), h[1..], t, tids);
    }
  }

  // At every moment a thread holds a slot exactly when its last probe firing was a stored entry;
  // so nf_log_trace records are emitted only between an entry and the thread's next firing.
  lemma SlotMeansLastFiringWasEntry(h: seq<Event>, t: Tid)
    ensures
      var ls := Project(map[], h, t);
      t in Run(map[], h) <==> ls != [] && ls[|ls| - 1].LEnter? && ls[|ls| - 1].stored
  {
    Locality(map[], h, t);
    var ls := Project(map[], h, t);
    if ls != [] {
      var n := |ls| - 1;
      assert ls == ls[..n] + [ls[n]];
      LocalAppend(None, ls[..n], [ls[n]]);
      assert Lookup<Tid, Args>(map[], t) == None;
    }
  }
}
