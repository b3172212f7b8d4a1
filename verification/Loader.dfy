/**
 The user side of the kernel module (pkg/iptables/kernel_module.go, pkg/iptables/run.go): pin the
 three programs, run insmod, roll the pins back if any step fails, and take everything down when the
 session ends.
 */
module Loader {
  import opened KernelModule

  // The programs, under the names by which they are pinned, in the order of pinning.
  const ORDER: seq<Slot> := [Entry, Slot.Exit, Trace]

  // How the system calls of one insmod turn out. A look-up of a pinned path can fail too.
  datatype Weather = Weather(pinOk: set<Slot>, unpinOk: set<Slot>, execOk: bool,
                             lookupOk: set<Slot>, eperm: Failure, probes: Fates)

  function Look(pins: map<Slot, Prog>, slot: Slot, w: Weather): PathLookup {
    if slot in pins && slot in w.lookupOk then Found(pins[slot]) else Err(w.eperm)
  }

  // What the module meets when it is loaded with these pins.
  function FatesOf(pins: map<Slot, Prog>, w: Weather): Fates {
    w.probes.(entry := Look(pins, Entry, w), exit := Look(pins, Slot.Exit, w), trace := Look(pins, Trace, w))
  }

  predicate Pinnable(pins: map<Slot, Prog>, w: Weather, slot: Slot) {
    slot in w.pinOk && slot !in pins
  }

  // The names that insmod gets to pin: up to the first that it cannot.
  function Pinned(pins: map<Slot, Prog>, w: Weather): set<Slot> {
    if !Pinnable(pins, w, Entry) then {}
    else if !Pinnable(pins, w, Slot.Exit) then {Entry}
    else if !Pinnable(pins, w, Trace) then {Entry, Slot.Exit}
    else ALL_SLOTS
  }

  function With(pins: map<Slot, Prog>, progs: map<Slot, Prog>, names: set<Slot>): map<Slot, Prog>
    requires progs.Keys == ALL_SLOTS
  {
    pins + map s | s in names && s in progs :: progs[s]
  }

  // An insmod that finds no module loaded succeeds under these outcomes.
  predicate Loadable(pins: map<Slot, Prog>, progs: map<Slot, Prog>, w: Weather)
    requires progs.Keys == ALL_SLOTS
  {
    && Pinned(pins, w) == ALL_SLOTS && w.execOk
    && AllFound(FatesOf(With(pins, progs, ALL_SLOTS), w)) && AllRegister(FatesOf(With(pins, progs, ALL_SLOTS), w))
  }

  // That is: every program can be pinned under its free path and looked up again, the command runs,
  // and the probes register, the IPv6 ones unless their table is missing.
  lemma LoadableMeaning(pins: map<Slot, Prog>, progs: map<Slot, Prog>, w: Weather)
    requires progs.Keys == ALL_SLOTS
    ensures Loadable(pins, progs, w) <==>
      && (forall s :: s in ALL_SLOTS ==> s in w.pinOk && s !in pins && s in w.lookupOk)
      && w.execOk
      && w.probes.krpIpt == 0 && w.probes.kpIpt == 0 && w.probes.kpLog == 0
      && (w.probes.krpIp6t == -2 || (w.probes.krpIp6t == 0 && w.probes.kpIp6t == 0))
  {
    assert forall s :: s in ALL_SLOTS <==> s == Entry || s == Slot.Exit || s == Trace;
    assert forall s :: s in ALL_SLOTS ==> s in With(pins, progs, ALL_SLOTS);
    if Pinned(pins, w) == ALL_SLOTS {
      assert Entry in Pinned(pins, w) && Slot.Exit in Pinned(pins, w) && Trace in Pinned(pins, w);
    }
    hide With;
  }

  function Names(names: seq<Slot>): set<Slot> {
    set s | s in names
  }

  lemma NamesInOrder()
    ensures Names([Entry]) == {Entry}
    ensures Names([Entry, Slot.Exit]) == {Entry, Slot.Exit} == {Entry} + {Slot.Exit}
    ensures Names(ORDER) == ALL_SLOTS == {Entry, Slot.Exit} + {Trace}
    ensures {} + {Entry} == {Entry}
  {
  }

  lemma OnePin(pins: map<Slot, Prog>, progs: map<Slot, Prog>, names: set<Slot>, name: Slot)
    requires progs.Keys == ALL_SLOTS
    ensures With(pins, progs, names)[name := progs[name]] == With(pins, progs, names + {name})
  {
  }

  lemma UndoPins(pins: map<Slot, Prog>, progs: map<Slot, Prog>, names: set<Slot>, unpinOk: set<Slot>)
    requires progs.Keys == ALL_SLOTS && pins.Keys !! names
    ensures With(pins, progs, {}) == pins
    ensures With(pins, progs, names) - names * unpinOk == With(pins, progs, names - unpinOk)
  {
  }

  // A module loaded with all three pins in place runs the pinned programs.
  lemma RunsThePinned(pins: map<Slot, Prog>, progs: map<Slot, Prog>, w: Weather)
    requires progs.Keys == ALL_SLOTS && AllFound(FatesOf(With(pins, progs, ALL_SLOTS), w))
    ensures AllPrograms(FatesOf(With(pins, progs, ALL_SLOTS), w)) == progs
  {
  }

  class Host {
    const kernel: Kernel
    var pins: map<Slot, Prog>   // what lies under /sys/fs/bpf/iptables-trace

    constructor (k: Kernel)
      ensures kernel == k && pins == map[]
    {
      kernel, pins := k, map[];
    }

    // Program.Pin: it fails as well if the path is taken.
    method PinProg(prog: Prog, name: Slot, pinOk: bool) returns (ok: bool)
      modifies this
      ensures ok == (pinOk && name !in old(pins))
      ensures pins == if ok then old(pins)[name := prog] else old(pins)
    {
      ok := pinOk && name !in pins;
      if ok {
        pins := pins[name := prog];
      }
    }

    // The errors of Unpin are ignored.
    method UnpinAll(names: seq<Slot>, unpinOk: set<Slot>)
      modifies this
      ensures pins == old(pins) - Names(names) * unpinOk
    {
      for i := 0 to |names|
        invariant pins == old(pins) - Names(names[..i]) * unpinOk
      {
        if names[i] in unpinOk {
          pins := pins - {names[i]};
        }
      }
      assert names[..|names|] == names;
    }

    // Running insmod loads the module, unless it is loaded already or cannot be started.
    method ExecInsmod(w: Weather) returns (ok: bool)
      requires kernel.Quiet() || kernel.Running()
      modifies kernel
      ensures ok <==> old(kernel.Quiet()) && w.execOk && AllFound(FatesOf(pins, w)) && AllRegister(FatesOf(pins, w))
      ensures ok ==> kernel.Running() && kernel.held == AllPrograms(FatesOf(pins, w))
      ensures !ok ==> old(kernel.Quiet()) == kernel.Quiet() && old(kernel.Running()) == kernel.Running()
    {
      if kernel.loaded || !w.execOk {
        return false;
      }
      var ret := kernel.Init(FatesOf(pins, w));
      ok := ret == 0;
    }

    // Success: all three programs are pinned and the loaded module runs just these. Failure: the
    // module is as before, and of the pins that were made exactly those stay that could not be undone.
    method Insmod(progs: map<Slot, Prog>, w: Weather) returns (ok: bool)
      requires progs.Keys == ALL_SLOTS
      requires kernel.Quiet() || kernel.Running()
      modifies this, kernel
      ensures ok <==> old(kernel.Quiet()) && Loadable(old(pins), progs, w)
      ensures ok ==> kernel.Running() && kernel.held == progs && pins == With(old(pins), progs, ALL_SLOTS)
      ensures !ok ==> old(kernel.Quiet()) == kernel.Quiet() && old(kernel.Running()) == kernel.Running()
      ensures !ok ==> pins == With(old(pins), progs, Pinned(old(pins), w) - w.unpinOk)
    {
      hide With, Names, FatesOf, AllFound, AllRegister, AllPrograms;
      NamesInOrder();
      ghost var before := pins;
      UndoPins(before, progs, {}, w.unpinOk);
      ok := PinProg(progs[Entry], Entry, Entry in w.pinOk);
      if !ok {
        return;
      }
      OnePin(before, progs, {}, Entry);
      ok := PinProg(progs[Slot.Exit], Slot.Exit, Slot.Exit in w.pinOk);
      if !ok {
        UnpinAll([Entry], w.unpinOk);
        UndoPins(before, progs, {Entry}, w.unpinOk);
        return;
      }
      OnePin(before, progs, {Entry}, Slot.Exit);
      ok := PinProg(progs[Trace], Trace, Trace in w.pinOk);
      if !ok {
        UnpinAll([Entry, Slot.Exit], w.unpinOk);
        UndoPins(before, progs, {Entry, Slot.Exit}, w.unpinOk);
        return;
      }
      OnePin(before, progs, {Entry, Slot.Exit}, Trace);
      ok := ExecInsmod(w);
      if !ok {
        UnpinAll(ORDER, w.unpinOk);
        UndoPins(before, progs, ALL_SLOTS, w.unpinOk);
      } else {
        RunsThePinned(before, progs, w);
      }
    }

    // rmmod; fails if the module is not loaded, or for a reason of its own.
    method Rmmod(rmOk: bool)
      requires kernel.Quiet() || kernel.Running()
      modifies kernel
      ensures rmOk ==> kernel.Quiet()
      ensures !rmOk ==> old(kernel.Quiet()) == kernel.Quiet() && old(kernel.Running()) == kernel.Running()
    {
      if kernel.loaded && rmOk {
        kernel.Exit();
      }
    }

    // The deferred end of a session: rmmod is run only if the context is not done.
    method Teardown(done: bool, unpinOk: set<Slot>, rmOk: bool)
      requires kernel.Quiet() || kernel.Running()
      modifies this, kernel
      ensures pins == old(pins) - (ALL_SLOTS * unpinOk)
      ensures !done && rmOk ==> kernel.Quiet()
      ensures done || !rmOk ==> old(kernel.Quiet()) == kernel.Quiet() && old(kernel.Running()) == kernel.Running()
    {
      UnpinAll(ORDER, unpinOk);
      NamesInOrder();
      if !done {
        Rmmod(rmOk);
      }
    }

    // A session. It waits for its context to be done before it returns, so that the deferred end
    // never runs rmmod: whatever the outcome of the calls, a session that loaded the module leaves it
    // loaded, and a session that finds it loaded fails.
    method Session(progs: map<Slot, Prog>, w: Weather, unpinOk: set<Slot>, rmOk: bool) returns (started: bool)
      requires progs.Keys == ALL_SLOTS
      requires kernel.Quiet() || kernel.Running()
      modifies this, kernel
      ensures started <==> old(kernel.Quiet()) && Loadable(old(pins), progs, w)
      ensures started ==> kernel.Running()
      ensures started ==> pins == With(old(pins), progs, ALL_SLOTS - unpinOk)
      ensures old(kernel.Running()) ==> !started && kernel.Running()
      ensures !started ==> pins == With(old(pins), progs, Pinned(old(pins), w) - w.unpinOk)
    {
      hide FatesOf, AllFound, AllRegister, With;
      started := Insmod(progs, w);
      if !started {
        return;
      }
      UndoPins(old(pins), progs, ALL_SLOTS, unpinOk);
      var done := true;   // <-ctx.Done()
      Teardown(done, unpinOk, rmOk);
    }
  }

  // A failed insmod restores the pins exactly if every unpin that it makes succeeds.
  lemma RollbackRestores(pins: map<Slot, Prog>, progs: map<Slot, Prog>, w: Weather)
    requires progs.Keys == ALL_SLOTS
    ensures With(pins, progs, Pinned(pins, w) - w.unpinOk) == pins <==> Pinned(pins, w) <= w.unpinOk
  {
    var left := Pinned(pins, w) - w.unpinOk;
    if left == {} {
      assert With(pins, progs, left) == pins;
    } else {
      var s :| s in left;
      assert s in With(pins, progs, left) && s !in pins;
    }
  }
}
