/**
 The kernel module that runs the iptables programs from kprobes (kernel/iptables-trace.c).

 `Kernel` holds what the module has acquired: a reference to a BPF program for each of its program
 pointers, and registered probes. Each primitive demands what makes it safe: only what is held is
 released, a probe is registered only while all three programs are held, and none of them is
 released while a probe could still run it. That init and exit verify says that this holds at every
 step of every path through them.
 */
module KernelModule {
  import opened Common

  type Prog = nat
  type Errno = n: int | n <= 0
  type Failure = n: int | n < 0 witness -1

  const ENOENT := 2

  // the program pointers of the module
  datatype Slot = Entry | Exit | Trace
  const ALL_SLOTS: set<Slot> := {Entry, Exit, Trace}

  datatype Probe = KrpIpt | KrpIp6t | KpIpt | KpIp6t | KpLog

  datatype PathLookup = Found(prog: Prog) | Err(errno: Failure)

  // How the calls of one load turn out; not all of them are made.
  datatype Fates = Fates(entry: PathLookup, exit: PathLookup, trace: PathLookup,
                         krpIpt: Errno, krpIp6t: Errno, kpIpt: Errno, kpIp6t: Errno, kpLog: Errno)

  predicate AllFound(f: Fates) {
    f.entry.Found? && f.exit.Found? && f.trace.Found?
  }

  // The IPv6 table may be missing, and then its kprobe is not asked for.
  predicate AllRegister(f: Fates) {
    && f.krpIpt == 0 && f.kpIpt == 0 && f.kpLog == 0
    && (f.krpIp6t == -ENOENT || (f.krpIp6t == 0 && f.kpIp6t == 0))
  }

  function AllPrograms(f: Fates): map<Slot, Prog>
    requires AllFound(f)
  {
    map[Entry := f.entry.prog, Exit := f.exit.prog, Trace := f.trace.prog]
  }

  function AllProbes(haveIp6t: bool): set<Probe> {
    {KrpIpt, KpIpt, KpLog} + if haveIp6t then {KrpIp6t, KpIp6t} else {}
  }

  class Kernel {
    var held: map<Slot, Prog>
    var probes: set<Probe>
    var haveIp6t: bool
    var loaded: bool

    constructor ()
      ensures Quiet()
    {
      held, probes, haveIp6t, loaded := map[], {}, false, false;
    }

    ghost predicate Quiet()
      reads this
    {
      !loaded && held == map[] && probes == {}
    }

    // A registered probe can fire at any time and runs the programs.
    ghost predicate Safe()
      reads this`probes, this`held
    {
      probes != {} ==> held.Keys == ALL_SLOTS
    }

    ghost predicate Running()
      reads this
    {
      loaded && held.Keys == ALL_SLOTS && probes == AllProbes(haveIp6t)
    }

    // __bpf_check_path with bpf_prog_get_type_path
    method CheckPath(slot: Slot, lookup: PathLookup) returns (ret: Errno)
      requires slot !in held
      modifies this`held
      ensures lookup.Found? ==> ret == 0 && held == old(held)[slot := lookup.prog]
      ensures lookup.Err? ==> ret == lookup.errno && held == old(held)
    {
      match lookup
      case Found(p) =>
        held := held[slot := p];
        ret := 0;
      case Err(e) =>
        ret := e;
    }

    // bpf_prog_put
    method Put(slot: Slot)
      requires slot in held && probes == {}
      modifies this`held
      ensures held == old(held) - {slot}
    {
      held := held - {slot};
    }

    // register_kprobe, register_kretprobe
    method Register(k: Probe, fate: Errno) returns (ret: Errno)
      requires k !in probes && held.Keys == ALL_SLOTS
      modifies this`probes
      ensures ret == fate
      ensures probes == if fate == 0 then old(probes) + {k} else old(probes)
      ensures Safe()
    {
      ret := fate;
      if fate == 0 {
        probes := probes + {k};
      }
    }

    // unregister_kprobe, unregister_kretprobe
    method Unregister(k: Probe)
      requires k in probes && Safe()
      modifies this`probes
      ensures probes == old(probes) - {k} && Safe()
    {
      probes := probes - {k};
    }

    method UnregisterIp6tDoTables(isKretprobe: bool)
      requires haveIp6t ==> (if isKretprobe then KrpIp6t else KpIp6t) in probes
      requires Safe()
      modifies this`probes
      ensures probes == if haveIp6t then old(probes) - {if isKretprobe then KrpIp6t else KpIp6t} else old(probes)
      ensures Safe()
    {
      if !haveIp6t {
        return;
      }
      if isKretprobe {
        Unregister(KrpIp6t);
      } else {
        Unregister(KpIp6t);
      }
    }

    method RegisterIp6tDoTables(isKretprobe: bool, fate: Errno) returns (ret: Errno)
      requires (if isKretprobe then KrpIp6t else KpIp6t) !in probes && held.Keys == ALL_SLOTS
      modifies this`probes
      ensures ret == if haveIp6t then fate else 0
      ensures probes == if haveIp6t && fate == 0 then old(probes) + {if isKretprobe then KrpIp6t else KpIp6t}
                        else old(probes)
    {
      if !haveIp6t {
        return 0;
      }
      if isKretprobe {
        ret := Register(KrpIp6t, fate);
      } else {
        ret := Register(KpIp6t, fate);
      }
    }

    // The head of ipt_trace_init: all three programs, or none.
    method GetPrograms(f: Fates) returns (ret: Errno)
      requires held == map[] && probes == {}
      modifies this`held
      ensures ret == 0 <==> AllFound(f)
      ensures held == if AllFound(f) then AllPrograms(f) else map[]
    {
      ret := CheckPath(Entry, f.entry);
      if ret != 0 {
        return;
      }
      ret := CheckPath(Slot.Exit, f.exit);
      if ret != 0 {
        Put(Entry);
        return;
      }
      ret := CheckPath(Trace, f.trace);
      if ret != 0 {
        Put(Entry);
        Put(Slot.Exit);
      }
    }

    // L_put_bpf_progs, and the tail of ipt_trace_exit
    method PutPrograms()
      requires probes == {} && held.Keys == ALL_SLOTS
      modifies this`held
      ensures held == map[]
    {
      Put(Entry);
      Put(Slot.Exit);
      Put(Trace);
    }

    // The probes that ipt_trace_init registers: all of them, or none.
    method RegisterProbes(f: Fates) returns (ret: Errno)
      requires probes == {} && held.Keys == ALL_SLOTS
      modifies this`probes, this`haveIp6t
      ensures ret == 0 <==> AllRegister(f)
      ensures ret != 0 ==> probes == {}
      ensures ret == 0 ==> probes == AllProbes(haveIp6t) && (haveIp6t <==> f.krpIp6t == 0)
    {
      label UnregisterKretprobes: {
        ret := Register(KrpIpt, f.krpIpt);
        if ret < 0 {
          return;
        }
        ret := Register(KrpIp6t, f.krpIp6t);
        if ret < 0 && ret != -ENOENT {
          Unregister(KrpIpt);
          return;
        }
        haveIp6t := ret == 0;
        ret := Register(KpIpt, f.kpIpt);
        if ret < 0 {
          break UnregisterKretprobes;
        }
        ret := RegisterIp6tDoTables(false, f.kpIp6t);
        if ret < 0 {
          Unregister(KpIpt);
          break UnregisterKretprobes;
        }
        ret := Register(KpLog, f.kpLog);
        if ret < 0 {
          Unregister(KpIpt);
          UnregisterIp6tDoTables(false);
          break UnregisterKretprobes;
        }
        return 0;
      }
      Unregister(KrpIpt);
      UnregisterIp6tDoTables(true);
    }

    // ipt_trace_init. A failed load leaves nothing behind, at whichever call it fails; while the
    // module is loaded the IPv6 kprobe and kretprobe are both there or both not.
    method Init(f: Fates) returns (ret: Errno)
      requires Quiet()
      modifies this
      ensures ret == 0 <==> AllFound(f) && AllRegister(f)
      ensures ret != 0 ==> Quiet()
      ensures ret == 0 ==> Running() && held == AllPrograms(f) && (haveIp6t <==> f.krpIp6t == 0)
      ensures ret == 0 <==>
        && f.entry.Found? && f.exit.Found? && f.trace.Found?
        && f.krpIpt == 0 && f.kpIpt == 0 && f.kpLog == 0
        && (f.krpIp6t == -2 || (f.krpIp6t == 0 && f.kpIp6t == 0))
      ensures ret == 0 ==>
        && held == map[Entry := f.entry.prog, Slot.Exit := f.exit.prog, Trace := f.trace.prog]
        && probes == if f.krpIp6t == 0 then {KrpIpt, KpIpt, KpLog, KrpIp6t, KpIp6t} else {KrpIpt, KpIpt, KpLog}
    {
      haveIp6t := false;
      ret := GetPrograms(f);
      if ret != 0 {
        return;
      }
      ret := RegisterProbes(f);
      if ret < 0 {
        PutPrograms();
        return;
      }
      loaded := true;
    }

    method UnregisterProbes()
      requires probes == AllProbes(haveIp6t) && Safe()
      modifies this`probes
      ensures probes == {}
    {
      Unregister(KpIpt);
      UnregisterIp6tDoTables(false);
      Unregister(KpLog);
      Unregister(KrpIpt);
      UnregisterIp6tDoTables(true);
    }

    // ipt_trace_exit
    method Exit()
      requires Running()
      modifies this
      ensures Quiet()
    {
      UnregisterProbes();
      PutPrograms();
      loaded := false;
    }
  }

  /* ---- Any sequence of loads and unloads ---- */

  datatype Event = Load(f: Fates) | Unload

  // The programs of the last load that succeeded, if it has not been unloaded since.
  function LoadedBy(es: seq<Event>): Option<Fates> {
    if es == [] then None
    else
      var before, last := LoadedBy(es[..|es| - 1]), es[|es| - 1];
      match last
      case Load(f) => if before == None && AllFound(f) && AllRegister(f) then Some(f) else before
      case Unload => None
  }

  // Whatever the calls of all the loads return, the kernel is at the end as if only the one load in
  // force had ever happened: all others have left nothing behind and taken nothing away.
  method Drive(k: Kernel, es: seq<Event>)
    requires k.Quiet()
    modifies k
    ensures LoadedBy(es) == None ==> k.Quiet()
    ensures LoadedBy(es).Some? ==>
      var f := LoadedBy(es).value;
      AllFound(f) && k.Running() && k.held == AllPrograms(f) && k.probes == AllProbes(f.krpIp6t == 0)
  {
    for n := 0 to |es|
      invariant LoadedBy(es[..n]) == None ==> k.Quiet()
      invariant LoadedBy(es[..n]).Some? ==>
        var f := LoadedBy(es[..n]).value;
        AllFound(f) && k.Running() && k.held == AllPrograms(f) && k.probes == AllProbes(f.krpIp6t == 0)
    {
      hide AllRegister, AllProbes, AllPrograms;
      assert es[..n + 1][..n] == es[..n];
      match es[n]
      case Load(f) =>
        if !k.loaded {
          var _ := k.Init(f);
        }
      case Unload =>
        if k.loaded {
          k.Exit();
        }
    }
    assert es[..|es|] == es;
  }
}
