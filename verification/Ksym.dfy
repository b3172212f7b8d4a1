/**
 Kernel symbols by address and by name (utils/trace/ksym.go): the indexes that GetAddrs builds from
 the lines of /proc/kallsyms, and the search for the symbol at or below an instruction pointer.
 */
module Ksym {
  import opened Common

  type Address = n: int | 0 <= n < TWO_64
  type Name = string

  datatype Sym = Sym(addr: Address, name: Name)

  // A line once split: its address field as ParseUint sees it, and its name.
  datatype Line = Line(addr: Option<Address>, name: Name)

  predicate Wanted(l: Line, funcs: map<Name, int>, all: bool) {
    all || (l.name in funcs && funcs[l.name] > 0)
  }

  // The symbols read from the lines up to the first wanted one whose address does not parse.
  function Read(lines: seq<Line>, funcs: map<Name, int>, all: bool): seq<Sym> {
    if lines == [] then []
    else if !Wanted(lines[0], funcs, all) then Read(lines[1..], funcs, all)
    else if lines[0].addr == None then []
    else [Sym(lines[0].addr.value, lines[0].name)] + Read(lines[1..], funcs, all)
  }

  // A symbol is read exactly if it stands on a wanted line: any line if all are asked for, and
  // otherwise one whose name has a positive count.
  lemma {:induction false} ReadMeaning(lines: seq<Line>, funcs: map<Name, int>, all: bool, sym: Sym)
    requires Parses(lines, funcs, all)
    ensures sym in Read(lines, funcs, all) <==>
      Line(Some(sym.addr), sym.name) in lines && (all || (sym.name in funcs && funcs[sym.name] > 0))
    decreases lines
  {
    if lines != [] {
      ReadMeaning(lines[1..], funcs, all, sym);
      assert forall l :: l in lines <==> l == lines[0] || l in lines[1..];
    }
  }

  // If all are asked for, every line is read, once and in order.
  lemma {:induction false} ReadAll(lines: seq<Line>, funcs: map<Name, int>)
    requires Parses(lines, funcs, true)
    ensures |Read(lines, funcs, true)| == |lines|
    ensures forall i :: 0 <= i < |lines| ==>
      lines[i] == Line(Some(Read(lines, funcs, true)[i].addr), Read(lines, funcs, true)[i].name)
    decreases lines
  {
    if lines != [] {
      assert lines[0] in lines;
      assert forall l :: l in lines[1..] ==> l in lines;
      ReadAll(lines[1..], funcs);
    }
  }

  predicate Parses(lines: seq<Line>, funcs: map<Name, int>, all: bool) {
    forall l :: l in lines && Wanted(l, funcs, all) ==> l.addr.Some?
  }

  ghost predicate Sorted(s: seq<Sym>) {
    forall i, j :: 0 <= i < j < |s| ==> s[i].addr <= s[j].addr
  }

  // The last symbol read at an address is the one that the map holds.
  ghost predicate LastAt(syms: seq<Sym>, i: int) {
    0 <= i < |syms| && forall j :: i < j < |syms| ==> syms[j].addr != syms[i].addr
  }

  ghost predicate IndexesAddresses(m: map<Address, Sym>, syms: seq<Sym>) {
    && (forall i :: LastAt(syms, i) ==> syms[i].addr in m && m[syms[i].addr] == syms[i])
    && (forall a :: a in m ==> m[a].addr == a && m[a] in syms)
  }

  lemma {:induction false} LastIndex(syms: seq<Sym>, i: nat) returns (k: nat)
    requires i < |syms|
    ensures i <= k < |syms| && syms[k].addr == syms[i].addr && LastAt(syms, k)
    decreases |syms| - i
  {
    if j: nat :| i < j < |syms| && syms[j].addr == syms[i].addr {
      k := LastIndex(syms, j);
    } else {
      k := i;
    }
  }

  // Every address read is in the map, with the last symbol read at it, and no other one is.
  lemma AddressIndexMeaning(m: map<Address, Sym>, syms: seq<Sym>, a: Address)
    requires IndexesAddresses(m, syms)
    ensures a in m <==> exists i :: 0 <= i < |syms| && syms[i].addr == a
    ensures a in m ==>
      exists i :: 0 <= i < |syms| && syms[i] == m[a] && forall j :: i < j < |syms| ==> syms[j].addr != a
  {
    if i: nat :| i < |syms| && syms[i].addr == a {
      var k := LastIndex(syms, i);
      assert syms[k] == m[a] && forall j :: k < j < |syms| ==> syms[j].addr != a;
    }
  }

  // And every name read is in its map, with its addresses in order, and no other one is.
  lemma NameIndexMeaning(m: map<Name, seq<Address>>, syms: seq<Sym>, name: Name) returns (at: seq<nat>)
    requires IndexesNames(m, syms)
    ensures name in m <==> exists i :: 0 <= i < |syms| && syms[i].name == name
    ensures name in m ==> StandAt(syms, name, m[name], at)
  {
    at := AddressesInOrder(syms, name);
    if name in m {
      assert syms[at[0]].name == name;
    }
    if i: nat :| i < |syms| && syms[i].name == name {
      assert i in at;
    }
  }

  function AddressesOf(syms: seq<Sym>, name: Name): seq<Address> {
    if syms == [] then []
    else
      var init, last := AddressesOf(syms[..|syms| - 1], name), syms[|syms| - 1];
      if last.name == name then init + [last.addr] else init
  }

  // The symbols of a name stand at `at`, from first to last, and have these addresses.
  ghost predicate StandAt(syms: seq<Sym>, name: Name, addrs: seq<Address>, at: seq<nat>) {
    && |at| == |addrs|
    && (forall i :: 0 <= i < |at| ==> at[i] < |syms| && syms[at[i]] == Sym(addrs[i], name))
    && (forall i, j :: 0 <= i < j < |at| ==> at[i] < at[j])
    && (forall k: nat :: k < |syms| && syms[k].name == name ==> k in at)
  }

  lemma StandAtNext(syms: seq<Sym>, name: Name, addrs: seq<Address>, at: seq<nat>, last: Sym)
    requires StandAt(syms, name, addrs, at)
    ensures last.name != name ==> StandAt(syms + [last], name, addrs, at)
    ensures last.name == name ==> StandAt(syms + [last], name, addrs + [last.addr], at + [|syms|])
  {
    assert forall i :: 0 <= i < |at| ==> (syms + [last])[at[i]] == syms[at[i]];
    assert (syms + [last])[|syms|] == last;
    assert forall k :: k in at ==> k in at + [|syms|];
    assert |syms| in at + [|syms|];
  }

  // The addresses of a name are those of its symbols, all of them, in the order read.
  lemma {:induction false} AddressesInOrder(syms: seq<Sym>, name: Name) returns (at: seq<nat>)
    ensures StandAt(syms, name, AddressesOf(syms, name), at)
  {
    if syms == [] {
      return [];
    }
    hide StandAt;
    var init, last := syms[..|syms| - 1], syms[|syms| - 1];
    assert syms == init + [last];
    at := AddressesInOrder(init, name);
    StandAtNext(init, name, AddressesOf(init, name), at, last);
    if last.name == name {
      at := at + [|init|];
    }
  }

  // Each name with all its addresses in the order read, and no name without an address.
  ghost predicate IndexesNames(m: map<Name, seq<Address>>, syms: seq<Sym>) {
    && (forall n :: n in m ==> m[n] == AddressesOf(syms, n) && m[n] != [])
    && (forall n :: n !in m ==> AddressesOf(syms, n) == [])
  }

  class Addr2Name {
    var addr2NameMap: map<Address, Sym>
    var addr2NameSlice: seq<Sym>
    var name2AddrMap: map<Name, seq<Address>>

    constructor ()
      ensures addr2NameMap == map[] && addr2NameSlice == [] && name2AddrMap == map[]
    {
      addr2NameMap, addr2NameSlice, name2AddrMap := map[], [], map[];
    }

    // One symbol, as GetAddrs enters it into the indexes.
    method Enter(ghost syms: seq<Sym>, sym: Sym, all: bool)
      requires IndexesAddresses(addr2NameMap, syms) && IndexesNames(name2AddrMap, syms)
      modifies this
      ensures IndexesAddresses(addr2NameMap, syms + [sym]) && IndexesNames(name2AddrMap, syms + [sym])
      ensures addr2NameSlice == if all then old(addr2NameSlice) + [sym] else old(addr2NameSlice)
      ensures addr2NameMap == old(addr2NameMap)[sym.addr := sym]
      ensures sym.name in old(name2AddrMap) ==>
        name2AddrMap == old(name2AddrMap)[sym.name := old(name2AddrMap)[sym.name] + [sym.addr]]
      ensures sym.name !in old(name2AddrMap) ==> name2AddrMap == old(name2AddrMap)[sym.name := [sym.addr]]
    {
      OneMoreAddress(addr2NameMap, syms, sym);
      OneMoreName(name2AddrMap, syms, sym);
      hide IndexesAddresses, IndexesNames;
      var none: seq<Address> := [];
      assert none + [sym.addr] == [sym.addr];
      addr2NameMap := addr2NameMap[sym.addr := sym];
      name2AddrMap := name2AddrMap[sym.name := AddressesAt(name2AddrMap, sym.name) + [sym.addr]];
      if all {
        addr2NameSlice := addr2NameSlice + [sym];
      }
    }

    // The search. On any slice at all it ends at a symbol at or below ip with none such right after
    // it, or panics; on a sorted one that is the last symbol at or below ip, and it panics exactly
    // if there is none.
    method FindNearestSym(ip: Address) returns (r: Result<Name>)
      ensures r.Ok? ==> exists k :: Boundary(addr2NameSlice, ip, k) && r.value == addr2NameSlice[k].name
      ensures Sorted(addr2NameSlice) ==> (r.Failed? <==> forall s :: s in addr2NameSlice ==> s.addr > ip)
      ensures Sorted(addr2NameSlice) && r.Ok? ==>
        exists k :: IsNearest(addr2NameSlice, ip, k) && r.value == addr2NameSlice[k].name
    {
      var total := |addr2NameSlice|;
      var i: nat, j: nat := 0, total;
      while i < j
        invariant 0 <= i <= j <= total
        invariant i > 0 ==> addr2NameSlice[i - 1].addr <= ip
        invariant j < total ==> addr2NameSlice[j].addr > ip
      {
        var h := (i + j) / 2;
        if addr2NameSlice[h].addr <= ip {
          if h + 1 < total && addr2NameSlice[h + 1].addr > ip {
            assert Boundary(addr2NameSlice, ip, h);
            BoundaryIsNearest(addr2NameSlice, ip, h);
            return Ok(addr2NameSlice[h].name);
          }
          i := h + 1;
        } else {
          j := h;
        }
      }
      if i == 0 {
        return Failed;
      }
      assert Boundary(addr2NameSlice, ip, i - 1);
      BoundaryIsNearest(addr2NameSlice, ip, i - 1);
      r := Ok(addr2NameSlice[i - 1].name);
    }
  }

  function AddressesAt(m: map<Name, seq<Address>>, name: Name): seq<Address> {
    if name in m then m[name] else []
  }

  lemma OneMoreAddress(m: map<Address, Sym>, syms: seq<Sym>, sym: Sym)
    requires IndexesAddresses(m, syms)
    ensures IndexesAddresses(m[sym.addr := sym], syms + [sym])
  {
    var longer := syms + [sym];
    forall i | LastAt(longer, i)
      ensures longer[i].addr in m[sym.addr := sym] && m[sym.addr := sym][longer[i].addr] == longer[i]
    {
      if i < |syms| {
        assert longer[|syms|] == sym;
        assert forall j :: i < j < |syms| ==> syms[j] == longer[j];
        assert LastAt(syms, i);
      }
    }
  }

  lemma OneMoreName(m: map<Name, seq<Address>>, syms: seq<Sym>, sym: Sym)
    requires IndexesNames(m, syms)
    ensures IndexesNames(m[sym.name := AddressesAt(m, sym.name) + [sym.addr]], syms + [sym])
  {
    assert (syms + [sym])[..|syms|] == syms;
  }

  // The loop of GetAddrs.
  method ReadLines(a2n: Addr2Name, lines: seq<Line>, funcs: map<Name, int>, all: bool) returns (ok: bool)
    requires a2n.addr2NameMap == map[] && a2n.addr2NameSlice == [] && a2n.name2AddrMap == map[]
    modifies a2n
    ensures ok <==> Parses(lines, funcs, all)
    ensures IndexesAddresses(a2n.addr2NameMap, Read(lines, funcs, all))
    ensures IndexesNames(a2n.name2AddrMap, Read(lines, funcs, all))
    ensures a2n.addr2NameSlice == if all then Read(lines, funcs, all) else []
  {
    hide Read, Parses, Wanted;
    ghost var syms: seq<Sym> := [];
    NothingRead(lines, funcs, all);
    for n := 0 to |lines|
      invariant syms + Read(lines[n..], funcs, all) == Read(lines, funcs, all)
      invariant Parses(lines[..n], funcs, all)
      invariant IndexesAddresses(a2n.addr2NameMap, syms) && IndexesNames(a2n.name2AddrMap, syms)
      invariant a2n.addr2NameSlice == if all then syms else []
    {
      hide IndexesAddresses, IndexesNames;
      ReadStep(lines, n, funcs, all, syms);
      if Wanted(lines[n], funcs, all) {
        if lines[n].addr == None {
          return false;
        }
        var sym := Sym(lines[n].addr.value, lines[n].name);
        a2n.Enter(syms, sym, all);
        syms := syms + [sym];
      }
    }
    hide IndexesAddresses, IndexesNames;
    assert lines[..|lines|] == lines && syms + [] == syms;
    ok := true;
  }

  lemma NothingRead(lines: seq<Line>, funcs: map<Name, int>, all: bool)
    ensures [] + Read(lines[0..], funcs, all) == Read(lines, funcs, all)
    ensures Read(lines[|lines|..], funcs, all) == [] && Parses(lines[..0], funcs, all)
  {
    assert lines[0..] == lines;
  }

  // GetAddrs: the maps index what was read, also when an error stopped it; the slice is filled only
  // if all symbols are asked for, and is then a sorted permutation of them.
  method GetAddrs(lines: seq<Line>, funcs: map<Name, int>, all: bool, openOk: bool, scanOk: bool)
    returns (a2n: Addr2Name, ok: bool)
    ensures fresh(a2n)
    ensures ok <==> openOk && Parses(lines, funcs, all) && scanOk
    ensures !openOk ==> a2n.addr2NameMap == map[] && a2n.name2AddrMap == map[] && a2n.addr2NameSlice == []
    ensures openOk ==> IndexesAddresses(a2n.addr2NameMap, Read(lines, funcs, all))
    ensures openOk ==> IndexesNames(a2n.name2AddrMap, Read(lines, funcs, all))
    ensures openOk && all ==> multiset(a2n.addr2NameSlice) == multiset(Read(lines, funcs, all))
    ensures !all ==> a2n.addr2NameSlice == []
    ensures ok ==> Sorted(a2n.addr2NameSlice)
  {
    hide IndexesAddresses, IndexesNames, Parses, Sorted, Read;
    a2n := new Addr2Name();
    if !openOk {
      return a2n, false;
    }
    ok := ReadLines(a2n, lines, funcs, all);
    if !ok || !scanOk {
      return a2n, false;
    }
    if all {
      SortContract(a2n.addr2NameSlice);
      a2n.addr2NameSlice := SortByAddr(a2n.addr2NameSlice);
    } else {
      EmptyIsSorted();
    }
  }

  // What one line adds to what has been read.
  lemma ReadStep(lines: seq<Line>, n: nat, funcs: map<Name, int>, all: bool, syms: seq<Sym>)
    requires n < |lines|
    ensures
      var l := lines[n];
      var tail := syms + Read(lines[n..], funcs, all);
      if !Wanted(l, funcs, all) then
        tail == syms + Read(lines[n + 1..], funcs, all)
        && (Parses(lines[..n], funcs, all) ==> Parses(lines[..n + 1], funcs, all))
      else if l.addr == None then
        tail == syms && !Parses(lines, funcs, all)
      else
        tail == (syms + [Sym(l.addr.value, l.name)]) + Read(lines[n + 1..], funcs, all)
        && (Parses(lines[..n], funcs, all) ==> Parses(lines[..n + 1], funcs, all))
  {
    assert lines[n..][0] == lines[n] && lines[n..][1..] == lines[n + 1..];
    assert lines[..n + 1] == lines[..n] + [lines[n]];
    hide Wanted;
    assert lines[n] in lines;
  }

  lemma EmptyIsSorted()
    ensures Sorted([])
  {
  }

  // A stand-in for sort.Sort, of which no more than SortContract is used.
  function SortByAddr(s: seq<Sym>): seq<Sym> {
    if s == [] then [] else Insert(s[0], SortByAddr(s[1..]))
  }

  function Insert(x: Sym, s: seq<Sym>): seq<Sym>
    decreases s
  {
    if s == [] || x.addr <= s[0].addr then [x] + s else [s[0]] + Insert(x, s[1..])
  }

  lemma {:induction false} SortContract(s: seq<Sym>)
    ensures Sorted(SortByAddr(s)) && multiset(SortByAddr(s)) == multiset(s)
  {
    hide Sorted, Insert;
    if s == [] {
      EmptyIsSorted();
    } else {
      SortContract(s[1..]);
      InsertSorted(s[0], SortByAddr(s[1..]));
      InsertElements(s[0], SortByAddr(s[1..]));
      assert s == [s[0]] + s[1..];
    }
  }

  lemma {:induction false} InsertElements(x: Sym, s: seq<Sym>)
    ensures multiset(Insert(x, s)) == multiset{x} + multiset(s)
    decreases s
  {
    if s != [] && x.addr > s[0].addr {
      InsertElements(x, s[1..]);
      assert s == [s[0]] + s[1..];
    }
  }

  lemma {:induction false} InsertMembers(x: Sym, s: seq<Sym>)
    ensures forall y :: y in Insert(x, s) ==> y == x || y in s
    decreases s
  {
    if s != [] && x.addr > s[0].addr {
      InsertMembers(x, s[1..]);
    }
  }

  lemma {:induction false} InsertSorted(x: Sym, s: seq<Sym>)
    requires Sorted(s)
    ensures Sorted(Insert(x, s))
    decreases s
  {
    if s != [] && x.addr > s[0].addr {
      InsertSorted(x, s[1..]);
      InsertMembers(x, s[1..]);
      SortedCons(s[0], Insert(x, s[1..]));
    }
  }

  lemma SortedCons(x: Sym, s: seq<Sym>)
    requires Sorted(s) && forall y :: y in s ==> x.addr <= y.addr
    ensures Sorted([x] + s)
  {
  }

  // At or below ip, and no symbol at or below ip right after it.
  ghost predicate Boundary(s: seq<Sym>, ip: Address, k: int) {
    0 <= k < |s| && s[k].addr <= ip && (k + 1 < |s| ==> s[k + 1].addr > ip)
  }

  // The last symbol at or below ip.
  ghost predicate IsNearest(s: seq<Sym>, ip: Address, k: int) {
    0 <= k < |s| && s[k].addr <= ip && forall j :: k < j < |s| ==> s[j].addr > ip
  }

  lemma BoundaryIsNearest(s: seq<Sym>, ip: Address, k: int)
    requires Boundary(s, ip, k)
    ensures Sorted(s) ==> IsNearest(s, ip, k)
  {
  }

  /* ---- The search against the map ---- */

  // A slice that GetAddrs may leave for these symbols.
  ghost predicate SliceOf(s: seq<Sym>, syms: seq<Sym>) {
    Sorted(s) && multiset(s) == multiset(syms)
  }

  // At an address that a symbol has, the search and the map give the same name for every order that
  // the sort may leave, exactly if all symbols at that address share their name.
  lemma SearchAgreesWithMap(m: map<Address, Sym>, syms: seq<Sym>, ip: Address)
    requires IndexesAddresses(m, syms) && ip in m
    ensures
      (forall s: seq<Sym>, k: int :: SliceOf(s, syms) && IsNearest(s, ip, k) ==> s[k].name == m[ip].name)
      <==> (forall x :: x in syms && x.addr == ip ==> x.name == m[ip].name)
  {
    forall s: seq<Sym>, k: int | SliceOf(s, syms) && IsNearest(s, ip, k)
      ensures s[k].addr == ip && s[k] in syms
    {
      HitIsExact(s, syms, m[ip], k);
    }
    forall x | x in syms && x.addr == ip && x.name != m[ip].name
      ensures exists s: seq<Sym>, k: int :: SliceOf(s, syms) && IsNearest(s, ip, k) && s[k] == x
    {
      var s, k := OtherOrder(syms, x);
      assert SliceOf(s, syms) && IsNearest(s, ip, k) && s[k] == x;
    }
  }

  lemma HitIsExact(s: seq<Sym>, syms: seq<Sym>, x: Sym, k: int)
    requires SliceOf(s, syms) && x in syms && IsNearest(s, x.addr, k)
    ensures s[k].addr == x.addr && s[k] in syms
  {
    SameElements(s, syms, x);
    SameElements(s, syms, s[k]);
    var i :| 0 <= i < |s| && s[i] == x;
  }

  function Swap(t: seq<Sym>, m: nat, k: nat): seq<Sym>
    requires m < |t| && k < |t|
  {
    t[m := t[k]][k := t[m]]
  }

  // Any symbol can come last among those at its address.
  lemma OtherOrder(syms: seq<Sym>, x: Sym) returns (s: seq<Sym>, k: nat)
    requires x in syms
    ensures SliceOf(s, syms) && IsNearest(s, x.addr, k) && s[k] == x
  {
    hide Sorted, SortByAddr;
    var t := SortByAddr(syms);
    SortContract(syms);
    SameElements(t, syms, x);
    var m :| 0 <= m < |t| && t[m] == x;
    k := LastAtMost(t, x.addr, m);
    SwapKeepsElements(t, m, k);
    SwapKeepsOrder(t, m, k);
    s := Swap(t, m, k);
  }

  lemma SameElements(s: seq<Sym>, t: seq<Sym>, x: Sym)
    requires multiset(s) == multiset(t)
    ensures x in s <==> x in t
  {
    assert x in s <==> x in multiset(s);
    assert x in t <==> x in multiset(t);
  }

  lemma SwapKeepsElements(t: seq<Sym>, m: nat, k: nat)
    requires m < |t| && k < |t|
    ensures multiset(Swap(t, m, k)) == multiset(t)
  {
  }

  lemma SwapKeepsOrder(t: seq<Sym>, m: nat, k: nat)
    requires Sorted(t) && m <= k < |t| && IsNearest(t, t[m].addr, k)
    ensures Sorted(Swap(t, m, k)) && IsNearest(Swap(t, m, k), t[m].addr, k) && Swap(t, m, k)[k] == t[m]
  {
    var s := Swap(t, m, k);
    assert t[m].addr == t[k].addr;
    assert forall i :: 0 <= i < |t| ==> s[i].addr == t[i].addr;
  }

  lemma {:induction false} LastAtMost(t: seq<Sym>, ip: Address, m: nat) returns (k: nat)
    requires Sorted(t) && m < |t| && t[m].addr <= ip
    ensures m <= k && IsNearest(t, ip, k)
    decreases |t| - m
  {
    if m + 1 < |t| && t[m + 1].addr <= ip {
      k := LastAtMost(t, ip, m + 1);
    } else {
      k := m;
    }
  }
}
