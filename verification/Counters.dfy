/**
 Packet sampling (ebpf/headers/counters.h): a shared counter hands out tickets by an atomic
 fetch-and-add, and a packet is kept or dropped by its ticket, cut to 32 bits, modulo 100.
 */
module Counters {
  import opened Common

  type U64 = n: int | 0 <= n < TWO_64
  type Thread = nat

  predicate Keeps(rate: U64, ticket: U64) {
    rate == 0 || ticket % TWO_32 % 100 <= rate
  }

  // The two maps with their programs, one call at a time. The maps are arrays, whose element always
  // exists; the counter is an Option because the program asks.
  class Maps {
    var pktCounter: Option<U64>
    var sampleRate: Option<U64>

    constructor (rate: U64)
      ensures pktCounter == Some(0) && sampleRate == Some(rate)
    {
      pktCounter, sampleRate := Some(0), Some(rate);
    }

    method UpdCounterInMap() returns (ticket: U64)
      modifies this`pktCounter
      ensures (pktCounter, ticket) == TakeNow(old(pktCounter))
      ensures old(pktCounter).Some? ==>
        ticket == old(pktCounter).value && pktCounter == Some((old(pktCounter).value + 1) % TWO_64)
      ensures old(pktCounter) == None ==> ticket == 0 && pktCounter == Some(0)
    {
      if pktCounter.Some? {
        ticket := pktCounter.value;
        pktCounter := Some((pktCounter.value + 1) % TWO_64);
        return;
      }
      pktCounter := Some(0);
      ticket := 0;
    }

    method GrabData() returns (keep: bool)
      modifies this`pktCounter
      ensures pktCounter == TakeNow(old(pktCounter)).0
      ensures keep <==> sampleRate == None || Keeps(sampleRate.value, TakeNow(old(pktCounter)).1)
    {
      var ticket := UpdCounterInMap();
      var pktCnt := ticket % TWO_32;
      if sampleRate.Some? {
        if sampleRate.value > 0 {
          if pktCnt % 100 > sampleRate.value {
            return false;
          }
        }
      }
      keep := true;
    }
  }

  // A run of packets through the program, one after the other: the k-th has ticket v + k, each is kept
  // by its ticket, and their number is Kept of the tickets.
  method GrabMany(maps: Maps, v: U64, n: nat) returns (kept: nat, ghost tickets: seq<U64>)
    requires maps.pktCounter == Some(v) && maps.sampleRate.Some?
    modifies maps`pktCounter
    ensures maps.pktCounter == Some(Ticket(v, n))
    ensures |tickets| == n && forall k :: 0 <= k < n ==> tickets[k] == (v + k) % TWO_64
    ensures kept == Kept(maps.sampleRate.value, tickets)
  {
    kept, tickets := 0, [];
    for k := 0 to n
      invariant maps.pktCounter == Some(Ticket(v, k))
      invariant |tickets| == k && forall i :: 0 <= i < k ==> tickets[i] == (v + i) % TWO_64
      invariant kept == Kept(maps.sampleRate.value, tickets)
    {
      hide Kept, Keeps;
      var keep := maps.GrabData();
      ghost var ticket := Ticket(v, k);
      TicketNext(v, k);
      KeptNext(maps.sampleRate.value, tickets, ticket);
      tickets := tickets + [ticket];
      if keep {
        kept := kept + 1;
      }
    }
  }

  lemma TicketNext(v: U64, k: nat)
    ensures (Ticket(v, k) + 1) % TWO_64 == Ticket(v, k + 1)
  {
  }

  lemma KeptNext(rate: U64, tickets: seq<U64>, ticket: U64)
    ensures Kept(rate, tickets + [ticket]) == Kept(rate, tickets) + if Keeps(rate, ticket) then 1 else 0
  {
    assert (tickets + [ticket])[..|tickets|] == tickets;
  }

  // So of a hundred packets in a row min(rate + 1, 100) are kept, but where the low 32 bits start over.
  method GrabHundred(maps: Maps, v: U64) returns (kept: nat)
    requires maps.pktCounter == Some(v) && maps.sampleRate.Some?
    modifies maps`pktCounter
    ensures maps.sampleRate.value == 0 ==> kept == 100
    ensures maps.sampleRate.value > 0 ==>
      var m, j := Min(maps.sampleRate.value + 1, 100), TWO_32 - v % TWO_32;
      kept == m <==> j >= 100 || m <= 96 - j || m >= Min(100, 196 - j)
  {
    ghost var tickets;
    kept, tickets := GrabMany(maps, v, 100);
    if maps.sampleRate.value == 0 {
      ZeroKeepsAll(tickets);
    } else {
      forall k | 0 <= k < 100
        ensures tickets[k] % TWO_32 == (v % TWO_32 + k) % TWO_32
      {
        TicketLow(v, k);
        ModPlus(v, k);
      }
      KeptOfHundred(maps.sampleRate.value, tickets, v % TWO_32);
    }
  }

  // A call that nothing interferes with: the new counter and the ticket.
  function TakeNow(counter: Option<U64>): (Option<U64>, U64) {
    if counter.Some? then (Some((counter.value + 1) % TWO_64), counter.value) else (Some(0), 0)
  }

  /* ---- Any number of threads ---- */

  // A call looks its slot up and then, in a second step, adds to it or initialises it.
  datatype Action = Look(t: Thread) | Take(t: Thread)

  // `found` holds the outcome of the look-up for each thread in a call; `tickets` grows as calls end.
  datatype State = State(counter: Option<U64>, found: map<Thread, bool>, tickets: seq<U64>)

  function Step(s: State, x: Action): State {
    match x
    case Look(t) => if t in s.found then s else s.(found := s.found[t := s.counter.Some?])
    case Take(t) =>
      if t !in s.found then s
      else if s.found[t] && s.counter.Some? then
        State(Some((s.counter.value + 1) % TWO_64), s.found - {t}, s.tickets + [s.counter.value])
      else
        State(if s.counter.Some? then s.counter else Some(0), s.found - {t}, s.tickets + [0])
  }

  function Run(s: State, xs: seq<Action>): State
    decreases xs
  {
    if xs == [] then s else Run(Step(s, xs[0]), xs[1..])
  }

  // A thread alone goes through the two steps as through one call.
  lemma AloneIsTakeNow(counter: Option<U64>, tickets: seq<U64>, t: Thread)
    ensures
      var s := Step(Step(State(counter, map[], tickets), Look(t)), Take(t));
      s == State(TakeNow(counter).0, map[], tickets + [TakeNow(counter).1])
  {
    var s := Step(State(counter, map[], tickets), Look(t));
    assert s.found == map[t := counter.Some?];
    assert s.found - {t} == map[];
  }

  function Ticket(v: U64, k: nat): U64 {
    (v + k) % TWO_64
  }

  // All tickets so far count up from v, without repetition or gap but for the 64-bit wrap-around.
  ghost predicate Counting(s: State, v: U64) {
    && s.counter == Some(Ticket(v, |s.tickets|))
    && (forall t :: t in s.found ==> s.found[t])
    && (forall k :: 0 <= k < |s.tickets| ==> s.tickets[k] == Ticket(v, k))
  }

  lemma StepKeepsCounting(s: State, x: Action, v: U64)
    requires Counting(s, v)
    ensures Counting(Step(s, x), v)
  {
    var k := |s.tickets|;
    assert (Ticket(v, k) + 1) % TWO_64 == Ticket(v, k + 1);
    hide Ticket;
  }

  lemma {:induction false} TicketsAreConsecutive(s: State, xs: seq<Action>, v: U64)
    requires Counting(s, v)
    ensures Counting(Run(s, xs), v)
    decreases xs
  {
    hide Counting;
    if xs != [] {
      StepKeepsCounting(s, xs[0], v);
      TicketsAreConsecutive(Step(s, xs[0]), xs[1..], v);
    }
  }

  // Whatever the interleaving, the k-th call to end has the k-th ticket, and 2^64 calls have
  // different ones.
  lemma TicketsAreDistinct(v: U64, xs: seq<Action>, i: nat, j: nat)
    requires i < j < |Run(State(Some(v), map[], []), xs).tickets| && j - i < TWO_64
    ensures
      var tickets := Run(State(Some(v), map[], []), xs).tickets;
      tickets[i] == Ticket(v, i) && tickets[j] == Ticket(v, j) && tickets[i] != tickets[j]
  {
    TicketsAreConsecutive(State(Some(v), map[], []), xs, v);
  }

  // What every run keeps that starts on an absent slot.
  ghost predicate StartedAbsent(s: State) {
    && (s.tickets == [] ==> s.counter == None && forall t :: t in s.found ==> !s.found[t])
    && (s.tickets != [] ==> s.counter.Some? && s.tickets[0] == 0)
    && (|s.tickets| == 1 ==> s.counter == Some(0))
    && (|s.tickets| >= 2 ==> s.tickets[1] == 0)
  }

  lemma {:induction false} AbsentRun(s: State, xs: seq<Action>)
    requires StartedAbsent(s)
    ensures StartedAbsent(Run(s, xs))
    decreases xs
  {
    if xs != [] {
      AbsentRun(Step(s, xs[0]), xs[1..]);
    }
  }

  // That rests on the slot being there: in every run the first two tickets differ if it is, and are
  // both 0 if it is not.
  lemma FirstTicketsDifferIffPresent(counter: Option<U64>, xs: seq<Action>)
    requires |Run(State(counter, map[], []), xs).tickets| >= 2
    ensures
      var tickets := Run(State(counter, map[], []), xs).tickets;
      && (counter.Some? ==> tickets[0] != tickets[1])
      && (counter == None ==> tickets[0] == tickets[1] == 0)
  {
    if counter.Some? {
      TicketsAreDistinct(counter.value, xs, 0, 1);
    } else {
      AbsentRun(State(counter, map[], []), xs);
    }
    hide Run;
  }

  /* ---- How many packets are kept ---- */

  function Kept(rate: U64, tickets: seq<U64>): nat {
    if tickets == [] then 0
    else Kept(rate, tickets[..|tickets| - 1]) + if Keeps(rate, tickets[|tickets| - 1]) then 1 else 0
  }

  function Min(a: int, b: int): int { if a < b then a else b }

  // How many of 0, 1, .., x - 1 are below m modulo 100.
  function Below(m: nat, x: nat): nat {
    x / 100 * m + Min(x % 100, m)
  }

  lemma BelowNext(m: nat, x: nat)
    requires m <= 100
    ensures Below(m, x + 1) == Below(m, x) + if x % 100 < m then 1 else 0
  {
    if x % 100 == 99 {
      assert (x + 1) / 100 == x / 100 + 1 && (x + 1) % 100 == 0;
      assert (x / 100 + 1) * m == x / 100 * m + m;
    } else {
      assert (x + 1) / 100 == x / 100 && (x + 1) % 100 == x % 100 + 1;
    }
  }

  // Consecutive tickets whose low 32 bits run from `low`.
  ghost predicate Window(tickets: seq<U64>, low: nat) {
    forall k :: 0 <= k < |tickets| ==> tickets[k] % TWO_32 == low + k
  }

  lemma {:induction false} KeptInWindow(rate: U64, tickets: seq<U64>, low: nat)
    requires rate > 0 && Window(tickets, low)
    ensures
      var m := Min(rate + 1, 100);
      Kept(rate, tickets) == Below(m, low + |tickets|) - Below(m, low)
  {
    if tickets != [] {
      var n := |tickets| - 1;
      KeptInWindow(rate, tickets[..n], low);
      BelowNext(Min(rate + 1, 100), low + n);
      assert Keeps(rate, tickets[n]) <==> (low + n) % 100 <= rate;
      hide Below, Keeps, Window;
      RestOfHundred(low + n);
    }
  }

  lemma RestOfHundred(x: nat)
    ensures x % 100 < 100
  {
  }

  lemma {:induction false} KeptAppend(rate: U64, a: seq<U64>, b: seq<U64>)
    ensures Kept(rate, a + b) == Kept(rate, a) + Kept(rate, b)
    decreases |b|
  {
    if b == [] {
      assert a + b == a;
    } else {
      var n := |b| - 1;
      assert (a + b)[..|a + b| - 1] == a + b[..n];
      KeptAppend(rate, a, b[..n]);
    }
  }

  // 100 consecutive tickets, of which the first has `low` as its low 32 bits.
  ghost predicate Hundred(tickets: seq<U64>, low: nat) {
    && |tickets| == 100 && low < TWO_32
    && forall k :: 0 <= k < 100 ==> tickets[k] % TWO_32 == (low + k) % TWO_32
  }

  // Of 100 consecutive tickets min(rate + 1, 100) are kept; but 2^32 is no multiple of 100, and when
  // the low 32 bits start over after the first j of them that holds only for the rates stated.
  lemma KeptOfHundred(rate: U64, tickets: seq<U64>, low: nat)
    requires rate > 0 && Hundred(tickets, low)
    ensures
      var m := Min(rate + 1, 100);
      var j := TWO_32 - low;
      Kept(rate, tickets) == m <==> j >= 100 || m <= 96 - j || m >= Min(100, 196 - j)
  {
    var m: nat, j: nat := Min(rate + 1, 100), TWO_32 - low;
    if j >= 100 {
      assert Window(tickets, low);
      KeptInWindow(rate, tickets, low);
      BelowHundred(m, low);
    } else {
      SplitHundred(rate, tickets, low);
      BelowEnd(m, j);
    }
    hide Below, Kept, Hundred, Window;
  }

  lemma SplitHundred(rate: U64, tickets: seq<U64>, low: nat)
    requires rate > 0 && Hundred(tickets, low) && TWO_32 - low < 100
    ensures
      var m, j := Min(rate + 1, 100), TWO_32 - low;
      Kept(rate, tickets) == Below(m, TWO_32) - Below(m, low) + Below(m, 100 - j) - Below(m, 0)
  {
    hide Below, Kept, Keeps;
    var j := TWO_32 - low;
    var a, b := tickets[..j], tickets[j..];
    assert a + b == tickets;
    KeptAppend(rate, a, b);
    assert Window(a, low);
    assert Window(b, 0) by {
      forall k | 0 <= k < |b| ensures b[k] % TWO_32 == k {
        assert b[k] == tickets[j + k];
      }
    }
    KeptInWindow(rate, a, low);
    KeptInWindow(rate, b, 0);
  }

  lemma BelowHundred(m: nat, x: nat)
    requires m <= 100
    ensures Below(m, x + 100) == Below(m, x) + m
  {
    assert (x + 100) / 100 == x / 100 + 1 && (x + 100) % 100 == x % 100;
    assert (x / 100 + 1) * m == x / 100 * m + m;
  }

  // The counts on both sides of 2^32 == 100 * 42949672 + 96.
  lemma BelowEnd(m: nat, j: nat)
    requires m <= 100 && 0 < j < 100
    ensures Below(m, 0) == 0 && Below(m, 100 - j) == Min(100 - j, m)
    ensures Below(m, TWO_32) == 42949672 * m + Min(96, m)
    ensures Below(m, TWO_32 - j) == if j <= 96 then 42949672 * m + Min(96 - j, m) else 42949671 * m + Min(196 - j, m)
  {
  }

  lemma {:induction false} ZeroKeepsAll(tickets: seq<U64>)
    ensures Kept(0, tickets) == |tickets|
  {
    if tickets != [] {
      ZeroKeepsAll(tickets[..|tickets| - 1]);
    }
  }

  lemma TicketLow(v: U64, k: nat)
    ensures Ticket(v, k) % TWO_32 == (v + k) % TWO_32
  {
    var n := v + k;
    assert n == n / TWO_64 * TWO_64 + n % TWO_64;
    assert TWO_64 == TWO_32 * TWO_32;
  }

  // Under any interleaving: of the 100 tickets of calls that end one after the other, min(rate + 1, 100)
  // are kept, with the exception that KeptOfHundred states; a rate of 0 keeps all.
  lemma SampleOfAnyRun(v: U64, xs: seq<Action>, rate: U64, i: nat)
    requires i + 100 <= |Run(State(Some(v), map[], []), xs).tickets|
    ensures
      var hundred := Run(State(Some(v), map[], []), xs).tickets[i..i + 100];
      && (rate == 0 ==> Kept(rate, hundred) == 100)
      && (rate > 0 ==>
            var m, j := Min(rate + 1, 100), TWO_32 - (v + i) % TWO_32;
            Kept(rate, hundred) == m <==> j >= 100 || m <= 96 - j || m >= Min(100, 196 - j))
  {
    var tickets := Run(State(Some(v), map[], []), xs).tickets;
    var hundred, low := tickets[i..i + 100], (v + i) % TWO_32;
    TicketsAreConsecutive(State(Some(v), map[], []), xs, v);
    if rate == 0 {
      ZeroKeepsAll(hundred);
    } else {
      forall k | 0 <= k < 100
        ensures hundred[k] % TWO_32 == (low + k) % TWO_32
      {
        assert hundred[k] == tickets[i + k] == Ticket(v, i + k);
        TicketLow(v, i + k);
        ModPlus(v + i, k);
      }
      KeptOfHundred(rate, hundred, low);
    }
  }

  lemma ModPlus(x: nat, k: nat)
    ensures (x + k) % TWO_32 == (x % TWO_32 + k) % TWO_32
  {
    assert x + k == x / TWO_32 * TWO_32 + (x % TWO_32 + k);
  }
}
