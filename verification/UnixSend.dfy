/**
 What is captured of a message sent over a unix socket (ebpf/unix-sock-trace.c): one event for each of
 the first segments, built in a packet buffer that is used again for every event.
 */
module UnixSend {
  import opened Common

  const SS_MAX_SEG_SIZE: nat := 1024 * 50
  const SS_MAX_SEGS_PER_MSG: nat := 10
  const SS_PACKET_F_ERR: nat := 1

  type U32 = n: int | 0 <= n < TWO_32
  type Segment = seq<Octet>

  // An event holds the whole buffer, with what earlier events left behind.
  datatype Event = Event(len: nat, flags: nat, data: seq<Octet>)

  function Min(a: nat, b: nat): nat { if a < b then a else b }

  // The number of bytes that an event shows of a segment. Its length is passed on as 32 bits, and the
  // last byte of the buffer always ends up as a NUL.
  function Shown(seg: Segment, segSize: U32): (n: nat)
    ensures n <= |seg| && n < SS_MAX_SEG_SIZE
  {
    Min(Min(|seg| % TWO_32, segSize), SS_MAX_SEG_SIZE - 1)
  }

  // An event for a segment: its length, its first bytes, and a NUL.
  predicate Captures(e: Event, seg: Segment, segSize: U32) {
    && e.len == |seg| % TWO_32 && e.flags == 0
    && |e.data| == SS_MAX_SEG_SIZE
    && e.data[..Shown(seg, segSize)] == seg[..Shown(seg, segSize)]
    && e.data[Shown(seg, segSize)] == 0
  }

  // How many segments of a message are looked at.
  function Count(segs: seq<Segment>, segsPerMsg: U32): nat {
    Min(|segs|, Min(segsPerMsg, SS_MAX_SEGS_PER_MSG))
  }

  class Packet {
    var len: nat
    var flags: nat
    const data: array<Octet>
    var events: seq<Event>

    constructor ()
      ensures fresh(data) && data.Length == SS_MAX_SEG_SIZE && events == []
    {
      len, flags, events := 0, 0, [];
      data := new Octet[SS_MAX_SEG_SIZE];
    }

    // bpf_probe_read of bytes that are there
    method ProbeRead(n: nat, buf: seq<Octet>)
      requires n <= |buf| && n <= data.Length
      modifies data
      ensures data[..n] == buf[..n]
    {
      for i := 0 to n
        invariant data[..i] == buf[..i]
      {
        data[i] := buf[i];
      }
    }

    method CollectData(seg: Segment, segSize: U32)
      requires data.Length == SS_MAX_SEG_SIZE
      modifies this, data
      ensures |events| == |old(events)| + 1 && events[..|old(events)|] == old(events)
      ensures Captures(events[|old(events)|], seg, segSize)
      ensures |seg| < TWO_32 ==>
        var e := events[|old(events)|];
        && e.len == |seg| && e.flags == 0 && |e.data| == 51200
        && (|seg| <= segSize && |seg| < 51200 ==> e.data[..|seg|] == seg && e.data[|seg|] == 0)
        && (segSize < |seg| && segSize < 51200 ==> e.data[..segSize] == seg[..segSize] && e.data[segSize] == 0)
        && (|seg| >= 51200 && segSize >= 51200 ==> e.data[..51199] == seg[..51199] && e.data[51199] == 0)
    {
      flags := 0;
      len := |seg| % TWO_32;
      var n := if len > segSize then segSize else len;
      if n < SS_MAX_SEG_SIZE {
        ProbeRead(n, seg);
      } else {
        ProbeRead(SS_MAX_SEG_SIZE, seg);
      }
      ghost var before := data[..];
      data[if n < SS_MAX_SEG_SIZE then n else SS_MAX_SEG_SIZE - 1] := 0;
      assert data[..Shown(seg, segSize)] == before[..Shown(seg, segSize)];
      events := events + [Event(len, flags, data[..])];
    }

    // The end of usk_send_msg: one event for each segment in order, as far as they are looked at; or
    // an error event without data if the iterator is of another kind or already advanced.
    method UskSendMsg(segs: seq<Segment>, msgLen: U32, plain: bool, segSize: U32, segsPerMsg: U32)
      requires data.Length == SS_MAX_SEG_SIZE && events == []
      modifies this, data
      ensures plain ==>
        && |events| == Count(segs, segsPerMsg)
        && |events| <= |segs| && |events| <= segsPerMsg && |events| <= 10
        && (|events| == |segs| || |events| == segsPerMsg || |events| == 10)
        && forall k :: 0 <= k < |events| ==> Captures(events[k], segs[k], segSize)
      ensures !plain ==> |events| == 1 && events[0].len == msgLen && events[0].flags == SS_PACKET_F_ERR
    {
      if !plain {
        len := msgLen;
        flags := SS_PACKET_F_ERR;
        events := events + [Event(len, flags, data[..])];
        return;
      }
      var n := if segsPerMsg > SS_MAX_SEGS_PER_MSG then SS_MAX_SEGS_PER_MSG else segsPerMsg;
      var i: nat := 0;
      while i < SS_MAX_SEGS_PER_MSG
        invariant i <= Count(segs, segsPerMsg)
        invariant |events| == i
        invariant forall k :: 0 <= k < i ==> Captures(events[k], segs[k], segSize)
      {
        hide Captures;
        if i >= |segs| || i >= n {
          break;
        }
        ghost var before := events;
        CollectData(segs[i], segSize);
        assert forall k :: 0 <= k < i ==> events[k] == events[..|before|][k];
        i := i + 1;
      }
    }
  }

  /* ---- What can be put together again ---- */

  function Flatten(segs: seq<Segment>): seq<Octet> {
    if segs == [] then [] else segs[0] + Flatten(segs[1..])
  }

  predicate Fits(seg: Segment, segSize: U32) {
    |seg| <= segSize && |seg| < SS_MAX_SEG_SIZE
  }

  // The bytes that the first n segments' events show, one after the other.
  function ShownOf(events: seq<Event>, segs: seq<Segment>, segSize: U32): seq<Octet>
    requires |events| <= |segs|
  {
    if events == [] then []
    else events[0].data[..Min(Shown(segs[0], segSize), |events[0].data|)] + ShownOf(events[1..], segs[1..], segSize)
  }

  // Every segment with an event fits, and no segment without one has a byte.
  ghost predicate Whole(segs: seq<Segment>, n: nat, segSize: U32) {
    forall k :: 0 <= k < |segs| ==> if k < n then Fits(segs[k], segSize) else segs[k] == []
  }

  lemma WholeUnfold(segs: seq<Segment>, n: nat, segSize: U32)
    requires segs != []
    ensures n > 0 ==> (Whole(segs, n, segSize) <==> Fits(segs[0], segSize) && Whole(segs[1..], n - 1, segSize))
    ensures n == 0 ==> (Whole(segs, n, segSize) <==> segs[0] == [] && Whole(segs[1..], n, segSize))
  {
    hide Fits;
    assert forall k :: 0 <= k < |segs| - 1 ==> segs[1..][k] == segs[k + 1];
    assert forall k :: 1 <= k < |segs| ==> segs[k] == segs[1..][k - 1];
  }

  // The events show the message exactly if it is whole in this sense, and otherwise too few bytes.
  lemma {:induction false} WholeMessageShown(events: seq<Event>, segs: seq<Segment>, segSize: U32)
    requires |events| <= |segs|
    requires forall k :: 0 <= k < |events| ==> Captures(events[k], segs[k], segSize)
    ensures if Whole(segs, |events|, segSize) then ShownOf(events, segs, segSize) == Flatten(segs)
            else |ShownOf(events, segs, segSize)| < |Flatten(segs)|
    decreases segs
  {
    if segs != [] {
      WholeUnfold(segs, |events|, segSize);
      if events != [] {
        WholeMessageShown(events[1..], segs[1..], segSize);
        ShowsAll(events[0], segs[0], segSize);
      } else {
        WholeMessageShown(events, segs[1..], segSize);
      }
    }
    hide Whole, Fits, Shown, Captures;
  }

  lemma ShowsAll(e: Event, seg: Segment, segSize: U32)
    requires Captures(e, seg, segSize)
    ensures Fits(seg, segSize) ==> e.data[..Shown(seg, segSize)] == seg
    ensures !Fits(seg, segSize) ==> Shown(seg, segSize) < |seg|
  {
  }
}
