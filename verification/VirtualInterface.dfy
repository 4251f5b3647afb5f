/**
 The receive interface over its two rings, the NIC that feeds it, and the receiver that drains it.
 Each method is one call, proved against the functions of `NicSpec`.
 */
module VirtualInterface {
  import opened Wrappers
  import opened LittleEndian
  import opened Bits
  import opened SpscRing
  import opened NicSpec

  class Interface {
    const count: nat
    const size: nat
    const stride: nat
    const slab: array<byte>
    const rxRing: Ring<nat>
    const evq: Ring<Event>
    const ownership: array<BufferState>
    var posted: nat
    var completed: nat
    var dropped: nat
    var overrun: nat

    function Cfg(): NicConfig { NicConfig(count, size, stride, rxRing.cap) }

    ghost function Repr(): set<object> {
      {this, slab, rxRing, rxRing.slots, evq, evq.slots, ownership}
    }

    ghost predicate Valid()
      reads Repr()
    {
      && rxRing.Valid() && evq.Valid()
      && Cfg().Ok() && evq.cap == rxRing.cap && stride >= CACHE_LINE
      && slab.Length == count * stride && ownership.Length == count
    }

    ghost function Abs(): Vi
      requires Valid()
      reads Repr()
    {
      Vi(ownership[..], rxRing.Contents(), evq.Contents(), slab[..], posted, completed, dropped, overrun)
    }

    constructor (bufferCount: nat, bufferSize: nat)
      requires 1 <= bufferCount <= WORD / 2 && 1 <= bufferSize <= WORD - CACHE_LINE
      ensures Valid() && fresh(Repr())
      ensures count == bufferCount && size == bufferSize && size <= stride < size + CACHE_LINE
      ensures var v := Abs();
              && v.rx == [] && v.evq == [] && (forall id :: 0 <= id < count ==> v.own[id] == Free)
              && v.posted == 0 && v.completed == 0 && v.dropped == 0 && v.overrun == 0
    {
      hide AlignUp, Ring.Valid, LeastPow2;
      AlignedStride(bufferSize);
      var s := AlignUp(bufferSize, CACHE_LINE);
      count, size, stride := bufferCount, bufferSize, s;
      slab := new byte[bufferCount * s](_ => 0);
      rxRing := new Ring<nat>(bufferCount);
      evq := new Ring<Event>(bufferCount);
      ownership := new BufferState[bufferCount](_ => Free);
      posted, completed, dropped, overrun := 0, 0, 0, 0;
      new;
      SameCapacity(rxRing.cap, evq.cap, bufferCount);
    }

    /** The checked constructor: no interface without buffers or with buffers of size 0. */
    static method Create(bufferCount: nat, bufferSize: nat) returns (vi: Interface?)
      requires bufferCount <= WORD / 2 && bufferSize <= WORD - CACHE_LINE
      ensures vi == null <==> bufferCount == 0 || bufferSize == 0
      ensures vi != null ==> vi.Valid() && fresh(vi.Repr()) && vi.count == bufferCount && vi.size == bufferSize
                             && vi.Abs().rx == [] && vi.Abs().evq == []
                             && forall id :: 0 <= id < vi.count ==> vi.Abs().own[id] == Free
    {
      if bufferCount == 0 || bufferSize == 0 {
        return null;
      }
      vi := new Interface(bufferCount, bufferSize);
    }

    // ---------- the application's side ----------

    method PostFrom(id: nat, expected: BufferState) returns (ok: bool)
      requires Valid()
      modifies this`posted, ownership, rxRing, rxRing.slots
      ensures Valid()
      ensures Abs() == NicSpec.PostFrom(Cfg(), old(Abs()), id, expected)
      ensures ok <==> id < count && old(ownership[..])[id] == expected && |old(Abs()).rx| < rxRing.cap
    {
      hide Ring.Valid;
      if id >= count {
        return false;
      }
      if ownership[id] != expected {
        return false;
      }
      ok := rxRing.TryPush(id);
      if !ok {
        return false;
      }
      ownership[id] := Posted;
      posted := posted + 1;
      return true;
    }

    method Post(id: nat) returns (ok: bool)
      requires Valid()
      modifies this`posted, ownership, rxRing, rxRing.slots
      ensures Valid()
      ensures Abs() == NicSpec.PostFrom(Cfg(), old(Abs()), id, Free)
      ensures ok <==> id < count && old(ownership[..])[id] == Free && |old(Abs()).rx| < rxRing.cap
    {
      ok := PostFrom(id, Free);
    }

    method Repost(id: nat) returns (ok: bool)
      requires Valid()
      modifies this`posted, ownership, rxRing, rxRing.slots
      ensures Valid()
      ensures Abs() == NicSpec.PostFrom(Cfg(), old(Abs()), id, Filled)
      ensures ok <==> id < count && old(ownership[..])[id] == Filled && |old(Abs()).rx| < rxRing.cap
    {
      ok := PostFrom(id, Filled);
    }

    /** Post every free buffer: none is refused, and they go out in id order. */
    method PostAll(ghost nic: seq<nat>, ghost held: seq<nat>) returns (n: nat)
      requires Valid() && Owned(Cfg(), Abs(), nic, held)
      modifies this`posted, ownership, rxRing, rxRing.slots
      ensures Valid() && Owned(Cfg(), Abs(), nic, held)
      ensures var v := old(Abs());
              && n == CountOf(v.own, Free)
              && Abs().rx == v.rx + FreeIds(v.own, count) && Abs().evq == v.evq && Abs().slab == v.slab
              && Abs().completed == v.completed && Abs().overrun == v.overrun
      ensures forall id :: 0 <= id < count ==>
                ownership[id] == if old(ownership[id]) == Free then Posted else old(ownership[id])
    {
      hide Owned, Ring.Valid, CountOf, FreeIds, NicSpec.PostFrom;
      n := 0;
      ghost var c, v := Cfg(), Abs();
      var id := 0;
      while id < count
        invariant id <= count && Valid()
        invariant Abs() == PostedBelow(c, v, id)
        invariant |Abs().rx| == |v.rx| + n
      {
        NoPost(c, Abs(), id);
        if ownership[id] == Free {
          var ok := Post(id);
          if ok {
            n := n + 1;
          }
        }
        id := id + 1;
      }
      AllPosted(c, v, nic, held, count);
      assert v.own[..count] == v.own;
    }

    /** The oldest completion, if there is one. */
    method PollOne() returns (ev: Option<Event>)
      requires Valid()
      modifies evq`read, evq`popped
      ensures Valid()
      ensures ev == None <==> old(Abs()).evq == []
      ensures ev == None ==> Abs() == old(Abs())
      ensures ev.Some? ==> ev.value == old(Abs()).evq[0] && Abs() == Polled(old(Abs()), 1)
    {
      hide Ring.Valid;
      ev := evq.TryPop();
    }

    /** Drain up to max completions into the caller's buffer, oldest first. */
    method Poll(events: array?<Event>, max: int) returns (n: nat)
      requires Valid()
      requires events != null ==> events !in Repr() && max <= events.Length
      modifies evq, events
      ensures Valid()
      ensures n == if events == null || max <= 0 then 0 else Min(max, |old(Abs()).evq|)
      ensures Abs() == Polled(old(Abs()), n)
      ensures events != null ==> events[..] == old(Abs()).evq[..n] + old(events[n..])
    {
      hide Valid, Abs, Polled;
      ghost var v := Abs();
      n := 0;
      PolledNone(v);
      if events == null || max <= 0 {
        return;
      }
      ghost var before := events[..];
      while n < max
        invariant Valid() && n <= max && n <= |v.evq|
        invariant Abs() == Polled(v, n)
        invariant events[..] == v.evq[..n] + before[n..]
        decreases max - n
      {
        TakeNext(v, n, before);
        var ev := PollOne();
        if ev == None {
          break;
        }
        events[n] := ev.value;
        n := n + 1;
      }
    }

    /** Where the application may read a buffer: only while it is Filled. */
    method Data(id: nat) returns (at: Option<nat>)
      requires Valid()
      ensures at.Some? <==> id < count && ownership[id] == Filled
      ensures at.Some? ==> at.value == id * stride
    {
      hide Ring.Valid;
      if id >= count {
        return None;
      }
      if ownership[id] != Filled {
        return None;
      }
      return Some(id * stride);
    }

    // ---------- the NIC's side ----------

    method TryAcquireRx() returns (id: Option<nat>)
      requires Valid()
      modifies rxRing
      ensures Valid()
      ensures id == None <==> old(Abs()).rx == []
      ensures id == None ==> Abs() == old(Abs())
      ensures id.Some? ==> id.value == old(Abs()).rx[0] && Abs() == Acquired(old(Abs()))
    {
      hide Ring.Valid;
      id := rxRing.TryPop();
    }

    /** The buffer must be Posted and the event ring must have room. */
    method CompleteRx(id: nat, length: nat)
      requires Valid()
      requires id < count && ownership[id] == Posted && |Abs().evq| < Cfg().cap
      modifies this`completed, ownership, evq, evq.slots
      ensures Valid()
      ensures Abs() == Completed(Cfg(), old(Abs()), id, length)
    {
      hide Ring.Valid;
      ownership[id] := Filled;
      var ok := evq.TryPush(Event(id, length));
      completed := completed + 1;
    }

    method RecordOverrun()
      requires Valid()
      modifies this`overrun, this`dropped
      ensures Valid()
      ensures Abs() == Overrun(old(Abs()))
    {
      hide Ring.Valid;
      overrun := overrun + 1;
      dropped := dropped + 1;
    }
  }

  lemma SameCapacity(a: nat, b: nat, n: nat)
    requires LeastPow2(a, n) && LeastPow2(b, n)
    ensures a == b >= n
  {
  }

  lemma CountNext(own: seq<BufferState>, i: nat, st: BufferState)
    requires i < |own|
    ensures CountOf(own[..i + 1], st) == CountOf(own[..i], st) + if own[i] == st then 1 else 0
  {
    assert own[..i + 1] == own[..i] + [own[i]];
    CountConcat(own[..i], [own[i]], st);
    assert [own[i]][1..] == [];
  }

  /** What posting does to a buffer that is not free, and to the length of the ring. */
  lemma NoPost(c: NicConfig, v: Vi, id: nat)
    requires Fits(c, v) && id < c.count
    ensures v.own[id] != Free ==> PostFrom(c, v, id, Free) == v
    ensures Fits(c, PostFrom(c, v, id, Free))
    ensures |PostFrom(c, v, id, Free).rx| == |v.rx| + if CanPost(c, v, id, Free) then 1 else 0
  {
  }

  /** The state after the ids below n were offered. */
  function PostedBelow(c: NicConfig, v: Vi, n: nat): (w: Vi)
    requires Fits(c, v)
    ensures Fits(c, w)
  {
    if n == 0 then v else PostFrom(c, PostedBelow(c, v, n - 1), n - 1, Free)
  }

  /** w is v with the free buffers below n posted, in id order. */
  ghost predicate PostedUpTo(c: NicConfig, v: Vi, w: Vi, n: nat) {
    && Fits(c, v) && Fits(c, w) && n <= c.count
    && w.rx == v.rx + FreeIds(v.own, n) && |FreeIds(v.own, n)| == CountOf(v.own[..n], Free)
    && w.evq == v.evq && w.slab == v.slab && w.completed == v.completed && w.overrun == v.overrun
    && (forall j :: 0 <= j < c.count ==> w.own[j] == if j < n && v.own[j] == Free then Posted else v.own[j])
  }

  lemma PostedNone(c: NicConfig, v: Vi)
    requires Fits(c, v)
    ensures PostedUpTo(c, v, v, 0)
  {
    assert v.own[..0] == [] && v.rx + [] == v.rx;
  }

  lemma PostedStep(c: NicConfig, v: Vi, w: Vi, n: nat)
    requires PostedUpTo(c, v, w, n) && n < c.count
    requires CanPost(c, w, n, Free) <==> w.own[n] == Free
    ensures PostedUpTo(c, v, PostFrom(c, w, n, Free), n + 1)
  {
    CountNext(v.own, n, Free);
    hide CountOf;
    var w' := PostFrom(c, w, n, Free);
    assert w'.rx == v.rx + FreeIds(v.own, n + 1);
  }

  lemma {:induction false} AllPosted(c: NicConfig, v: Vi, nic: seq<nat>, held: seq<nat>, n: nat)
    requires Owned(c, v, nic, held) && n <= c.count
    ensures Owned(c, PostedBelow(c, v, n), nic, held) && PostedUpTo(c, v, PostedBelow(c, v, n), n)
  {
    hide PostedUpTo, PostFrom;
    if n == 0 {
      PostedNone(c, v);
    } else {
      AllPosted(c, v, nic, held, n - 1);
      var w := PostedBelow(c, v, n - 1);
      PostFreeOwned(c, w, nic, held, n - 1);
      PostedStep(c, v, w, n - 1);
    }
  }

  lemma PolledNone(v: Vi)
    ensures Polled(v, 0) == v && v.evq[0..] == v.evq
    ensures forall s: seq<Event> :: v.evq[..0] + s[0..] == s
  {
  }

  /** The next event is written where the buffer still has its old contents. */
  lemma TakeNext(v: Vi, n: nat, before: seq<Event>)
    requires n <= |v.evq| && n < |before|
    ensures Polled(v, n).evq == [] <==> n == |v.evq|
    ensures n < |v.evq| ==>
              && Polled(v, n).evq[0] == v.evq[n] && Polled(Polled(v, n), 1) == Polled(v, n + 1)
              && (v.evq[..n] + before[n..])[n := v.evq[n]] == v.evq[..n + 1] + before[n + 1..]
  {
    assert n < |v.evq| ==> v.evq[n..][1..] == v.evq[n + 1..];
  }

  /** The free buffers below n, in order. */
  function FreeIds(own: seq<BufferState>, n: nat): seq<nat>
    requires n <= |own|
  {
    if n == 0 then [] else FreeIds(own, n - 1) + if own[n - 1] == Free then [n - 1] else []
  }
}
