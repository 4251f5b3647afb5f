/**
 The receive path as a value: who owns each buffer, what is queued on the two rings, and the bytes of
 the slab. The functions are what one call of the interface does.
 */
module NicSpec {
  import opened Bits
  import opened Wrappers
  import opened LittleEndian

  datatype BufferState = Free | Posted | Filled
  datatype Event = Event(bufferId: nat, length: nat)

  /** cap is the capacity of both rings. */
  datatype NicConfig = NicConfig(count: nat, size: nat, stride: nat, cap: nat) {
    predicate Ok() { count >= 1 && size >= 1 && stride >= size && cap >= count }
  }

  datatype Vi = Vi(own: seq<BufferState>, rx: seq<nat>, evq: seq<Event>, slab: seq<byte>,
                   posted: nat, completed: nat, dropped: nat, overrun: nat)

  const MIN_PAYLOAD: nat := 16
  const CACHE_LINE: nat := 64

  // ---------- slab layout ----------

  /** (value + align - 1) & ~(align - 1) on 64-bit words. */
  function AlignUp(value: nat, align: nat): nat
    requires 1 <= align <= WORD
  {
    And((value + align - 1) % WORD, WORD - align)
  }

  /** a & ~(2^k - 1) clears the low k bits. */
  lemma {:induction false} ClearLow(w: nat, n: nat, k: nat)
    requires k <= n && w < Pow2(n)
    ensures Pow2(k) <= Pow2(n)
    ensures And(w, Pow2(n) - Pow2(k)) == w - LowBits(w, k)
  {
    hide And, Pow2, LowBits;
    Pow2Mono(k, n);
    Pow2Double(0);
    LowBitsUnfold(w, k);
    if k == 0 {
      MaskIsLow(w, n);
      AllLow(w, n);
    } else {
      var p, q := Pow2(k - 1), Pow2(n - 1);
      Pow2Double(k - 1);
      Pow2Double(n - 1);
      ClearLow(w / 2, n - 1, k - 1);
      AndEven(w, q - p);
    }
  }

  lemma AndEven(w: nat, m: nat)
    ensures And(w, 2 * m) == 2 * And(w / 2, m)
  {
    assert (2 * m) / 2 == m && (2 * m) % 2 == 0;
    assert w == 0 ==> And(w / 2, m) == 0;
  }

  /** Rounded up to a cache line: a multiple of 64, not below the size, less than a line above it.
      Within a line of 2^64 the sum wraps and the result is 0. */
  lemma AlignedStride(size: nat)
    requires size < WORD
    ensures var s := AlignUp(size, CACHE_LINE);
            && s % 64 == 0
            && (size <= WORD - 64 ==> size <= s < size + 64)
            && (size > WORD - 64 ==> s == 0)
  {
    hide And, Pow2;
    SixBits();
    var w := (size + 63) % WORD;
    ClearLow(w, 64, 6);
    if size <= WORD - CACHE_LINE {
      ModUnique(size + 63, WORD, 0, size + 63);
    } else {
      ModUnique(size + 63, WORD, 1, size + 63 - WORD);
    }
    LineOf(w);
  }

  lemma SixBits()
    ensures Pow2(64) == WORD && Pow2(6) == 64
  {
    hide Pow2;
    WordIsPow2();
    Pow2Double(0);
    Pow2Add(1, 1);
    Pow2Add(1, 2);
    Pow2Add(3, 3);
  }

  lemma LineOf(w: nat)
    ensures (w - w % 64) % 64 == 0 && w % 64 < 64 && (w < 64 ==> w % 64 == w)
  {
    DivMod(w, 64);
    ModUnique(w - w % 64, 64, w / 64, 0);
  }

  function Offset(c: NicConfig, id: nat): nat { id * c.stride }

  /** Buffers lie inside the slab and never share a byte. */
  lemma BuffersApart(c: NicConfig, a: nat, b: nat)
    requires c.Ok() && a < c.count && b < c.count && a != b
    ensures Offset(c, a) + c.size <= c.count * c.stride
    ensures Offset(c, a) + c.size <= Offset(c, b) || Offset(c, b) + c.size <= Offset(c, a)
  {
    hide Offset;
    InSlab(c, a);
    if a < b {
      OffsetStep(c, a, b);
    } else {
      OffsetStep(c, b, a);
    }
  }

  lemma OffsetStep(c: NicConfig, a: nat, b: nat)
    requires a < b
    ensures Offset(c, a) + c.stride <= Offset(c, b)
  {
    MulStep(c.stride, a, b);
  }

  lemma InSlab(c: NicConfig, a: nat)
    requires c.Ok() && a < c.count
    ensures Offset(c, a) + c.stride <= c.count * c.stride
    ensures Offset(c, a) + c.size <= c.count * c.stride
  {
    MulStep(c.stride, a, c.count);
  }

  // ---------- calls ----------

  predicate Fits(c: NicConfig, v: Vi) {
    c.Ok() && |v.own| == c.count && |v.slab| == c.count * c.stride
  }

  predicate CanPost(c: NicConfig, v: Vi, id: nat, expected: BufferState)
    requires Fits(c, v)
  {
    id < c.count && v.own[id] == expected && |v.rx| < c.cap
  }

  function PostFrom(c: NicConfig, v: Vi, id: nat, expected: BufferState): Vi
    requires Fits(c, v)
  {
    if CanPost(c, v, id, expected) then v.(own := v.own[id := Posted], rx := v.rx + [id], posted := v.posted + 1) else v
  }

  function Readable(c: NicConfig, v: Vi, id: nat): bool
    requires Fits(c, v)
  {
    id < c.count && v.own[id] == Filled
  }

  function Polled(v: Vi, n: nat): Vi
    requires n <= |v.evq|
  {
    v.(evq := v.evq[n..])
  }

  function Acquired(v: Vi): Vi
    requires v.rx != []
  {
    v.(rx := v.rx[1..])
  }

  /** Copy as much of the packet as the buffer holds. */
  function Dma(c: NicConfig, v: Vi, id: nat, pkt: seq<byte>): (v': Vi)
    requires Fits(c, v) && id < c.count
    ensures Fits(c, v') && v' == v.(slab := v'.slab)
  {
    InSlab(c, id);
    var n := Min(|pkt|, c.size);
    v.(slab := v.slab[..Offset(c, id)] + pkt[..n] + v.slab[Offset(c, id) + n..])
  }

  function Completed(c: NicConfig, v: Vi, id: nat, length: nat): Vi
    requires Fits(c, v) && id < c.count
  {
    v.(own := v.own[id := Filled], evq := v.evq + [Event(id, length)], completed := v.completed + 1)
  }

  function Overrun(v: Vi): Vi {
    v.(dropped := v.dropped + 1, overrun := v.overrun + 1)
  }

  // ---------- ownership ----------

  function EvIds(evq: seq<Event>): (r: seq<nat>)
    ensures |r| == |evq| && forall k :: 0 <= k < |evq| ==> r[k] == evq[k].bufferId
  {
    seq(|evq|, i requires 0 <= i < |evq| => evq[i].bufferId)
  }

  function CountOf(own: seq<BufferState>, st: BufferState): nat {
    if own == [] then 0 else (if own[0] == st then 1 else 0) + CountOf(own[1..], st)
  }

  lemma {:induction false} CountConcat(a: seq<BufferState>, b: seq<BufferState>, st: BufferState)
    ensures CountOf(a + b, st) == CountOf(a, st) + CountOf(b, st)
  {
    if a == [] {
      assert a + b == b;
    } else {
      assert (a + b)[1..] == a[1..] + b;
      CountConcat(a[1..], b, st);
    }
  }

  lemma CountUpdate(own: seq<BufferState>, id: nat, to: BufferState, st: BufferState)
    requires id < |own|
    ensures CountOf(own[id := to], st)
            == CountOf(own, st) - (if own[id] == st then 1 else 0) + (if to == st then 1 else 0)
    ensures own[id] == st ==> CountOf(own, st) >= 1
  {
    CountAround(own, id, st);
    CountAround(own[id := to], id, st);
    assert own[id := to][..id] == own[..id] && own[id := to][id + 1..] == own[id + 1..];
  }

  lemma CountAround(own: seq<BufferState>, id: nat, st: BufferState)
    requires id < |own|
    ensures CountOf(own, st) == CountOf(own[..id], st) + (if own[id] == st then 1 else 0) + CountOf(own[id + 1..], st)
  {
    assert own == own[..id] + ([own[id]] + own[id + 1..]);
    CountConcat(own[..id], [own[id]] + own[id + 1..], st);
    assert ([own[id]] + own[id + 1..])[1..] == own[id + 1..];
  }

  lemma {:induction false} CountTotal(own: seq<BufferState>)
    ensures CountOf(own, Free) + CountOf(own, Posted) + CountOf(own, Filled) == |own|
  {
    if own != [] {
      CountTotal(own[1..]);
    }
  }

  /** How often a buffer is with the NIC's side, and how often with the application's. */
  function WithNic(v: Vi, nic: seq<nat>): multiset<nat> { multiset(v.rx) + multiset(nic) }

  function WithApp(v: Vi, held: seq<nat>): multiset<nat> { multiset(EvIds(v.evq)) + multiset(held) }

  /** Every buffer is in exactly one place: never posted, on the descriptor ring, held by the NIC, on
      the event ring, or held by the application; the state says which side has it. */
  ghost predicate Owned(c: NicConfig, v: Vi, nic: seq<nat>, held: seq<nat>) {
    && Fits(c, v)
    && (forall id: nat :: WithNic(v, nic)[id] == if id < c.count && v.own[id] == Posted then 1 else 0)
    && (forall id: nat :: WithApp(v, held)[id] == if id < c.count && v.own[id] == Filled then 1 else 0)
    && CountOf(v.own, Posted) == |v.rx| + |nic|
    && CountOf(v.own, Filled) == |v.evq| + |held|
    && v.posted == v.completed + CountOf(v.own, Posted)
    && v.dropped == v.overrun
  }

  /** A buffer about to be posted always finds room on the descriptor ring, and one about to be
      completed on the event ring. */
  lemma RingsHaveRoom(c: NicConfig, v: Vi, nic: seq<nat>, held: seq<nat>)
    requires Owned(c, v, nic, held)
    ensures Fits(c, v) && |v.rx| + |nic| + |v.evq| + |held| <= c.count <= c.cap
    ensures (exists id :: 0 <= id < c.count && v.own[id] != Posted) ==> |v.rx| < c.cap
    ensures nic != [] ==> |v.evq| < c.cap
  {
    CountTotal(v.own);
    if id :| 0 <= id < c.count && v.own[id] != Posted {
      CountUpdate(v.own, id, v.own[id], v.own[id]);
    }
  }

  lemma InNic(c: NicConfig, v: Vi, nic: seq<nat>, held: seq<nat>, id: nat)
    requires Owned(c, v, nic, held) && (id in v.rx || id in nic)
    ensures id < c.count && v.own[id] == Posted
  {
    assert id in multiset(v.rx) <==> id in v.rx;
    assert id in multiset(nic) <==> id in nic;
    assert WithNic(v, nic)[id] == multiset(v.rx)[id] + multiset(nic)[id];
  }

  lemma InApp(c: NicConfig, v: Vi, nic: seq<nat>, held: seq<nat>, id: nat)
    requires Owned(c, v, nic, held)
    ensures id in EvIds(v.evq) || id in held <==> id < c.count && v.own[id] == Filled
  {
    assert id in multiset(EvIds(v.evq)) <==> id in EvIds(v.evq);
    assert id in multiset(held) <==> id in held;
    assert WithApp(v, held)[id] == multiset(EvIds(v.evq))[id] + multiset(held)[id];
  }

  lemma PostFreeOwned(c: NicConfig, v: Vi, nic: seq<nat>, held: seq<nat>, id: nat)
    requires Owned(c, v, nic, held)
    ensures Owned(c, PostFrom(c, v, id, Free), nic, held)
    ensures CanPost(c, v, id, Free) <==> id < c.count && v.own[id] == Free
  {
    hide CountOf, WithNic, WithApp, EvIds;
    RingsHaveRoom(c, v, nic, held);
    if CanPost(c, v, id, Free) {
      CountUpdate(v.own, id, Posted, Posted);
      CountUpdate(v.own, id, Posted, Filled);
      PlacesPosted(v, PostFrom(c, v, id, Free), nic, held, id);
    }
  }

  lemma PlacesPosted(v: Vi, v': Vi, nic: seq<nat>, held: seq<nat>, id: nat)
    requires v'.rx == v.rx + [id] && v'.evq == v.evq
    ensures WithNic(v', nic) == WithNic(v, nic) + multiset{id} && WithApp(v', held) == WithApp(v, held)
  {
  }

  /** A buffer the application holds can always be given back. */
  lemma RepostOwned(c: NicConfig, v: Vi, nic: seq<nat>, held: seq<nat>, k: nat)
    requires Owned(c, v, nic, held) && k < |held|
    ensures CanPost(c, v, held[k], Filled)
    ensures Owned(c, PostFrom(c, v, held[k], Filled), nic, held[..k] + held[k + 1..])
  {
    hide CountOf, WithNic, WithApp, EvIds;
    var id := held[k];
    InApp(c, v, nic, held, id);
    RingsHaveRoom(c, v, nic, held);
    CountUpdate(v.own, id, Posted, Posted);
    CountUpdate(v.own, id, Posted, Filled);
    PlacesMove(v, PostFrom(c, v, id, Filled), nic, held, k);
  }

  lemma PlacesMove(v: Vi, v': Vi, nic: seq<nat>, held: seq<nat>, k: nat)
    requires k < |held| && v'.rx == v.rx + [held[k]] && v'.evq == v.evq
    ensures WithNic(v', nic) == WithNic(v, nic) + multiset{held[k]}
    ensures WithApp(v', held[..k] + held[k + 1..]) + multiset{held[k]} == WithApp(v, held)
  {
    assert held == held[..k] + [held[k]] + held[k + 1..];
  }

  /** A filled buffer may be given back if and only if the application holds it. */
  lemma RepostIff(c: NicConfig, v: Vi, nic: seq<nat>, held: seq<nat>, id: nat)
    requires Owned(c, v, nic, held) && id < c.count && v.own[id] == Filled
    ensures (exists held': seq<nat> :: Owned(c, PostFrom(c, v, id, Filled), nic, held')) <==> id in held
  {
    if id in held {
      var k :| 0 <= k < |held| && held[k] == id;
      RepostOwned(c, v, nic, held, k);
    } else {
      InApp(c, v, nic, held, id);
      UnpolledRepost(c, v, nic, held, id);
    }
  }

  /** The state check lets a buffer be given back while its event is still queued, and then nobody's
      list of held buffers accounts for it. */
  lemma UnpolledRepost(c: NicConfig, v: Vi, nic: seq<nat>, held: seq<nat>, id: nat)
    requires Owned(c, v, nic, held) && id in EvIds(v.evq)
    ensures CanPost(c, v, id, Filled)
    ensures forall held': seq<nat> :: !Owned(c, PostFrom(c, v, id, Filled), nic, held')
  {
    hide Owned;
    InApp(c, v, nic, held, id);
    RingsHaveRoom(c, v, nic, held);
    var v' := PostFrom(c, v, id, Filled);
    forall held': seq<nat> | Owned(c, v', nic, held')
      ensures false
    {
      InApp(c, v', nic, held', id);
    }
  }

  /** One buffer, its packet still queued, is given back early: the next packet finds the event ring
      full. */
  lemma EarlyRepostOverfills()
    ensures var c := NicConfig(1, 16, 64, 1);
            var v := Vi([Filled], [], [Event(0, 16)], seq(64, _ => 0), 1, 1, 0, 0);
            && Owned(c, v, [], [])
            && CanPost(c, v, 0, Filled)
            && PostFrom(c, v, 0, Filled).rx == [0]
            && |Acquired(PostFrom(c, v, 0, Filled)).evq| == c.cap
  {
    var v := Vi([Filled], [], [Event(0, 16)], seq(64, _ => 0), 1, 1, 0, 0);
    assert EvIds(v.evq) == [0];
    assert v.own[1..] == [];
  }

  // ---------- the NIC in the middle of a post ----------

  /** A post pushes the descriptor before it writes the state. To a NIC that acts in between, the n-th
      descriptor on the ring is that of a Posted buffer if and only if it was there before. */
  lemma MidPost(c: NicConfig, v: Vi, nic: seq<nat>, held: seq<nat>, id: nat, n: nat)
    requires Owned(c, v, nic, held) && id < c.count && v.own[id] != Posted && n <= |v.rx|
    ensures (v.rx + [id])[n] < c.count
    ensures v.own[(v.rx + [id])[n]] == Posted <==> n < |v.rx|
  {
    if n < |v.rx| {
      InNic(c, v, nic, held, v.rx[n]);
    }
  }

  /** The state after the NIC took the new descriptor and completed it in the middle of a post, and the
      post then wrote its state. */
  function PostedTooLate(c: NicConfig, v: Vi, id: nat, length: nat): Vi
    requires Fits(c, v) && id < c.count
  {
    var done := Completed(c, Acquired(v.(rx := [id])), id, length);
    done.(own := done.own[id := Posted], posted := done.posted + 1)
  }

  /** With an empty descriptor ring that can happen, and then nobody accounts for the buffer: its event is
      queued, but the packet cannot be read and the buffer cannot be given back. */
  lemma TooLate(c: NicConfig, v: Vi, held: seq<nat>, id: nat, length: nat)
    requires Owned(c, v, [], held) && v.rx == [] && id < c.count && v.own[id] != Posted
    ensures var w := PostedTooLate(c, v, id, length);
            && Fits(c, w) && id in EvIds(w.evq)
            && !Readable(c, w, id) && !CanPost(c, w, id, Free) && !CanPost(c, w, id, Filled)
            && forall nic', held' :: !Owned(c, w, nic', held')
  {
    var w := PostedTooLate(c, v, id, length);
    assert EvIds(w.evq)[|v.evq|] == id;
    forall nic': seq<nat>, held': seq<nat> | Owned(c, w, nic', held')
      ensures false
    {
      InApp(c, w, nic', held', id);
    }
  }

  lemma PollOwned(c: NicConfig, v: Vi, nic: seq<nat>, held: seq<nat>)
    requires Owned(c, v, nic, held) && v.evq != []
    ensures Owned(c, Polled(v, 1), nic, held + [v.evq[0].bufferId])
  {
    var v' := Polled(v, 1);
    assert EvIds(v.evq) == [v.evq[0].bufferId] + EvIds(v'.evq);
    assert WithApp(v', held + [v.evq[0].bufferId]) == WithApp(v, held);
    assert WithNic(v', nic) == WithNic(v, nic);
  }

  lemma AcquireOwned(c: NicConfig, v: Vi, held: seq<nat>)
    requires Owned(c, v, [], held) && v.rx != []
    ensures Owned(c, Acquired(v), [v.rx[0]], held)
    ensures v.rx[0] < c.count && v.own[v.rx[0]] == Posted
  {
    InNic(c, v, [], held, v.rx[0]);
    var v' := Acquired(v);
    assert v.rx == [v.rx[0]] + v'.rx;
    assert WithNic(v', [v.rx[0]]) == WithNic(v, []);
    assert WithApp(v', held) == WithApp(v, held);
  }

  lemma CompleteOwned(c: NicConfig, v: Vi, held: seq<nat>, id: nat, length: nat)
    requires Owned(c, v, [id], held)
    ensures id < c.count && v.own[id] == Posted && |v.evq| < c.cap
    ensures Owned(c, Completed(c, v, id, length), [], held)
  {
    hide CountOf, WithNic, WithApp, EvIds;
    InNic(c, v, [id], held, id);
    RingsHaveRoom(c, v, [id], held);
    CountUpdate(v.own, id, Filled, Posted);
    CountUpdate(v.own, id, Filled, Filled);
    PlacesCross(v, Completed(c, v, id, length), held, id, length);
  }

  lemma PlacesCross(v: Vi, v': Vi, held: seq<nat>, id: nat, length: nat)
    requires v'.rx == v.rx && v'.evq == v.evq + [Event(id, length)]
    ensures WithNic(v', []) + multiset{id} == WithNic(v, [id])
    ensures WithApp(v', held) == WithApp(v, held) + multiset{id}
  {
    assert EvIds(v'.evq) == EvIds(v.evq) + [id];
  }

  lemma DmaOwned(c: NicConfig, v: Vi, held: seq<nat>, id: nat, pkt: seq<byte>)
    requires Owned(c, v, [id], held) && id < c.count
    ensures Owned(c, Dma(c, v, id, pkt), [id], held)
  {
    InSlab(c, id);
    var v' := Dma(c, v, id, pkt);
    assert WithNic(v', [id]) == WithNic(v, [id]) && WithApp(v', held) == WithApp(v, held);
  }

  lemma OverrunOwned(c: NicConfig, v: Vi, nic: seq<nat>, held: seq<nat>)
    requires Owned(c, v, nic, held)
    ensures Owned(c, Overrun(v), nic, held)
  {
    var v' := Overrun(v);
    assert WithNic(v', nic) == WithNic(v, nic) && WithApp(v', held) == WithApp(v, held);
  }

  // ---------- contents ----------

  /** The event's buffer holds the packet, cut to the buffer size, and the event says how much. */
  predicate Carries(c: NicConfig, slab: seq<byte>, ev: Event, pkt: seq<byte>) {
    && ev.bufferId < c.count
    && ev.length == Min(|pkt|, c.size)
    && Offset(c, ev.bufferId) + ev.length <= |slab|
    && slab[Offset(c, ev.bufferId)..Offset(c, ev.bufferId) + ev.length] == pkt[..ev.length]
  }

  lemma DmaCarries(c: NicConfig, v: Vi, id: nat, pkt: seq<byte>)
    requires Fits(c, v) && id < c.count
    ensures Carries(c, Dma(c, v, id, pkt).slab, Event(id, Min(|pkt|, c.size)), pkt)
  {
    InSlab(c, id);
    var n := Min(|pkt|, c.size);
    var slab := Dma(c, v, id, pkt).slab;
    assert slab[Offset(c, id)..Offset(c, id) + n] == pkt[..n];
  }

  /** Writing one buffer leaves every other buffer's packet alone. */
  lemma DmaElsewhere(c: NicConfig, v: Vi, id: nat, pkt: seq<byte>, ev: Event, other: seq<byte>)
    requires Fits(c, v) && id < c.count && ev.bufferId != id && Carries(c, v.slab, ev, other)
    ensures Carries(c, Dma(c, v, id, pkt).slab, ev, other)
  {
    InSlab(c, id);
    BuffersApart(c, id, ev.bufferId);
    var n := Min(|pkt|, c.size);
    var lo := Offset(c, ev.bufferId);
    SpliceApart(v.slab, Offset(c, id), pkt[..n], lo, lo + ev.length);
  }

  /** Overwriting a stretch leaves what lies before or after it. */
  lemma SpliceApart(s: seq<byte>, at: nat, p: seq<byte>, lo: nat, hi: nat)
    requires at + |p| <= |s| && lo <= hi <= |s| && (hi <= at || at + |p| <= lo)
    ensures var t := s[..at] + p + s[at + |p|..]; |t| == |s| && t[lo..hi] == s[lo..hi]
  {
    var t := s[..at] + p + s[at + |p|..];
    assert forall i :: lo <= i < hi ==> t[i] == s[i];
  }
}
