/** The ring at call granularity: a bounded queue over wrapping 64-bit counters. */
module SpscRing {
  import opened Wrappers
  import opened Bits

  /** Two indices less than a capacity apart use different slots. */
  lemma SlotsDiffer(i: nat, j: nat, cap: nat)
    requires i < j < i + cap
    ensures i % cap != j % cap
  {
    DivMod(i, cap);
    DivMod(j, cap);
    if i / cap < j / cap {
      MulStep(cap, i / cap, j / cap);
    } else if j / cap < i / cap {
      MulStep(cap, j / cap, i / cap);
    }
  }

  /** cap - 1 in 64 bits. */
  function MaskOf(cap: nat): nat {
    if cap == 0 then WORD - 1 else cap - 1
  }

  class Ring<T(0)> {
    const cap: nat
    const mask: nat
    const slots: array<T>
    var write: nat
    var read: nat

    ghost const bits: nat
    /** Everything ever pushed, and how much of it was popped. */
    ghost var pushed: seq<T>
    ghost var popped: nat

    ghost predicate Valid()
      reads this, slots
    {
      && bits <= 63 && (cap == 0 || cap == Pow2(bits)) && mask == MaskOf(cap) && slots.Length == cap
      && popped <= |pushed| <= popped + cap
      && write == Wrap(|pushed|) && read == Wrap(popped)
      && forall i :: popped <= i < |pushed| ==> slots[i % cap] == pushed[i]
    }

    ghost function Contents(): seq<T>
      reads this
    {
      if popped <= |pushed| then pushed[popped..] else []
    }

    constructor (capacity: nat)
      requires 1 <= capacity < WORD
      ensures Valid() && Contents() == [] && fresh(slots)
      ensures if capacity <= WORD / 2 then LeastPow2(cap, capacity) else cap == 0
    {
      hide Pow2;
      var c := NextPowerOfTwo(capacity);
      ghost var k: nat := 0;
      if capacity <= WORD / 2 {
        k :| c == Pow2(k);
        WordIsPow2();
        if k > 63 {
          Pow2Mono(63, k);
        }
      }
      cap, mask, bits := c, MaskOf(c), k;
      slots := new T[c];
      write, read, pushed, popped := 0, 0, [], 0;
    }

    /** The checked constructor: no ring of capacity 0. */
    static method Create(capacity: nat) returns (ring: Ring?<T>)
      requires capacity < WORD
      ensures ring == null <==> capacity == 0
      ensures ring != null ==> fresh(ring) && fresh(ring.slots) && ring.Valid() && ring.Contents() == []
      ensures ring != null ==> if capacity <= WORD / 2 then LeastPow2(ring.cap, capacity) else ring.cap == 0
    {
      if capacity == 0 {
        return null;
      }
      ring := new Ring<T>(capacity);
    }

    /** Producer only. */
    method TryPush(value: T) returns (ok: bool)
      requires Valid()
      modifies this`write, this`pushed, slots
      ensures Valid()
      ensures ok <==> |old(Contents())| < cap
      ensures Contents() == if ok then old(Contents()) + [value] else old(Contents())
    {
      hide Wrap, Pow2, And, WrapSub;
      var w, r := write, read;
      WrapSucc(|pushed|);
      WrapSucc(popped);
      RingArithmetic(|pushed|, popped, bits);
      if WrapSub(w, r) >= cap {
        return false;
      }
      forall i | popped <= i < |pushed|
        ensures i % cap != |pushed| % cap
      {
        SlotsDiffer(i, |pushed|, cap);
      }
      slots[And(w, mask)] := value;
      write := (w + 1) % WORD;
      pushed := pushed + [value];
      return true;
    }

    /** Consumer only. */
    method TryPop() returns (out: Option<T>)
      requires Valid()
      modifies this`read, this`popped
      ensures Valid()
      ensures out == None <==> old(Contents()) == []
      ensures out.Some? ==> old(Contents()) == [out.value] + Contents()
      ensures out == None ==> Contents() == []
    {
      hide Wrap, Pow2, And, WrapSub;
      var r, w := read, write;
      WrapSucc(|pushed|);
      WrapSucc(popped);
      RingArithmetic(|pushed|, popped, bits);
      if r == w {
        return None;
      }
      out := Some(slots[And(r, mask)]);
      read := (r + 1) % WORD;
      popped := popped + 1;
    }

    method Size() returns (n: nat)
      requires Valid()
      ensures n == |Contents()|
    {
      RingArithmetic(|pushed|, popped, bits);
      n := WrapSub(write, read);
    }
  }

  /** With at most 2^63 items between them, wrapped counters tell what the counters tell. */
  lemma RingArithmetic(pushed: nat, popped: nat, bits: nat)
    requires bits <= 63 && popped <= pushed <= popped + Pow2(bits)
    ensures Pow2(bits) <= WORD / 2
    ensures WrapSub(Wrap(pushed), Wrap(popped)) == pushed - popped
    ensures Wrap(pushed) == Wrap(popped) <==> pushed == popped
    ensures And(Wrap(pushed), Pow2(bits) - 1) == pushed % Pow2(bits)
    ensures And(Wrap(popped), Pow2(bits) - 1) == popped % Pow2(bits)
  {
    WordIsPow2();
    Pow2Mono(bits, 63);
    WrapSubExact(pushed, popped);
    WrapIndex(pushed, bits);
    WrapIndex(popped, bits);
  }
}
