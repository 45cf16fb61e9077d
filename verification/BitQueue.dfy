/** The bit deque behind the deduplication window: booleans packed into 128-bit words. */
module BitQueue {
  import opened Types

  const WORD: nat := 128

  /** Bit `i` of the word whose value is `w`. */
  predicate Bit(w: nat, i: nat) {
    if i == 0 then w % 2 == 1 else Bit(w / 2, i - 1)
  }

  /** The word with bit `i` overwritten: `w | (1 << i)` when `v`, `w & !(1 << i)` otherwise. */
  function WithBit(w: nat, i: nat, v: bool): nat {
    if i == 0 then w - w % 2 + (if v then 1 else 0) else 2 * WithBit(w / 2, i - 1, v) + w % 2
  }

  /** `w` is the value of an unsigned 128-bit word: it has no bit at or above the width. */
  ghost predicate IsWord(w: nat) {
    forall i: nat :: i >= WORD ==> !Bit(w, i)
  }

  lemma {:induction false} WithBitAt(w: nat, i: nat, v: bool, j: nat)
    ensures Bit(WithBit(w, i, v), j) == (if i == j then v else Bit(w, j))
  {
    if i > 0 && j > 0 {
      WithBitAt(w / 2, i - 1, v, j - 1);
      assert WithBit(w, i, v) / 2 == WithBit(w / 2, i - 1, v);
    }
  }

  lemma {:induction false} SmallBits(j: nat)
    ensures !Bit(0, j)
    ensures Bit(1, j) == (j == 0)
  {
    if j > 0 {
      SmallBits(j - 1);
    }
  }

  /** Bit `k` of the packed store, counted from the first word. */
  predicate PhysicalBit(store: seq<nat>, k: nat)
    requires k < WORD * |store|
  {
    Bit(store[k / WORD], k % WORD)
  }

  /** Every element is a word, the store is as long as `tail` needs, and nothing is set above `tail`. */
  ghost predicate Packed(store: seq<nat>, tail: nat) {
    && |store| == (tail + WORD - 1) / WORD
    && (forall i :: 0 <= i < |store| ==> IsWord(store[i]))
    && (forall k: nat :: tail <= k < WORD * |store| ==> !PhysicalBit(store, k))
  }

  ghost function Unpack(store: seq<nat>, head: nat, tail: nat): (bits: seq<bool>)
    requires head <= tail <= WORD * |store|
  {
    seq(tail - head, i requires 0 <= i < tail - head => PhysicalBit(store, head + i))
  }

  /** Overwriting one slot of one word changes exactly that physical bit. */
  lemma StoreUpdate(store: seq<nat>, store': seq<nat>, k: nat, v: bool)
    requires k < WORD * |store|
    requires forall i :: 0 <= i < |store| ==> IsWord(store[i])
    requires store' == store[k / WORD := WithBit(store[k / WORD], k % WORD, v)]
    ensures forall i :: 0 <= i < |store'| ==> IsWord(store'[i])
    ensures forall j: nat :: j < WORD * |store| ==>
              PhysicalBit(store', j) == (if j == k then v else PhysicalBit(store, j))
  {
    var w := store[k / WORD];
    forall i: nat | i >= WORD
      ensures !Bit(WithBit(w, k % WORD, v), i)
    {
      WithBitAt(w, k % WORD, v, i);
    }
    forall j: nat | j < WORD * |store|
      ensures PhysicalBit(store', j) == (if j == k then v else PhysicalBit(store, j))
    {
      if j / WORD == k / WORD {
        WithBitAt(w, k % WORD, v, j % WORD);
      }
    }
  }

  /** Appending a fresh word holding one boolean. */
  lemma StoreGrow(store: seq<nat>, store': seq<nat>, v: bool)
    requires forall i :: 0 <= i < |store| ==> IsWord(store[i])
    requires store' == store + [if v then 1 else 0]
    ensures forall i :: 0 <= i < |store'| ==> IsWord(store'[i])
    ensures forall j: nat :: j < WORD * |store'| ==>
              PhysicalBit(store', j) == (if j < WORD * |store| then PhysicalBit(store, j) else j == WORD * |store| && v)
  {
    forall j: nat
      ensures !Bit(0, j)
      ensures Bit(1, j) == (j == 0)
    {
      SmallBits(j);
    }
  }

  /** One more boolean in the last word. */
  lemma PushInside(store: seq<nat>, head: nat, tail: nat, v: bool)
    requires head <= tail && Packed(store, tail) && |store| > 0 && tail % WORD != 0
    ensures var store' := store[|store| - 1 := WithBit(store[|store| - 1], tail % WORD, v)];
            Packed(store', tail + 1) && Unpack(store', head, tail + 1) == Unpack(store, head, tail) + [v]
  {
    var last := |store| - 1;
    assert last == tail / WORD;
    StoreUpdate(store, store[last := WithBit(store[last], tail % WORD, v)], tail, v);
  }

  /** One more boolean in a word of its own. */
  lemma PushBeyond(store: seq<nat>, head: nat, tail: nat, v: bool)
    requires head <= tail && Packed(store, tail) && !(|store| > 0 && tail % WORD != 0)
    ensures var store' := store + [if v then 1 else 0];
            Packed(store', tail + 1) && Unpack(store', head, tail + 1) == Unpack(store, head, tail) + [v]
  {
    assert WORD * |store| == tail;
    StoreGrow(store, store + [if v then 1 else 0], v);
  }

  class BitVecQueue {
    var store: seq<nat>
    var head: nat
    var tail: nat

    /** The words fit `tail`, `head` stays inside the first word, and bits at or above `tail` are zero. */
    ghost predicate Valid()
      reads this
    {
      head <= tail && head < WORD && Packed(store, tail)
    }

    /** The queue as a sequence of booleans. */
    ghost function Bits(): (bits: seq<bool>)
      requires Valid()
      reads this
    {
      Unpack(store, head, tail)
    }

    constructor ()
      ensures Valid() && Bits() == []
    {
      store, head, tail := [], 0, 0;
    }

    function Len(): (n: nat)
      requires Valid()
      reads this
      ensures n == |Bits()|
    {
      tail - head
    }

    function Get(idx: nat): (r: Option<bool>)
      requires Valid()
      reads this
      ensures r == if idx < |Bits()| then Some(Bits()[idx]) else None
    {
      if idx >= Len() then None else Some(PhysicalBit(store, idx + head))
    }

    method Set(idx: nat, v: bool)
      requires Valid()
      modifies this
      ensures Valid()
      ensures Bits() == if idx < |old(Bits())| then old(Bits())[idx := v] else old(Bits())
    {
      if idx >= Len() {
        return;
      }
      var word, slot := (idx + head) / WORD, (idx + head) % WORD;
      store := store[word := WithBit(store[word], slot, v)];
      StoreUpdate(old(store), store, idx + head, v);
    }

    method PushBack(v: bool)
      requires Valid()
      modifies this
      ensures Valid()
      ensures Bits() == old(Bits()) + [v]
    {
      hide Packed;
      hide Unpack;
      hide WithBit;
      if |store| > 0 && tail % WORD != 0 {
        var last := |store| - 1;
        PushInside(store, head, tail, v);
        store := store[last := WithBit(store[last], tail % WORD, v)];
      } else {
        PushBeyond(store, head, tail, v);
        store := store + [if v then 1 else 0];
      }
      tail := tail + 1;
    }

    /**
     * The source reads the first word whenever there is one, so a queue that is logically empty may
     * still answer; the answer is then never `Some(true)`.
     */
    function Front(): (r: Option<bool>)
      requires Valid()
      reads this
      ensures |Bits()| > 0 ==> r == Some(Bits()[0])
      ensures |Bits()| == 0 ==> r != Some(true)
      ensures r == None <==> store == []
    {
      if |store| == 0 then None else
      assert Bit(store[0], head) == PhysicalBit(store, head);
      Some(Bit(store[0], head))
    }

    method PopFront()
      requires Valid()
      modifies this
      ensures Valid()
      ensures Bits() == if old(Bits()) == [] then [] else old(Bits())[1..]
    {
      if head == tail {
        Clear();
        return;
      }
      head := head + 1;
      if head == WORD {
        store := store[1..];
        head := 0;
        tail := tail - WORD;
        assert forall k: nat :: k < WORD * |store| ==> PhysicalBit(store, k) == PhysicalBit(old(store), k + WORD);
      }
    }

    method Clear()
      modifies this
      ensures Valid() && Bits() == []
    {
      head, tail := 0, 0;
      store := [];
    }
  }
}
