/** The fixed-capacity circular store of raw samples: its element type, its capacity,
    the chronological view of what it holds, and the modular index facts the
    detector's loops rely on. */
module RingBuffer {
  import opened Numeric

  /** A signed 16-bit amplitude sample (`int16_t`). */
  newtype Int16 = x: int | -32768 <= x < 32768

  /** `TOUCH_BUFFER_SIZE`: six seconds at 10 kHz. */
  const TouchBufferSize: int := 60000

  predicate Cursors(head: int, count: int) {
    0 <= head < TouchBufferSize && 0 <= count <= TouchBufferSize
  }

  /** The `count` samples stored behind the write cursor `head`, oldest first:
      element i lives in slot (head - count + C + i) % C. */
  function View(b: seq<Int16>, head: int, count: int): (v: seq<Int16>)
    requires |b| == TouchBufferSize && Cursors(head, count)
    ensures |v| == count
  {
    seq(count, i requires 0 <= i < count => b[(head - count + TouchBufferSize + i) % TouchBufferSize])
  }

  /** The newest w samples of a view are a view of their own, read from
      w slots behind the same cursor. */
  lemma ViewSuffix(b: seq<Int16>, head: int, count: int, w: int)
    requires |b| == TouchBufferSize && Cursors(head, count) && 0 <= w <= count
    ensures View(b, head, w) == View(b, head, count)[count - w..]
  {
  }

  /** The most recent C samples of a stream (all of it when it is shorter). */
  function Retain(s: seq<Int16>): (r: seq<Int16>)
    ensures |r| == Min(|s|, TouchBufferSize)
  {
    if |s| <= TouchBufferSize then s else s[|s| - TouchBufferSize..]
  }

  /** What is retained is the tail of the stream: its newest samples. */
  lemma RetainIsSuffix(s: seq<Int16>)
    ensures Retain(s) == s[|s| - |Retain(s)|..]
  {
  }

  /** Keeping the newest C samples and then pushing one more keeps the same
      samples as pushing first: the buffer may forget old samples eagerly. */
  lemma RetainPush(s: seq<Int16>, x: Int16)
    ensures Retain(Retain(s) + [x]) == Retain(s + [x])
  {
    if |s| > TouchBufferSize {
      assert Retain(s) + [x] == (s + [x])[|s| - TouchBufferSize..];
    }
  }

  /** An index in [0, 2C) wraps at most once. */
  lemma WrapOnce(a: int)
    requires 0 <= a < 2 * TouchBufferSize
    ensures a % TouchBufferSize == if a < TouchBufferSize then a else a - TouchBufferSize
  {
  }

  /** Two positions less than C apart land in different slots. */
  lemma DistinctSlots(a: int, b: int)
    requires 0 <= a < b < a + TouchBufferSize
    ensures a % TouchBufferSize != b % TouchBufferSize
  {
    var qa, qb := a / TouchBufferSize, b / TouchBufferSize;
    assert a == qa * TouchBufferSize + a % TouchBufferSize;
    assert b == qb * TouchBufferSize + b % TouchBufferSize;
  }

  /** The slot that position k after `base` lands in. */
  function Slot(base: int, k: int): (r: int)
    requires 0 <= base + k
    ensures 0 <= r < TouchBufferSize
  {
    (base + k) % TouchBufferSize
  }

  /** The slots of the C - 1 positions before position i all differ from
      the slot of i. */
  lemma EarlierSlotsDiffer(base: int, i: int)
    requires 0 <= base && 0 <= i
    ensures forall k :: 0 <= k < i && i - TouchBufferSize < k ==> Slot(base, k) != Slot(base, i)
  {
    forall k | 0 <= k < i && i - TouchBufferSize < k
      ensures Slot(base, k) != Slot(base, i)
    {
      DistinctSlots(base + k, base + i);
    }
  }

  /** One step of the write loop moves the cursors from position i to i + 1. */
  lemma AdvanceCursors(head0: int, count0: int, i: int)
    requires 0 <= head0 && 0 <= count0 && 0 <= i
    ensures ((head0 + i) % TouchBufferSize + 1) % TouchBufferSize == (head0 + i + 1) % TouchBufferSize
    ensures (if Min(TouchBufferSize, count0 + i) < TouchBufferSize then Min(TouchBufferSize, count0 + i) + 1
             else Min(TouchBufferSize, count0 + i)) == Min(TouchBufferSize, count0 + i + 1)
  {
    ModAdd(head0 + i, 1);
  }

  /** Reducing the left operand first does not change the slot. */
  lemma ModAdd(a: int, b: int)
    requires 0 <= a && 0 <= b
    ensures (a % TouchBufferSize + b) % TouchBufferSize == (a + b) % TouchBufferSize
  {
    var q := a / TouchBufferSize;
    assert a == q * TouchBufferSize + a % TouchBufferSize;
    ModShift(a % TouchBufferSize + b, q);
  }

  lemma ModShift(x: int, q: int)
    requires 0 <= x && 0 <= q
    ensures (x + q * TouchBufferSize) % TouchBufferSize == x % TouchBufferSize
  {
    var r := x % TouchBufferSize;
    var p := x / TouchBufferSize;
    assert x == p * TouchBufferSize + r;
    assert x + q * TouchBufferSize == (p + q) * TouchBufferSize + r;
  }

  /** Writing x at the cursor and advancing it turns the view into the newest C
      samples of the old view followed by x. */
  lemma ViewPush(b: seq<Int16>, head: int, count: int, x: Int16)
    requires |b| == TouchBufferSize && Cursors(head, count)
    ensures Cursors((head + 1) % TouchBufferSize, Min(TouchBufferSize, count + 1))
    ensures View(b[head := x], (head + 1) % TouchBufferSize, Min(TouchBufferSize, count + 1))
         == Retain(View(b, head, count) + [x])
  {
    WrapOnce(head + 1);
    if count < TouchBufferSize {
      ViewPushNotFull(b, head, count, x);
    } else {
      ViewPushFull(b, head, x);
    }
  }

  lemma ViewPushNotFull(b: seq<Int16>, head: int, count: int, x: Int16)
    requires |b| == TouchBufferSize && Cursors(head, count) && count < TouchBufferSize
    ensures Cursors((head + 1) % TouchBufferSize, count + 1)
    ensures View(b[head := x], (head + 1) % TouchBufferSize, count + 1) == View(b, head, count) + [x]
  {
    var C := TouchBufferSize;
    var head' := (head + 1) % C;
    WrapOnce(head + 1);
    var b' := b[head := x];
    var v := View(b, head, count);
    var v' := View(b', head', count + 1);
    forall i | 0 <= i < count + 1
      ensures v'[i] == (v + [x])[i]
    {
      PushSlotNotFull(head, count, i);
      var slot := (head' - (count + 1) + C + i) % C;
      assert v'[i] == b'[slot];
      if i < count {
        assert v[i] == b[slot];
      }
    }
  }

  lemma ViewPushFull(b: seq<Int16>, head: int, x: Int16)
    requires |b| == TouchBufferSize && 0 <= head < TouchBufferSize
    ensures 0 <= (head + 1) % TouchBufferSize < TouchBufferSize
    ensures View(b[head := x], (head + 1) % TouchBufferSize, TouchBufferSize)
         == (View(b, head, TouchBufferSize) + [x])[1..]
  {
    var C := TouchBufferSize;
    var head' := (head + 1) % C;
    WrapOnce(head + 1);
    var b' := b[head := x];
    var v := View(b, head, C);
    var v' := View(b', head', C);
    forall i | 0 <= i < C
      ensures v'[i] == (v + [x])[1..][i]
    {
      PushSlotFull(head, i);
      var slot := (head' - C + C + i) % C;
      assert v'[i] == b'[slot];
      if i < C - 1 {
        assert v[i + 1] == b[slot];
      }
    }
  }

  /** While the buffer is not full, element i of the new view sits in the slot
      it had before, and the new last element sits at the old cursor. */
  lemma PushSlotNotFull(head: int, count: int, i: int)
    requires Cursors(head, count) && count < TouchBufferSize && 0 <= i <= count
    ensures var slot := ((head + 1) % TouchBufferSize - (count + 1) + TouchBufferSize + i) % TouchBufferSize;
      && (i < count ==> slot == (head - count + TouchBufferSize + i) % TouchBufferSize && slot != head)
      && (i == count ==> slot == head)
  {
    var C := TouchBufferSize;
    WrapOnce(head + 1);
    var a := (head + 1) % C - (count + 1) + C + i;
    var base := head - count + C + i;
    if head + 1 == C {
      assert a + C == base;
      ModShift(a, 1);
    }
    WrapOnce(base);
  }

  /** Once the buffer is full, element i of the new view is element i + 1 of
      the old one, and the new last element sits at the old cursor. */
  lemma PushSlotFull(head: int, i: int)
    requires 0 <= head < TouchBufferSize && 0 <= i < TouchBufferSize
    ensures var slot := ((head + 1) % TouchBufferSize - TouchBufferSize + TouchBufferSize + i) % TouchBufferSize;
      && (i < TouchBufferSize - 1 ==> slot == (head - TouchBufferSize + TouchBufferSize + (i + 1)) % TouchBufferSize && slot != head)
      && (i == TouchBufferSize - 1 ==> slot == head)
  {
    var C := TouchBufferSize;
    WrapOnce(head + 1);
    var a := (head + 1) % C - C + C + i;
    var base := head + 1 + i;
    if head + 1 == C {
      assert a + C == base;
      ModShift(a, 1);
    }
    WrapOnce(base);
    WrapOnce(head + i + 1);
  }

  /** The store after writing s slot by slot, starting at `head`. */
  function Overwrite(b: seq<Int16>, head: int, s: seq<Int16>): (r: seq<Int16>)
    requires |b| == TouchBufferSize && 0 <= head < TouchBufferSize
    ensures |r| == TouchBufferSize
  {
    if |s| == 0 then b
    else Overwrite(b, head, s[..|s| - 1])[Slot(head, |s| - 1) := s[|s| - 1]]
  }

  /** What overwriting leaves in the store: each of the last C values written
      sits in its slot, and the slots of positions |s| to C - 1 after `head`
      keep their old contents. */
  lemma {:induction false} OverwriteSlots(b: seq<Int16>, head: int, s: seq<Int16>)
    requires |b| == TouchBufferSize && 0 <= head < TouchBufferSize
    ensures forall k :: 0 <= k < |s| && |s| - TouchBufferSize <= k ==>
              Overwrite(b, head, s)[Slot(head, k)] == s[k]
    ensures forall m :: |s| <= m < TouchBufferSize ==>
              Overwrite(b, head, s)[Slot(head, m)] == b[Slot(head, m)]
  {
    if |s| > 0 {
      var t := s[..|s| - 1];
      OverwriteSlots(b, head, t);
      EarlierSlotsDiffer(head, |s| - 1);
      forall m | |s| <= m < TouchBufferSize
        ensures Slot(head, m) != Slot(head, |s| - 1)
      {
        DistinctSlots(head + |s| - 1, head + m);
      }
    }
  }

  /** Overwriting s at the cursor and advancing the cursors by |s| turns the
      view into the newest C samples of the old view followed by s. */
  lemma {:induction false} OverwriteView(b: seq<Int16>, head: int, count: int, s: seq<Int16>)
    requires |b| == TouchBufferSize && Cursors(head, count)
    ensures Cursors((head + |s|) % TouchBufferSize, Min(TouchBufferSize, count + |s|))
    ensures View(Overwrite(b, head, s), (head + |s|) % TouchBufferSize, Min(TouchBufferSize, count + |s|))
         == Retain(View(b, head, count) + s)
  {
    if |s| == 0 {
      OverwriteNothing(b, head, count, s);
    } else {
      OverwriteView(b, head, count, s[..|s| - 1]);
      OverwriteViewStep(b, head, count, s);
    }
  }

  /** The inductive step of OverwriteView: the last value written. */
  lemma OverwriteViewStep(b: seq<Int16>, head: int, count: int, s: seq<Int16>)
    requires |b| == TouchBufferSize && Cursors(head, count) && |s| > 0
    requires var t := s[..|s| - 1];
      && Cursors((head + |t|) % TouchBufferSize, Min(TouchBufferSize, count + |t|))
      && View(Overwrite(b, head, t), (head + |t|) % TouchBufferSize, Min(TouchBufferSize, count + |t|))
         == Retain(View(b, head, count) + t)
    ensures Cursors((head + |s|) % TouchBufferSize, Min(TouchBufferSize, count + |s|))
    ensures View(Overwrite(b, head, s), (head + |s|) % TouchBufferSize, Min(TouchBufferSize, count + |s|))
         == Retain(View(b, head, count) + s)
  {
    var t, x := s[..|s| - 1], s[|s| - 1];
    var h, c := (head + |t|) % TouchBufferSize, Min(TouchBufferSize, count + |t|);
    OverwriteLast(b, head, s);
    PushOntoView(Overwrite(b, head, t), h, c, View(b, head, count) + t, x);
    AppendLast(View(b, head, count), s);
    AdvanceCursors(head, count, |t|);
    assert (head + |t| + 1) % TouchBufferSize == (head + |s|) % TouchBufferSize;
    assert Min(TouchBufferSize, count + |t| + 1) == Min(TouchBufferSize, count + |s|);
    assert Min(TouchBufferSize, c + 1) == Min(TouchBufferSize, count + |s|);
    assert (h + 1) % TouchBufferSize == (head + |s|) % TouchBufferSize;
    assert Overwrite(b, head, s) == Overwrite(b, head, t)[h := x];
    assert Retain((View(b, head, count) + t) + [x]) == Retain(View(b, head, count) + s);
  }

  /** Overwriting s is overwriting all but its last value, then writing that
      one at the next slot. */
  lemma OverwriteLast(b: seq<Int16>, head: int, s: seq<Int16>)
    requires |b| == TouchBufferSize && 0 <= head < TouchBufferSize && |s| > 0
    ensures Overwrite(b, head, s)
         == Overwrite(b, head, s[..|s| - 1])[(head + |s[..|s| - 1]|) % TouchBufferSize := s[|s| - 1]]
  {
  }

  lemma AppendLast(v: seq<Int16>, s: seq<Int16>)
    requires |s| > 0
    ensures (v + s[..|s| - 1]) + [s[|s| - 1]] == v + s
  {
    assert s[..|s| - 1] + [s[|s| - 1]] == s;
  }

  /** The base case of OverwriteView: writing nothing changes nothing. */
  lemma OverwriteNothing(b: seq<Int16>, head: int, count: int, s: seq<Int16>)
    requires |b| == TouchBufferSize && Cursors(head, count) && |s| == 0
    ensures View(Overwrite(b, head, s), (head + |s|) % TouchBufferSize, Min(TouchBufferSize, count + |s|))
         == Retain(View(b, head, count) + s)
  {
    WrapOnce(head);
    assert (head + |s|) % TouchBufferSize == head && Min(TouchBufferSize, count + |s|) == count;
    assert View(b, head, count) + s == View(b, head, count);
  }

  /** The inductive step of OverwriteView: writing one more sample at the
      cursor of a store that holds the newest samples of v makes it hold the
      newest samples of v + [x]. */
  lemma PushOntoView(b: seq<Int16>, head: int, count: int, v: seq<Int16>, x: Int16)
    requires |b| == TouchBufferSize && Cursors(head, count) && View(b, head, count) == Retain(v)
    ensures View(b[head := x], (head + 1) % TouchBufferSize, Min(TouchBufferSize, count + 1))
         == Retain(v + [x])
  {
    ViewPush(b, head, count, x);
    RetainPush(v, x);
  }
}
