/** Network byte order on every machine, and whatever is written is read back. */
module BigEndianProofs {
  import opened Common
  import opened BigEndianSpec

  /** The number that bytes in network order stand for. */
  ghost function NetworkValue(bs: seq<Byte>): nat {
    if bs == [] then 0 else 256 * NetworkValue(bs[..|bs| - 1]) + bs[|bs| - 1]
  }

  lemma {:induction false} ValueOfBytes(w: nat, u: nat)
    requires u < Pow256(w)
    ensures LittleValue(LittleBytes(w, u)) == u
    decreases w
  {
    if w > 0 {
      ValueOfBytes(w - 1, u / 256);
    }
  }

  lemma {:induction false} BytesOfValue(bs: seq<Byte>)
    ensures LittleValue(bs) < Pow256(|bs|)
    ensures LittleBytes(|bs|, LittleValue(bs)) == bs
  {
    if bs != [] {
      BytesOfValue(bs[1..]);
      var rest := LittleValue(bs[1..]);
      assert (bs[0] + 256 * rest) % 256 == bs[0] && (bs[0] + 256 * rest) / 256 == rest;
      assert [bs[0]] + bs[1..] == bs;
    }
  }

  lemma BackAndForth(bs: seq<Byte>)
    ensures Backwards(Backwards(bs)) == bs
  {
  }

  lemma {:induction false} NetworkIsLittleBackwards(bs: seq<Byte>)
    ensures NetworkValue(Backwards(bs)) == LittleValue(bs)
  {
    if bs != [] {
      NetworkIsLittleBackwards(bs[1..]);
      assert Backwards(bs)[..|bs| - 1] == Backwards(bs[1..]);
    }
  }

  lemma ReversedValue(bs: seq<Byte>)
    ensures LittleValue(Backwards(bs)) == NetworkValue(bs)
  {
    NetworkIsLittleBackwards(Backwards(bs));
    BackAndForth(bs);
  }

  /** On either machine reading yields the number in network order, as two's complement if signed. */
  lemma ReadsNetworkOrder(bigEndian: bool, bs: seq<Byte>, signed: bool)
    ensures ReadBigEndian(bigEndian, bs, signed)
         == if signed then ToSigned(|bs|, NetworkValue(bs)) else NetworkValue(bs)
  {
    ReversedValue(bs);
    BytesOfValue(bs);
  }

  /** Only one sequence of bytes of a given length stands for a number. */
  lemma NetworkIsInjective(a: seq<Byte>, b: seq<Byte>)
    requires |a| == |b| && NetworkValue(a) == NetworkValue(b)
    ensures a == b
  {
    ReversedValue(a);
    ReversedValue(b);
    BytesOfValue(Backwards(a));
    BytesOfValue(Backwards(b));
    BackAndForth(a);
    BackAndForth(b);
  }

  /** On either machine writing yields the bytes that stand for the number in network order. */
  lemma WritesNetworkOrder(bigEndian: bool, w: nat, v: int)
    requires 0 <= ToUnsigned(w, v) < Pow256(w)
    ensures NetworkValue(WriteBigEndian(bigEndian, w, v)) == ToUnsigned(w, v)
  {
    var bytes := LittleBytes(w, ToUnsigned(w, v));
    BytesOfValue(Backwards(bytes));
    ValueOfBytes(w, ToUnsigned(w, v));
    NetworkIsLittleBackwards(bytes);
  }

  lemma NumberRoundTrip(big: bool, big': bool, f: Field)
    requires ValidField(f) && f.Number?
    ensures 0 <= ToUnsigned(f.width, f.value) < Pow256(f.width)
    ensures ReadBigEndian(big', WriteBigEndian(big, f.width, f.value), f.signed) == f.value
  {
    WritesNetworkOrder(big, f.width, f.value);
    ReadsNetworkOrder(big', WriteBigEndian(big, f.width, f.value), f.signed);
  }

  // ----- buffers -----

  lemma PutFits(b: Buffer, bs: seq<Byte>)
    requires ValidBuffer(b)
    ensures var (b', ok) := Put(b, bs);
            && ValidBuffer(b') && |b'.data| == |b.data|
            && (ok <==> b.offset + |bs| <= |b.data|)
            && (!ok ==> b' == b)
            && (ok ==> b'.offset == b.offset + |bs| && b'.data[b.offset..b'.offset] == bs)
            && b'.data[..b.offset] == b.data[..b.offset]
            && (ok ==> b'.data[b'.offset..] == b.data[b'.offset..])
  {
  }

  /** A write that fits puts just the field's bytes and moves past them; one that does not changes nothing. */
  lemma WriteOne(big: bool, b: Buffer, f: Field)
    requires ValidBuffer(b) && ValidField(f)
    ensures var (b', ok) := Write(big, b, f);
            && ValidBuffer(b') && |b'.data| == |b.data|
            && (ok <==> b.offset + SizeOf(f) <= |b.data|)
            && (!ok ==> b' == b)
            && (ok ==> b'.offset == b.offset + SizeOf(f) && b'.data[b'.offset..] == b.data[b'.offset..])
            && b'.data[..b.offset] == b.data[..b.offset]
  {
    PutFits(b, if f.Number? then WriteBigEndian(big, f.width, f.value) else f.bytes);
  }

  /** What was written at an offset is read there, from any buffer that agrees on those bytes. */
  lemma ReadOne(big: bool, big': bool, b: Buffer, f: Field, data: seq<Byte>)
    requires ValidBuffer(b) && ValidField(f) && b.offset + SizeOf(f) <= |b.data| == |data|
    requires data[..b.offset + SizeOf(f)] == Write(big, b, f).0.data[..b.offset + SizeOf(f)]
    ensures Read(big', Buffer(data, b.offset), ShapeOf(f)) == (Buffer(data, b.offset + SizeOf(f)), Some(f))
  {
    var bs := if f.Number? then WriteBigEndian(big, f.width, f.value) else f.bytes;
    PutFits(b, bs);
    var n := b.offset + SizeOf(f);
    assert data[b.offset..n] == data[..n][b.offset..] == bs;
    if f.Number? {
      NumberRoundTrip(big, big', f);
    }
  }

  ghost function Shapes(fs: seq<Field>): seq<Shape> {
    if fs == [] then [] else [ShapeOf(fs[0])] + Shapes(fs[1..])
  }

  /** What a reader is to find: the fields that were written, and failure for the others. */
  ghost function Found(fs: seq<Field>, oks: seq<bool>): seq<Option<Field>>
    requires |oks| == |fs|
  {
    if fs == [] then [] else [if oks[0] then Some(fs[0]) else None] + Found(fs[1..], oks[1..])
  }

  /** The sizes of the fields that were written. */
  ghost function WrittenSize(fs: seq<Field>, oks: seq<bool>): nat
    requires |oks| == |fs|
  {
    if fs == [] then 0 else (if oks[0] then SizeOf(fs[0]) else 0) + WrittenSize(fs[1..], oks[1..])
  }

  lemma OutsideUntouched(d0: seq<Byte>, d1: seq<Byte>, d2: seq<Byte>, lo: nat, mid: nat, hi: nat)
    requires lo <= mid <= hi <= |d0| == |d1| == |d2|
    requires d1[..lo] == d0[..lo] && d1[mid..] == d0[mid..] && d2[..mid] == d1[..mid] && d2[hi..] == d1[hi..]
    ensures d2[..lo] == d0[..lo] && d2[hi..] == d0[hi..]
  {
    assert d2[..lo] == d2[..mid][..lo] && d1[..lo] == d1[..mid][..lo];
    assert d1[hi..] == d1[mid..][hi - mid..] && d0[hi..] == d0[mid..][hi - mid..];
  }

  /** The offset moves by what was written, failures by nothing, and no byte outside is touched. */
  lemma {:induction false} WritesAll(big: bool, b: Buffer, fs: seq<Field>)
    requires ValidBuffer(b) && forall f :: f in fs ==> ValidField(f)
    ensures var (b', oks) := WriteAll(big, b, fs);
            && |oks| == |fs| && |b'.data| == |b.data| && ValidBuffer(b')
            && b'.offset == b.offset + WrittenSize(fs, oks)
            && b'.data[..b.offset] == b.data[..b.offset]
            && b'.data[b'.offset..] == b.data[b'.offset..]
    decreases |fs|
  {
    if fs != [] {
      var b1 := Write(big, b, fs[0]).0;
      WriteOne(big, b, fs[0]);
      WritesAll(big, b1, fs[1..]);
      var b2 := WriteAll(big, b1, fs[1..]).0;
      OutsideUntouched(b.data, b1.data, b2.data, b.offset, b1.offset, b2.offset);
    }
  }

  /** Fields that fit together are all written. */
  lemma {:induction false} AllFit(big: bool, b: Buffer, fs: seq<Field>)
    requires ValidBuffer(b) && (forall f :: f in fs ==> ValidField(f)) && b.offset + TotalSize(fs) <= |b.data|
    ensures forall ok :: ok in WriteAll(big, b, fs).1 ==> ok
    decreases |fs|
  {
    if fs != [] {
      WriteOne(big, b, fs[0]);
      AllFit(big, Write(big, b, fs[0]).0, fs[1..]);
    }
  }

  /** A reader that asks for a field that did not fit fails in the same way. */
  lemma ReadNone(big: bool, b: Buffer, f: Field, data: seq<Byte>)
    requires ValidBuffer(b) && ValidField(f) && b.offset + SizeOf(f) > |b.data| == |data|
    ensures Read(big, Buffer(data, b.offset), ShapeOf(f)) == (Buffer(data, b.offset), None)
  {
  }

  /**
   Any fields, whether or not they fit, are read back by a reader on any machine: it finds
   the fields that were written, fails on those that were not, and ends at the same offset.
   */
  lemma {:induction false} RoundTrip(big: bool, big': bool, b: Buffer, fs: seq<Field>)
    requires ValidBuffer(b) && forall f :: f in fs ==> ValidField(f)
    ensures var (b', oks) := WriteAll(big, b, fs);
            && |oks| == |fs| && ValidBuffer(Buffer(b'.data, b.offset))
            && ReadAll(big', Buffer(b'.data, b.offset), Shapes(fs)) == (b', Found(fs, oks))
    decreases |fs|
  {
    WritesAll(big, b, fs);
    if fs != [] {
      var b1 := Write(big, b, fs[0]).0;
      WriteOne(big, b, fs[0]);
      WritesAll(big, b1, fs[1..]);
      RoundTrip(big, big', b1, fs[1..]);
      var data := WriteAll(big, b1, fs[1..]).0.data;
      if b.offset + SizeOf(fs[0]) <= |b.data| {
        ReadOne(big, big', b, fs[0], data);
      } else {
        ReadNone(big', b, fs[0], data);
      }
      assert Shapes(fs)[1..] == Shapes(fs[1..]);
    }
  }

  // ----- cursors -----

  /** The latest moment before `j` when the cursor of that level was committed, or that of its opening. */
  ghost function LastCommit(es: seq<CursorEvent>, i: nat, j: nat, level: nat): (c: nat)
    requires i < j <= |es|
    ensures i <= c < j
    decreases j
  {
    if j == i + 1 || es[j - 1] == Commit(level) then j - 1 else LastCommit(es, i, j - 1, level)
  }

  /** A cursor opened at `i` is open up to `j`. */
  ghost predicate OpenFrom(ss: seq<Cursors>, es: seq<CursorEvent>, i: nat, j: nat) {
    && i < j < |ss| && j <= |es| && es[i] == Open
    && forall k :: i < k <= j ==> |ss[k].origins| > |ss[i].origins|
  }

  lemma {:induction false} OriginIsLastCommit(ss: seq<Cursors>, es: seq<CursorEvent>, i: nat, j: nat)
    requires IsCursorRun(ss, es) && OpenFrom(ss, es, i, j)
    ensures var level := |ss[i].origins|;
            ss[j].origins[level] == ss[LastCommit(es, i, j, level)].offset
    decreases j
  {
    if j > i + 1 {
      OriginIsLastCommit(ss, es, i, j - 1);
    }
  }

  /** Closing a cursor restores the offset of its last commit, whatever was done with others in between. */
  lemma CloseRestores(ss: seq<Cursors>, es: seq<CursorEvent>, i: nat, j: nat)
    requires IsCursorRun(ss, es) && OpenFrom(ss, es, i, j) && j < |es|
    requires es[j] == Close && |ss[j].origins| == |ss[i].origins| + 1
    ensures ss[j + 1].offset == ss[LastCommit(es, i, j, |ss[i].origins|)].offset
    ensures ss[j + 1].origins == ss[j].origins[..|ss[i].origins|]
  {
    OriginIsLastCommit(ss, es, i, j);
  }

  /** Skipping bytes is reading them, and it is writing them as they are: it succeeds and fails alike. */
  lemma SkipIsReading(b: Buffer, n: nat)
    requires ValidBuffer(b)
    ensures Skip(b, n) == (Get(b, n).0, Get(b, n).1.Some?)
    ensures forall bs :: Get(b, n).1 == Some(bs) ==> Skip(b, n) == Put(b, bs)
  {
    if n <= |b.data| - b.offset {
      var bs := b.data[b.offset..b.offset + n];
      assert b.data[..b.offset] + bs + b.data[b.offset + n..] == b.data;
    }
  }
}
