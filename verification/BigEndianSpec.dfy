/**
 util/big_endian.h and util/big_endian.cc: integers and byte runs in network byte order, on a
 machine of either byte order.
 */
module BigEndianSpec {
  import opened Common

  type Byte = x: int | 0 <= x < 256

  // ----- integers in memory -----

  function Pow256(w: nat): (p: nat)
    ensures p >= 1
  {
    if w == 0 then 1 else 256 * Pow256(w - 1)
  }

  /** The `w` bytes of a number, the least significant first. */
  function LittleBytes(w: nat, u: nat): (bs: seq<Byte>)
    ensures |bs| == w
  {
    if w == 0 then [] else [u % 256] + LittleBytes(w - 1, u / 256)
  }

  function LittleValue(bs: seq<Byte>): nat {
    if bs == [] then 0 else bs[0] + 256 * LittleValue(bs[1..])
  }

  function Backwards(bs: seq<Byte>): (r: seq<Byte>)
    ensures |r| == |bs|
  {
    seq(|bs|, i requires 0 <= i < |bs| => bs[|bs| - 1 - i])
  }

  /** What a copy out of an integer's memory yields, and what a copy into it makes. */
  function ToMemory(bigEndian: bool, w: nat, u: nat): (bs: seq<Byte>)
    ensures |bs| == w
  {
    if bigEndian then Backwards(LittleBytes(w, u)) else LittleBytes(w, u)
  }

  function FromMemory(bigEndian: bool, bs: seq<Byte>): nat {
    if bigEndian then LittleValue(Backwards(bs)) else LittleValue(bs)
  }

  function ByteSwap(w: nat, u: nat): nat {
    LittleValue(Backwards(LittleBytes(w, u)))
  }

  /** Conversions between a signed value and its two's complement. */
  function ToUnsigned(w: nat, v: int): int {
    if v < 0 then v + Pow256(w) else v
  }

  function ToSigned(w: nat, u: int): int {
    if 2 * u >= Pow256(w) then u - Pow256(w) else u
  }

  function ReadBigEndian(bigEndian: bool, bs: seq<Byte>, signed: bool): int {
    var raw := FromMemory(bigEndian, bs);
    var u := if bigEndian then raw else ByteSwap(|bs|, raw);
    if signed then ToSigned(|bs|, u) else u
  }

  function WriteBigEndian(bigEndian: bool, w: nat, v: int): (bs: seq<Byte>)
    requires 0 <= ToUnsigned(w, v)
    ensures |bs| == w
  {
    var u := ToUnsigned(w, v);
    ToMemory(bigEndian, w, if bigEndian then u else ByteSwap(w, u))
  }

  // ----- buffers -----

  datatype Buffer = Buffer(data: seq<Byte>, offset: nat)

  predicate ValidBuffer(b: Buffer) {
    b.offset <= |b.data|
  }

  function Skip(b: Buffer, n: nat): (Buffer, bool)
    requires ValidBuffer(b)
  {
    if n > |b.data| - b.offset then (b, false) else (b.(offset := b.offset + n), true)
  }

  /** Puts bytes at the offset if they fit. */
  function Put(b: Buffer, bs: seq<Byte>): (Buffer, bool)
    requires ValidBuffer(b)
  {
    if |bs| <= |b.data| - b.offset
    then (Buffer(b.data[..b.offset] + bs + b.data[b.offset + |bs|..], b.offset + |bs|), true)
    else (b, false)
  }

  /** Gets the next `n` bytes if there are as many. */
  function Get(b: Buffer, n: nat): (Buffer, Option<seq<Byte>>)
    requires ValidBuffer(b)
  {
    if n <= |b.data| - b.offset
    then (b.(offset := b.offset + n), Some(b.data[b.offset..b.offset + n]))
    else (b, None)
  }

  // ----- fields -----

  /** An integer of 1, 2, 4 or 8 bytes, or a run of bytes. */
  datatype Field = Number(width: nat, signed: bool, value: int) | Run(bytes: seq<Byte>)

  datatype Shape = NumberShape(width: nat, signed: bool) | RunShape(length: nat)

  predicate ValidField(f: Field) {
    f.Number? ==>
      && f.width in {1, 2, 4, 8}
      && if f.signed then 0 <= 2 * f.value + Pow256(f.width) < 2 * Pow256(f.width) else 0 <= f.value < Pow256(f.width)
  }

  function ShapeOf(f: Field): Shape {
    if f.Number? then NumberShape(f.width, f.signed) else RunShape(|f.bytes|)
  }

  function SizeOf(f: Field): nat {
    if f.Number? then f.width else |f.bytes|
  }

  function Write(bigEndian: bool, b: Buffer, f: Field): (Buffer, bool)
    requires ValidBuffer(b) && ValidField(f)
  {
    Put(b, if f.Number? then WriteBigEndian(bigEndian, f.width, f.value) else f.bytes)
  }

  function Read(bigEndian: bool, b: Buffer, shape: Shape): (Buffer, Option<Field>)
    requires ValidBuffer(b)
  {
    var (b', bs) := Get(b, if shape.NumberShape? then shape.width else shape.length);
    (b', if bs.None? then None
         else if shape.NumberShape?
         then Some(Number(shape.width, shape.signed, ReadBigEndian(bigEndian, bs.value, shape.signed)))
         else Some(Run(bs.value)))
  }

  function TotalSize(fs: seq<Field>): nat {
    if fs == [] then 0 else SizeOf(fs[0]) + TotalSize(fs[1..])
  }

  /** Writes the fields one after the other, those that fit. */
  function WriteAll(bigEndian: bool, b: Buffer, fs: seq<Field>): (Buffer, seq<bool>)
    requires ValidBuffer(b) && forall f :: f in fs ==> ValidField(f)
    decreases |fs|
  {
    if fs == [] then (b, [])
    else
      var (b1, ok) := Write(bigEndian, b, fs[0]);
      var (b2, oks) := WriteAll(bigEndian, b1, fs[1..]);
      (b2, [ok] + oks)
  }

  function ReadAll(bigEndian: bool, b: Buffer, shapes: seq<Shape>): (Buffer, seq<Option<Field>>)
    requires ValidBuffer(b)
    decreases |shapes|
  {
    if shapes == [] then (b, [])
    else
      var (b1, f) := Read(bigEndian, b, shapes[0]);
      var (b2, fs) := ReadAll(bigEndian, b1, shapes[1..]);
      (b2, [f] + fs)
  }

  // ----- cursors -----

  /** The offset, and for each open Cursor the offset it goes back to. */
  datatype Cursors = Cursors(offset: nat, origins: seq<nat>)

  /** Cursors are closed in the reverse order of their opening; any open one may be committed. */
  datatype CursorEvent = Open | Commit(level: nat) | Close | Move(to: nat)

  predicate CursorEnabled(s: Cursors, e: CursorEvent) {
    match e
    case Commit(level) => level < |s.origins|
    case Close => s.origins != []
    case _ => true
  }

  function CursorStep(s: Cursors, e: CursorEvent): Cursors
    requires CursorEnabled(s, e)
  {
    match e
    case Open => s.(origins := s.origins + [s.offset])
    case Commit(level) => s.(origins := s.origins[level := s.offset])
    case Close => Cursors(s.origins[|s.origins| - 1], s.origins[..|s.origins| - 1])
    case Move(to) => s.(offset := to)
  }

  ghost predicate IsCursorRun(ss: seq<Cursors>, es: seq<CursorEvent>) {
    |ss| == |es| + 1 && forall i :: 0 <= i < |es| ==> CursorEnabled(ss[i], es[i]) && ss[i + 1] == CursorStep(ss[i], es[i])
  }
}
