/** The packed field descriptors of nanopb: what the macros of pb.h pack into 1, 2, 4 or 8
    words is what load_descriptor_values takes out of them. */
module FieldInfo {

  /** `kind` is the type byte; a size offset is never negative in a descriptor that passes
      the static assertions of pb.h. */
  datatype Info = Info(tag: bv32, kind: bv32, dataOffset: bv32, dataSize: bv32, sizeOffset: bv32, arraySize: bv32)

  predicate Fits1(f: Info) {
    f.tag < 0x40 && f.kind < 0x100 && f.dataOffset < 0x100 && f.sizeOffset < 0x10 && f.dataSize < 0x10
      && f.arraySize == 1
  }

  predicate Fits2(f: Info) {
    f.tag < 0x400 && f.kind < 0x100 && f.dataOffset < 0x1_0000 && f.sizeOffset < 0x10 && f.dataSize < 0x1000
      && f.arraySize < 0x1000
  }

  predicate Fits4(f: Info) {
    f.tag < 0x1_0000 && f.kind < 0x100 && f.dataOffset < 0x1_0000 && f.sizeOffset < 0x80 && f.dataSize < 0x1_0000
      && f.arraySize < 0x1_0000
  }

  function Pack1(f: Info): (w: seq<bv32>) {
    [((f.tag << 2) & 0xFF) | (f.kind << 8) | ((f.dataOffset & 0xFF) << 16)
     | ((f.sizeOffset & 0x0F) << 24) | ((f.dataSize & 0x0F) << 28)]
  }

  function Pack2(f: Info): (w: seq<bv32>) {
    [1 | ((f.tag << 2) & 0xFF) | (f.kind << 8) | ((f.arraySize & 0xFFF) << 16) | ((f.sizeOffset & 0x0F) << 28),
     (f.dataOffset & 0xFFFF) | ((f.dataSize & 0xFFF) << 16) | ((f.tag & 0x3C0) << 22)]
  }

  function Pack4(f: Info): (w: seq<bv32>) {
    [2 | ((f.tag << 2) & 0xFF) | (f.kind << 8) | ((f.arraySize & 0xFFFF) << 16),
     f.sizeOffset | ((f.tag << 2) & 0xFFFF_FF00),
     f.dataOffset, f.dataSize]
  }

  function Pack8(f: Info): (w: seq<bv32>) {
    [3 | ((f.tag << 2) & 0xFF) | (f.kind << 8), f.sizeOffset | ((f.tag << 2) & 0xFFFF_FF00), f.dataOffset, f.dataSize,
     f.arraySize, 0, 0, 0]
  }

  /** How many words a descriptor has, as advance_iterator reads it from the first one. */
  function Width(word0: bv32): (n: nat) {
    if word0 & 3 == 0 then 1 else if word0 & 3 == 1 then 2 else if word0 & 3 == 2 then 4 else 8
  }

  /** load_descriptor_values. */
  function Load(w: seq<bv32>): (f: Info)
    requires |w| > 0 && |w| >= Width(w[0])
  {
    var kind := (w[0] >> 8) & 0xFF;
    if w[0] & 3 == 0 then
      Info((w[0] >> 2) & 0x3F, kind, (w[0] >> 16) & 0xFF, (w[0] >> 28) & 0x0F, (w[0] >> 24) & 0x0F, 1)
    else if w[0] & 3 == 1 then
      Info(((w[0] >> 2) & 0x3F) | ((w[1] >> 28) << 6), kind, w[1] & 0xFFFF, (w[1] >> 16) & 0x0FFF, (w[0] >> 28) & 0x0F,
           (w[0] >> 16) & 0x0FFF)
    else if w[0] & 3 == 2 then
      Info(((w[0] >> 2) & 0x3F) | ((w[1] >> 8) << 6), kind, w[2], w[3], w[1] & 0xFF, w[0] >> 16)
    else
      Info(((w[0] >> 2) & 0x3F) | ((w[1] >> 8) << 6), kind, w[2], w[3], w[1] & 0xFF, w[4])
  }

  /** Bit fields next to each other in a word do not disturb each other. */
  lemma FirstWord(format: bv32, tag: bv32, kind: bv32, upper: bv32)
    requires format < 4 && kind < 0x100 && upper & 0xFFFF == 0
    ensures var w := format | ((tag << 2) & 0xFF) | (kind << 8) | upper;
      w & 3 == format && (w >> 2) & 0x3F == tag & 0x3F && (w >> 8) & 0xFF == kind && w >> 16 == upper >> 16
  {
  }

  lemma Load1(f: Info)
    requires Fits1(f)
    ensures Width(Pack1(f)[0]) == |Pack1(f)| && Load(Pack1(f)) == f
  {
    var upper := ((f.dataOffset & 0xFF) << 16) | ((f.sizeOffset & 0x0F) << 24) | ((f.dataSize & 0x0F) << 28);
    FirstWord(0, f.tag, f.kind, upper);
  }

  lemma Load2(f: Info)
    requires Fits2(f)
    ensures Width(Pack2(f)[0]) == |Pack2(f)| && Load(Pack2(f)) == f
  {
    FirstWord(1, f.tag, f.kind, ((f.arraySize & 0xFFF) << 16) | ((f.sizeOffset & 0x0F) << 28));
  }

  lemma Load4(f: Info)
    requires Fits4(f)
    ensures Width(Pack4(f)[0]) == |Pack4(f)| && Load(Pack4(f)) == f
  {
    FirstWord(2, f.tag, f.kind, (f.arraySize & 0xFFFF) << 16);
  }

  lemma Load8(f: Info)
    requires Fits4(f)
    ensures Width(Pack8(f)[0]) == |Pack8(f)| && Load(Pack8(f)) == f
  {
    FirstWord(3, f.tag, f.kind, 0);
  }
}
