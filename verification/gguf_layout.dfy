/**
 What the bytes of a GGUF header stand for: headers written by the layout of ggml's GGUF
 specification, section "File Structure", and the parse of every such header
 (parse_gguf_header in clozn/cli/fit_planner.py).
 */
module GgufLayout {
  import opened Common
  import opened Gguf

  // -------------------------------------------------------------------- numbers

  /** The number in little-endian bytes: the sum of bytes[i] * 256^i. */
  function Weighted(bytes: Bytes, upTo: nat): nat
    requires upTo <= |bytes|
  {
    if upTo == 0 then 0 else Weighted(bytes, upTo - 1) + bytes[upTo - 1] * Power256(upTo - 1)
  }

  lemma {:induction false} WeightedShift(bytes: Bytes, upTo: nat)
    requires bytes != [] && upTo < |bytes|
    ensures Weighted(bytes, upTo + 1) == bytes[0] + 256 * Weighted(bytes[1..], upTo)
  {
    if upTo > 0 {
      WeightedShift(bytes, upTo - 1);
      Distributes(256, Weighted(bytes[1..], upTo - 1), bytes[upTo], Power256(upTo - 1));
    } else {
      assert Weighted(bytes, 1) == Weighted(bytes, 0) + bytes[0] * Power256(0);
    }
  }

  lemma Distributes(a: nat, b: nat, c: nat, d: nat)
    ensures a * (b + c * d) == a * b + c * (a * d)
  {
  }

  /** What the parser reads is that number. */
  lemma {:induction false} UnsignedIsWeighted(bytes: Bytes)
    ensures Unsigned(bytes) == Weighted(bytes, |bytes|)
  {
    if bytes != [] {
      UnsignedIsWeighted(bytes[1..]);
      WeightedShift(bytes, |bytes| - 1);
    }
  }

  /** The bytes of a number, the lowest first. */
  function LittleEndian(n: nat, size: nat): (bytes: Bytes)
    ensures |bytes| == size
  {
    if size == 0 then [] else [n % 256] + LittleEndian(n / 256, size - 1)
  }

  lemma {:induction false} WrittenNumber(n: nat, size: nat)
    requires n < Power256(size)
    ensures Unsigned(LittleEndian(n, size)) == n == Weighted(LittleEndian(n, size), size)
  {
    var bytes := LittleEndian(n, size);
    UnsignedIsWeighted(bytes);
    if size > 0 {
      assert n / 256 < Power256(size - 1);
      WrittenNumber(n / 256, size - 1);
      assert bytes[1..] == LittleEndian(n / 256, size - 1);
    }
  }

  lemma {:induction false} UnsignedBound(bytes: Bytes)
    ensures Unsigned(bytes) < Power256(|bytes|)
    ensures LittleEndian(Unsigned(bytes), |bytes|) == bytes
  {
    if bytes != [] {
      UnsignedBound(bytes[1..]);
    }
  }

  // --------------------------------------------------------------------- values

  /** The value types, each with its tag. */
  datatype Kind = U8 | I8 | U16 | I16 | U32 | I32 | F32 | Truth | Text | List | U64 | I64 | F64

  function TagOf(kind: Kind): nat {
    match kind
    case U8 => 0 case I8 => 1 case U16 => 2 case I16 => 3 case U32 => 4 case I32 => 5 case F32 => 6
    case Truth => 7 case Text => 8 case List => 9 case U64 => 10 case I64 => 11 case F64 => 12
  }

  /** A value with the type that it is written in; floats are given by their bits, and any byte but 0 is true. */
  datatype Typed =
    | Number(kind: Kind, n: int)
    | Boolean(code: byte)
    | String(text: Bytes)
    | Elements(tag: nat, items: seq<Typed>)

  function TypeTag(v: Typed): nat {
    match v
    case Number(kind, _) => TagOf(kind)
    case Boolean(_) => TagOf(Truth)
    case String(_) => TagOf(Text)
    case Elements(_, _) => TagOf(List)
  }

  function SizeOf(kind: Kind): nat {
    match kind
    case U8 => 1 case I8 => 1 case U16 => 2 case I16 => 2
    case U32 => 4 case I32 => 4 case F32 => 4 case U64 => 8 case I64 => 8 case F64 => 8
    case _ => 0
  }

  predicate InRange(kind: Kind, n: int) {
    match kind
    case U8 => 0 <= n < 0x100
    case I8 => -0x80 <= n < 0x80
    case U16 => 0 <= n < 0x1_0000
    case I16 => -0x8000 <= n < 0x8000
    case U32 => 0 <= n < 0x1_0000_0000
    case I32 => -0x8000_0000 <= n < 0x8000_0000
    case F32 => 0 <= n < 0x1_0000_0000
    case U64 => 0 <= n < 0x1_0000_0000_0000_0000
    case I64 => -0x8000_0000_0000_0000 <= n < 0x8000_0000_0000_0000
    case F64 => 0 <= n < 0x1_0000_0000_0000_0000
    case _ => false
  }

  predicate Fits32(n: nat) {
    n < 0x1_0000_0000
  }

  predicate Fits64(n: nat) {
    n < 0x1_0000_0000_0000_0000
  }

  /** Every number fits its field, and the elements of an array have the type it names. */
  predicate Writable(v: Typed) {
    match v
    case Number(kind, n) => InRange(kind, n)
    case Boolean(_) => true
    case String(text) => Fits64(|text|)
    case Elements(tag, items) =>
      Fits32(tag) && Fits64(|items|)
      && forall k :: 0 <= k < |items| ==> Writable(items[k]) && TypeTag(items[k]) == tag
  }

  /** The value that a reader should get. */
  function Meant(v: Typed): Value {
    match v
    case Number(F32, n) => Float(4, if n >= 0 then n else 0)
    case Number(F64, n) => Float(8, if n >= 0 then n else 0)
    case Number(_, n) => Int(n)
    case Boolean(code) => Bool(code != 0)
    case String(text) => Str(text)
    case Elements(_, items) => Array(seq(|items|, k requires 0 <= k < |items| => Meant(items[k])))
  }

  // --------------------------------------------------------------------- writing

  /** Two's complement for negative numbers. */
  function NumberBytes(n: int, size: nat): (bytes: Bytes)
    ensures |bytes| == size
  {
    LittleEndian(if n >= 0 then n else Max(0, n + Power256(size)), size)
  }

  function StrBytes(text: Bytes): Bytes {
    LittleEndian(|text|, 8) + text
  }

  function Written(v: Typed): Bytes
    decreases v, 0
  {
    match v
    case Number(kind, n) => NumberBytes(n, SizeOf(kind))
    case Boolean(code) => [code]
    case String(text) => StrBytes(text)
    case Elements(tag, items) => LittleEndian(tag, 4) + LittleEndian(|items|, 8) + WrittenItems(v, |items|)
  }

  /** The first n elements, one after the other. */
  function WrittenItems(v: Typed, n: nat): Bytes
    requires v.Elements? && n <= |v.items|
    decreases v, 0, n
  {
    if n == 0 then [] else WrittenItems(v, n - 1) + Written(v.items[n - 1])
  }

  // ------------------------------------------------------------ reading what was written

  lemma Powers()
    ensures Power256(1) == 0x100 && Power256(2) == 0x1_0000 && Power256(4) == 0x1_0000_0000
    ensures Power256(8) == 0x1_0000_0000_0000_0000
  {
    assert Power256(4) == 256 * Power256(3) == 0x1_0000 * Power256(2);
    assert Power256(8) == 256 * Power256(7) == 0x1_0000 * Power256(6);
    assert Power256(6) == 256 * Power256(5) == 0x1_0000 * Power256(4);
  }

  lemma TakeWritten(data: Bytes, pos: nat, word: Bytes)
    requires At(data, pos, word)
    ensures TakeBytes(data, pos, |word|) == Done(word, pos + |word|)
  {
  }

  lemma UnsignedRead(data: Bytes, pos: nat, n: nat, size: nat)
    requires At(data, pos, LittleEndian(n, size)) && n < Power256(size)
    ensures ReadUnsigned(data, pos, size) == Done(n, pos + size)
  {
    TakeWritten(data, pos, LittleEndian(n, size));
    WrittenNumber(n, size);
  }

  lemma StrRead(data: Bytes, pos: nat, text: Bytes)
    requires At(data, pos, StrBytes(text)) && Fits64(|text|)
    ensures ReadStr(data, pos) == Done(text, pos + |StrBytes(text)|)
  {
    Powers();
    AtSplit(data, pos, LittleEndian(|text|, 8), text);
    UnsignedRead(data, pos, |text|, 8);
    TakeWritten(data, pos + 8, text);
  }

  lemma NumberRead(kind: Kind, n: int)
    requires InRange(kind, n)
    ensures var size := SizeOf(kind);
      && Width(TagOf(kind)) == size > 0
      && Scalar(TagOf(kind), NumberBytes(n, size)) == Meant(Number(kind, n))
  {
    Powers();
    var size := SizeOf(kind);
    var u := if n >= 0 then n else n + Power256(size);
    assert 0 <= u < Power256(size);
    WrittenNumber(u, size);
  }

  lemma {:induction false} ValueRead(data: Bytes, pos: nat, v: Typed)
    requires Writable(v) && At(data, pos, Written(v))
    ensures ReadValue(data, pos, TypeTag(v)) == Done(Meant(v), pos + |Written(v)|)
    decreases v, 1
  {
    match v
    case Number(kind, n) =>
      hide Scalar, Width, Unsigned;
      NumberRead(kind, n);
      TakeWritten(data, pos, Written(v));
    case Boolean(code) =>
      TakeWritten(data, pos, [code]);
      assert Unsigned([code]) == code + 256 * Unsigned([]);
    case String(text) => StrRead(data, pos, text);
    case Elements(_, _) => ElementsRead(data, pos, v);
  }

  lemma {:induction false} ElementsRead(data: Bytes, pos: nat, v: Typed)
    requires v.Elements? && Writable(v) && At(data, pos, Written(v))
    ensures ReadArray(data, pos) == Done(Meant(v), pos + |Written(v)|)
    decreases v, 0
  {
    var items, n := WrittenItems(v, |v.items|), |v.items|;
    Powers();
    AtSplit(data, pos, LittleEndian(v.tag, 4) + LittleEndian(n, 8), items);
    AtSplit(data, pos, LittleEndian(v.tag, 4), LittleEndian(n, 8));
    UnsignedRead(data, pos, v.tag, 4);
    UnsignedRead(data, pos + 4, n, 8);
    ItemsRead(data, pos + 12, v, n);
    assert MeantItems(v, n) == Meant(v).elements;
  }

  function MeantItems(v: Typed, n: nat): seq<Value>
    requires v.Elements? && n <= |v.items|
  {
    seq(n, k requires 0 <= k < n => Meant(v.items[k]))
  }

  /** After n elements the loop over all of them has those n and the rest to go. */
  lemma {:induction false} ItemsRead(data: Bytes, start: nat, v: Typed, n: nat)
    requires v.Elements? && Writable(v) && n <= |v.items| && At(data, start, WrittenItems(v, n))
    ensures ReadValues(data, start, v.tag, |v.items|, [])
         == ReadValues(data, start + |WrittenItems(v, n)|, v.tag, |v.items| - n, MeantItems(v, n))
    decreases v, 0, n
  {
    hide ReadValue;
    if n == 0 {
      assert MeantItems(v, 0) == [];
    } else {
      var before, item := WrittenItems(v, n - 1), v.items[n - 1];
      AtSplit(data, start, before, Written(item));
      ItemsRead(data, start, v, n - 1);
      ValueRead(data, start + |before|, item);
      assert MeantItems(v, n) == MeantItems(v, n - 1) + [Meant(item)];
    }
  }

  // ------------------------------------------------------------------ whole headers

  datatype Layout = Layout(version: nat, pairs: seq<(Bytes, Typed)>, tensors: seq<Tensor>)

  predicate TensorWritable(t: Tensor) {
    && Fits64(|t.name|) && Fits32(|t.shape|) && Fits32(t.ggmlType) && Fits64(t.offset)
    && forall k :: 0 <= k < |t.shape| ==> Fits64(t.shape[k])
  }

  predicate PairWritable(pair: (Bytes, Typed)) {
    Fits64(|pair.0|) && Writable(pair.1)
  }

  predicate LayoutWritable(h: Layout) {
    && Fits32(h.version) && Fits64(|h.pairs|) && Fits64(|h.tensors|)
    && (forall k :: 0 <= k < |h.pairs| ==> PairWritable(h.pairs[k]))
    && forall k :: 0 <= k < |h.tensors| ==> TensorWritable(h.tensors[k])
  }

  function PairBytes(pair: (Bytes, Typed)): Bytes {
    StrBytes(pair.0) + (LittleEndian(TypeTag(pair.1), 4) + Written(pair.1))
  }

  function DimBytes(dim: nat): Bytes {
    LittleEndian(dim, 8)
  }

  function TensorTail(t: Tensor): Bytes {
    Many(DimBytes, t.shape) + (LittleEndian(t.ggmlType, 4) + LittleEndian(t.offset, 8))
  }

  function TensorBytes(t: Tensor): Bytes {
    StrBytes(t.name) + (LittleEndian(|t.shape|, 4) + TensorTail(t))
  }

  /** Things of one kind, one after the other. */
  function Many<T>(write: T -> Bytes, items: seq<T>): Bytes {
    if items == [] then [] else Many(write, items[..|items| - 1]) + write(items[|items| - 1])
  }

  function CountBytes(h: Layout): Bytes {
    LittleEndian(h.version, 4) + (LittleEndian(|h.tensors|, 8) + LittleEndian(|h.pairs|, 8))
  }

  function HeaderBytes(h: Layout): Bytes {
    MAGIC + (CountBytes(h) + (Many(PairBytes, h.pairs) + Many(TensorBytes, h.tensors)))
  }

  function MeantPairs(pairs: seq<(Bytes, Typed)>): seq<(Bytes, Value)> {
    seq(|pairs|, k requires 0 <= k < |pairs| => (pairs[k].0, Meant(pairs[k].1)))
  }

  function MeantHeader(h: Layout): Header {
    Header(h.version, |h.tensors|, |h.pairs|, Dictionary(MeantPairs(h.pairs)), h.tensors, |HeaderBytes(h)|)
  }

  lemma {:induction false} ManyRead<S, T(!new)>(read: nat -> Parse<T>, write: S -> Bytes, meant: seq<T>,
                                               data: Bytes, start: nat, items: seq<S>, n: nat)
    requires n <= |items| == |meant| && At(data, start, Many(write, items[..n]))
    requires forall k, pos :: 0 <= k < |items| && At(data, pos, write(items[k])) ==>
      ReadsItem(read, pos, |write(items[k])|, meant[k])
    ensures ReadMany(read, start, |items|, [])
         == ReadMany(read, start + |Many(write, items[..n])|, |items| - n, meant[..n])
    decreases n
  {
    if n > 0 {
      var before, item := Many(write, items[..n - 1]), items[n - 1];
      assert items[..n][..n - 1] == items[..n - 1];
      AtSplit(data, start, before, write(item));
      ManyRead(read, write, meant, data, start, items, n - 1);
      assert ReadsItem(read, start + |before|, |write(item)|, meant[n - 1]);
      assert meant[..n] == meant[..n - 1] + [meant[n - 1]];
    }
  }

  predicate ReadsItem<T(==)>(read: nat -> Parse<T>, pos: nat, size: nat, item: T) {
    read(pos) == Done(item, pos + size)
  }

  lemma PairRead(data: Bytes, pos: nat, pair: (Bytes, Typed))
    requires PairWritable(pair) && At(data, pos, PairBytes(pair))
    ensures ReadPair(data, pos) == Done((pair.0, Meant(pair.1)), pos + |PairBytes(pair)|)
  {
    hide ReadValue, ReadStr, Written, Meant, Writable;
    var tag := TypeTag(pair.1);
    Powers();
    TagsFit(pair.1);
    AtSplit(data, pos, StrBytes(pair.0), LittleEndian(tag, 4) + Written(pair.1));
    StrRead(data, pos, pair.0);
    var p := pos + |StrBytes(pair.0)|;
    AtSplit(data, p, LittleEndian(tag, 4), Written(pair.1));
    UnsignedRead(data, p, tag, 4);
    ValueRead(data, p + 4, pair.1);
  }

  lemma TagsFit(v: Typed)
    ensures TypeTag(v) < 13
  {
  }

  lemma DimsRead(data: Bytes, pos: nat, shape: seq<nat>)
    requires At(data, pos, Many(DimBytes, shape)) && forall k :: 0 <= k < |shape| ==> Fits64(shape[k])
    ensures ReadMany(ReadDim(data), pos, |shape|, []) == Done(shape, pos + |Many(DimBytes, shape)|)
  {
    Powers();
    forall k, p | 0 <= k < |shape| && At(data, p, DimBytes(shape[k]))
      ensures ReadsItem(ReadDim(data), p, |DimBytes(shape[k])|, shape[k])
    {
      assert Fits64(shape[k]);
      UnsignedRead(data, p, shape[k], 8);
    }
    assert shape[..|shape|] == shape;
    ManyRead(ReadDim(data), DimBytes, shape, data, pos, shape, |shape|);
  }

  lemma TensorTailRead(data: Bytes, pos: nat, t: Tensor)
    requires TensorWritable(t) && At(data, pos, TensorTail(t))
    ensures ReadTensorBody(data, pos, |t.shape|) == Done((t.shape, t.ggmlType, t.offset), pos + |TensorTail(t)|)
  {
    hide Many, ReadMany, At;
    Powers();
    var tail := LittleEndian(t.ggmlType, 4) + LittleEndian(t.offset, 8);
    var dims := Many(DimBytes, t.shape);
    AtSplit(data, pos, dims, tail);
    DimsRead(data, pos, t.shape);
    var q := pos + |dims|;
    AtSplit(data, q, LittleEndian(t.ggmlType, 4), LittleEndian(t.offset, 8));
    UnsignedRead(data, q, t.ggmlType, 4);
    UnsignedRead(data, q + 4, t.offset, 8);
  }

  lemma TensorRead(data: Bytes, pos: nat, t: Tensor)
    requires TensorWritable(t) && At(data, pos, TensorBytes(t))
    ensures ReadTensor(data, pos) == Done(t, pos + |TensorBytes(t)|)
  {
    hide ReadStr, ReadTensorBody, TensorTail, StrBytes, At;
    Powers();
    AtSplit(data, pos, StrBytes(t.name), LittleEndian(|t.shape|, 4) + TensorTail(t));
    StrRead(data, pos, t.name);
    var p := pos + |StrBytes(t.name)|;
    AtSplit(data, p, LittleEndian(|t.shape|, 4), TensorTail(t));
    UnsignedRead(data, p, |t.shape|, 4);
    TensorTailRead(data, p + 4, t);
  }

  lemma PairsRead(data: Bytes, pos: nat, pairs: seq<(Bytes, Typed)>)
    requires At(data, pos, Many(PairBytes, pairs)) && forall k :: 0 <= k < |pairs| ==> PairWritable(pairs[k])
    ensures ReadMany(PairReader(data), pos, |pairs|, []) == Done(MeantPairs(pairs), pos + |Many(PairBytes, pairs)|)
  {
    hide PairBytes, PairWritable, Meant, ReadPair;
    forall k, p | 0 <= k < |pairs| && At(data, p, PairBytes(pairs[k]))
      ensures ReadsItem(PairReader(data), p, |PairBytes(pairs[k])|, MeantPairs(pairs)[k])
    {
      PairRead(data, p, pairs[k]);
    }
    assert pairs[..|pairs|] == pairs && MeantPairs(pairs)[..|pairs|] == MeantPairs(pairs);
    ManyRead(PairReader(data), PairBytes, MeantPairs(pairs), data, pos, pairs, |pairs|);
  }

  lemma TensorsRead(data: Bytes, pos: nat, tensors: seq<Tensor>)
    requires At(data, pos, Many(TensorBytes, tensors)) && forall k :: 0 <= k < |tensors| ==> TensorWritable(tensors[k])
    ensures ReadMany(TensorReader(data), pos, |tensors|, []) == Done(tensors, pos + |Many(TensorBytes, tensors)|)
  {
    hide TensorBytes, TensorWritable, ReadTensor;
    forall k, p | 0 <= k < |tensors| && At(data, p, TensorBytes(tensors[k]))
      ensures ReadsItem(TensorReader(data), p, |TensorBytes(tensors[k])|, tensors[k])
    {
      TensorRead(data, p, tensors[k]);
    }
    assert tensors[..|tensors|] == tensors;
    ManyRead(TensorReader(data), TensorBytes, tensors, data, pos, tensors, |tensors|);
  }

  lemma CountsRead(data: Bytes, pos: nat, h: Layout)
    requires At(data, pos, CountBytes(h)) && Fits32(h.version) && Fits64(|h.pairs|) && Fits64(|h.tensors|)
    ensures ReadCounts(data, pos) == Done((h.version, |h.tensors|, |h.pairs|), pos + 20)
  {
    Powers();
    AtSplit(data, pos, LittleEndian(h.version, 4), LittleEndian(|h.tensors|, 8) + LittleEndian(|h.pairs|, 8));
    AtSplit(data, pos + 4, LittleEndian(|h.tensors|, 8), LittleEndian(|h.pairs|, 8));
    UnsignedRead(data, pos, h.version, 4);
    UnsignedRead(data, pos + 4, |h.tensors|, 8);
    UnsignedRead(data, pos + 12, |h.pairs|, 8);
  }

  /** Every header that is written by the layout, whatever follows it, is read as it is meant. */
  lemma WrittenHeaderReads(h: Layout, rest: Bytes)
    requires LayoutWritable(h)
    ensures ParseHeader(HeaderBytes(h) + rest) == Done(MeantHeader(h), |HeaderBytes(h)|)
  {
    hide ReadCounts, ReadMany, CountBytes, Many, Dictionary, PairWritable, TensorWritable;
    var data := HeaderBytes(h) + rest;
    var pairs, tensors := Many(PairBytes, h.pairs), Many(TensorBytes, h.tensors);
    assert data[..|HeaderBytes(h)|] == HeaderBytes(h);
    assert At(data, 0, HeaderBytes(h));
    AtSplit(data, 0, MAGIC, CountBytes(h) + (pairs + tensors));
    AtSplit(data, 4, CountBytes(h), pairs + tensors);
    CountsRead(data, 4, h);
    CountSize(h);
    AtSplit(data, 24, pairs, tensors);
    PairsRead(data, 24, h.pairs);
    TensorsRead(data, 24 + |pairs|, h.tensors);
  }

  lemma CountSize(h: Layout)
    ensures |CountBytes(h)| == 20
  {
  }

  /** In the dictionary a key has the last of its values. */
  lemma {:induction false} DictionaryHasLast(pairs: seq<(Bytes, Value)>, k: nat)
    requires k < |pairs| && forall j :: k < j < |pairs| ==> pairs[j].0 != pairs[k].0
    ensures pairs[k].0 in Dictionary(pairs) && Dictionary(pairs)[pairs[k].0] == pairs[k].1
    ensures forall key :: key in Dictionary(pairs) ==> exists j :: 0 <= j < |pairs| && pairs[j].0 == key
  {
    DictionaryKeys(pairs);
    if k < |pairs| - 1 {
      DictionaryHasLast(pairs[..|pairs| - 1], k);
      assert pairs[|pairs| - 1].0 != pairs[k].0;
    }
  }

  lemma {:induction false} DictionaryKeys(pairs: seq<(Bytes, Value)>)
    ensures forall key :: key in Dictionary(pairs) ==> exists j :: 0 <= j < |pairs| && pairs[j].0 == key
  {
    if pairs != [] {
      var init := pairs[..|pairs| - 1];
      DictionaryKeys(init);
      forall key | key in Dictionary(pairs) ensures exists j :: 0 <= j < |pairs| && pairs[j].0 == key {
        if key in Dictionary(init) {
          var j :| 0 <= j < |init| && init[j].0 == key;
          assert pairs[j].0 == key;
        } else {
          assert pairs[|init|].0 == key;
        }
      }
    }
  }

  // ------------------------------------------------------------ nothing else is read

  lemma UnsignedWritten(data: Bytes, pos: nat, size: nat)
    requires ReadUnsigned(data, pos, size).Done?
    ensures var r := ReadUnsigned(data, pos, size);
      r.value < Power256(size) && At(data, pos, LittleEndian(r.value, size)) && r.pos == pos + size
  {
    UnsignedBound(data[pos..pos + size]);
  }

  lemma AtJoin(s: Bytes, i: nat, a: Bytes, b: Bytes)
    requires At(s, i, a) && At(s, i + |a|, b)
    ensures At(s, i, a + b)
  {
    assert s[i..i + |a + b|] == s[i..i + |a|] + s[i + |a|..i + |a| + |b|];
  }

  lemma StrWritten(data: Bytes, pos: nat)
    requires ReadStr(data, pos).Done?
    ensures var r := ReadStr(data, pos);
      Fits64(|r.value|) && At(data, pos, StrBytes(r.value)) && r.pos == pos + |StrBytes(r.value)|
  {
    Powers();
    UnsignedWritten(data, pos, 8);
    var text := ReadStr(data, pos).value;
    AtJoin(data, pos, LittleEndian(|text|, 8), text);
  }

  function KindOfTag(tag: nat): Kind {
    match tag
    case 0 => U8 case 1 => I8 case 2 => U16 case 3 => I16 case 4 => U32 case 5 => I32
    case 6 => F32 case 10 => U64 case 11 => I64 case _ => F64
  }

  lemma NumberWritten(tag: nat, bytes: Bytes) returns (n: int)
    requires Width(tag) > 0 && tag != TagOf(Truth) && |bytes| == Width(tag)
    ensures var kind := KindOfTag(tag);
      && TagOf(kind) == tag && SizeOf(kind) == |bytes| && InRange(kind, n)
      && NumberBytes(n, |bytes|) == bytes && Scalar(tag, bytes) == Meant(Number(kind, n))
  {
    Powers();
    UnsignedBound(bytes);
    n := if tag in {1, 3, 5, 11} then Signed(bytes) else Unsigned(bytes);
  }

  lemma BooleanWritten(bytes: Bytes)
    requires |bytes| == 1
    ensures Scalar(TagOf(Truth), bytes) == Meant(Boolean(bytes[0])) && bytes == [bytes[0]]
  {
    assert Unsigned(bytes[1..]) == 0;
  }

  /** Whatever is read as a value is a written value. */
  lemma {:induction false} ValueWritten(data: Bytes, pos: nat, tag: nat) returns (v: Typed)
    requires ReadValue(data, pos, tag).Done?
    ensures Writable(v) && TypeTag(v) == tag && At(data, pos, Written(v))
    ensures ReadValue(data, pos, tag) == Done(Meant(v), pos + |Written(v)|)
    decreases |data| - pos, 1
  {
    if Width(tag) > 0 {
      hide Scalar, Width, Unsigned;
      var bytes := data[pos..pos + Width(tag)];
      if tag == TagOf(Truth) {
        TruthWidth();
        BooleanWritten(bytes);
        v := Boolean(bytes[0]);
      } else {
        var n := NumberWritten(tag, bytes);
        v := Number(KindOfTag(tag), n);
      }
    } else if tag == T_STRING {
      StrWritten(data, pos);
      v := String(ReadStr(data, pos).value);
    } else {
      v := ElementsWritten(data, pos);
    }
  }

  lemma TruthWidth()
    ensures Width(TagOf(Truth)) == 1
  {
  }

  lemma {:induction false} ElementsWritten(data: Bytes, pos: nat) returns (v: Typed)
    requires ReadArray(data, pos).Done?
    ensures v.Elements? && Writable(v) && At(data, pos, Written(v))
    ensures ReadArray(data, pos) == Done(Meant(v), pos + |Written(v)|)
    decreases |data| - pos, 0
  {
    hide ReadValues, Meant;
    Powers();
    UnsignedWritten(data, pos, 4);
    var tag := ReadUnsigned(data, pos, 4).value;
    UnsignedWritten(data, pos + 4, 8);
    var n := ReadUnsigned(data, pos + 4, 8).value;
    var items := ItemsWritten(data, pos + 12, tag, n, []);
    v := Elements(tag, items);
    AtJoin(data, pos, LittleEndian(tag, 4), LittleEndian(n, 8));
    AtJoin(data, pos, LittleEndian(tag, 4) + LittleEndian(n, 8), WrittenItems(v, n));
    ElementsMeant(v);
    assert [] + MeantItems(v, n) == MeantItems(v, n);
  }

  lemma ElementsMeant(v: Typed)
    requires v.Elements?
    ensures Meant(v) == Array(MeantItems(v, |v.items|))
  {
  }

  lemma {:induction false} ItemsWritten(data: Bytes, pos: nat, tag: nat, n: nat, acc: seq<Value>)
    returns (items: seq<Typed>)
    requires pos <= |data| && ReadValues(data, pos, tag, n, acc).Done?
    ensures |items| == n && forall k :: 0 <= k < n ==> Writable(items[k]) && TypeTag(items[k]) == tag
    ensures var v := Elements(tag, items);
      && At(data, pos, WrittenItems(v, n))
      && ReadValues(data, pos, tag, n, acc) == Done(acc + MeantItems(v, n), pos + |WrittenItems(v, n)|)
    decreases |data| - pos, 2
  {
    hide ReadValue, Meant, Writable, Written;
    items := [];
    if n == 0 {
      NoneAt(data, pos);
      assert acc + MeantItems(Elements(tag, []), 0) == acc;
    } else {
      var first := ValueWritten(data, pos, tag);
      var next := pos + |Written(first)|;
      var rest := ItemsWritten(data, next, tag, n - 1, acc + [Meant(first)]);
      items := [first] + rest;
      var v, w := Elements(tag, items), Elements(tag, rest);
      FrontItem(v, w, n);
      AtJoin(data, pos, Written(first), WrittenItems(w, n - 1));
      assert acc + [Meant(first)] + MeantItems(w, n - 1) == acc + MeantItems(v, n);
    }
  }

  /** Nothing is written at this place, which is no further than the data reach. */
  lemma NoneAt(data: Bytes, pos: nat)
    requires pos <= |data|
    ensures At(data, pos, [])
  {
  }

  lemma {:induction false} FrontItem(v: Typed, w: Typed, n: nat)
    requires v.Elements? && w.Elements? && v.items != [] && w.items == v.items[1..] && 0 < n <= |v.items|
    ensures WrittenItems(v, n) == Written(v.items[0]) + WrittenItems(w, n - 1)
    decreases n
  {
    hide Written;
    if n > 1 {
      FrontItem(v, w, n - 1);
      assert w.items[n - 2] == v.items[n - 1];
    } else {
      assert WrittenItems(v, 1) == WrittenItems(v, 0) + Written(v.items[0]);
    }
  }

  /** What is read at this place is a thing that was written there. */
  ghost predicate FromWritten<S(!new), T>(read: nat -> Parse<T>, write: S -> Bytes, meant: S -> T, good: S -> bool,
                                          data: Bytes, pos: nat)
  {
    read(pos).Done? ==> exists s :: IsItem(read, write, meant, good, data, pos, s)
  }

  ghost predicate IsItem<S, T>(read: nat -> Parse<T>, write: S -> Bytes, meant: S -> T, good: S -> bool,
                               data: Bytes, pos: nat, s: S)
  {
    good(s) && At(data, pos, write(s)) && read(pos) == Done(meant(s), pos + |write(s)|)
  }

  function Meaning<S, T>(meant: S -> T, items: seq<S>): seq<T> {
    seq(|items|, k requires 0 <= k < |items| => meant(items[k]))
  }

  lemma {:induction false} ManyWritten<S(!new), T(!new)>(
      read: nat -> Parse<T>, write: S -> Bytes, meant: S -> T, good: S -> bool,
      data: Bytes, pos: nat, n: nat, acc: seq<T>) returns (items: seq<S>)
    requires pos <= |data| && ReadMany(read, pos, n, acc).Done?
    requires forall p: nat :: FromWritten(read, write, meant, good, data, p)
    ensures |items| == n && forall k :: 0 <= k < n ==> good(items[k])
    ensures At(data, pos, Many(write, items))
    ensures ReadMany(read, pos, n, acc) == Done(acc + Meaning(meant, items), pos + |Many(write, items)|)
    decreases n
  {
    items := [];
    if n == 0 {
      NoneAt(data, pos);
      assert acc + Meaning(meant, items) == acc;
    } else {
      assert FromWritten(read, write, meant, good, data, pos);
      var first :| IsItem(read, write, meant, good, data, pos, first);
      var next := pos + |write(first)|;
      var rest := ManyWritten(read, write, meant, good, data, next, n - 1, acc + [meant(first)]);
      items := [first] + rest;
      ManyFront(write, first, rest);
      AtJoin(data, pos, write(first), Many(write, rest));
      assert acc + [meant(first)] + Meaning(meant, rest) == acc + Meaning(meant, items);
    }
  }

  lemma {:induction false} ManyFront<S>(write: S -> Bytes, first: S, rest: seq<S>)
    ensures Many(write, [first] + rest) == write(first) + Many(write, rest)
  {
    var all := [first] + rest;
    if rest == [] {
      assert all[..0] == [] && Many(write, all) == Many(write, []) + write(first);
    } else {
      assert all[..|all| - 1] == [first] + rest[..|rest| - 1];
      ManyFront(write, first, rest[..|rest| - 1]);
    }
  }

  function MeantPair(pair: (Bytes, Typed)): (Bytes, Value) {
    (pair.0, Meant(pair.1))
  }

  lemma PairWritten(data: Bytes, pos: nat)
    ensures FromWritten(PairReader(data), PairBytes, MeantPair, PairWritable, data, pos)
  {
    hide ReadStr, ReadValue, Written, Meant, Writable, StrBytes;
    if PairReader(data)(pos).Done? {
      Powers();
      StrWritten(data, pos);
      var key := ReadStr(data, pos);
      UnsignedWritten(data, key.pos, 4);
      var tag := ReadUnsigned(data, key.pos, 4).value;
      var v := ValueWritten(data, key.pos + 4, tag);
      AtJoin(data, key.pos, LittleEndian(tag, 4), Written(v));
      AtJoin(data, pos, StrBytes(key.value), LittleEndian(tag, 4) + Written(v));
      assert IsItem(PairReader(data), PairBytes, MeantPair, PairWritable, data, pos, (key.value, v));
    }
  }

  function SameDim(dim: nat): nat {
    dim
  }

  lemma DimWritten(data: Bytes, pos: nat)
    ensures FromWritten(ReadDim(data), DimBytes, SameDim, Fits64, data, pos)
  {
    if ReadDim(data)(pos).Done? {
      Powers();
      UnsignedWritten(data, pos, 8);
      assert IsItem(ReadDim(data), DimBytes, SameDim, Fits64, data, pos, ReadDim(data)(pos).value);
    }
  }

  lemma DimsWritten(data: Bytes, pos: nat, n: nat)
    requires pos <= |data| && ReadMany(ReadDim(data), pos, n, []).Done?
    ensures var r := ReadMany(ReadDim(data), pos, n, []);
      && |r.value| == n && (forall k :: 0 <= k < n ==> Fits64(r.value[k]))
      && At(data, pos, Many(DimBytes, r.value)) && r.pos == pos + |Many(DimBytes, r.value)|
  {
    forall p: nat ensures FromWritten(ReadDim(data), DimBytes, SameDim, Fits64, data, p) {
      DimWritten(data, p);
    }
    var dims := ManyWritten(ReadDim(data), DimBytes, SameDim, Fits64, data, pos, n, []);
    assert [] + Meaning(SameDim, dims) == dims;
  }

  lemma TensorTailWritten(data: Bytes, pos: nat, n: nat, t: Tensor)
    requires pos <= |data| && ReadTensorBody(data, pos, n).Done?
    requires var r := ReadTensorBody(data, pos, n).value; t.shape == r.0 && t.ggmlType == r.1 && t.offset == r.2
    ensures |t.shape| == n && Fits32(t.ggmlType) && Fits64(t.offset)
    ensures forall k :: 0 <= k < n ==> Fits64(t.shape[k])
    ensures At(data, pos, TensorTail(t)) && ReadTensorBody(data, pos, n).pos == pos + |TensorTail(t)|
  {
    hide ReadMany, Many, At;
    Powers();
    DimsWritten(data, pos, n);
    var q := ReadMany(ReadDim(data), pos, n, []).pos;
    UnsignedWritten(data, q, 4);
    UnsignedWritten(data, q + 4, 8);
    AtJoin(data, q, LittleEndian(t.ggmlType, 4), LittleEndian(t.offset, 8));
    AtJoin(data, pos, Many(DimBytes, t.shape), LittleEndian(t.ggmlType, 4) + LittleEndian(t.offset, 8));
  }

  function SameTensor(t: Tensor): Tensor {
    t
  }

  lemma TensorWritten(data: Bytes, pos: nat)
    ensures FromWritten(TensorReader(data), TensorBytes, SameTensor, TensorWritable, data, pos)
  {
    hide ReadStr, ReadTensorBody, TensorTail, StrBytes, At;
    if TensorReader(data)(pos).Done? {
      Powers();
      StrWritten(data, pos);
      var t, p := ReadTensor(data, pos).value, ReadStr(data, pos).pos;
      UnsignedWritten(data, p, 4);
      var n := ReadUnsigned(data, p, 4).value;
      TensorTailWritten(data, p + 4, n, t);
      AtJoin(data, p, LittleEndian(n, 4), TensorTail(t));
      AtJoin(data, pos, StrBytes(t.name), LittleEndian(n, 4) + TensorTail(t));
      assert IsItem(TensorReader(data), TensorBytes, SameTensor, TensorWritable, data, pos, t);
    }
  }

  lemma PairsWritten(data: Bytes, pos: nat, n: nat) returns (pairs: seq<(Bytes, Typed)>)
    requires pos <= |data| && ReadMany(PairReader(data), pos, n, []).Done?
    ensures |pairs| == n && forall k :: 0 <= k < n ==> PairWritable(pairs[k])
    ensures At(data, pos, Many(PairBytes, pairs))
    ensures ReadMany(PairReader(data), pos, n, []) == Done(MeantPairs(pairs), pos + |Many(PairBytes, pairs)|)
  {
    hide PairBytes, PairWritable, Meant, ReadPair;
    forall p: nat ensures FromWritten(PairReader(data), PairBytes, MeantPair, PairWritable, data, p) {
      PairWritten(data, p);
    }
    pairs := ManyWritten(PairReader(data), PairBytes, MeantPair, PairWritable, data, pos, n, []);
    assert [] + Meaning(MeantPair, pairs) == MeantPairs(pairs);
  }

  lemma TensorsWritten(data: Bytes, pos: nat, n: nat) returns (tensors: seq<Tensor>)
    requires pos <= |data| && ReadMany(TensorReader(data), pos, n, []).Done?
    ensures |tensors| == n && forall k :: 0 <= k < n ==> TensorWritable(tensors[k])
    ensures At(data, pos, Many(TensorBytes, tensors))
    ensures ReadMany(TensorReader(data), pos, n, []) == Done(tensors, pos + |Many(TensorBytes, tensors)|)
  {
    hide TensorBytes, TensorWritable, ReadTensor;
    forall p: nat ensures FromWritten(TensorReader(data), TensorBytes, SameTensor, TensorWritable, data, p) {
      TensorWritten(data, p);
    }
    tensors := ManyWritten(TensorReader(data), TensorBytes, SameTensor, TensorWritable, data, pos, n, []);
    assert [] + Meaning(SameTensor, tensors) == tensors;
  }

  lemma CountsWritten(data: Bytes, h: Layout)
    requires |data| >= 4 && ReadCounts(data, 4).Done?
    requires ReadCounts(data, 4).value == (h.version, |h.tensors|, |h.pairs|)
    ensures Fits32(h.version) && Fits64(|h.pairs|) && Fits64(|h.tensors|)
    ensures At(data, 4, CountBytes(h)) && ReadCounts(data, 4).pos == 24
  {
    hide At;
    Powers();
    UnsignedWritten(data, 4, 4);
    UnsignedWritten(data, 8, 8);
    UnsignedWritten(data, 16, 8);
    AtJoin(data, 8, LittleEndian(|h.tensors|, 8), LittleEndian(|h.pairs|, 8));
    AtJoin(data, 4, LittleEndian(h.version, 4), LittleEndian(|h.tensors|, 8) + LittleEndian(|h.pairs|, 8));
  }

  /** Nothing else is read: bytes that parse begin with a written header. */
  lemma ParsedIsWritten(data: Bytes) returns (h: Layout)
    requires ParseHeader(data).Done?
    ensures LayoutWritable(h) && HeaderBytes(h) <= data
    ensures ParseHeader(data) == Done(MeantHeader(h), |HeaderBytes(h)|)
  {
    hide ReadMany, CountBytes, Many, PairWritable, TensorWritable, MeantPairs, Unsigned, Dictionary;
    var c := ReadCounts(data, 4);
    var pairs := PairsWritten(data, c.pos, c.value.2);
    var tensors := TensorsWritten(data, c.pos + |Many(PairBytes, pairs)|, c.value.1);
    h := Layout(c.value.0, pairs, tensors);
    CountsWritten(data, h);
    CountSize(h);
    AtJoin(data, 24, Many(PairBytes, pairs), Many(TensorBytes, tensors));
    AtJoin(data, 4, CountBytes(h), Many(PairBytes, pairs) + Many(TensorBytes, tensors));
    AtJoin(data, 0, MAGIC, CountBytes(h) + (Many(PairBytes, pairs) + Many(TensorBytes, tensors)));
    assert HeaderBytes(h) == data[0..|HeaderBytes(h)|] <= data;
  }

  ghost predicate StartsWithHeader(data: Bytes, h: Layout) {
    LayoutWritable(h) && HeaderBytes(h) <= data
  }

  /** Bytes parse if and only if they begin with a header of the layout. */
  lemma ParsesExactly(data: Bytes)
    ensures ParseHeader(data).Done? <==> exists h :: StartsWithHeader(data, h)
  {
    hide ParseHeader, LayoutWritable, HeaderBytes;
    if ParseHeader(data).Done? {
      var h := ParsedIsWritten(data);
      assert StartsWithHeader(data, h);
    }
    if h :| StartsWithHeader(data, h) {
      assert HeaderBytes(h) + data[|HeaderBytes(h)|..] == data;
      WrittenHeaderReads(h, data[|HeaderBytes(h)|..]);
    }
  }
}
