/**
 The GGUF header format as a parse of a byte string, and what a longer read can change
 (parse_gguf_header in clozn/cli/fit_planner.py).
 */
module Gguf {
  import opened Common

  type byte = n: int | 0 <= n < 256
  type Bytes = seq<byte>

  datatype Value =
    | Int(value: int)
    | Float(size: nat, bits: nat)
    | Bool(flag: bool)
    | Str(text: Bytes)
    | Array(elements: seq<Value>)

  datatype Tensor = Tensor(name: Bytes, shape: seq<nat>, ggmlType: nat, offset: nat)

  datatype Header = Header(version: nat, tensorCount: nat, kvCount: nat,
                           metadata: map<Bytes, Value>, tensors: seq<Tensor>, headerBytes: nat)

  datatype Error = NotGguf | UnknownType(vtype: nat)

  /** A value and the position after it; NeedMoreBytes with its lower bound; or a rejection. */
  datatype Parse<+T> = Done(value: T, pos: nat) | Need(atLeast: nat) | Reject(error: Error) {
    predicate IsFailure() {
      !Done?
    }

    function PropagateFailure<U>(): Parse<U>
      requires !Done?
    {
      if Need? then Need(atLeast) else Reject(error)
    }

    function Extract(): (T, nat)
      requires Done?
    {
      (value, pos)
    }
  }

  const MAGIC: Bytes := [0x47, 0x47, 0x55, 0x46]

  // ------------------------------------------------------------ single fields

  function TakeBytes(data: Bytes, pos: nat, size: nat): (r: Parse<Bytes>)
    ensures r.Done? ==> r.pos == pos + size <= |data|
    ensures r.Need? ==> |data| < r.atLeast
  {
    if pos + size > |data| then Need(pos + size) else Done(data[pos..pos + size], pos + size)
  }

  /** The little-endian unsigned number in the bytes. */
  function Unsigned(bytes: Bytes): nat {
    if bytes == [] then 0 else bytes[0] + 256 * Unsigned(bytes[1..])
  }

  function Power256(n: nat): nat {
    if n == 0 then 1 else 256 * Power256(n - 1)
  }

  function Signed(bytes: Bytes): int {
    var u := Unsigned(bytes);
    if 2 * u < Power256(|bytes|) then u else u - Power256(|bytes|)
  }

  function ReadUnsigned(data: Bytes, pos: nat, size: nat): (r: Parse<nat>)
    ensures r.Done? ==> r.pos == pos + size <= |data|
    ensures r.Need? ==> |data| < r.atLeast
  {
    var (bytes, next) :- TakeBytes(data, pos, size);
    Done(Unsigned(bytes), next)
  }

  function ReadStr(data: Bytes, pos: nat): (r: Parse<Bytes>)
    ensures r.Done? ==> pos + 8 <= r.pos <= |data|
    ensures r.Need? ==> |data| < r.atLeast
  {
    var (n, next) :- ReadUnsigned(data, pos, 8);
    TakeBytes(data, next, n)
  }

  /** The width of the fixed-size value types; 0 for strings, arrays and unknown types. */
  function Width(vtype: nat): nat {
    match vtype
    case 0 => 1 case 1 => 1 case 7 => 1
    case 2 => 2 case 3 => 2
    case 4 => 4 case 5 => 4 case 6 => 4
    case 10 => 8 case 11 => 8 case 12 => 8
    case _ => 0
  }

  function Scalar(vtype: nat, bytes: Bytes): Value {
    if vtype == 7 then Bool(Unsigned(bytes) != 0)
    else if vtype == 6 || vtype == 12 then Float(|bytes|, Unsigned(bytes))
    else if vtype in {1, 3, 5, 11} then Int(Signed(bytes))
    else Int(Unsigned(bytes))
  }

  const T_STRING := 8
  const T_ARRAY := 9

  // ---------------------------------------------------------- recursive values

  function ReadValue(data: Bytes, pos: nat, vtype: nat): (r: Parse<Value>)
    ensures r.Done? ==> pos < r.pos <= |data|
    ensures r.Need? ==> |data| < r.atLeast
    decreases |data| - pos, 1
  {
    if Width(vtype) > 0 then
      var (bytes, next) :- TakeBytes(data, pos, Width(vtype));
      Done(Scalar(vtype, bytes), next)
    else if vtype == T_STRING then
      var (text, next) :- ReadStr(data, pos);
      Done(Str(text), next)
    else if vtype == T_ARRAY then ReadArray(data, pos)
    else Reject(UnknownType(vtype))
  }

  function ReadArray(data: Bytes, pos: nat): (r: Parse<Value>)
    ensures r.Done? ==> pos < r.pos <= |data|
    ensures r.Need? ==> |data| < r.atLeast
    decreases |data| - pos, 0
  {
    var (elemType, p) :- ReadUnsigned(data, pos, 4);
    var (count, q) :- ReadUnsigned(data, p, 8);
    var (elements, next) :- ReadValues(data, q, elemType, count, []);
    Done(Array(elements), next)
  }

  function ReadValues(data: Bytes, pos: nat, vtype: nat, count: nat, acc: seq<Value>): (r: Parse<seq<Value>>)
    ensures r.Done? ==> pos <= r.pos && (r.pos <= |data| || r.pos == pos)
    ensures r.Need? ==> |data| < r.atLeast
    decreases |data| - pos, 2
  {
    if count == 0 then Done(acc, pos)
    else
      var (v, next) :- ReadValue(data, pos, vtype);
      ReadValues(data, next, vtype, count - 1, acc + [v])
  }

  // -------------------------------------------------------------- the sections

  /** count items, one after the other. */
  function ReadMany<T>(read: nat -> Parse<T>, pos: nat, count: nat, acc: seq<T>): (r: Parse<seq<T>>)
    decreases count
  {
    if count == 0 then Done(acc, pos)
    else
      var (item, next) :- read(pos);
      ReadMany(read, next, count - 1, acc + [item])
  }

  /** A reader that moves forward, and asks for more than it has when it asks for more. */
  ghost predicate Forward<T(!new)>(read: nat -> Parse<T>, have: nat) {
    forall pos :: ForwardAt(read, have, pos)
  }

  ghost predicate ForwardAt<T>(read: nat -> Parse<T>, have: nat, pos: nat) {
    && (read(pos).Done? ==> pos <= read(pos).pos)
    && (read(pos).Need? ==> have < read(pos).atLeast)
  }

  lemma {:induction false} ManyForward<T(!new)>(read: nat -> Parse<T>, have: nat, pos: nat, count: nat, acc: seq<T>)
    requires Forward(read, have)
    ensures ReadMany(read, pos, count, acc).Done? ==> pos <= ReadMany(read, pos, count, acc).pos
    ensures ReadMany(read, pos, count, acc).Need? ==> have < ReadMany(read, pos, count, acc).atLeast
    decreases count
  {
    assert ForwardAt(read, have, pos);
    if count > 0 && read(pos).Done? {
      ManyForward(read, have, read(pos).pos, count - 1, acc + [read(pos).value]);
    }
  }

  function ReadPair(data: Bytes, pos: nat): (r: Parse<(Bytes, Value)>)
    ensures r.Done? ==> pos < r.pos <= |data|
    ensures r.Need? ==> |data| < r.atLeast
  {
    var (key, p) :- ReadStr(data, pos);
    var (vtype, q) :- ReadUnsigned(data, p, 4);
    var (v, next) :- ReadValue(data, q, vtype);
    Done((key, v), next)
  }

  function ReadDim(data: Bytes): nat -> Parse<nat> {
    (pos: nat) => ReadUnsigned(data, pos, 8)
  }

  lemma DimsForward(data: Bytes, pos: nat, count: nat)
    ensures var r := ReadMany(ReadDim(data), pos, count, []);
      (r.Done? ==> pos <= r.pos) && (r.Need? ==> |data| < r.atLeast)
  {
    forall p ensures ForwardAt(ReadDim(data), |data|, p) {}
    ManyForward(ReadDim(data), |data|, pos, count, []);
  }

  /** shape, ggml type and offset */
  function ReadTensorBody(data: Bytes, pos: nat, nDims: nat): (r: Parse<(seq<nat>, nat, nat)>)
    ensures r.Done? ==> pos < r.pos <= |data|
    ensures r.Need? ==> |data| < r.atLeast
  {
    DimsForward(data, pos, nDims);
    var (dims, s) :- ReadMany(ReadDim(data), pos, nDims, []);
    var (ggmlType, t) :- ReadUnsigned(data, s, 4);
    var (offset, next) :- ReadUnsigned(data, t, 8);
    Done((dims, ggmlType, offset), next)
  }

  function ReadTensor(data: Bytes, pos: nat): (r: Parse<Tensor>)
    ensures r.Done? ==> pos < r.pos <= |data|
    ensures r.Need? ==> |data| < r.atLeast
  {
    var (name, p) :- ReadStr(data, pos);
    var (nDims, q) :- ReadUnsigned(data, p, 4);
    var (t, next) :- ReadTensorBody(data, q, nDims);
    Done(Tensor(name, t.0, t.1, t.2), next)
  }

  function PairReader(data: Bytes): nat -> Parse<(Bytes, Value)> {
    (pos: nat) => ReadPair(data, pos)
  }

  function TensorReader(data: Bytes): nat -> Parse<Tensor> {
    (pos: nat) => ReadTensor(data, pos)
  }

  /** A later value for a key replaces an earlier one. */
  function Dictionary(pairs: seq<(Bytes, Value)>): map<Bytes, Value> {
    if pairs == [] then map[]
    else Dictionary(pairs[..|pairs| - 1])[pairs[|pairs| - 1].0 := pairs[|pairs| - 1].1]
  }

  lemma SectionsForward(data: Bytes, pos: nat, count: nat)
    ensures ReadMany(PairReader(data), pos, count, []).Need? ==>
      |data| < ReadMany(PairReader(data), pos, count, []).atLeast
    ensures ReadMany(TensorReader(data), pos, count, []).Need? ==>
      |data| < ReadMany(TensorReader(data), pos, count, []).atLeast
    ensures ReadMany(TensorReader(data), pos, count, []).Done? ==>
      pos <= ReadMany(TensorReader(data), pos, count, []).pos
    ensures ReadMany(PairReader(data), pos, count, []).Done? ==>
      pos <= ReadMany(PairReader(data), pos, count, []).pos
  {
    forall p ensures ForwardAt(PairReader(data), |data|, p) {}
    forall p ensures ForwardAt(TensorReader(data), |data|, p) {}
    ManyForward(PairReader(data), |data|, pos, count, []);
    ManyForward(TensorReader(data), |data|, pos, count, []);
  }

  /** The two count-driven loops. */
  function ReadSections(data: Bytes, pos: nat, kvCount: nat, tensorCount: nat)
    : (r: Parse<(seq<(Bytes, Value)>, seq<Tensor>)>)
    ensures r.Done? ==> pos <= r.pos
    ensures r.Need? ==> |data| < r.atLeast
  {
    SectionsForward(data, pos, kvCount);
    var (pairs, q) :- ReadMany(PairReader(data), pos, kvCount, []);
    SectionsForward(data, q, tensorCount);
    var (tensors, end) :- ReadMany(TensorReader(data), q, tensorCount, []);
    Done((pairs, tensors), end)
  }

  /** version, tensor count and key/value count */
  function ReadCounts(data: Bytes, pos: nat): (r: Parse<(nat, nat, nat)>)
    ensures r.Done? ==> pos < r.pos <= |data|
    ensures r.Need? ==> |data| < r.atLeast
  {
    var (version, p) :- ReadUnsigned(data, pos, 4);
    var (tensors, q) :- ReadUnsigned(data, p, 8);
    var (kvs, next) :- ReadUnsigned(data, q, 8);
    Done((version, tensors, kvs), next)
  }

  function ParseHeader(data: Bytes): (r: Parse<Header>)
    ensures r.Need? ==> |data| < r.atLeast
    ensures r.Done? ==> r.pos == r.value.headerBytes
  {
    if |data| < 4 then Need(4)
    else if data[..4] != MAGIC then Reject(NotGguf)
    else
      var (c, p) :- ReadCounts(data, 4);
      var (sections, end) :- ReadSections(data, p, c.2, c.1);
      Done(Header(c.0, c.1, c.2, Dictionary(sections.0), sections.1, end), end)
  }

  // ------------------------------------------------------ stability of a parse

  /**
   What a parse of a prefix says about the same parse of `longer` bytes: a value or a
   rejection is final; a request for n bytes is repeated below n, and from n bytes on
   the value, if there is one, ends at n or later.
   */
  predicate Stable<T(==)>(r: Parse<T>, r': Parse<T>, longer: nat) {
    match r
    case Done(_, _) => r' == r
    case Reject(_) => r' == r
    case Need(n) => if longer < n then r' == r else r'.Done? ==> n <= r'.pos
  }

  lemma StableTake(data: Bytes, more: Bytes, pos: nat, size: nat)
    requires data <= more
    ensures Stable(TakeBytes(data, pos, size), TakeBytes(more, pos, size), |more|)
    ensures Stable(ReadUnsigned(data, pos, size), ReadUnsigned(more, pos, size), |more|)
  {
    if pos + size <= |data| {
      assert data[pos..pos + size] == more[pos..pos + size];
    }
  }

  lemma StableStr(data: Bytes, more: Bytes, pos: nat)
    requires data <= more
    ensures Stable(ReadStr(data, pos), ReadStr(more, pos), |more|)
  {
    StableTake(data, more, pos, 8);
    var n := ReadUnsigned(data, pos, 8);
    if n.Done? {
      StableTake(data, more, n.pos, n.value);
    }
  }

  lemma {:induction false} StableValue(data: Bytes, more: Bytes, pos: nat, vtype: nat)
    requires data <= more
    ensures Stable(ReadValue(data, pos, vtype), ReadValue(more, pos, vtype), |more|)
    decreases |data| - pos, 1
  {
    if Width(vtype) > 0 {
      StableTake(data, more, pos, Width(vtype));
    } else if vtype == T_STRING {
      StableStr(data, more, pos);
    } else if vtype == T_ARRAY {
      StableArray(data, more, pos);
    }
  }

  lemma {:induction false} StableArray(data: Bytes, more: Bytes, pos: nat)
    requires data <= more
    ensures Stable(ReadArray(data, pos), ReadArray(more, pos), |more|)
    decreases |data| - pos, 0
  {
    StableTake(data, more, pos, 4);
    var t := ReadUnsigned(data, pos, 4);
    if t.Done? {
      StableTake(data, more, t.pos, 8);
      var c := ReadUnsigned(data, t.pos, 8);
      if c.Done? {
        StableValues(data, more, c.pos, t.value, c.value, []);
      }
    }
  }

  lemma {:induction false} StableValues(data: Bytes, more: Bytes, pos: nat, vtype: nat, count: nat, acc: seq<Value>)
    requires data <= more
    ensures Stable(ReadValues(data, pos, vtype, count, acc), ReadValues(more, pos, vtype, count, acc), |more|)
    decreases |data| - pos, 2
  {
    if count > 0 {
      StableValue(data, more, pos, vtype);
      var v := ReadValue(data, pos, vtype);
      if v.Done? {
        StableValues(data, more, v.pos, vtype, count - 1, acc + [v.value]);
      }
    }
  }

  lemma StablePair(data: Bytes, more: Bytes, pos: nat)
    requires data <= more
    ensures Stable(ReadPair(data, pos), ReadPair(more, pos), |more|)
  {
    StableStr(data, more, pos);
    var key := ReadStr(data, pos);
    if key.Done? {
      StableTake(data, more, key.pos, 4);
      var t := ReadUnsigned(data, key.pos, 4);
      if t.Done? {
        StableValue(data, more, t.pos, t.value);
      }
    }
  }

  ghost predicate StableAt<T>(read: nat -> Parse<T>, read': nat -> Parse<T>, longer: nat, pos: nat) {
    Stable(read(pos), read'(pos), longer)
  }

  lemma {:induction false} StableMany<T(!new)>(read: nat -> Parse<T>, read': nat -> Parse<T>, longer: nat,
                                               pos: nat, count: nat, acc: seq<T>)
    requires forall p :: StableAt(read, read', longer, p)
    requires Forward(read', longer)
    ensures Stable(ReadMany(read, pos, count, acc), ReadMany(read', pos, count, acc), longer)
    decreases count
  {
    if count > 0 {
      assert StableAt(read, read', longer, pos);
      match read(pos)
      case Done(item, next) => StableMany(read, read', longer, next, count - 1, acc + [item]);
      case Reject(_) =>
      case Need(_) => ManyForward(read', longer, pos, count, acc); StepForward(read', longer, pos, count, acc);
    }
  }

  lemma StepForward<T(!new)>(read: nat -> Parse<T>, have: nat, pos: nat, count: nat, acc: seq<T>)
    requires Forward(read, have) && count > 0
    ensures ReadMany(read, pos, count, acc).Done? ==>
      read(pos).Done? && read(pos).pos <= ReadMany(read, pos, count, acc).pos
  {
    if read(pos).Done? {
      ManyForward(read, have, read(pos).pos, count - 1, acc + [read(pos).value]);
    }
  }

  lemma StableDims(data: Bytes, more: Bytes, pos: nat, count: nat)
    requires data <= more
    ensures Stable(ReadMany(ReadDim(data), pos, count, []), ReadMany(ReadDim(more), pos, count, []), |more|)
  {
    forall p ensures ForwardAt(ReadDim(more), |more|, p) {}
    forall p ensures StableAt(ReadDim(data), ReadDim(more), |more|, p) {
      StableTake(data, more, p, 8);
    }
    StableMany(ReadDim(data), ReadDim(more), |more|, pos, count, []);
  }

  lemma StableTensorBody(data: Bytes, more: Bytes, pos: nat, nDims: nat)
    requires data <= more
    ensures Stable(ReadTensorBody(data, pos, nDims), ReadTensorBody(more, pos, nDims), |more|)
  {
    StableDims(data, more, pos, nDims);
    var dims := ReadMany(ReadDim(data), pos, nDims, []);
    if dims.Done? {
      StableTake(data, more, dims.pos, 4);
      StableTake(data, more, dims.pos + 4, 8);
    }
  }

  lemma StableTensor(data: Bytes, more: Bytes, pos: nat)
    requires data <= more
    ensures Stable(ReadTensor(data, pos), ReadTensor(more, pos), |more|)
  {
    StableStr(data, more, pos);
    var name := ReadStr(data, pos);
    if name.Done? {
      StableTake(data, more, name.pos, 4);
      var n := ReadUnsigned(data, name.pos, 4);
      if n.Done? {
        StableTensorBody(data, more, n.pos, n.value);
      }
    }
  }

  lemma StableCounts(data: Bytes, more: Bytes, pos: nat)
    requires data <= more
    ensures Stable(ReadCounts(data, pos), ReadCounts(more, pos), |more|)
  {
    StableTake(data, more, pos, 4);
    StableTake(data, more, pos + 4, 8);
    StableTake(data, more, pos + 12, 8);
  }

  lemma StableSections(data: Bytes, more: Bytes, pos: nat, kvCount: nat, tensorCount: nat)
    requires data <= more
    ensures Stable(ReadSections(data, pos, kvCount, tensorCount),
                   ReadSections(more, pos, kvCount, tensorCount), |more|)
  {
    StablePairs(data, more, pos, kvCount);
    match ReadMany(PairReader(data), pos, kvCount, [])
    case Done(pairs, next) => StableTensors(data, more, next, tensorCount);
    case Reject(_) =>
    case Need(_) =>
      var pairs' := ReadMany(PairReader(more), pos, kvCount, []);
      if pairs'.Done? {
        SectionsForward(more, pairs'.pos, tensorCount);
      }
  }

  /** Reading more of a file never takes back what a shorter read established. */
  lemma ParsingIsStable(data: Bytes, more: Bytes)
    requires data <= more
    ensures Stable(ParseHeader(data), ParseHeader(more), |more|)
  {
    if |data| >= 4 {
      assert data[..4] == more[..4];
      StableCounts(data, more, 4);
      var c := ReadCounts(data, 4);
      if c.Done? {
        StableSections(data, more, c.pos, c.value.2, c.value.1);
      }
    }
  }

  lemma StablePairs(data: Bytes, more: Bytes, pos: nat, count: nat)
    requires data <= more
    ensures Stable(ReadMany(PairReader(data), pos, count, []), ReadMany(PairReader(more), pos, count, []), |more|)
    ensures Forward(PairReader(more), |more|)
  {
    forall p ensures ForwardAt(PairReader(more), |more|, p) {}
    forall p ensures StableAt(PairReader(data), PairReader(more), |more|, p) {
      StablePair(data, more, p);
    }
    StableMany(PairReader(data), PairReader(more), |more|, pos, count, []);
  }

  lemma StableTensors(data: Bytes, more: Bytes, pos: nat, count: nat)
    requires data <= more
    ensures Stable(ReadMany(TensorReader(data), pos, count, []), ReadMany(TensorReader(more), pos, count, []), |more|)
    ensures Forward(TensorReader(more), |more|)
  {
    forall p ensures ForwardAt(TensorReader(more), |more|, p) {}
    forall p ensures StableAt(TensorReader(data), TensorReader(more), |more|, p) {
      StableTensor(data, more, p);
    }
    StableMany(TensorReader(data), TensorReader(more), |more|, pos, count, []);
  }
}
