/**
 The cursor that reads a GGUF header, and the loop that reads more of the file until the
 header fits (_Reader, parse_gguf_header and gguf_header_from_path in clozn/cli/fit_planner.py).
 */
module FitPlanner {
  import opened Common
  import opened Gguf

  /** A bounds-checked cursor. A read that raises leaves the position where it was. */
  class Reader {
    const data: Bytes
    var pos: nat

    constructor (data: Bytes)
      ensures this.data == data && pos == 0
    {
      this.data := data;
      pos := 0;
    }

    method Take(size: nat) returns (r: Parse<Bytes>)
      modifies this
      ensures r == TakeBytes(data, old(pos), size)
      ensures pos == if r.Done? then r.pos else old(pos)
    {
      var end := pos + size;
      if end > |data| {
        return Need(end);
      }
      r := Done(data[pos..end], end);
      pos := end;
    }

    method Number(size: nat) returns (r: Parse<nat>)
      modifies this
      ensures r == ReadUnsigned(data, old(pos), size)
      ensures pos == if r.Done? then r.pos else old(pos)
    {
      var bytes :- Take(size);
      r := Done(Unsigned(bytes.0), bytes.1);
    }

    method String() returns (r: Parse<Bytes>)
      modifies this
      ensures r == ReadStr(data, old(pos))
      ensures r.Done? ==> pos == r.pos
    {
      var n :- Number(8);
      r := Take(n.0);
    }

    method Value(vtype: nat) returns (r: Parse<Value>)
      modifies this
      ensures r == ReadValue(data, old(pos), vtype)
      ensures r.Done? ==> pos == r.pos
      decreases |data| - pos, 1
    {
      if Width(vtype) > 0 {
        var bytes :- Take(Width(vtype));
        r := Done(Scalar(vtype, bytes.0), bytes.1);
      } else if vtype == T_STRING {
        var s :- String();
        r := Done(Str(s.0), s.1);
      } else if vtype == T_ARRAY {
        r := ArrayValue();
      } else {
        r := Reject(UnknownType(vtype));
      }
    }

    method ArrayValue() returns (r: Parse<Value>)
      modifies this
      ensures r == ReadArray(data, old(pos))
      ensures r.Done? ==> pos == r.pos
      decreases |data| - pos, 0
    {
      var elemType :- Number(4);
      var count :- Number(8);
      var out: seq<Value> := [];
      ghost var start := pos;
      for k := 0 to count.0
        invariant start <= pos && (pos <= |data| || pos == start)
        invariant ReadValues(data, start, elemType.0, count.0, [])
               == ReadValues(data, pos, elemType.0, count.0 - k, out)
      {
        var v :- Value(elemType.0);
        out := out + [v.0];
      }
      r := Done(Array(out), pos);
    }

    method OnePair() returns (r: Parse<(Bytes, Value)>)
      modifies this
      ensures r == ReadPair(data, old(pos))
      ensures r.Done? ==> pos == r.pos
    {
      var key :- String();
      var vtype :- Number(4);
      var v :- Value(vtype.0);
      r := Done((key.0, v.0), pos);
    }

    method Pairs(count: nat) returns (r: Parse<map<Bytes, Value>>)
      modifies this
      ensures r == ReadPairs(data, old(pos), count, map[])
      ensures r.Done? ==> pos == r.pos
    {
      hide ReadPair;
      var metadata: map<Bytes, Value> := map[];
      for k := 0 to count
        invariant ReadPairs(data, old(pos), count, map[]) == ReadPairs(data, pos, count - k, metadata)
      {
        var kv :- OnePair();
        metadata := metadata[kv.0.0 := kv.0.1];
      }
      r := Done(metadata, pos);
    }

    method Dims(count: nat) returns (r: Parse<seq<nat>>)
      modifies this
      ensures r == ReadMany(ReadDim(data), old(pos), count, [])
      ensures r.Done? ==> pos == r.pos
    {
      var dims: seq<nat> := [];
      for k := 0 to count
        invariant ReadMany(ReadDim(data), old(pos), count, []) == ReadMany(ReadDim(data), pos, count - k, dims)
      {
        var d :- Number(8);
        dims := dims + [d.0];
      }
      r := Done(dims, pos);
    }

    method OneTensor() returns (r: Parse<Tensor>)
      modifies this
      ensures r == ReadTensor(data, old(pos))
      ensures r.Done? ==> pos == r.pos
    {
      var name :- String();
      var nDims :- Number(4);
      var dims :- Dims(nDims.0);
      var ggmlType :- Number(4);
      var offset :- Number(8);
      r := Done(Tensor(name.0, dims.0, ggmlType.0, offset.0), pos);
    }

    method Tensors(count: nat) returns (r: Parse<seq<Tensor>>)
      modifies this
      ensures r == ReadTensors(data, old(pos), count, [])
      ensures r.Done? ==> pos == r.pos
    {
      hide ReadTensor;
      var tensors: seq<Tensor> := [];
      for k := 0 to count
        invariant ReadTensors(data, old(pos), count, []) == ReadTensors(data, pos, count - k, tensors)
      {
        var t :- OneTensor();
        tensors := tensors + [t.0];
      }
      r := Done(tensors, pos);
    }

    method Counts() returns (r: Parse<(nat, nat, nat)>)
      modifies this
      ensures r == ReadCounts(data, old(pos))
      ensures r.Done? ==> pos == r.pos
    {
      var version :- Number(4);
      var tensors :- Number(8);
      var kvs :- Number(8);
      r := Done((version.0, tensors.0, kvs.0), pos);
    }
  }

  // The count-driven loops, as functions of the position.

  function ReadPairs(data: Bytes, pos: nat, count: nat, acc: map<Bytes, Value>): Parse<map<Bytes, Value>>
    decreases count
  {
    if count == 0 then Done(acc, pos)
    else
      var (kv, next) :- ReadPair(data, pos);
      ReadPairs(data, next, count - 1, acc[kv.0 := kv.1])
  }

  function ReadTensors(data: Bytes, pos: nat, count: nat, acc: seq<Tensor>): Parse<seq<Tensor>>
    decreases count
  {
    if count == 0 then Done(acc, pos)
    else
      var (t, next) :- ReadTensor(data, pos);
      ReadTensors(data, next, count - 1, acc + [t])
  }

  lemma {:induction false} TensorsAreMany(data: Bytes, pos: nat, count: nat, acc: seq<Tensor>)
    ensures ReadTensors(data, pos, count, acc) == ReadMany(TensorReader(data), pos, count, acc)
    decreases count
  {
    hide ReadTensor;
    if count > 0 {
      var t := ReadTensor(data, pos);
      if t.Done? {
        TensorsAreMany(data, t.pos, count - 1, acc + [t.value]);
      }
    }
  }

  lemma {:induction false} PairsAreMany(data: Bytes, pos: nat, count: nat, acc: seq<(Bytes, Value)>)
    ensures var all := ReadMany(PairReader(data), pos, count, acc);
      ReadPairs(data, pos, count, Dictionary(acc))
      == if all.Done? then Done(Dictionary(all.value), all.pos) else all.PropagateFailure()
    decreases count
  {
    hide ReadPair;
    if count > 0 {
      var kv := ReadPair(data, pos);
      if kv.Done? {
        PairsAreMany(data, kv.pos, count - 1, acc + [kv.value]);
        assert (acc + [kv.value])[..|acc|] == acc;
      }
    }
  }

  method ParseGgufHeader(data: Bytes) returns (r: Parse<Header>)
    ensures r == ParseHeader(data)
  {
    if |data| < 4 {
      return Need(4);
    }
    if data[0..4] != MAGIC {
      return Reject(NotGguf);
    }
    var reader := new Reader(data);
    var magic := reader.Take(4);
    var counts :- reader.Counts();
    PairsAreMany(data, reader.pos, counts.0.2, []);
    var metadata :- reader.Pairs(counts.0.2);
    TensorsAreMany(data, reader.pos, counts.0.1, []);
    var tensors :- reader.Tensors(counts.0.1);
    r := Done(Header(counts.0.0, counts.0.1, counts.0.2, metadata.0, tensors.0, reader.pos), reader.pos);
  }

  // ------------------------------------------------------ growing the read

  const INITIAL_BYTES := 0x10_0000
  const MAX_BYTES := 0x400_0000

  /** What the loop reads at first and at most. */
  function FirstRead(size: nat, initial: nat): nat {
    if size != 0 then Min(initial, size) else initial
  }

  function LastRead(size: nat, initial: nat, maxBytes: nat): nat {
    Min(size, Max(FirstRead(size, initial), maxBytes))
  }

  /**
   The retry loop gives exactly what one parse of its longest permitted read gives, after
   a number of attempts that is logarithmic in that length.
   */
  method HeaderFromFile(file: Bytes, initial: nat, maxBytes: nat)
    returns (r: Parse<Header>, bytesRead: nat, attempts: nat)
    ensures r == ParseHeader(file[..LastRead(|file|, initial, maxBytes)])
    ensures bytesRead <= LastRead(|file|, initial, maxBytes)
    ensures r.Done? ==> r == ParseHeader(file[..bytesRead])
    ensures attempts >= 3 ==>
      Doubled(attempts - 2, Max(initial, 2048)) < LastRead(|file|, initial, maxBytes)
  {
    hide ParseHeader;
    var size, n := |file|, FirstRead(|file|, initial);
    ghost var last, unit := LastRead(size, initial, maxBytes), Max(initial, 2048);
    attempts := 0;
    while true
      invariant attempts == 0 ==> n == FirstRead(size, initial)
      invariant attempts > 0 ==> n <= last == Min(size, maxBytes)
      invariant attempts > 0 ==> n == last || Doubled(attempts, unit) <= n
      invariant attempts > 1 ==> Doubled(attempts - 1, unit) < last
      decreases last - Min(n, last)
    {
      var data := file[..Min(n, size)];
      bytesRead, attempts := |data|, attempts + 1;
      r := ParseGgufHeader(data);
      if !r.Need? || n >= size || n >= maxBytes {
        assert data <= file[..last];
        ParsingIsStable(data, file[..last]);
        return;
      }
      n := Min(Min(Max(r.atLeast + 4096, n * 2), size), maxBytes);
    }
  }

  /** unit * 2^times */
  function Doubled(times: nat, unit: nat): nat {
    if times == 0 then unit else 2 * Doubled(times - 1, unit)
  }

  /** A header that ends within the longest permitted read is found, as one parse of the whole file finds it. */
  lemma CappedReadSuffices(file: Bytes, cap: nat)
    requires cap <= |file|
    ensures ParseHeader(file).Done? && ParseHeader(file).pos <= cap ==> ParseHeader(file[..cap]) == ParseHeader(file)
    ensures !ParseHeader(file[..cap]).Need? ==> ParseHeader(file[..cap]) == ParseHeader(file)
    ensures ParseHeader(file[..cap]).Need? && ParseHeader(file).Done? ==> ParseHeader(file).pos > cap
  {
    ParsingIsStable(file[..cap], file);
  }

  /** With the default sizes no file takes more than seven reads. */
  lemma DefaultAttempts(size: nat, attempts: nat)
    requires attempts >= 3 ==>
      Doubled(attempts - 2, Max(INITIAL_BYTES, 2048)) < LastRead(size, INITIAL_BYTES, MAX_BYTES)
    ensures attempts <= 7
  {
    assert Doubled(6, INITIAL_BYTES) == 64 * INITIAL_BYTES by {
      assert Doubled(3, INITIAL_BYTES) == 8 * INITIAL_BYTES;
    }
    if attempts > 7 {
      DoubledGrows(6, attempts - 2, INITIAL_BYTES);
    }
  }

  lemma {:induction false} DoubledGrows(a: nat, b: nat, unit: nat)
    requires a <= b
    ensures Doubled(a, unit) <= Doubled(b, unit)
  {
    if a < b {
      DoubledGrows(a, b - 1, unit);
    }
  }
}
