/** The bounded drain of a command's output: it keeps the first or the last bytes of the stream. */
module BoundedWriter {
  import opened Common

  function Least(a: nat, b: nat): nat {
    if a < b then a else b
  }

  /** A ring read from its write position on. */
  function Unrolled(data: seq<byte>, next: nat): seq<byte>
    requires next <= |data|
  {
    data[next..] + data[..next]
  }

  function Overwritten(data: seq<byte>, next: nat, chunk: seq<byte>): seq<byte>
    requires next + |chunk| <= |data|
  {
    data[..next] + chunk + data[next + |chunk|..]
  }

  /** Overwriting k bytes at the write position drops the k oldest and appends the new ones. */
  lemma OverwriteShifts(data: seq<byte>, next: nat, chunk: seq<byte>)
    requires next + |chunk| <= |data| && 0 < |data| && next < |data|
    ensures Unrolled(Overwritten(data, next, chunk), (next + |chunk|) % |data|) == (Unrolled(data, next) + chunk)[|chunk|..]
  {
    var over := Overwritten(data, next, chunk);
    if next + |chunk| == |data| {
      assert (next + |chunk|) % |data| == 0;
      assert Unrolled(over, 0) == over;
    } else {
      assert (next + |chunk|) % |data| == next + |chunk|;
    }
  }

  lemma LastBytes(stream: seq<byte>, limit: nat, part: seq<byte>)
    requires limit <= |stream| && |part| <= limit
    ensures (stream + part)[|stream| + |part| - limit..] == (stream[|stream| - limit..] + part)[|part|..]
  {
  }

  lemma RingStep(data: seq<byte>, next: nat, stream: seq<byte>, part: seq<byte>)
    requires next < |data| <= |stream| && next + |part| <= |data|
    requires Unrolled(data, next) == stream[|stream| - |data|..]
    ensures Unrolled(Overwritten(data, next, part), (next + |part|) % |data|) == (stream + part)[|stream| + |part| - |data|..]
  {
    OverwriteShifts(data, next, part);
    LastBytes(stream, |data|, part);
  }

  lemma Regroup(before: seq<byte>, left: seq<byte>, written: nat)
    requires written <= |left|
    ensures before + left[..written] + left[written..] == before + left
  {
    assert left == left[..written] + left[written..];
  }

  class BoundedWriter {
    const limit: nat
    const tail: bool
    var data: seq<byte>
    var total: nat
    var next: nat
    ghost var stream: seq<byte>

    constructor (limit: nat, tail: bool)
      requires limit > 0
      ensures this.limit == limit && this.tail == tail && stream == [] && Valid()
    {
      this.limit, this.tail := limit, tail;
      data, total, next, stream := [], 0, 0, [];
    }

    ghost predicate Valid()
      reads this
    {
      && limit > 0 && total == |stream| && |data| == Least(limit, total)
      && (if tail && total > limit
          then next < limit && Unrolled(data, next) == stream[total - limit..]
          else next == 0 && data == stream[..|data|])
    }

    method Write(chunk: seq<byte>) returns (length: nat)
      requires Valid()
      modifies this
      ensures Valid() && stream == old(stream) + chunk && length == |chunk|
    {
      length := |chunk|;
      if tail {
        var filled := Fill(chunk);
        Ring(chunk[filled..]);
        assert old(stream) + chunk[..filled] + chunk[filled..] == old(stream) + chunk;
      } else {
        Head(chunk);
      }
    }

    method Head(chunk: seq<byte>)
      requires Valid() && !tail
      modifies this
      ensures Valid() && stream == old(stream) + chunk
    {
      total := total + |chunk|;
      var remaining := Least(limit - |data|, |chunk|);
      if remaining > 0 {
        data := data + chunk[..remaining];
      }
      stream := stream + chunk;
      assert data == stream[..|data|];
    }

    /** The first bytes still find room. */
    method Fill(chunk: seq<byte>) returns (filled: nat)
      requires Valid() && tail
      modifies this
      ensures Valid() && filled <= |chunk| && stream == old(stream) + chunk[..filled]
      ensures filled < |chunk| ==> |data| == limit
    {
      filled := Least(limit - |data|, |chunk|);
      data := data + chunk[..filled];
      total := total + filled;
      stream := stream + chunk[..filled];
      if filled > 0 {
        assert data == stream;
        if |data| == limit {
          next := 0;
        }
      } else {
        assert data + chunk[..0] == data && stream == old(stream);
      }
    }

    /** Once it is full, the ring is overwritten from its oldest byte on.  The loop ends for every
        positive limit, since each round takes at least one byte. */
    method Ring(chunk: seq<byte>)
      requires Valid() && tail && (chunk != [] ==> |data| == limit)
      modifies this
      ensures Valid() && stream == old(stream) + chunk
    {
      var left := chunk;
      while |left| > 0
        invariant Valid() && stream + left == old(stream) + chunk && (left != [] ==> |data| == limit)
        decreases |left|
      {
        ghost var before := stream;
        var written := Round(left);
        Regroup(before, left, written);
        left := left[written..];
      }
      assert left == [];
    }

    /** One copy into the ring, up to its end at most. */
    method Round(left: seq<byte>) returns (written: nat)
      requires Valid() && tail && left != [] && |data| == limit
      modifies this
      ensures Valid() && |data| == limit && 0 < written <= |left| && stream == old(stream) + left[..written]
    {
      assert next == 0 ==> Unrolled(data, next) == data;
      assert total == limit ==> stream[0..] == stream;
      written := Least(limit - next, |left|);
      RingStep(data, next, stream, left[..written]);
      data := Overwritten(data, next, left[..written]);
      next := (next + written) % limit;
      total := total + written;
      stream := stream + left[..written];
    }

    /** The first or the last bytes of everything written, and whether there were more. */
    method Snapshot() returns (bytes: seq<byte>, truncated: bool)
      requires Valid()
      ensures truncated <==> |stream| > limit
      ensures bytes == if tail then stream[|stream| - Least(limit, |stream|)..] else stream[..Least(limit, |stream|)]
    {
      truncated := total > limit;
      if !tail {
        return data, truncated;
      }
      var length := Least(total, limit);
      if length == 0 {
        return [], false;
      }
      if !truncated {
        return data[..length], false;
      }
      bytes := data[next..] + data[..next];
    }
  }
}
