/** The coalescing writer of `lal/base/bufwriter.go`. */
module BufWriters {
  import opened Bytes

  /** What a call hands to the underlying writer, and what stays buffered. */
  datatype Result = Result(blocks: seq<seq<byte>>, held: seq<byte>)

  function Written(size: nat, held: seq<byte>, p: seq<byte>): (r: Result)
    requires |held| <= size
    ensures |r.held| <= size
  {
    var avail := size - |held|;
    if |p| <= avail then Result([], held + p)
    else if held == [] then Result([p], [])
    else if |p| - avail < size then Result([held + p[..avail]], p[avail..])
    else Result([held + p[..avail], p[avail..]], [])
  }

  function Flushed(held: seq<byte>): Result {
    if held == [] then Result([], []) else Result([held], [])
  }

  datatype Call = Write(p: seq<byte>) | Flush

  function Input(call: Call): seq<byte> {
    if call.Write? then call.p else []
  }

  /** All calls in turn, from `held` on. */
  function Run(size: nat, held: seq<byte>, calls: seq<Call>): (r: Result)
    requires |held| <= size
    ensures |r.held| <= size
    decreases |calls|
  {
    if calls == [] then Result([], held)
    else
      var first := One(size, held, calls[0]);
      var rest := Run(size, first.held, calls[1..]);
      Result(first.blocks + rest.blocks, rest.held)
  }

  function One(size: nat, held: seq<byte>, call: Call): (r: Result)
    requires |held| <= size
    ensures |r.held| <= size
  {
    match call
    case Write(p) => Written(size, held, p)
    case Flush => Flushed(held)
  }

  function AllInput(calls: seq<Call>): seq<byte> {
    if calls == [] then [] else Input(calls[0]) + AllInput(calls[1..])
  }

  /** A call loses nothing and changes no order. */
  lemma OneConserves(size: nat, held: seq<byte>, call: Call)
    requires |held| <= size
    ensures var r := One(size, held, call); Flatten(r.blocks) + r.held == held + Input(call)
  {
    var r := One(size, held, call);
    if |r.blocks| == 1 {
      assert r.blocks == [r.blocks[0]];
      FlattenOne(r.blocks[0]);
    } else if |r.blocks| == 2 {
      assert r.blocks == [r.blocks[0]] + [r.blocks[1]];
      FlattenOne(r.blocks[0]);
      FlattenSnoc([r.blocks[0]], r.blocks[1]);
    }
  }

  lemma FlattenOne(s: seq<byte>)
    ensures Flatten([s]) == s
  {
    FlattenSnoc([], s);
  }

  /** Over any calls: the blocks handed on, and behind them what is still buffered, are all input in order. */
  lemma {:induction false} Conserves(size: nat, held: seq<byte>, calls: seq<Call>)
    requires |held| <= size
    ensures var r := Run(size, held, calls); Flatten(r.blocks) + r.held == held + AllInput(calls)
    decreases |calls|
  {
    if calls == [] {
      assert held + AllInput(calls) == held;
    } else {
      hide One, Input, Flatten;
      var first := One(size, held, calls[0]);
      var rest := Run(size, first.held, calls[1..]);
      OneConserves(size, held, calls[0]);
      Conserves(size, first.held, calls[1..]);
      FlattenAppend(first.blocks, rest.blocks);
      ConcatAssociative(Flatten(first.blocks), Flatten(rest.blocks), rest.held);
      ConcatAssociative(Flatten(first.blocks), first.held, AllInput(calls[1..]));
      ConcatAssociative(held, Input(calls[0]), AllInput(calls[1..]));
    }
  }

  predicate AllLong(blocks: seq<seq<byte>>, size: nat) {
    forall k | 0 <= k < |blocks| :: |blocks[k]| >= size
  }

  /** Without a call of `Flush`, every block is at least as long as the buffer. */
  lemma {:induction false} FullBlocks(size: nat, held: seq<byte>, calls: seq<Call>)
    requires |held| <= size && forall k | 0 <= k < |calls| :: calls[k].Write?
    ensures AllLong(Run(size, held, calls).blocks, size)
    decreases |calls|
  {
    if calls == [] {
    } else {
      var first := One(size, held, calls[0]);
      assert AllLong(first.blocks, size);
      FullBlocks(size, first.held, calls[1..]);
      BothLong(first.blocks, Run(size, first.held, calls[1..]).blocks, size);
    }
  }

  lemma BothLong(a: seq<seq<byte>>, b: seq<seq<byte>>, size: nat)
    requires AllLong(a, size) && AllLong(b, size)
    ensures AllLong(a + b, size)
  {
  }

  /** What a write leaves in the buffer: everything as long as it fits; otherwise what is over after filling the
      buffer, if that is less than a whole one, and nothing if the buffer was empty. Nothing is handed on
      before it has to be. */
  lemma HeldExact(size: nat, held: seq<byte>, p: seq<byte>)
    requires |held| <= size
    ensures
      var r, all := Written(size, held, p), |held| + |p|;
      (r.blocks == [] <==> all <= size)
      && |r.held| == (if all <= size then all else if held != [] && all - size < size then all - size else 0)
      && (r.blocks != [] && held != [] ==> |r.blocks[0]| == size)
  {
  }

  predicate NoneEmpty(blocks: seq<seq<byte>>) {
    forall k | 0 <= k < |blocks| :: blocks[k] != []
  }

  /** No empty block is handed on, and a flush leaves nothing in the buffer. */
  lemma {:induction false} BlocksNotEmpty(size: nat, held: seq<byte>, calls: seq<Call>)
    requires |held| <= size
    ensures NoneEmpty(Run(size, held, calls).blocks)
    ensures calls != [] && calls[|calls| - 1].Flush? ==> Run(size, held, calls).held == []
    decreases |calls|
  {
    if calls != [] {
      var first := One(size, held, calls[0]);
      assert NoneEmpty(first.blocks);
      BlocksNotEmpty(size, first.held, calls[1..]);
    }
  }

  /** The writer; `wr` is called with the buffer itself, which its receiver may keep, so a buffer that
      has been handed on must not be written again. `blocks` records the calls, `given` the buffers. */
  class BufWriter {
    const defaultSize: nat
    var buf: array<byte>
    var n: nat
    ghost var blocks: seq<seq<byte>>
    ghost var given: set<array<byte>>

    ghost predicate Valid()
      reads this, buf
    {
      n <= buf.Length == defaultSize && buf !in given
    }

    ghost function Held(): (s: seq<byte>)
      requires Valid()
      reads this, buf
    {
      buf[..n]
    }

    constructor (size: nat)
      requires size > 0
      ensures Valid() && fresh(buf) && defaultSize == size && Held() == [] && blocks == [] && given == {}
    {
      defaultSize := size;
      buf := new byte[size];
      n := 0;
      blocks := [];
      given := {};
    }

    /** `append`: into the free space. */
    method Append(p: seq<byte>)
      requires Valid() && n + |p| <= defaultSize
      modifies this`n, buf
      ensures Valid() && Held() == old(Held()) + p
    {
      forall i | 0 <= i < |p| {
        buf[n + i] := p[i];
      }
      n := n + |p|;
    }

    /** The buffer goes to the underlying writer and is replaced; its bytes stay as they are. */
    method Flush()
      requires Valid()
      modifies this
      ensures Valid() && Held() == Flushed(old(Held())).held && blocks == old(blocks) + Flushed(old(Held())).blocks
      ensures if old(n) == 0 then buf == old(buf) && given == old(given)
        else fresh(buf) && given == old(given) + {old(buf)}
    {
      if n == 0 {
        return;
      }
      blocks := blocks + [buf[..n]];
      given := given + {buf};
      buf := new byte[defaultSize];
      n := 0;
    }

    method Write(p: seq<byte>)
      requires Valid()
      modifies this, buf
      ensures Valid() && Held() == Written(defaultSize, old(Held()), p).held
      ensures blocks == old(blocks) + Written(defaultSize, old(Held()), p).blocks
      ensures (buf == old(buf) && given == old(given)) || (fresh(buf) && given == old(given) + {old(buf)})
    {
      var avail := buf.Length - n;
      if |p| > avail {
        if n == 0 {
          blocks := blocks + [p];
          return;
        }
        Append(p[..avail]);
        Flush();
        var remain := |p| - avail;
        if remain < defaultSize {
          Append(p[avail..]);
        } else {
          blocks := blocks + [p[avail..]];
        }
        return;
      }
      Append(p);
    }
  }
}
