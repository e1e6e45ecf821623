/**
 * `hash_file`: a file read in chunks of at most 0x100000 bytes, each chunk fed to a digest
 * accumulator until a read comes back empty. The digest itself (SHA-1) is a parameter:
 * a function of the bytes fed so far.
 */
module Hashing {

  newtype Byte = b: int | 0 <= b < 0x100

  type Bytes = seq<Byte>

  /** The hex digest the accumulator reports for the bytes it was fed. */
  type Fingerprint = string

  /** The size every read asks for. */
  const ChunkSize: nat := 0x100000

  function Min(a: nat, b: nat): nat {
    if a <= b then a else b
  }

  /** The bytes of a list of chunks, one after the other. */
  function Concat(chunks: seq<Bytes>): Bytes
    decreases |chunks|
  {
    if chunks == [] then [] else chunks[0] + Concat(chunks[1..])
  }

  lemma {:induction false} ConcatAppend(chunks: seq<Bytes>, c: Bytes)
    ensures Concat(chunks + [c]) == Concat(chunks) + c
    decreases |chunks|
  {
    if chunks == [] {
      assert [] + [c] == [c];
    } else {
      assert (chunks + [c])[1..] == chunks[1..] + [c];
      ConcatAppend(chunks[1..], c);
    }
  }

  /** The chunks successive reads return on `data`: full ones, then what is left. */
  function Chunks(data: Bytes): seq<Bytes>
    decreases |data|
  {
    if data == [] then []
    else
      var n := Min(ChunkSize, |data|);
      [data[..n]] + Chunks(data[n..])
  }

  /** Fed one after the other, the chunks give back the file. */
  lemma {:induction false} ChunksConcat(data: Bytes)
    ensures Concat(Chunks(data)) == data
    decreases |data|
  {
    if data != [] {
      var n := Min(ChunkSize, |data|);
      assert Chunks(data)[1..] == Chunks(data[n..]);
      ChunksConcat(data[n..]);
      assert data == data[..n] + data[n..];
    }
  }

  /** Every chunk is non-empty and at most `ChunkSize` long; every chunk but the last is full. */
  lemma {:induction false} ChunksBounded(data: Bytes)
    ensures forall i :: 0 <= i < |Chunks(data)| ==> 0 < |Chunks(data)[i]| <= ChunkSize
    ensures forall i :: 0 <= i < |Chunks(data)| - 1 ==> |Chunks(data)[i]| == ChunkSize
    decreases |data|
  {
    if data != [] {
      var n := Min(ChunkSize, |data|);
      ChunksBounded(data[n..]);
      var cs := Chunks(data);
      assert cs[1..] == Chunks(data[n..]);
      forall i | 0 < i < |cs| ensures 0 < |cs[i]| <= ChunkSize {
        assert cs[i] == cs[1..][i - 1];
      }
      forall i | 0 <= i < |cs| - 1 ensures |cs[i]| == ChunkSize {
        if i == 0 {
          assert Chunks(data[n..]) != [];
        } else {
          assert cs[i] == cs[1..][i - 1];
        }
      }
    }
  }

  /** A read of `ChunkSize` bytes from `rest` returns its first chunk. */
  lemma ChunksFirst(rest: Bytes, buf: Bytes, after: Bytes)
    requires buf == rest[..Min(ChunkSize, |rest|)] && after == rest[|buf|..] && buf != []
    ensures Chunks(rest) == [buf] + Chunks(after)
  {
  }

  lemma FeedOne(fed: seq<Bytes>, buf: Bytes, before: Bytes, after: Bytes, all: seq<Bytes>)
    requires fed + Chunks(before) == all
    requires Chunks(before) == [buf] + Chunks(after)
    ensures (fed + [buf]) + Chunks(after) == all
  {
    assert (fed + [buf]) + Chunks(after) == fed + ([buf] + Chunks(after));
  }

  /** Feeding the chunk just read moves its bytes from the unread rest to the fed bytes. */
  lemma FeedBytes(fed: seq<Bytes>, buf: Bytes, before: Bytes, after: Bytes, data: Bytes)
    requires Concat(fed) + before == data
    requires |buf| <= |before| && buf == before[..|buf|] && after == before[|buf|..]
    ensures Concat(fed + [buf]) + after == data
  {
    ConcatAppend(fed, buf);
    assert before == buf + after;
    assert Concat(fed) + (buf + after) == (Concat(fed) + buf) + after;
  }

  /** An open file: its bytes and the position the next read starts at. */
  class Reader {
    const data: Bytes
    var pos: nat

    ghost predicate Valid()
      reads this
    {
      pos <= |data|
    }

    /** The bytes not read yet. */
    function Remaining(): Bytes
      reads this
      requires Valid()
    {
      data[pos..]
    }

    constructor (data: Bytes)
      ensures Valid() && this.data == data && pos == 0
    {
      this.data := data;
      pos := 0;
    }

    /** `f.read(size)`: up to `size` bytes from the current position; empty only at the end. */
    method Read(size: nat) returns (buf: Bytes)
      requires Valid()
      modifies this
      ensures Valid()
      ensures buf == old(Remaining())[..Min(size, |old(Remaining())|)]
      ensures pos == old(pos) + |buf|
    {
      var n := Min(size, |data| - pos);
      buf := data[pos..pos + n];
      pos := pos + n;
    }
  }

  /** The digest accumulator: what it reports depends only on the bytes it was fed. */
  class Hasher {
    /** The arguments of the `update` calls so far, in order. */
    var fed: seq<Bytes>

    constructor ()
      ensures fed == []
    {
      fed := [];
    }

    /** `hasher.update(buf)` */
    method Update(buf: Bytes)
      modifies this
      ensures fed == old(fed) + [buf]
    {
      fed := fed + [buf];
    }

    /** `hasher.hexdigest()` for the digest `digest`. */
    function HexDigest(digest: Bytes -> Fingerprint): Fingerprint
      reads this
    {
      digest(Concat(fed))
    }
  }

  /**
   * `hash_file` on a file holding `data`: the digest of the whole file. `bufs` are the
   * values of `buf` one after the other: the chunks of the file, then the one empty read
   * that ends the loop. `fed` are the arguments of the `update` calls: the chunks, which
   * concatenate to the file.
   */
  method HashFile(data: Bytes, digest: Bytes -> Fingerprint)
    returns (h: Fingerprint, ghost bufs: seq<Bytes>, ghost fed: seq<Bytes>)
    ensures h == digest(data)
    ensures bufs == Chunks(data) + [[]]
    ensures fed == Chunks(data) && Concat(fed) == data
  {
    var hasher := new Hasher();
    var f := new Reader(data);
    bufs := [];
    while true
      invariant f.Valid() && f.data == data
      invariant hasher.fed + Chunks(f.Remaining()) == Chunks(data)
      invariant bufs == hasher.fed
      invariant Concat(hasher.fed) + f.Remaining() == data
      decreases |data| - f.pos
    {
      ghost var before := f.Remaining();
      var buf := f.Read(ChunkSize);
      bufs := bufs + [buf];
      if buf == [] {
        assert before == [] && Chunks(before) == [];
        break;
      }
      ghost var fedBefore := hasher.fed;
      ChunksFirst(before, buf, f.Remaining());
      hasher.Update(buf);
      FeedBytes(fedBefore, buf, before, f.Remaining(), data);
      FeedOne(fedBefore, buf, before, f.Remaining(), Chunks(data));
    }
    assert hasher.fed == Chunks(data);
    assert Concat(hasher.fed) == data by {
      assert f.Remaining() == [];
      assert Concat(hasher.fed) + f.Remaining() == Concat(hasher.fed);
    }
    fed := hasher.fed;
    h := hasher.HexDigest(digest);
  }
}
