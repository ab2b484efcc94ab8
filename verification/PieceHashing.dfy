/**
 * The piece hashes of a torrent (BEP 3, section "metainfo files"): the files are cut
 * into pieces end to end, so a piece may hold the end of one and the start of others.
 *
 * SHA-1 is a parameter: any function from bytes to digests of twenty bytes.
 */
module PieceHashing {
  import opened Decimal
  import opened KeyOrder
  import opened Sizes

  const PIECE_LENGTH := 32768
  const DIGEST_LENGTH := 20

  type Digest = d: Bytes | |d| == DIGEST_LENGTH witness seq(DIGEST_LENGTH, _ => 0)

  function Concatenated(files: seq<Bytes>): Bytes {
    if files == [] then [] else Concatenated(files[..|files| - 1]) + files[|files| - 1]
  }

  /** The fixed-size blocks of some data, the last one possibly short, none empty. */
  function Blocks(data: Bytes): seq<Bytes> {
    if |data| == 0 then []
    else if |data| <= PIECE_LENGTH then [data]
    else [data[..PIECE_LENGTH]] + Blocks(data[PIECE_LENGTH..])
  }

  function Digests(sha1: Bytes -> Digest, blocks: seq<Bytes>): Bytes {
    if blocks == [] then [] else sha1(blocks[0]) + Digests(sha1, blocks[1..])
  }

  /** As many blocks as it takes, block `k` starting at `k` piece lengths: all full but perhaps the last. */
  lemma {:induction false} BlocksAreTheSlices(data: Bytes)
    ensures |Blocks(data)| == (|data| + PIECE_LENGTH - 1) / PIECE_LENGTH
    ensures forall k | 0 <= k < |Blocks(data)| ::
              && k * PIECE_LENGTH < |data|
              && Blocks(data)[k] == data[k * PIECE_LENGTH..Min((k + 1) * PIECE_LENGTH, |data|)]
    decreases |data|
  {
    if |data| > PIECE_LENGTH {
      var rest := data[PIECE_LENGTH..];
      BlocksAreTheSlices(rest);
      forall k | 0 <= k < |Blocks(data)|
        ensures k * PIECE_LENGTH < |data|
        ensures Blocks(data)[k] == data[k * PIECE_LENGTH..Min((k + 1) * PIECE_LENGTH, |data|)]
      {
        if k > 0 {
          var from := (k - 1) * PIECE_LENGTH;
          assert Blocks(data)[k] == Blocks(rest)[k - 1] == rest[from..Min(from + PIECE_LENGTH, |rest|)];
          assert rest[from..Min(from + PIECE_LENGTH, |rest|)]
              == data[PIECE_LENGTH + from..Min(PIECE_LENGTH + from + PIECE_LENGTH, |data|)];
        }
      }
    }
  }

  /** Blocks of whole pieces and blocks of what follows them are the blocks of both. */
  lemma {:induction false} BlocksSplit(whole: Bytes, rest: Bytes)
    requires |whole| % PIECE_LENGTH == 0
    ensures Blocks(whole + rest) == Blocks(whole) + Blocks(rest)
    decreases |whole|
  {
    if |whole| == 0 {
      assert whole + rest == rest;
    } else if |whole| == PIECE_LENGTH {
      assert (whole + rest)[..PIECE_LENGTH] == whole && (whole + rest)[PIECE_LENGTH..] == rest;
      if rest == [] { assert whole + rest == whole; }
    } else {
      var head, tail := whole[..PIECE_LENGTH], whole[PIECE_LENGTH..];
      assert (whole + rest)[..PIECE_LENGTH] == head && (whole + rest)[PIECE_LENGTH..] == tail + rest;
      BlocksSplit(tail, rest);
    }
  }

  lemma {:induction false} DigestsJoin(sha1: Bytes -> Digest, a: seq<Bytes>, b: seq<Bytes>)
    ensures Digests(sha1, a + b) == Digests(sha1, a) + Digests(sha1, b)
  {
    if a == [] {
      assert a + b == b;
    } else {
      assert (a + b)[1..] == a[1..] + b;
      DigestsJoin(sha1, a[1..], b);
    }
  }

  /** Digest `k` of the answer is the digest of block `k`. */
  lemma {:induction false} DigestAt(sha1: Bytes -> Digest, blocks: seq<Bytes>, k: nat)
    requires k < |blocks|
    ensures |Digests(sha1, blocks)| == DIGEST_LENGTH * |blocks|
    ensures Digests(sha1, blocks)[DIGEST_LENGTH * k..DIGEST_LENGTH * (k + 1)] == sha1(blocks[k])
    decreases |blocks|
  {
    var first, others := sha1(blocks[0]), Digests(sha1, blocks[1..]);
    assert first + others == Digests(sha1, blocks);
    if |blocks| > 1 {
      DigestAt(sha1, blocks[1..], if k == 0 then 0 else k - 1);
    }
    if k > 0 {
      assert Digests(sha1, blocks)[DIGEST_LENGTH * k..DIGEST_LENGTH * (k + 1)]
          == others[DIGEST_LENGTH * (k - 1)..DIGEST_LENGTH * k];
    }
  }

  /**
   * One pass over the files, holding back what does not fill a piece. The answer is the
   * digests of the blocks of the concatenation, wherever the file boundaries fall.
   */
  method HashPieces(files: seq<Bytes>, sha1: Bytes -> Digest) returns (hashes: Bytes)
    ensures hashes == Digests(sha1, Blocks(Concatenated(files)))
  {
    hashes := [];
    var piece: Bytes := [];
    ghost var done: Bytes := [];

    for i := 0 to |files|
      invariant Concatenated(files[..i]) == done + piece
      invariant |done| % PIECE_LENGTH == 0 && |piece| < PIECE_LENGTH
      invariant hashes == Digests(sha1, Blocks(done))
    {
      var rest := files[i];
      assert files[..i + 1][..i] == files[..i];

      while |piece| + |rest| >= PIECE_LENGTH
        invariant Concatenated(files[..i + 1]) == done + piece + rest
        invariant |done| % PIECE_LENGTH == 0 && |piece| < PIECE_LENGTH
        invariant hashes == Digests(sha1, Blocks(done))
        decreases |rest|
      {
        var take := PIECE_LENGTH - |piece|;
        ghost var block := piece + rest[..take];
        assert done + piece + rest == (done + block) + [] + rest[take..];
        BlocksSplit(done, block);
        assert Blocks(block) == [block];
        DigestsJoin(sha1, Blocks(done), [block]);
        assert Digests(sha1, [block]) == sha1(block);
        hashes := hashes + sha1(piece + rest[..take]);
        done := done + block;
        piece := [];
        rest := rest[take..];
      }

      piece := piece + rest;
    }

    assert files[..|files|] == files;
    BlocksSplit(done, piece);
    DigestsJoin(sha1, Blocks(done), Blocks(piece));
    if |piece| > 0 {
      assert Digests(sha1, [piece]) == sha1(piece);
      hashes := hashes + sha1(piece);
    }
  }
}
