/** SHA-1 as the streaming layer over the block transform. */
module Sha1 {
  import opened Common
  import opened Sha1Rounds
  import opened Sha1Stream

  /** The two ways four bytes become a message word: with the first byte as the most
      significant one, as the standard wants it, or as the least. */
  datatype Loader = BigEndian | LittleEndian

  function LoadWord(load: Loader, b: seq<byte>): Word
    requires |b| == 4
  {
    match load
    case BigEndian => ((b[0] as bv32) << 24) | ((b[1] as bv32) << 16) | ((b[2] as bv32) << 8) | (b[3] as bv32)
    case LittleEndian => ((b[3] as bv32) << 24) | ((b[2] as bv32) << 16) | ((b[1] as bv32) << 8) | (b[0] as bv32)
  }

  function LoadWords(load: Loader, block: seq<byte>): (w: seq<Word>)
    requires |block| == 64
    ensures |w| == 16
  {
    seq(16, i requires 0 <= i < 16 => LoadWord(load, block[4 * i..4 * i + 4]))
  }

  function LowByte(w: Word): byte {
    (w & 0xFF) as bv8 as int
  }

  /** Byte `k` of a word, the most significant first. */
  function ByteAt(w: Word, k: nat): byte {
    if k == 0 then LowByte(w >> 24) else if k == 1 then LowByte(w >> 16) else if k == 2 then LowByte(w >> 8)
    else LowByte(w)
  }

  function InitialHash(): seq<Word> {
    [0x67452301, 0xEFCDAB89, 0x98BADCFE, 0x10325476, 0xC3D2E1F0]
  }

  function HashBlock(load: Loader, h: seq<Word>, block: seq<byte>): (r: seq<Word>)
    ensures |h| == 5 ==> |r| == 5
  {
    if |h| == 5 && |block| == 64 then Compress(h, LoadWords(load, block)) else h
  }

  function Algorithm1(load: Loader): Algorithm<Word> {
    Algorithm(InitialHash(), (h, block) => HashBlock(load, h, block), (w, k) => ByteAt(w, k))
  }

  lemma Algorithm1Sized(load: Loader)
    ensures Sized(Algorithm1(load))
  {
    hide HashBlock;
  }

  /** The block transform the streaming layer relies on is the one the program runs. */
  method TransformBlock(load: Loader, state: array<Word>, block: seq<byte>)
    requires state.Length == 5 && |block| == 64
    modifies state
    ensures state[..] == HashBlock(load, old(state[..]), block)
  {
    hide Compress, LoadWords;
    Transform(state, LoadWords(load, block));
  }

  /** The digest of a message in pieces is the digest of the whole message, for either
      byte order of the load. */
  method HashMessage(load: Loader, pieces: seq<seq<byte>>) returns (digest: seq<byte>)
    requires Fitting(pieces)
    ensures Sized(Algorithm1(load))
    ensures digest == Digest(Algorithm1(load), Joined(pieces))
  {
    hide *;
    Algorithm1Sized(load);
    digest := HashPieces(Algorithm1(load), pieces, 0);
  }
}
