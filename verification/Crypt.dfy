/** encrypt and decrypt: padding and the block loops around a 16-byte cipher.
    One char stands for one byte. */
module Crypt {
  import opened Outcomes
  import opened Text

  const BLOCK := 16

  /** The block cipher of the key, in electronic codebook mode (section 6.1 of NIST SP 800-38A). */
  datatype Cipher = Cipher(encrypt: string -> string, decrypt: string -> string)

  /** A cipher maps blocks to blocks and decryption undoes encryption. */
  ghost predicate Sound(c: Cipher) {
    && (forall b :: |b| == BLOCK ==> |c.encrypt(b)| == BLOCK && c.decrypt(c.encrypt(b)) == b)
    && (forall b :: |b| == BLOCK ==> |c.decrypt(b)| == BLOCK)
  }

  ghost predicate KeepsBlocks(f: string -> string) {
    forall b :: |b| == BLOCK ==> |f(b)| == BLOCK
  }

  /** The number of newlines that fill the last block. */
  function Missing(len: nat): nat {
    if len % BLOCK == 0 then 0 else BLOCK - len % BLOCK
  }

  function Padded(data: string): (r: string)
    ensures |r| % BLOCK == 0 && data <= r && |r| < |data| + BLOCK
    ensures forall i :: |data| <= i < |r| ==> r[i] == '\n'
  {
    data + Newlines(Missing(|data|))
  }

  /** `f` applied to each block. */
  function Blockwise(f: string -> string, data: string): string
    requires |data| % BLOCK == 0
  {
    if data == "" then "" else f(data[..BLOCK]) + Blockwise(f, data[BLOCK..])
  }

  lemma {:induction false} BlockwiseAppend(f: string -> string, data: string, block: string)
    requires |data| % BLOCK == 0 && |block| == BLOCK
    ensures Blockwise(f, data + block) == Blockwise(f, data) + f(block)
  {
    if data == "" {
      assert data + block == block;
      assert block[..BLOCK] == block && block[BLOCK..] == "";
    } else {
      BlockwiseAppend(f, data[BLOCK..], block);
      assert (data + block)[..BLOCK] == data[..BLOCK];
      assert (data + block)[BLOCK..] == data[BLOCK..] + block;
    }
  }

  /** The k-th block of the result is the function of the k-th block of the data. */
  lemma {:induction false} BlockAt(f: string -> string, data: string, k: nat)
    requires |data| % BLOCK == 0 && KeepsBlocks(f) && (k + 1) * 16 <= |data|
    ensures |Blockwise(f, data)| == |data|
    ensures Blockwise(f, data)[k * 16..(k + 1) * 16] == f(data[k * 16..(k + 1) * 16])
    decreases |data|
  {
    SameLength(f, data);
    SameLength(f, data[BLOCK..]);
    if k > 0 {
      BlockAt(f, data[BLOCK..], k - 1);
      assert data[BLOCK..][(k - 1) * 16..k * 16] == data[k * 16..(k + 1) * 16];
      assert Blockwise(f, data)[16..] == Blockwise(f, data[BLOCK..]);
      assert Blockwise(f, data)[16..][(k - 1) * 16..k * 16] == Blockwise(f, data)[k * 16..(k + 1) * 16];
    }
  }

  lemma {:induction false} SameLength(f: string -> string, data: string)
    requires |data| % BLOCK == 0 && KeepsBlocks(f)
    ensures |Blockwise(f, data)| == |data|
  {
    if data != "" {
      SameLength(f, data[BLOCK..]);
    }
  }

  lemma BlockwiseCons(f: string -> string, block: string, rest: string)
    requires |block| == BLOCK && |rest| % BLOCK == 0
    ensures Blockwise(f, block + rest) == f(block) + Blockwise(f, rest)
  {
    assert (block + rest)[..BLOCK] == block;
    assert (block + rest)[BLOCK..] == rest;
  }

  /** Decrypting block by block undoes encrypting block by block. */
  lemma {:induction false} BlockwiseInverse(c: Cipher, data: string)
    requires |data| % BLOCK == 0 && Sound(c)
    ensures |Blockwise(c.encrypt, data)| == |data|
    ensures Blockwise(c.decrypt, Blockwise(c.encrypt, data)) == data
  {
    if data != "" {
      var block, tail := data[..BLOCK], data[BLOCK..];
      assert data == block + tail;
      BlockwiseInverse(c, tail);
      BlockwiseCons(c.encrypt, block, tail);
      BlockwiseCons(c.decrypt, c.encrypt(block), Blockwise(c.encrypt, tail));
    }
  }

  function Encrypted(c: Cipher, data: string, encrypt: bool): string {
    if encrypt then Blockwise(c.encrypt, Padded(data)) else data
  }

  /** Fills a fresh buffer slice by slice. */
  method FillBuffer(f: string -> string, data: string) returns (buffer: array<char>)
    requires |data| % BLOCK == 0 && KeepsBlocks(f)
    ensures fresh(buffer) && buffer[..] == Blockwise(f, data)
  {
    buffer := new char[|data|];
    var bs, be := 0, BLOCK;
    while bs < |data|
      invariant 0 <= bs <= |data| && bs % BLOCK == 0 && be == bs + BLOCK
      invariant buffer[..bs] == Blockwise(f, data[..bs])
    {
      var block := f(data[bs..be]);
      forall i | 0 <= i < BLOCK {
        buffer[bs + i] := block[i];
      }
      BlockwiseAppend(f, data[..bs], data[bs..be]);
      assert data[..be] == data[..bs] + data[bs..be];
      assert buffer[..be] == buffer[..bs] + block;
      bs, be := bs + BLOCK, be + BLOCK;
    }
    assert data[..bs] == data && buffer[..bs] == buffer[..];
  }

  method PadData(data: string) returns (padded: string)
    ensures padded == Padded(data)
  {
    padded := data;
    if |data| % BLOCK != 0 {
      var times := (BLOCK - 1) - |data| % BLOCK;
      for i := 0 to times + 1
        invariant padded == data + Newlines(i)
      {
        padded := padded + "\n";
      }
    }
  }

  method Encrypt(c: Cipher, data: string, encrypt: bool) returns (encrypted: string)
    requires Sound(c)
    ensures encrypted == Encrypted(c, data, encrypt)
  {
    if !encrypt {
      return data;
    }
    var padded := PadData(data);
    var buffer := FillBuffer(c.encrypt, padded);
    encrypted := buffer[..];
  }

  /** The cipher text must consist of whole blocks. */
  function Decrypted(c: Cipher, data: string): Result<string> {
    if |data| % BLOCK != 0 then Error("data must be multiple of 16 bytes")
    else Ok(Blockwise(c.decrypt, data))
  }

  method Decrypt(c: Cipher, data: string) returns (decrypted: Result<string>)
    requires Sound(c)
    ensures decrypted == Decrypted(c, data)
  {
    if |data| % BLOCK != 0 {
      return Error("data must be multiple of 16 bytes");
    }
    var buffer := FillBuffer(c.decrypt, data);
    decrypted := Ok(buffer[..]);
  }

  /** Decryption gives the plain text back, with the padding still on it. */
  lemma DecryptEncrypted(c: Cipher, data: string)
    requires Sound(c)
    ensures Decrypted(c, Encrypted(c, data, true)) == Ok(Padded(data))
  {
    BlockwiseInverse(c, Padded(data));
  }
}
