/** The byte layout of a Qubic transaction, as the front end decodes it.
    With K the public-key length and S the signature length (both constants
    of the Qubic library, parameters here):

      [0, K)              source public key
      [K, 2K)             destination public key
      [2K, 2K+8)          amount (eight bytes, handed to the library's Long)
      [2K+8, 2K+12)       tick, unsigned 32-bit little-endian
      [2K+12, 2K+14)      input type, unsigned 16-bit little-endian
      [2K+14, 2K+16)      input size n, unsigned 16-bit little-endian
      [2K+16, 2K+16+n)    payload, present only when n > 0
      [2K+16+n, ..+S)     signature

    The slices clamp at the end of the buffer, as `Uint8Array.slice` does; a
    buffer too short for the fixed header makes a DataView read throw. */
module TxCodec {
  import opened Wrappers

  newtype Byte = x: int | 0 <= x < 256

  /** The unsigned little-endian value of a byte string. */
  function LittleEndian(b: seq<Byte>): nat
  {
    if b == [] then 0 else (b[0] as nat) + 256 * LittleEndian(b[1..])
  }

  /** The n-byte little-endian encoding of v. */
  function ToLittleEndian(v: nat, n: nat): (b: seq<Byte>)
    ensures |b| == n
  {
    if n == 0 then [] else [(v % 256) as Byte] + ToLittleEndian(v / 256, n - 1)
  }

  function Pow256(n: nat): (p: nat)
    ensures p >= 1
  {
    if n == 0 then 1 else 256 * Pow256(n - 1)
  }

  /** The little-endian value of n bytes is below 256^n. */
  lemma {:induction false} LittleEndianBound(b: seq<Byte>)
    ensures LittleEndian(b) < Pow256(|b|)
  {
    if b != [] {
      LittleEndianBound(b[1..]);
    }
  }

  /** Encoding a value below 256^n and reading it back gives the value. */
  lemma {:induction false} ReadAfterWrite(v: nat, n: nat)
    requires v < Pow256(n)
    ensures LittleEndian(ToLittleEndian(v, n)) == v
  {
    if n > 0 {
      ReadAfterWrite(v / 256, n - 1);
      var b := ToLittleEndian(v, n);
      assert b[1..] == ToLittleEndian(v / 256, n - 1);
    }
  }

  /** Reading bytes and encoding the value back gives the bytes. */
  lemma {:induction false} WriteAfterRead(b: seq<Byte>)
    ensures ToLittleEndian(LittleEndian(b), |b|) == b
  {
    if b != [] {
      WriteAfterRead(b[1..]);
      var v := LittleEndian(b);
      assert v % 256 == b[0] as int;
      assert v / 256 == LittleEndian(b[1..]);
    }
  }

  /** `getUint16(0, true)` on two bytes. */
  lemma Uint16Reading(b0: Byte, b1: Byte)
    ensures LittleEndian([b0, b1]) == b0 as int + 256 * b1 as int
    ensures LittleEndian([b0, b1]) < 65536
  {
    assert LittleEndian([b1]) == b1 as int by {
      assert [b1][1..] == [];
    }
    assert [b0, b1][1..] == [b1];
  }

  /** `getUint32(0, true)` on four bytes. */
  lemma Uint32Reading(b0: Byte, b1: Byte, b2: Byte, b3: Byte)
    ensures LittleEndian([b0, b1, b2, b3]) ==
      b0 as int + 256 * b1 as int + 65536 * b2 as int + 16777216 * b3 as int
  {
    Uint16Reading(b2, b3);
    assert [b1, b2, b3][1..] == [b2, b3];
    assert LittleEndian([b1, b2, b3]) == b1 as int + 256 * LittleEndian([b2, b3]);
    assert [b0, b1, b2, b3][1..] == [b1, b2, b3];
  }

  /** `tx.slice(from, to)`: clamped at the end of the buffer. */
  function Slice(tx: seq<Byte>, from: nat, to: nat): (r: seq<Byte>)
    ensures to <= |tx| && from <= to ==> r == tx[from..to]
    ensures |r| <= |tx|
  {
    var lo := if from <= |tx| then from else |tx|;
    var hi := if to <= |tx| then to else |tx|;
    if lo <= hi then tx[lo..hi] else []
  }

  datatype Transaction = Transaction(
    sourcePublicKey: seq<Byte>,
    destinationPublicKey: seq<Byte>,
    amount: seq<Byte>,
    tick: nat,
    inputType: nat,
    inputSize: nat,
    payload: Option<seq<Byte>>,
    signature: seq<Byte>)

  /** Offsets of the fields after the two public keys. */
  function HeaderLength(k: nat): nat { 2 * k + 16 }

  /** `decodeUint8ArrayTx`. None when the fixed header does not fit. */
  function Decode(tx: seq<Byte>, k: nat, s: nat): (t: Option<Transaction>)
    ensures t.None? <==> |tx| < HeaderLength(k)
    ensures t.Some? ==>
      && t.value.sourcePublicKey == tx[0..k]
      && t.value.destinationPublicKey == tx[k..2 * k]
      && t.value.amount == tx[2 * k..2 * k + 8]
      && t.value.tick == LittleEndian(tx[2 * k + 8..2 * k + 12])
      && t.value.inputType == LittleEndian(tx[2 * k + 12..2 * k + 14])
      && t.value.inputSize == LittleEndian(tx[2 * k + 14..2 * k + 16])
      && t.value.tick < 0x1_0000_0000 && t.value.inputType < 0x1_0000 && t.value.inputSize < 0x1_0000
      && (t.value.payload.Some? <==> t.value.inputSize > 0)
  {
    if |tx| < HeaderLength(k) then None
    else
      var inputSize := LittleEndian(tx[2 * k + 14..2 * k + 16]);
      var payloadStart := 2 * k + 16;
      var payloadEnd := payloadStart + inputSize;
      var signatureEnd := payloadEnd + s;
      LittleEndianBound(tx[2 * k + 8..2 * k + 12]);
      LittleEndianBound(tx[2 * k + 12..2 * k + 14]);
      LittleEndianBound(tx[2 * k + 14..2 * k + 16]);
      Some(Transaction(
        Slice(tx, 0, k),
        Slice(tx, k, 2 * k),
        Slice(tx, 2 * k, 2 * k + 8),
        LittleEndian(Slice(tx, 2 * k + 8, 2 * k + 12)),
        LittleEndian(Slice(tx, 2 * k + 12, 2 * k + 14)),
        inputSize,
        if inputSize > 0 then Some(Slice(tx, payloadStart, payloadEnd)) else None,
        Slice(tx, payloadEnd, signatureEnd)))
  }

  /** When the buffer holds the whole payload and signature, they are the
      exact byte ranges the input size determines. */
  lemma DecodeFullBuffer(tx: seq<Byte>, k: nat, s: nat)
    requires |tx| >= HeaderLength(k)
    requires |tx| >= HeaderLength(k) + LittleEndian(tx[2 * k + 14..2 * k + 16]) + s
    ensures var t := Decode(tx, k, s).value;
      var payloadEnd := HeaderLength(k) + t.inputSize;
      && (t.payload.Some? ==> t.payload.value == tx[HeaderLength(k)..payloadEnd])
      && t.signature == tx[payloadEnd..payloadEnd + s]
  {
  }

  /** A transaction whose fields fit the layout. */
  predicate WellFormed(t: Transaction, k: nat, s: nat)
  {
    && |t.sourcePublicKey| == k && |t.destinationPublicKey| == k && |t.amount| == 8
    && t.tick < 0x1_0000_0000 && t.inputType < 0x1_0000 && t.inputSize < 0x1_0000
    && (t.payload.Some? <==> t.inputSize > 0)
    && (t.payload.Some? ==> |t.payload.value| == t.inputSize)
    && |t.signature| == s
  }

  /** The fixed header of a well-formed transaction. */
  function Header(t: Transaction): seq<Byte>
  {
    t.sourcePublicKey + t.destinationPublicKey + t.amount
    + ToLittleEndian(t.tick, 4) + ToLittleEndian(t.inputType, 2) + ToLittleEndian(t.inputSize, 2)
  }

  /** The bytes of a well-formed transaction in layout order. */
  function Encode(t: Transaction, k: nat, s: nat): (tx: seq<Byte>)
    requires WellFormed(t, k, s)
    ensures |tx| == HeaderLength(k) + t.inputSize + s
  {
    Header(t) + (if t.payload.Some? then t.payload.value else []) + t.signature
  }

  lemma Pow256Values()
    ensures Pow256(2) == 0x1_0000 && Pow256(4) == 0x1_0000_0000
  {
    assert Pow256(1) == 256;
    assert Pow256(3) == 0x100_0000;
  }

  /** Where each field sits in the header. */
  lemma HeaderFields(t: Transaction, k: nat)
    requires |t.sourcePublicKey| == k && |t.destinationPublicKey| == k && |t.amount| == 8
    ensures var h := Header(t);
      && |h| == HeaderLength(k)
      && h[0..k] == t.sourcePublicKey
      && h[k..2 * k] == t.destinationPublicKey
      && h[2 * k..2 * k + 8] == t.amount
      && h[2 * k + 8..2 * k + 12] == ToLittleEndian(t.tick, 4)
      && h[2 * k + 12..2 * k + 14] == ToLittleEndian(t.inputType, 2)
      && h[2 * k + 14..2 * k + 16] == ToLittleEndian(t.inputSize, 2)
  {
    var a := t.sourcePublicKey + t.destinationPublicKey;
    var b := a + t.amount;
    var c := b + ToLittleEndian(t.tick, 4);
    var d := c + ToLittleEndian(t.inputType, 2);
    var h := d + ToLittleEndian(t.inputSize, 2);
    assert h == Header(t);
    assert h[..|d|] == d;
    assert d[..|c|] == c;
    assert c[..|b|] == b;
    assert b[..|a|] == a;
    assert h[2 * k + 14..2 * k + 16] == ToLittleEndian(t.inputSize, 2);
    assert h[2 * k + 12..2 * k + 14] == d[2 * k + 12..2 * k + 14];
    assert h[2 * k + 8..2 * k + 12] == c[2 * k + 8..2 * k + 12];
    assert h[2 * k..2 * k + 8] == b[2 * k..2 * k + 8];
    assert h[k..2 * k] == a[k..2 * k];
    assert h[0..k] == a[0..k];
  }

  /** The payload bytes (none when the input size is 0). */
  function Body(t: Transaction): seq<Byte>
  {
    if t.payload.Some? then t.payload.value else []
  }

  /** An encoding is the header, then the payload, then the signature. */
  lemma EncodeLayout(t: Transaction, k: nat, s: nat)
    requires WellFormed(t, k, s)
    ensures var tx := Encode(t, k, s);
      var n := HeaderLength(k);
      && |Header(t)| == n && |Body(t)| == t.inputSize
      && tx[..n] == Header(t) && tx[n..n + t.inputSize] == Body(t) && tx[n + t.inputSize..] == t.signature
  {
    HeaderFields(t, k);
    var tx := Encode(t, k, s);
    var n := HeaderLength(k);
    assert tx == Header(t) + Body(t) + t.signature;
    assert tx[n..n + t.inputSize] == (Header(t) + Body(t))[n..];
  }

  /** Decoding an encoded transaction gives it back. */
  lemma DecodeEncode(t: Transaction, k: nat, s: nat)
    requires WellFormed(t, k, s)
    ensures Decode(Encode(t, k, s), k, s) == Some(t)
  {
    var tx := Encode(t, k, s);
    EncodedFields(t, k, s);
    EncodeLayout(t, k, s);
    DecodeLaidOut(tx, t, k, s);
  }

  /** A buffer holding a well-formed transaction's fields at their offsets
      decodes to that transaction. */
  lemma DecodeLaidOut(tx: seq<Byte>, t: Transaction, k: nat, s: nat)
    requires WellFormed(t, k, s)
    requires |tx| == HeaderLength(k) + t.inputSize + s
    requires tx[0..k] == t.sourcePublicKey && tx[k..2 * k] == t.destinationPublicKey
    requires tx[2 * k..2 * k + 8] == t.amount
    requires tx[2 * k + 8..2 * k + 12] == ToLittleEndian(t.tick, 4)
    requires tx[2 * k + 12..2 * k + 14] == ToLittleEndian(t.inputType, 2)
    requires tx[2 * k + 14..2 * k + 16] == ToLittleEndian(t.inputSize, 2)
    requires tx[HeaderLength(k)..HeaderLength(k) + t.inputSize] == Body(t)
    requires tx[HeaderLength(k) + t.inputSize..] == t.signature
    ensures Decode(tx, k, s) == Some(t)
  {
    var n, size := HeaderLength(k), t.inputSize;
    NumbersReadBack(tx[2 * k + 8..2 * k + 12], tx[2 * k + 12..2 * k + 14], tx[2 * k + 14..2 * k + 16], t);
    WholeTail(tx, n + size);
    PayloadOfBody(t, tx[n..n + size]);
    DecodeMatches(tx, k, s, t);
  }

  lemma PayloadOfBody(t: Transaction, b: seq<Byte>)
    requires (t.payload.Some? <==> t.inputSize > 0) && b == Body(t)
    ensures (if t.inputSize > 0 then Some(b) else None) == t.payload
  {
  }

  /** A buffer matching a transaction field by field, in the decoder's own
      terms, decodes to it. */
  lemma DecodeMatches(tx: seq<Byte>, k: nat, s: nat, t: Transaction)
    requires |tx| >= HeaderLength(k)
    requires LittleEndian(tx[2 * k + 14..2 * k + 16]) == t.inputSize
    requires |tx| == HeaderLength(k) + t.inputSize + s
    requires tx[0..k] == t.sourcePublicKey && tx[k..2 * k] == t.destinationPublicKey
    requires tx[2 * k..2 * k + 8] == t.amount
    requires LittleEndian(tx[2 * k + 8..2 * k + 12]) == t.tick
    requires LittleEndian(tx[2 * k + 12..2 * k + 14]) == t.inputType
    requires (if t.inputSize > 0 then Some(tx[HeaderLength(k)..HeaderLength(k) + t.inputSize]) else None) == t.payload
    requires tx[HeaderLength(k) + t.inputSize..HeaderLength(k) + t.inputSize + s] == t.signature
    ensures Decode(tx, k, s) == Some(t)
  {
    var n := HeaderLength(k);
    DecodeExact(tx, k, s);
    SameFields(t, tx[0..k], tx[k..2 * k], tx[2 * k..2 * k + 8],
      LittleEndian(tx[2 * k + 8..2 * k + 12]), LittleEndian(tx[2 * k + 12..2 * k + 14]), t.inputSize,
      if t.inputSize > 0 then Some(tx[n..n + t.inputSize]) else None,
      tx[n + t.inputSize..n + t.inputSize + s]);
  }

  lemma SameFields(t: Transaction, a: seq<Byte>, b: seq<Byte>, c: seq<Byte>, d: nat, e: nat, f: nat,
                   g: Option<seq<Byte>>, h: seq<Byte>)
    requires t.sourcePublicKey == a && t.destinationPublicKey == b && t.amount == c
    requires t.tick == d && t.inputType == e && t.inputSize == f && t.payload == g && t.signature == h
    ensures Transaction(a, b, c, d, e, f, g, h) == t
  {
  }

  /** The three little-endian header numbers read back as written. */
  lemma NumbersReadBack(tick: seq<Byte>, inputType: seq<Byte>, inputSize: seq<Byte>, t: Transaction)
    requires t.tick < 0x1_0000_0000 && t.inputType < 0x1_0000 && t.inputSize < 0x1_0000
    requires tick == ToLittleEndian(t.tick, 4) && inputType == ToLittleEndian(t.inputType, 2)
    requires inputSize == ToLittleEndian(t.inputSize, 2)
    ensures LittleEndian(tick) == t.tick && LittleEndian(inputType) == t.inputType
    ensures LittleEndian(inputSize) == t.inputSize
  {
    Pow256Values();
    ReadAfterWrite(t.tick, 4);
    ReadAfterWrite(t.inputType, 2);
    ReadAfterWrite(t.inputSize, 2);
  }

  lemma WholeTail(tx: seq<Byte>, i: nat)
    requires i <= |tx|
    ensures tx[i..|tx|] == tx[i..]
  {
  }

  /** The decoding of a buffer of exactly the size its header calls for,
      field by field. */
  lemma DecodeExact(tx: seq<Byte>, k: nat, s: nat)
    requires |tx| >= HeaderLength(k)
    requires |tx| == HeaderLength(k) + LittleEndian(tx[2 * k + 14..2 * k + 16]) + s
    ensures var n, size := HeaderLength(k), LittleEndian(tx[2 * k + 14..2 * k + 16]);
      Decode(tx, k, s) == Some(Transaction(
        tx[0..k], tx[k..2 * k], tx[2 * k..2 * k + 8],
        LittleEndian(tx[2 * k + 8..2 * k + 12]), LittleEndian(tx[2 * k + 12..2 * k + 14]), size,
        if size > 0 then Some(tx[n..n + size]) else None,
        tx[n + size..n + size + s]))
  {
  }

  /** The header fields of an encoding, read at their offsets. */
  lemma EncodedFields(t: Transaction, k: nat, s: nat)
    requires WellFormed(t, k, s)
    ensures var tx := Encode(t, k, s);
      && tx[0..k] == t.sourcePublicKey
      && tx[k..2 * k] == t.destinationPublicKey
      && tx[2 * k..2 * k + 8] == t.amount
      && tx[2 * k + 8..2 * k + 12] == ToLittleEndian(t.tick, 4)
      && tx[2 * k + 12..2 * k + 14] == ToLittleEndian(t.inputType, 2)
      && tx[2 * k + 14..2 * k + 16] == ToLittleEndian(t.inputSize, 2)
  {
    var tx := Encode(t, k, s);
    var h := Header(t);
    EncodeLayout(t, k, s);
    HeaderFields(t, k);
    Prefixed(tx, h, 0, k);
    Prefixed(tx, h, k, 2 * k);
    Prefixed(tx, h, 2 * k, 2 * k + 8);
    Prefixed(tx, h, 2 * k + 8, 2 * k + 12);
    Prefixed(tx, h, 2 * k + 12, 2 * k + 14);
    Prefixed(tx, h, 2 * k + 14, 2 * k + 16);
  }

  lemma Prefixed(tx: seq<Byte>, h: seq<Byte>, i: nat, j: nat)
    requires |h| <= |tx| && tx[..|h|] == h && i <= j <= |h|
    ensures tx[i..j] == h[i..j]
  {
    forall m | 0 <= m < j - i ensures tx[i..j][m] == h[i..j][m] {
      assert tx[..|h|][i + m] == tx[i + m];
    }
  }

  lemma Adjacent(tx: seq<Byte>, i: nat, j: nat, l: nat)
    requires i <= j <= l <= |tx|
    ensures tx[i..j] + tx[j..l] == tx[i..l]
  {
  }

  /** A buffer of exactly the length its input size calls for is the
      encoding of its decoding. */
  lemma EncodeDecode(tx: seq<Byte>, k: nat, s: nat)
    requires |tx| >= HeaderLength(k)
    requires |tx| == HeaderLength(k) + LittleEndian(tx[2 * k + 14..2 * k + 16]) + s
    ensures Decode(tx, k, s).Some? && WellFormed(Decode(tx, k, s).value, k, s)
    ensures Encode(Decode(tx, k, s).value, k, s) == tx
  {
    var t := Decode(tx, k, s).value;
    var n := HeaderLength(k);
    DecodedParts(tx, k, s);
    DecodedHeader(tx, k, s);
    assert Encode(t, k, s) == Header(t) + Body(t) + t.signature;
    ThreeSlices(tx, n, n + t.inputSize);
  }

  /** The decoding of an exactly sized buffer is well formed, and its
      payload and signature are the buffer's two tail ranges. */
  lemma DecodedParts(tx: seq<Byte>, k: nat, s: nat)
    requires |tx| >= HeaderLength(k)
    requires |tx| == HeaderLength(k) + LittleEndian(tx[2 * k + 14..2 * k + 16]) + s
    ensures var t := Decode(tx, k, s).value;
      && WellFormed(t, k, s)
      && Body(t) == tx[HeaderLength(k)..HeaderLength(k) + t.inputSize]
      && t.signature == tx[HeaderLength(k) + t.inputSize..]
  {
    var t := Decode(tx, k, s).value;
    var n := HeaderLength(k);
    DecodeFullBuffer(tx, k, s);
    assert tx[n + t.inputSize..n + t.inputSize + s] == tx[n + t.inputSize..];
  }

  lemma ThreeSlices(tx: seq<Byte>, i: nat, j: nat)
    requires i <= j <= |tx|
    ensures tx == tx[..i] + tx[i..j] + tx[j..]
  {
  }

  /** The header of a decoded transaction is the buffer's first bytes. */
  lemma DecodedHeader(tx: seq<Byte>, k: nat, s: nat)
    requires |tx| >= HeaderLength(k)
    ensures Header(Decode(tx, k, s).value) == tx[..HeaderLength(k)]
  {
    var t := Decode(tx, k, s).value;
    WriteAfterRead(tx[2 * k + 8..2 * k + 12]);
    WriteAfterRead(tx[2 * k + 12..2 * k + 14]);
    WriteAfterRead(tx[2 * k + 14..2 * k + 16]);
    SixFields(tx, k, t.sourcePublicKey, t.destinationPublicKey, t.amount,
      ToLittleEndian(t.tick, 4), ToLittleEndian(t.inputType, 2), ToLittleEndian(t.inputSize, 2));
  }

  /** Six adjacent ranges of the header put back together. */
  lemma SixFields(tx: seq<Byte>, k: nat, f0: seq<Byte>, f1: seq<Byte>, f2: seq<Byte>,
                  f3: seq<Byte>, f4: seq<Byte>, f5: seq<Byte>)
    requires |tx| >= HeaderLength(k)
    requires f0 == tx[0..k] && f1 == tx[k..2 * k] && f2 == tx[2 * k..2 * k + 8]
    requires f3 == tx[2 * k + 8..2 * k + 12] && f4 == tx[2 * k + 12..2 * k + 14]
    requires f5 == tx[2 * k + 14..2 * k + 16]
    ensures f0 + f1 + f2 + f3 + f4 + f5 == tx[..HeaderLength(k)]
  {
    assert f0 + f1 == tx[0..2 * k] by {
      Adjacent(tx, 0, k, 2 * k);
    }
    assert f0 + f1 + f2 == tx[0..2 * k + 8] by {
      Adjacent(tx, 0, 2 * k, 2 * k + 8);
    }
    assert f0 + f1 + f2 + f3 == tx[0..2 * k + 12] by {
      Adjacent(tx, 0, 2 * k + 8, 2 * k + 12);
    }
    assert f0 + f1 + f2 + f3 + f4 == tx[0..2 * k + 14] by {
      Adjacent(tx, 0, 2 * k + 12, 2 * k + 14);
    }
    Adjacent(tx, 0, 2 * k + 14, HeaderLength(k));
  }

}
