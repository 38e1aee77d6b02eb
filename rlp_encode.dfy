/** The RLP encoding capability of crates/core/src/rlp/encode.rs: an encoder appends the
    bytes of a value to a caller-owned byte sink, and reports how many bytes that is.
    The only instance the file defines is the one for `bool`. */
module RlpEncode {
  import opened RlpReference

  /** The caller-owned, growable, append-only byte sink (`&mut dyn BufMut`, a `Vec<u8>`
      for the default `length`); `data` is everything written so far. */
  class Sink {
    var data: seq<Byte>

    /** A fresh, empty buffer (`Vec::new()`). */
    constructor ()
      ensures data == []
    {
      data := [];
    }

    /** `BufMut::put_u8`: append one byte at the end. */
    method PutU8(b: Byte)
      modifies this
      ensures data == old(data) + [b]
    {
      data := data + [b];
    }
  }

  /** The bytes `encode` appends for a boolean: `true` is the RLP item of the one-byte
      string [0x01] (the single-byte shortcut) and `false` that of the empty string. */
  function BoolEncoding(v: bool): (r: seq<Byte>)
    ensures r == ShortString(if v then [0x01] else [])
    ensures |r| == 1
  {
    if v then [0x01] else [0x080]
  }

  /** `<bool as RLPEncode>::encode`: appends the encoding of `v` to `buf`, keeps what
      `buf` held before, and appends bytes that depend on `v` alone. */
  method EncodeBool(v: bool, buf: Sink)
    modifies buf
    ensures buf.data == old(buf.data) + BoolEncoding(v)
    ensures |old(buf.data)| <= |buf.data| && buf.data[..|old(buf.data)|] == old(buf.data)
    ensures buf.data[|old(buf.data)|..] == BoolEncoding(v)
  {
    if v {
      buf.PutU8(0x01);
    } else {
      buf.PutU8(0x080);
    }
  }

  /** The trait's default `length`, as it would run for a boolean: encode into a fresh
      scratch buffer and measure it. It allocates its own buffer and modifies no
      object the caller holds. */
  method DefaultLength(v: bool) returns (n: nat)
    ensures n == |BoolEncoding(v)|
    ensures n == BoolLength(v)
  {
    var scratch := new Sink();
    EncodeBool(v, scratch);
    n := |scratch.data|;
  }

  /** `<bool as RLPEncode>::length`: the override returns 1 without encoding; it equals
      the number of bytes `encode` appends. */
  function BoolLength(v: bool): (n: nat)
    ensures n == |BoolEncoding(v)|
  {
    1
  }

  /** `true` appends exactly [0x01]; `false` exactly [0x80] (the literal 0x080 is 128). */
  lemma BoolEncodingBytes()
    ensures BoolEncoding(true) == [0x01]
    ensures BoolEncoding(false) == [128]
  {
  }

  /** Distinct booleans have distinct encodings. */
  lemma BoolEncodingInjective(v: bool, w: bool)
    ensures BoolEncoding(v) == BoolEncoding(w) <==> v == w
  {
  }

  /** The contents a buffer gains when the booleans `vs` are encoded into it one after
      another, in order (each call of `EncodeBool` appends `BoolEncoding` of its value). */
  function EncodeEach(vs: seq<bool>): (r: seq<Byte>)
    ensures |r| == |vs|
  {
    if vs == [] then [] else EncodeEach(vs[..|vs| - 1]) + BoolEncoding(vs[|vs| - 1])
  }

  /** The byte at position `i` of booleans encoded one after another is the encoding of
      the `i`-th boolean. */
  lemma {:induction false} EncodeEachAt(vs: seq<bool>, i: nat)
    requires i < |vs|
    ensures [EncodeEach(vs)[i]] == BoolEncoding(vs[i])
  {
    var init := vs[..|vs| - 1];
    assert EncodeEach(vs) == EncodeEach(init) + BoolEncoding(vs[|vs| - 1]);
    if i < |init| {
      EncodeEachAt(init, i);
    }
  }

  /** Encoding `a` and then `b` into one buffer leaves the same bytes as encoding `a + b`. */
  lemma {:induction false} EncodeEachAppend(a: seq<bool>, b: seq<bool>)
    ensures EncodeEach(a + b) == EncodeEach(a) + EncodeEach(b)
  {
    if b == [] {
      assert a + b == a;
    } else {
      var b', x := b[..|b| - 1], b[|b| - 1];
      assert (a + b)[..|a + b| - 1] == a + b' && (a + b)[|a + b| - 1] == x;
      calc {
        EncodeEach(a + b);
        EncodeEach(a + b') + BoolEncoding(x);
        { EncodeEachAppend(a, b'); }
        EncodeEach(a) + EncodeEach(b') + BoolEncoding(x);
        EncodeEach(a) + EncodeEach(b);
      }
    }
  }

  /** A buffer filled by encoding booleans one after another determines which booleans
      were encoded, and in which order. */
  lemma {:induction false} EncodeEachInjective(a: seq<bool>, b: seq<bool>)
    requires EncodeEach(a) == EncodeEach(b)
    ensures a == b
  {
    forall i | 0 <= i < |a|
      ensures a[i] == b[i]
    {
      EncodeEachAt(a, i);
      EncodeEachAt(b, i);
      BoolEncodingInjective(a[i], b[i]);
    }
  }

  /** The boolean encodings form a prefix-free code: if the bytes of `a` begin the bytes
      of `b`, then `a` begins `b`, so a reader can stop after any number of values. */
  lemma {:induction false} EncodeEachPrefix(a: seq<bool>, b: seq<bool>)
    requires |EncodeEach(a)| <= |EncodeEach(b)|
    requires EncodeEach(b)[..|EncodeEach(a)|] == EncodeEach(a)
    ensures |a| <= |b| && b[..|a|] == a
  {
    var rest := b[|a|..];
    assert b == b[..|a|] + rest;
    EncodeEachAppend(b[..|a|], rest);
    EncodeEachInjective(a, b[..|a|]);
  }
}
