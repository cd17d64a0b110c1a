/** The symbol codec shared by the senders and the receiver: text is turned
    into a bit string of 8-bit character codes, zero-padded to a multiple of
    the symbol width and cut into big-endian symbols; the receiver glues the
    symbols' digits back together, keeps whole bytes and strips trailing NUL
    characters. Also the two out-of-band framing values and the scramble
    mask. */
module Codec {
  import opened Bits

  /** The START marker, `1 << bits`: one more than the largest data symbol. */
  function Start(bits: nat): nat
  {
    Pow2(bits)
  }

  /** The END marker, `(1 << bits) + 1`. */
  function End(bits: nat): nat
  {
    Pow2(bits) + 1
  }

  /** `make_mask(idx, bits)`: a pseudo-random value in [0, 2^bits) drawn from
      a generator seeded by the session key and the symbol index. Only its
      range matters to the protocol, so any function with that range is a
      mask; the sender and the receiver are given the same one. */
  type Mask = f: (nat, nat) -> nat | forall idx: nat, bits: nat :: f(idx, bits) < Pow2(bits)
    witness (idx: nat, bits: nat) => 0

  /** `[x] * n`, built from the front. */
  function Repeat<T>(x: T, n: nat): (r: seq<T>)
    ensures |r| == n
    ensures forall i :: 0 <= i < n ==> r[i] == x
  {
    if n == 0 then [] else Repeat(x, n - 1) + [x]
  }

  /** Every character has an 8-bit code, so `f"{ord(c):08b}"` is 8 digits. */
  predicate Latin1(t: string)
  {
    forall i :: 0 <= i < |t| ==> t[i] as int < 256
  }

  /** `"".join(f"{ord(c):08b}" for c in txt)`. */
  function TextBits(t: string): seq<bool>
  {
    if t == [] then [] else Format(t[0] as nat, 8) + TextBits(t[1..])
  }

  lemma {:induction false} TextBitsLength(t: string)
    requires Latin1(t)
    ensures |TextBits(t)| == 8 * |t|
  {
    if t != [] {
      FormatFits(t[0] as nat, 8);
      TextBitsLength(t[1..]);
    }
  }

  /** `[int(bs[i:i+w], 2) for i in range(0, len(bs), w)]`; the last slice is
      shorter when `|bs|` is not a multiple of `w`. */
  function Chunks(bs: seq<bool>, w: nat): (r: seq<nat>)
    requires w >= 1
    ensures forall i :: 0 <= i < |r| ==> r[i] < Pow2(w)
    decreases |bs|
  {
    if bs == [] then []
    else
      var k := if |bs| < w then |bs| else w;
      Pow2Monotone(k, w);
      [BitsValue(bs[..k])] + Chunks(bs[k..], w)
  }

  /** `text_to_symbols(txt, bits)`: pad the character bits with
      `(-len) % bits` zeros and cut them into `bits`-wide symbols. */
  function TextToSymbols(txt: string, bits: nat): (r: seq<nat>)
    requires bits >= 1
    ensures forall i :: 0 <= i < |r| ==> r[i] < Pow2(bits)
  {
    var bs := TextBits(txt);
    Chunks(bs + Repeat(false, PadLen(|bs|, bits)), bits)
  }

  /** `(-n) % bits`: the number of zeros that bring `n` bits up to a
      multiple of `bits` (Python's `%` is never negative for a positive
      divisor, like Dafny's). */
  function PadLen(n: nat, bits: nat): nat
    requires bits >= 1
  {
    (0 - n) % bits
  }

  /** `"".join(f'{s:0{bits}b}' for s in symbols)`. */
  function SymbolBits(symbols: seq<nat>, bits: nat): seq<bool>
  {
    if symbols == [] then [] else Format(symbols[0], bits) + SymbolBits(symbols[1..], bits)
  }

  /** `chr(int(bs[i:i+8], 2)) for i in range(0, len(bs), 8)`; the last
      slice is shorter when `|bs|` is not a multiple of 8. */
  function DecodeBytes(bs: seq<bool>): string
    decreases |bs|
  {
    if bs == [] then []
    else
      var k := if |bs| < 8 then |bs| else 8;
      Pow2Monotone(k, 8);
      assert Pow2(8) == 256;
      [BitsValue(bs[..k]) as char] + DecodeBytes(bs[k..])
  }

  lemma Latin1Cons(c: char, rest: string)
    requires c as int < 256 && Latin1(rest)
    ensures Latin1([c] + rest)
  {
    var s := [c] + rest;
    forall i | 0 <= i < |s|
      ensures s[i] as int < 256
    {
      if i > 0 {
        assert s[i] == rest[i - 1];
      }
    }
  }

  /** Every decoded character has an 8-bit code. */
  lemma {:induction false} DecodeLatin1(bs: seq<bool>)
    ensures Latin1(DecodeBytes(bs))
    decreases |bs|
  {
    if bs != [] {
      var k := if |bs| < 8 then |bs| else 8;
      var c := BitsValue(bs[..k]);
      assert c < 256 by {
        Pow2Monotone(k, 8);
        assert Pow2(8) == 256;
      }
      DecodeLatin1(bs[k..]);
      assert DecodeBytes(bs) == [c as char] + DecodeBytes(bs[k..]);
      Latin1Cons(c as char, DecodeBytes(bs[k..]));
    }
  }

  /** Whole bytes decode to one character each. */
  lemma {:induction false} DecodeLength(bs: seq<bool>)
    requires |bs| % 8 == 0
    ensures 8 * |DecodeBytes(bs)| == |bs|
    decreases |bs|
  {
    if bs != [] {
      DecodeLength(bs[8..]);
    }
  }

  /** `bs[: len(bs) - len(bs) % 8]`: the bits of the whole bytes. */
  function WholeBytes(bs: seq<bool>): seq<bool>
  {
    bs[..|bs| - |bs| % 8]
  }

  /** The kept digits are a prefix holding exactly the whole bytes. */
  lemma WholeBytesShape(bs: seq<bool>)
    ensures var r := WholeBytes(bs);
      && |r| % 8 == 0 && |r| / 8 == |bs| / 8
      && r == bs[..|r|]
  {
  }

  /** `s.rstrip('\x00')`: the longest prefix of `s` that does not end in NUL
      and is followed by NULs only. */
  function RStripNul(s: string): (r: string)
    ensures |r| <= |s| && r == s[..|r|]
    ensures forall i :: |r| <= i < |s| ==> s[i] == '\0'
    ensures r == [] || r[|r| - 1] != '\0'
  {
    if s != [] && s[|s| - 1] == '\0' then RStripNul(s[..|s| - 1]) else s
  }

  /** `bits_to_text(symbols, bits)`: the symbols' digits, cut down to whole
      bytes, decoded one character per byte, trailing NULs stripped. */
  function BitsToText(symbols: seq<nat>, bits: nat): string
  {
    RStripNul(DecodeBytes(WholeBytes(SymbolBits(symbols, bits))))
  }

  /** The decoded text is 8-bit, holds at most one character per whole
      byte of digits and does not end in NUL. */
  lemma BitsToTextShape(symbols: seq<nat>, bits: nat)
    ensures var r := BitsToText(symbols, bits);
      && Latin1(r)
      && |r| <= |SymbolBits(symbols, bits)| / 8
      && (r == [] || r[|r| - 1] != '\0')
  {
    var text := DecodeBytes(WholeBytes(SymbolBits(symbols, bits)));
    WholeBytesShape(SymbolBits(symbols, bits));
    DecodeLatin1(WholeBytes(SymbolBits(symbols, bits)));
    DecodeLength(WholeBytes(SymbolBits(symbols, bits)));
    var r := RStripNul(text);
    assert forall i :: 0 <= i < |r| ==> r[i] == text[i];
  }

  /** Symbols that fit in `bits` digits are written with exactly `bits`
      digits each, so the decoder sees `len(symbols) * bits` bits. */
  lemma {:induction false} SymbolBitsLength(symbols: seq<nat>, bits: nat)
    requires bits >= 1
    requires forall i :: 0 <= i < |symbols| ==> symbols[i] < Pow2(bits)
    ensures |SymbolBits(symbols, bits)| == |symbols| * bits
  {
    if symbols != [] {
      var rest := symbols[1..];
      FormatFits(symbols[0], bits);
      SymbolBitsLength(rest, bits);
      assert |SymbolBits(symbols, bits)| == bits + |SymbolBits(rest, bits)|;
      MulSucc(|rest|, bits);
    }
  }

  /** A leading group of exactly `w` digits becomes the first symbol. */
  lemma ChunksCons(head: seq<bool>, tail: seq<bool>, w: nat)
    requires w >= 1 && |head| == w
    ensures Chunks(head + tail, w) == [BitsValue(head)] + Chunks(tail, w)
  {
    var bs := head + tail;
    assert bs[..w] == head && bs[w..] == tail;
  }

  /** One step of the round trip: a leading group of `w` digits becomes a
      symbol that is written back as the same digits. */
  lemma ChunksStep(head: seq<bool>, tail: seq<bool>, w: nat, c: seq<nat>)
    requires w >= 1 && |head| == w
    requires Chunks(tail, w) == c && SymbolBits(c, w) == tail
    ensures Chunks(head + tail, w) == [BitsValue(head)] + c
    ensures SymbolBits([BitsValue(head)] + c, w) == head + tail
  {
    ChunksCons(head, tail, w);
    ToBitsOfValue(head);
    FormatFits(BitsValue(head), w);
    assert ([BitsValue(head)] + c)[1..] == c;
  }

  /** `n` whole groups of `w` digits are one group followed by `n - 1`. */
  lemma FirstGroup(len: nat, w: nat, n: nat)
    requires len == n * w && n > 0
    ensures len >= w && len - w == (n - 1) * w
  {
    MulSucc(n - 1, w);
  }

  /** `n` whole groups of `w` digits make `n` symbols. */
  lemma {:induction false} ChunksCount(bs: seq<bool>, w: nat, n: nat)
    requires w >= 1 && |bs| == n * w
    ensures |Chunks(bs, w)| == n
  {
    if n > 0 {
      FirstGroup(|bs|, w, n);
      ChunksCount(bs[w..], w, n - 1);
    }
  }

  /** Cutting a string of `n` whole `w`-bit groups and writing the groups back
      out gives the string back. */
  lemma {:induction false} ChunksRoundTrip(bs: seq<bool>, w: nat, n: nat)
    requires w >= 1 && |bs| == n * w
    ensures SymbolBits(Chunks(bs, w), w) == bs
  {
    if n > 0 {
      FirstGroup(|bs|, w, n);
      var head, tail := bs[..w], bs[w..];
      ChunksRoundTrip(tail, w, n - 1);
      ChunksStep(head, tail, w, Chunks(tail, w));
      assert bs == head + tail;
    }
  }

  /** The other direction: cutting the digits of in-band symbols back into
      `w`-bit groups gives the symbols back. */
  lemma {:induction false} ChunksOfSymbolBits(symbols: seq<nat>, w: nat)
    requires w >= 1
    requires forall i :: 0 <= i < |symbols| ==> symbols[i] < Pow2(w)
    ensures Chunks(SymbolBits(symbols, w), w) == symbols
  {
    if symbols != [] {
      var head := Format(symbols[0], w);
      FormatFits(symbols[0], w);
      FormatValue(symbols[0], w);
      var rest := SymbolBits(symbols[1..], w);
      ChunksOfSymbolBits(symbols[1..], w);
      var bs := head + rest;
      assert bs[..w] == head && bs[w..] == rest;
    }
  }

  /** `L + (-L) % b` is a whole number of `b`-bit groups. */
  lemma PaddedLength(L: nat, b: nat) returns (n: nat)
    requires b >= 1
    ensures PadLen(L, b) < b
    ensures L + PadLen(L, b) == n * b
  {
    var m: int := 0 - L;
    var q := m / b;
    assert m == q * b + m % b;
    n := -q;
  }

  /** The layout of `text_to_symbols`: the symbols' digits are the text's
      bits followed by fewer than `bits` zeros, and there are exactly enough
      symbols to hold them. */
  lemma TextToSymbolsLayout(t: string, bits: nat)
    requires bits >= 1
    ensures var r := TextToSymbols(t, bits);
            var p := PadLen(|TextBits(t)|, bits);
            && p < bits
            && |r| * bits == |TextBits(t)| + p
            && SymbolBits(r, bits) == TextBits(t) + Repeat(false, p)
  {
    var bs := TextBits(t);
    var p := PadLen(|bs|, bits);
    var n := PaddedLength(|bs|, bits);
    ChunksCount(bs + Repeat(false, p), bits, n);
    ChunksRoundTrip(bs + Repeat(false, p), bits, n);
  }

  /** `text_to_symbols` yields the fewest `bits`-wide symbols that cover the
      text's `8 * len(txt)` bits, i.e. `ceil(8 * len(txt) / bits)`. */
  lemma SymbolCount(t: string, bits: nat)
    requires bits >= 1 && Latin1(t)
    ensures |TextToSymbols(t, bits)| * bits >= 8 * |t|
    ensures (|TextToSymbols(t, bits)| - 1) * bits < 8 * |t|
  {
    TextToSymbolsLayout(t, bits);
    TextBitsLength(t);
    var n := |TextToSymbols(t, bits)|;
    if n > 0 {
      MulSucc(n - 1, bits);
    }
  }

  /** A text produces symbols exactly when it is not empty. */
  lemma NoTextNoSymbols(t: string, bits: nat)
    requires bits >= 1 && Latin1(t)
    ensures TextToSymbols(t, bits) == [] <==> t == []
  {
    if t == [] {
      assert TextBits(t) + Repeat(false, PadLen(0, bits)) == [];
    } else {
      SymbolCount(t, bits);
    }
  }

  /** Every 8-bit character code is written with exactly 8 digits. */
  lemma ByteDigits(c: nat)
    requires c < 256
    ensures |Format(c, 8)| == 8
  {
    assert Pow2(8) == 256;
    FormatFits(c, 8);
  }

  /** One step of decoding: a leading byte of digits whose value is the
      code of `c` puts `c` in front of what the remaining digits decode to. */
  lemma DecodeStep(c: char, head: seq<bool>, t: string, tail: seq<bool>, rest: seq<bool>)
    requires |head| == 8 && BitsValue(head) == c as nat
    requires DecodeBytes(tail + rest) == t + DecodeBytes(rest)
    ensures DecodeBytes(head + tail + rest) == [c] + t + DecodeBytes(rest)
  {
    var bs := head + tail + rest;
    assert bs[..8] == head && bs[8..] == tail + rest;
  }

  lemma {:induction false} DecodeTextBits(t: string, rest: seq<bool>)
    requires Latin1(t)
    ensures DecodeBytes(TextBits(t) + rest) == t + DecodeBytes(rest)
  {
    if t != [] {
      var head := Format(t[0] as nat, 8);
      ByteDigits(t[0] as nat);
      FormatValue(t[0] as nat, 8);
      DecodeTextBits(t[1..], rest);
      DecodeStep(t[0], head, t[1..], TextBits(t[1..]), rest);
      assert TextBits(t) == head + TextBits(t[1..]);
      assert t == [t[0]] + t[1..];
    } else {
      assert TextBits(t) + rest == rest;
    }
  }

  lemma {:induction false} ValueOfZeros(bs: seq<bool>)
    requires forall i :: 0 <= i < |bs| ==> !bs[i]
    ensures BitsValue(bs) == 0
  {
    if bs != [] {
      ValueOfZeros(bs[..|bs| - 1]);
    }
  }

  lemma {:induction false} DecodeZeros(k: nat)
    ensures DecodeBytes(Repeat(false, 8 * k)) == Repeat('\0', k)
  {
    if k > 0 {
      var z := Repeat(false, 8 * k);
      ValueOfZeros(z[..8]);
      assert z[8..] == Repeat(false, 8 * (k - 1));
      DecodeZeros(k - 1);
      assert Repeat('\0', k) == [ '\0' ] + Repeat('\0', k - 1);
    }
  }

  lemma {:induction false} StripAppendedNuls(t: string, k: nat)
    ensures RStripNul(t + Repeat('\0', k)) == RStripNul(t)
  {
    if k > 0 {
      var s := t + Repeat('\0', k);
      assert s[..|s| - 1] == t + Repeat('\0', k - 1);
      StripAppendedNuls(t, k - 1);
    } else {
      assert t + Repeat('\0', k) == t;
    }
  }

  lemma WholeByteCount(k: nat)
    ensures (8 * k) % 8 == 0
  {
  }

  /** Dropping the partial byte of `8 * m + p` bits keeps `8 * m + 8 * (p / 8)`. */
  lemma WholeLength(m: nat, p: nat)
    ensures 8 * (p / 8) <= p
    ensures (8 * m + p) - (8 * m + p) % 8 == 8 * m + 8 * (p / 8)
  {
    assert 8 * m + p == 8 * (m + p / 8) + p % 8;
  }

  /** The first `k` of `p` zeros are `k` zeros. */
  lemma RepeatPrefix<T>(x: T, p: nat, k: nat)
    requires k <= p
    ensures Repeat(x, p)[..k] == Repeat(x, k)
  {
  }

  lemma WholeBytesOfPadded(tb: seq<bool>, p: nat)
    requires |tb| % 8 == 0
    ensures WholeBytes(tb + Repeat(false, p)) == tb + Repeat(false, 8 * (p / 8))
  {
    var bs := tb + Repeat(false, p);
    var m := |tb| / 8;
    var k := 8 * (p / 8);
    assert |tb| == 8 * m;
    WholeLength(m, p);
    assert |bs| == 8 * m + p;
    assert WholeBytes(bs) == bs[..|tb| + k];
    RepeatPrefix(false, p, k);
    assert bs[..|tb| + k] == tb + Repeat(false, p)[..k];
  }

  /** Decoding what `text_to_symbols` produced recovers the text up to its
      trailing NUL characters, for every symbol width. The padding zeros
      either fall in the discarded partial byte or decode as NULs that
      `rstrip` removes. */
  lemma TextRoundTrip(t: string, bits: nat)
    requires bits >= 1 && Latin1(t)
    ensures BitsToText(TextToSymbols(t, bits), bits) == RStripNul(t)
  {
    var tb := TextBits(t);
    var p := PadLen(|tb|, bits);
    TextToSymbolsLayout(t, bits);
    TextBitsLength(t);
    var k := p / 8;
    var syms := TextToSymbols(t, bits);
    assert SymbolBits(syms, bits) == tb + Repeat(false, p);
    WholeByteCount(|t|);
    WholeBytesOfPadded(tb, p);
    var kept := WholeBytes(SymbolBits(syms, bits));
    assert kept == tb + Repeat(false, 8 * k);
    var zeros := Repeat(false, 8 * k);
    WholeByteCount(k);
    DecodeTextBits(t, zeros);
    DecodeZeros(k);
    assert DecodeBytes(kept) == t + Repeat('\0', k);
    StripAppendedNuls(t, k);
    assert BitsToText(syms, bits) == RStripNul(DecodeBytes(kept));
  }

  /** The round trip is exact when the text does not end in NUL. */
  lemma RoundTrip(t: string, bits: nat)
    requires bits >= 1 && Latin1(t)
    requires t == [] || t[|t| - 1] != '\0'
    ensures BitsToText(TextToSymbols(t, bits), bits) == t
  {
    TextRoundTrip(t, bits);
  }

  /** A character at or above 256 is written with more than 8 digits by
      `f"{ord(c):08b}"`, but the receiver reads 8 digits per character, so
      a text holding one never comes back unchanged. */
  lemma WideTextLost(t: string, bits: nat)
    requires bits >= 1 && !Latin1(t)
    ensures BitsToText(TextToSymbols(t, bits), bits) != t
  {
    BitsToTextShape(TextToSymbols(t, bits), bits);
  }

  lemma CapitalHBits()
    ensures Format(72, 8) == ToBits(4, 4) + ToBits(8, 4)
  {
    assert Pow2(8) == 256;
    FormatFits(72, 8);
  }

  lemma SmallIBits()
    ensures Format(105, 8) == ToBits(6, 4) + ToBits(9, 4)
  {
    assert Pow2(8) == 256;
    FormatFits(105, 8);
  }

  lemma NibbleDigits()
    ensures Format(4, 4) == ToBits(4, 4) && Format(8, 4) == ToBits(8, 4)
    ensures Format(6, 4) == ToBits(6, 4) && Format(9, 4) == ToBits(9, 4)
  {
    assert Pow2(4) == 16;
    FormatFits(4, 4);
    FormatFits(8, 4);
    FormatFits(6, 4);
    FormatFits(9, 4);
  }

  lemma Regroup(a: seq<bool>, b: seq<bool>, c: seq<bool>, d: seq<bool>)
    ensures (a + b) + (c + d) == a + (b + (c + (d + [])))
  {
  }

  lemma HiBits()
    ensures TextBits("Hi") + Repeat(false, PadLen(|TextBits("Hi")|, 4)) == SymbolBits([4, 8, 6, 9], 4)
  {
    assert 'H' as nat == 72 && 'i' as nat == 105;
    var h, i := Format(72, 8), Format(105, 8);
    assert "Hi"[1..] == "i" && "i"[1..] == [];
    assert TextBits("Hi") == h + (i + []);
    ByteDigits('H' as nat);
    ByteDigits('i' as nat);
    assert |TextBits("Hi")| == 16;
    assert PadLen(16, 4) == 0;
    assert TextBits("Hi") + Repeat(false, 0) == h + i;
    CapitalHBits();
    SmallIBits();
    NibbleDigits();
    var nibbles: seq<nat> := [4, 8, 6, 9];
    assert nibbles[1..] == [8, 6, 9] && nibbles[1..][1..] == [6, 9];
    assert nibbles[1..][1..][1..] == [9] && [9][1..] == [];
    assert SymbolBits(nibbles, 4) == Format(4, 4) + (Format(8, 4) + (Format(6, 4) + (Format(9, 4) + [])));
    Regroup(Format(4, 4), Format(8, 4), Format(6, 4), Format(9, 4));
  }

  /** The worked example: "Hi" is 0x48 0x69, i.e. the nibbles 4, 8, 6, 9. */
  lemma HiInNibbles()
    ensures TextToSymbols("Hi", 4) == [4, 8, 6, 9]
  {
    HiBits();
    assert Pow2(4) == 16;
    ChunksOfSymbolBits([4, 8, 6, 9], 4);
  }
}
