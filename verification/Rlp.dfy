/** Recursive Length Prefix: the encoder of the original, the item reader it calls (Appendix B of the Ethereum
    Yellow Paper, canonical encodings only), and the proof that they are exact inverses. */
module Rlp {
  import opened Prelude

  // ── Big-endian numbers ────────────────────────────────────────────────

  /** `to_be_bytes` at a fixed width; higher digits are dropped. */
  function ToBe(n: nat, width: nat): (r: Bytes)
    ensures |r| == width
  {
    if width == 0 then [] else ToBe(n / 256, width - 1) + [n % 256]
  }

  function SkipZeros(s: Bytes): Bytes {
    if s != [] && s[0] == 0 then SkipZeros(s[1..]) else s
  }

  /** The significant bytes of a number held in `width` bytes. */
  function Significant(n: nat, width: nat): Bytes {
    SkipZeros(ToBe(n, width))
  }

  function BeNat(s: Bytes): nat {
    if s == [] then 0 else BeNat(s[..|s| - 1]) * 256 + s[|s| - 1]
  }

  lemma Pow256Values()
    ensures Power(256, 8) == U64_LIMIT && Power(256, 16) == U128_LIMIT
  {
    assert Power(256, 4) == U32_LIMIT;
    assert Power(256, 8) == U64_LIMIT;
    assert Power(256, 12) == U64_LIMIT * U32_LIMIT;
  }

  lemma {:induction false} BeNatBound(s: Bytes)
    ensures BeNat(s) < Power(256, |s|)
  {
    if s != [] {
      BeNatBound(s[..|s| - 1]);
    }
  }

  /** Without a leading zero the value fills its length. */
  lemma {:induction false} BeNatLower(s: Bytes)
    requires s != [] && s[0] != 0
    ensures BeNat(s) >= Power(256, |s| - 1)
  {
    if |s| > 1 {
      BeNatLower(s[..|s| - 1]);
    } else {
      assert BeNat(s[..0]) == 0;
    }
  }

  lemma {:induction false} Pow256Monotone(a: nat, b: nat)
    requires a <= b
    ensures 1 <= Power(256, a) <= Power(256, b)
    decreases b
  {
    if a < b {
      Pow256Monotone(a, b - 1);
    } else if a > 0 {
      Pow256Monotone(a - 1, b - 1);
    }
  }

  lemma {:induction false} BeNatOfToBe(n: nat, width: nat)
    requires n < Power(256, width)
    ensures BeNat(ToBe(n, width)) == n
  {
    if width > 0 {
      assert ToBe(n, width)[..width - 1] == ToBe(n / 256, width - 1);
      BeNatOfToBe(n / 256, width - 1);
    }
  }

  lemma {:induction false} BeNatOfSkipZeros(s: Bytes)
    ensures BeNat(SkipZeros(s)) == BeNat(s)
    ensures |SkipZeros(s)| <= |s|
    ensures SkipZeros(s) != [] ==> SkipZeros(s)[0] != 0
  {
    if s != [] && s[0] == 0 {
      BeNatOfSkipZeros(s[1..]);
      BeNatDropZero(s);
    }
  }

  lemma {:induction false} BeNatDropZero(s: Bytes)
    requires s != [] && s[0] == 0
    ensures BeNat(s) == BeNat(s[1..])
  {
    if |s| > 1 {
      BeNatDropZero(s[..|s| - 1]);
      assert s[1..][..|s| - 2] == s[..|s| - 1][1..];
    } else {
      assert BeNat(s[..0]) == 0;
    }
  }

  /** Two zero-free-prefixed byte strings of one value are equal. */
  lemma {:induction false} BeNatInjective(a: Bytes, b: Bytes)
    requires a != [] ==> a[0] != 0
    requires b != [] ==> b[0] != 0
    requires BeNat(a) == BeNat(b)
    ensures a == b
    decreases |a|
  {
    if a == [] || b == [] {
      if a != [] { BeNatLower(a); Pow256Monotone(0, |a| - 1); }
      if b != [] { BeNatLower(b); Pow256Monotone(0, |b| - 1); }
    } else {
      var (ia, ib) := (a[..|a| - 1], b[..|b| - 1]);
      DigitsUnique(BeNat(ia), a[|a| - 1], BeNat(ib), b[|b| - 1]);
      BeNatInjective(ia, ib);
      assert a == ia + [a[|a| - 1]] && b == ib + [b[|b| - 1]];
    }
  }

  lemma DigitsUnique(x: nat, a: byte, y: nat, b: byte)
    requires x * 256 + a == y * 256 + b
    ensures x == y && a == b
  {
  }

  /** The significant bytes are the one canonical spelling of the value. */
  lemma SignificantExact(n: nat, width: nat)
    requires n < Power(256, width)
    ensures BeNat(Significant(n, width)) == n
    ensures |Significant(n, width)| <= width
    ensures Significant(n, width) == [] <==> n == 0
    ensures Significant(n, width) != [] ==> Significant(n, width)[0] != 0
  {
    var s := Significant(n, width);
    BeNatOfToBe(n, width);
    BeNatOfSkipZeros(ToBe(n, width));
    if s != [] {
      BeNatLower(s);
      Pow256Monotone(0, |s| - 1);
    }
  }

  // ── Encoder ───────────────────────────────────────────────────────────

  function LenPrefix(base: byte, len: nat): Bytes
    requires base == 0x80 || base == 0xc0
  {
    if len <= 55 then [base + len]
    else
      var sig := Significant(len, 8);
      SignificantWidth(len, 8);
      [base + 55 + |sig|] + sig
  }

  lemma SignificantWidth(n: nat, width: nat)
    ensures |Significant(n, width)| <= width
  {
    BeNatOfSkipZeros(ToBe(n, width));
  }

  function RlpBytes(payload: Bytes): Bytes {
    if |payload| == 1 && payload[0] < 0x80 then payload
    else LenPrefix(0x80, |payload|) + payload
  }

  /** `rlp_uint` of a `u128`. */
  function RlpUint(v: nat): Bytes {
    RlpBytes(Significant(v, 16))
  }

  function RlpList(items: seq<Bytes>): Bytes {
    var payload := Concat(items);
    LenPrefix(0xc0, |payload|) + payload
  }

  /** The trie key of a transaction index held in a `u64`. */
  function TrieIndexKey(i: nat): Bytes {
    if i == 0 then [0x80]
    else
      var sig := Significant(i, 8);
      SignificantWidth(i, 8);
      if |sig| == 1 && sig[0] < 0x80 then sig else [0x80 + |sig|] + sig
  }

  // ── Reader ────────────────────────────────────────────────────────────

  datatype Head = Head(list: bool, size: nat, length: nat)

  /** The header of the first item: whether it is a list, how many bytes the header takes, and the payload length. */
  function DecodeHead(buf: Bytes): Result<Head> {
    if buf == [] then Err("rlp: input too short")
    else
      var b := buf[0];
      if b < 0x80 then Ok(Head(false, 0, 1))
      else if b <= 0xb7 then
        if b == 0x81 && (|buf| < 2 || buf[1] < 0x80) then Err("rlp: non-canonical single byte")
        else Ok(Head(false, 1, b - 0x80))
      else if 0xc0 <= b <= 0xf7 then Ok(Head(true, 1, b - 0xc0))
      else
        var list := b >= 0xf8;
        var width := if list then b - 0xf7 else b - 0xb7;
        if |buf| < 1 + width then Err("rlp: input too short")
        else if buf[1] == 0 then Err("rlp: leading zero")
        else
          var length := BeNat(buf[1..1 + width]);
          if length < 56 then Err("rlp: non-canonical size") else Ok(Head(list, 1 + width, length))
  }

  datatype Item = Item(list: bool, payload: Bytes, rest: Bytes)

  function NextItem(buf: Bytes): Result<Item> {
    match DecodeHead(buf)
    case Err(m) => Err(m)
    case Ok(h) =>
      if |buf| < h.size + h.length then Err("rlp: short payload")
      else Ok(Item(h.list, buf[h.size..h.size + h.length], buf[h.size + h.length..]))
  }

  /** The one encoding of an item. */
  function RlpItem(list: bool, payload: Bytes): Bytes {
    if list then LenPrefix(0xc0, |payload|) + payload else RlpBytes(payload)
  }

  // ── Exactness ─────────────────────────────────────────────────────────

  lemma LongPrefix(base: byte, len: nat)
    requires base == 0x80 || base == 0xc0
    requires 55 < len < U64_LIMIT
    ensures var p := LenPrefix(base, len);
      2 <= |p| <= 9 && p[0] == base + 55 + (|p| - 1) && p[1] != 0 && BeNat(p[1..]) == len
  {
    Pow256Values();
    SignificantExact(len, 8);
    var sig := Significant(len, 8);
    assert LenPrefix(base, len) == [base + 55 + |sig|] + sig;
    assert LenPrefix(base, len)[1..] == sig;
  }

  /** The header read from a written prefix is the one that was meant. */
  lemma HeadOfPrefix(list: bool, len: nat, tail: Bytes)
    requires len < U64_LIMIT
    requires !list && len == 1 ==> tail != [] && tail[0] >= 0x80
    ensures var p := LenPrefix(if list then 0xc0 else 0x80, len);
      DecodeHead(p + tail) == Ok(Head(list, |p|, len))
  {
    var base := if list then 0xc0 else 0x80;
    var p := LenPrefix(base, len);
    var buf := p + tail;
    if len > 55 {
      LongPrefix(base, len);
      hide LenPrefix, BeNat;
      assert buf[1..|p|] == p[1..];
      assert buf[0] == p[0] && buf[1] == p[1];
    } else {
      assert p == [base + len];
    }
  }

  lemma PayloadAfterHead(list: bool, p: Bytes, payload: Bytes, rest: Bytes)
    requires DecodeHead(p + (payload + rest)) == Ok(Head(list, |p|, |payload|))
    ensures NextItem(p + (payload + rest)) == Ok(Item(list, payload, rest))
  {
    hide DecodeHead;
    var buf := p + (payload + rest);
    assert buf[|p|..] == payload + rest;
    assert buf[|p|..|p| + |payload|] == payload;
    assert buf[|p| + |payload|..] == rest;
  }

  lemma ReadsSingleByte(payload: Bytes, rest: Bytes)
    requires |payload| == 1 && payload[0] < 0x80
    ensures NextItem(payload + rest) == Ok(Item(false, payload, rest))
  {
    var buf := payload + rest;
    assert buf[0..1] == payload && buf[1..] == rest;
  }

  lemma ReadsPrefixed(list: bool, payload: Bytes, rest: Bytes)
    requires |payload| < U64_LIMIT
    requires !list && |payload| == 1 ==> payload[0] >= 0x80
    ensures NextItem(RlpItem(list, payload) + rest) == Ok(Item(list, payload, rest))
  {
    hide NextItem, LenPrefix, DecodeHead;
    var p := LenPrefix(if list then 0xc0 else 0x80, |payload|);
    HeadOfPrefix(list, |payload|, payload + rest);
    PayloadAfterHead(list, p, payload, rest);
    assert p + payload + rest == p + (payload + rest);
  }

  /** Reading back what was written, whatever follows it. */
  lemma ReadsEncoded(list: bool, payload: Bytes, rest: Bytes)
    requires |payload| < U64_LIMIT
    ensures NextItem(RlpItem(list, payload) + rest) == Ok(Item(list, payload, rest))
  {
    if !list && |payload| == 1 && payload[0] < 0x80 {
      ReadsSingleByte(payload, rest);
    } else {
      ReadsPrefixed(list, payload, rest);
    }
  }

  /** A decoded header that takes `size` bytes is the prefix the encoder writes for that length. */
  lemma OnlyCanonicalHead(buf: Bytes)
    requires DecodeHead(buf).Ok? && buf[0] >= 0x80
    ensures var h := DecodeHead(buf).value;
      h.size <= |buf| && h.length < U64_LIMIT && buf[..h.size] == LenPrefix(if h.list then 0xc0 else 0x80, h.length)
  {
    var h := DecodeHead(buf).value;
    if h.size > 1 {
      var digits := buf[1..h.size];
      BeNatBound(digits);
      Pow256Values();
      Pow256Monotone(|digits|, 8);
      SignificantExact(h.length, 8);
      BeNatInjective(digits, Significant(h.length, 8));
      assert buf[..h.size] == [buf[0]] + digits;
    } else {
      assert buf[..1] == [buf[0]];
    }
  }

  /** What is read is what the encoder writes: no other spelling of an item is accepted. */
  lemma OnlyEncodedIsRead(buf: Bytes)
    requires NextItem(buf).Ok?
    ensures var i := NextItem(buf).value; |i.payload| < U64_LIMIT && buf == RlpItem(i.list, i.payload) + i.rest
  {
    var i := NextItem(buf).value;
    var h := DecodeHead(buf).value;
    assert buf == buf[..h.size] + i.payload + i.rest;
    if buf[0] >= 0x80 {
      OnlyCanonicalHead(buf);
      hide LenPrefix;
      assert !i.list && |i.payload| == 1 ==> i.payload[0] >= 0x80;
    }
  }

  /** Encoder and reader are inverse, both ways. */
  lemma NextItemExact(buf: Bytes, list: bool, payload: Bytes, rest: Bytes)
    requires |payload| < U64_LIMIT
    ensures NextItem(buf) == Ok(Item(list, payload, rest)) <==> buf == RlpItem(list, payload) + rest
  {
    ReadsEncoded(list, payload, rest);
    if NextItem(buf) == Ok(Item(list, payload, rest)) {
      OnlyEncodedIsRead(buf);
    }
  }

  /** The trie key is the RLP of the index, and no key is a prefix of another: distinct transaction indexes
      address distinct trie entries. */
  lemma TrieIndexKeyPrefixFree(i: nat, j: nat, tail: Bytes)
    requires i < U64_LIMIT && j < U64_LIMIT
    requires TrieIndexKey(j) == TrieIndexKey(i) + tail
    ensures i == j && tail == []
  {
    Pow256Values();
    SignificantExact(i, 8);
    SignificantExact(j, 8);
    TrieIndexKeyIsRlp(i);
    TrieIndexKeyIsRlp(j);
    ReadsEncoded(false, Significant(i, 8), tail);
    ReadsEncoded(false, Significant(j, 8), []);
    assert TrieIndexKey(j) + [] == TrieIndexKey(j);
  }

  lemma TrieIndexKeyIsRlp(i: nat)
    requires i < U64_LIMIT
    ensures TrieIndexKey(i) == RlpItem(false, Significant(i, 8))
    ensures TrieIndexKey(i) == RlpUint(i)
  {
    Pow256Values();
    Pow256Monotone(8, 16);
    SignificantExact(i, 8);
    SignificantExact(i, 16);
    BeNatInjective(Significant(i, 8), Significant(i, 16));
  }

  // ── Sequences of items ────────────────────────────────────────────────

  datatype Field = Field(list: bool, payload: Bytes)

  function Encoded(f: Field): Bytes {
    RlpItem(f.list, f.payload)
  }

  ghost predicate FieldsFit(fields: seq<Field>) {
    forall k :: 0 <= k < |fields| ==> |fields[k].payload| < U64_LIMIT
  }

  lemma ItemShrinks(buf: Bytes)
    requires NextItem(buf).Ok?
    ensures |NextItem(buf).value.rest| < |buf|
  {
  }

  /** All the items of a buffer. */
  function ReadAll(buf: Bytes): Result<seq<Field>>
    decreases |buf|
  {
    if buf == [] then Ok([])
    else
      match NextItem(buf)
      case Err(m) => Err(m)
      case Ok(i) =>
        ItemShrinks(buf);
        match ReadAll(i.rest)
        case Err(m) => Err(m)
        case Ok(more) => Ok([Field(i.list, i.payload)] + more)
  }

  lemma ItemIsSome(list: bool, payload: Bytes)
    ensures RlpItem(list, payload) != []
  {
  }

  /** A buffer reads as a list of items exactly when it is their encodings, one after the other. */
  lemma {:induction false} ReadAllIff(buf: Bytes, fields: seq<Field>)
    ensures ReadAll(buf) == Ok(fields) <==> FieldsFit(fields) && buf == Concat(Map(Encoded, fields))
    decreases |buf|
  {
    hide NextItem, RlpItem;
    if fields != [] {
      var (f, rest) := (fields[0], Concat(Map(Encoded, fields[1..])));
      assert Map(Encoded, fields)[1..] == Map(Encoded, fields[1..]);
      ItemIsSome(f.list, f.payload);
      if |f.payload| < U64_LIMIT {
        NextItemExact(buf, f.list, f.payload, rest);
      }
    }
    if buf != [] && NextItem(buf).Ok? {
      var i := NextItem(buf).value;
      ItemShrinks(buf);
      ItemFits(buf);
      NextItemExact(buf, i.list, i.payload, i.rest);
      if fields != [] {
        ReadAllIff(i.rest, fields[1..]);
        assert fields == [fields[0]] + fields[1..];
      }
    }
  }

  lemma ItemFits(buf: Bytes)
    requires NextItem(buf).Ok?
    ensures |NextItem(buf).value.payload| < U64_LIMIT
  {
    OnlyEncodedIsRead(buf);
  }

  // ── Known encodings ───────────────────────────────────────────────────

  /** Fixed vectors: the empty string, a word, and one byte on either side of 0x80. */
  lemma KnownStrings()
    ensures RlpBytes([]) == [0x80]
    ensures RlpBytes([0x64, 0x6f, 0x67]) == [0x83, 0x64, 0x6f, 0x67]
    ensures RlpBytes([0x0f]) == [0x0f] && RlpBytes([0x80]) == [0x81, 0x80]
  {
  }

  lemma KnownIntegers()
    ensures RlpUint(0) == [0x80] && RlpUint(15) == [0x0f] && RlpUint(1024) == [0x82, 0x04, 0x00]
  {
    SpelledUint(0, []);
    ByteValues();
    SpelledUint(15, [15]);
    SpelledUint(1024, [4, 0]);
    hide Significant;
  }

  lemma ByteValues()
    ensures BeNat([15]) == 15 && BeNat([56]) == 56 && BeNat([4, 0]) == 1024
  {
    assert [15][..0] == [] && [56][..0] == [] && [4][..0] == [] && [4, 0][..1] == [4];
    assert BeNat([4]) == 4;
  }

  lemma KnownLists()
    ensures RlpList([]) == [0xc0]
    ensures RlpList([[0x83, 0x63, 0x61, 0x74], [0x83, 0x64, 0x6f, 0x67]])
      == [0xc8, 0x83, 0x63, 0x61, 0x74, 0x83, 0x64, 0x6f, 0x67]
    ensures RlpList([[0xc0], [0xc1, 0xc0]]) == [0xc3, 0xc0, 0xc1, 0xc0]
  {
    OneItem();
    assert [[0x83, 0x63, 0x61, 0x74], [0x83, 0x64, 0x6f, 0x67]][1..] == [[0x83, 0x64, 0x6f, 0x67]];
    assert [[0xc0], [0xc1, 0xc0]][1..] == [[0xc1, 0xc0]];
  }

  /** From 56 bytes on the length is spelled out before the payload. */
  lemma KnownLengths(s: Bytes)
    ensures |s| == 55 ==> RlpBytes(s) == [0xb7] + s && RlpList([s]) == [0xf7] + s
    ensures |s| == 56 ==> RlpBytes(s) == [0xb8, 56] + s && RlpList([s]) == [0xf8, 56] + s
    ensures |s| == 1024 ==> RlpBytes(s) == [0xb9, 0x04, 0x00] + s && RlpList([s]) == [0xf9, 0x04, 0x00] + s
  {
    ByteValues();
    SpelledLength(56, [56]);
    SpelledLength(1024, [4, 0]);
    OneItem();
    hide Significant;
  }

  lemma OneItem()
    ensures forall s: Bytes :: Concat([s]) == s
  {
    forall s: Bytes
      ensures Concat([s]) == s
    {
      assert [s][1..] == [];
    }
  }

  lemma SpelledUint(n: nat, digits: Bytes)
    requires n < 0x1_0000 && BeNat(digits) == n && (digits != [] ==> digits[0] != 0)
    ensures Significant(n, 16) == digits
  {
    Pow256Values();
    SignificantExact(n, 16);
    BeNatInjective(Significant(n, 16), digits);
  }

  lemma SpelledLength(n: nat, digits: Bytes)
    requires n < 0x1_0000 && BeNat(digits) == n && digits != [] && digits[0] != 0
    ensures Significant(n, 8) == digits
  {
    Pow256Values();
    SignificantExact(n, 8);
    BeNatInjective(Significant(n, 8), digits);
  }
}
