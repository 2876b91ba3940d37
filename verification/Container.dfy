/** The encrypted feature container: XTEA in counter mode behind a little-endian header. */
module Container {
  import opened Text
  import opened MachineWords
  import opened Crc

  const DELTA: word := 0x9e37_79b9
  const ROUNDS := 32

  // ---------- the block cipher ----------

  /** 32-bit addition, which wraps. */
  function Add(a: word, b: word): word { a + b }

  datatype Key = Key(k0: word, k1: word, k2: word, k3: word)

  const FEATURE_KEY := Key(0x8f4c_29a1, 0x73b6_d502, 0xc14e_87f3, 0x2ad9_5b60)

  function KeyAt(key: Key, i: word): word {
    if i & 3 == 0 then key.k0 else if i & 3 == 1 then key.k1 else if i & 3 == 2 then key.k2 else key.k3
  }

  function FirstKey(key: Key, sum: word): word { KeyAt(key, sum) }

  function SecondKey(key: Key, sum: word): word { KeyAt(key, sum >> 11) }

  /** What one half contributes to the other. */
  function Mix(v: word, sum: word, key: word): word {
    (((v << 4) ^ (v >> 5)) + v) ^ (sum + key)
  }

  datatype Block = Block(v0: word, v1: word)

  function Round(key: Key, b: Block, sum: word): Block {
    var v0 := Add(b.v0, Mix(b.v1, sum, FirstKey(key, sum)));
    var next := Add(sum, DELTA);
    Block(v0, Add(b.v1, Mix(v0, next, SecondKey(key, next))))
  }

  function Rounds(key: Key, b: Block, sum: word, n: nat): Block
    decreases n
  {
    if n == 0 then b else Rounds(key, Round(key, b, sum), Add(sum, DELTA), n - 1)
  }

  /** XTEA under any key; the container has one of its own. */
  function EncryptWith(key: Key, b: Block): Block {
    Rounds(key, b, 0, ROUNDS)
  }

  function Encrypt(b: Block): Block {
    EncryptWith(FEATURE_KEY, b)
  }

  method XteaEncryptBlock(b: Block) returns (r: Block)
    ensures r == Encrypt(b)
  {
    hide Add, Mix, FirstKey, SecondKey;
    var v0, v1, sum: word := b.v0, b.v1, 0;
    var round := 0;
    while round < ROUNDS
      invariant 0 <= round <= ROUNDS
      invariant Rounds(FEATURE_KEY, Block(v0, v1), sum, ROUNDS - round) == Encrypt(b)
    {
      v0 := Add(v0, Mix(v1, sum, FirstKey(FEATURE_KEY, sum)));
      sum := Add(sum, DELTA);
      v1 := Add(v1, Mix(v0, sum, SecondKey(FEATURE_KEY, sum)));
      round := round + 1;
    }
    return Block(v0, v1);
  }

  function Subtract(a: word, x: word): word { a - x }

  lemma RawAddBack(a: word, x: word)
    ensures Subtract(a + x, x) == a
  {
  }

  lemma AddBack(a: word, x: word)
    ensures Subtract(Add(a, x), x) == a
  {
    hide Subtract;
    RawAddBack(a, x);
  }

  lemma AddCancel(a: word, b: word, x: word)
    requires Add(a, x) == Add(b, x)
    ensures a == b
  {
    hide Add, Subtract;
    AddBack(a, x);
    AddBack(b, x);
  }

  lemma RoundInjective(key: Key, a: Block, b: Block, sum: word)
    requires Round(key, a, sum) == Round(key, b, sum)
    ensures a == b
  {
    hide Add, Mix, FirstKey, SecondKey;
    var v0, next := Round(key, a, sum).v0, Add(sum, DELTA);
    AddCancel(a.v1, b.v1, Mix(v0, next, SecondKey(key, next)));
    AddCancel(a.v0, b.v0, Mix(a.v1, sum, FirstKey(key, sum)));
  }

  lemma {:induction false} RoundsInjective(key: Key, a: Block, b: Block, sum: word, n: nat)
    requires Rounds(key, a, sum, n) == Rounds(key, b, sum, n)
    ensures a == b
    decreases n
  {
    hide Round, Add;
    if n > 0 {
      RoundsInjective(key, Round(key, a, sum), Round(key, b, sum), Add(sum, DELTA), n - 1);
      RoundInjective(key, a, b, sum);
    }
  }

  // ---------- little-endian fields ----------

  function ByteAt(v: word, i: nat): byte
    requires i < 4
  {
    if i == 0 then (v & 0xff) as byte
    else if i == 1 then ((v >> 8) & 0xff) as byte
    else if i == 2 then ((v >> 16) & 0xff) as byte
    else ((v >> 24) & 0xff) as byte
  }

  function PutLe32(v: word): (s: seq<byte>)
    ensures |s| == 4
  {
    [ByteAt(v, 0), ByteAt(v, 1), ByteAt(v, 2), ByteAt(v, 3)]
  }

  function Join32(a: byte, b: byte, c: byte, d: byte): word {
    (a as word) | ((b as word) << 8) | ((c as word) << 16) | ((d as word) << 24)
  }

  function GetLe32(s: seq<byte>): word
    requires |s| == 4
  {
    Join32(s[0], s[1], s[2], s[3])
  }

  lemma Le32RoundTrip(v: word)
    ensures GetLe32(PutLe32(v)) == v
  {
  }

  function GetLe16(s: seq<byte>): bv16
    requires |s| == 2
  {
    (s[0] as bv16) | ((s[1] as bv16) << 8)
  }

  function Low(c: long): word { (c & 0xffff_ffff) as word }

  function High(c: long): word { (c >> 32) as word }

  function JoinLong(lo: word, hi: word): long {
    (lo as long) | ((hi as long) << 32)
  }

  function PutLe64(v: long): (s: seq<byte>)
    ensures |s| == 8
  {
    PutLe32(Low(v)) + PutLe32(High(v))
  }

  function GetLe64(s: seq<byte>): long
    requires |s| == 8
  {
    JoinLong(GetLe32(s[..4]), GetLe32(s[4..]))
  }

  lemma JoinLongSplit(c: long)
    ensures JoinLong(Low(c), High(c)) == c
  {
  }

  lemma Le64RoundTrip(v: long)
    ensures GetLe64(PutLe64(v)) == v
  {
    hide ByteAt, Join32, Low, High, JoinLong, GetLe32, PutLe32;
    assert PutLe64(v)[..4] == PutLe32(Low(v)) && PutLe64(v)[4..] == PutLe32(High(v));
    Le32RoundTrip(Low(v));
    Le32RoundTrip(High(v));
    JoinLongSplit(v);
  }

  // ---------- counter mode ----------

  /** The counter of block `j`; it wraps at 64 bits. */
  function Counter(nonce: long, j: nat): long
    decreases j
  {
    if j == 0 then nonce else Next(Counter(nonce, j - 1))
  }

  function Next(counter: long): long { counter + 1 }

  function StreamBlock(counter: long): (s: seq<byte>)
    ensures |s| == 8
  {
    var e := Encrypt(Block(Low(counter), High(counter)));
    PutLe32(e.v0) + PutLe32(e.v1)
  }

  function KeyByte(nonce: long, k: nat): byte {
    StreamBlock(Counter(nonce, k / 8))[k % 8]
  }

  function XorByte(a: byte, b: byte): byte { a ^ b }

  /** Section 6.5 of NIST SP 800-38A: each byte is xored with its place in the key stream. */
  function Crypt(data: seq<byte>, nonce: long): (r: seq<byte>)
    ensures |r| == |data|
  {
    seq(|data|, k requires 0 <= k < |data| => XorByte(data[k], KeyByte(nonce, k)))
  }

  method XteaCtrCrypt(data: array<byte>, nonce: long)
    modifies data
    ensures data[..] == Crypt(old(data[..]), nonce)
  {
    hide Encrypt, PutLe32, Low, High, XorByte, Next;
    var offset := 0;
    var counter := nonce;
    ghost var j := 0;
    ghost var was := data[..];
    while offset < data.Length
      invariant 0 <= offset <= data.Length && counter == Counter(nonce, j)
      invariant offset == 8 * j || offset == data.Length
      invariant forall k :: 0 <= k < offset ==> data[k] == XorByte(was[k], KeyByte(nonce, k))
      invariant forall k :: offset <= k < data.Length ==> data[k] == was[k]
    {
      var e := XteaEncryptBlock(Block(Low(counter), High(counter)));
      var stream := PutLe32(e.v0) + PutLe32(e.v1);
      var i := 0;
      while i < 8 && offset < data.Length
        invariant 0 <= i <= 8 && offset == 8 * j + i <= data.Length
        invariant forall k :: 0 <= k < offset ==> data[k] == XorByte(was[k], KeyByte(nonce, k))
        invariant forall k :: offset <= k < data.Length ==> data[k] == was[k]
      {
        assert offset / 8 == j && offset % 8 == i;
        data[offset] := XorByte(data[offset], stream[i]);
        i, offset := i + 1, offset + 1;
      }
      counter := Next(counter);
      j := j + 1;
    }
  }

  /** Different counters never give the same key stream block. */
  lemma StreamBlockInjective(c: long, d: long)
    requires StreamBlock(c) == StreamBlock(d)
    ensures c == d
  {
    hide Rounds, ByteAt, Join32, Low, High, JoinLong, GetLe32, PutLe32;
    var e, f := Encrypt(Block(Low(c), High(c))), Encrypt(Block(Low(d), High(d)));
    assert StreamBlock(c)[..4] == PutLe32(e.v0) && StreamBlock(c)[4..] == PutLe32(e.v1);
    assert StreamBlock(d)[..4] == PutLe32(f.v0) && StreamBlock(d)[4..] == PutLe32(f.v1);
    Le32RoundTrip(e.v0);
    Le32RoundTrip(e.v1);
    Le32RoundTrip(f.v0);
    Le32RoundTrip(f.v1);
    RoundsInjective(FEATURE_KEY, Block(Low(c), High(c)), Block(Low(d), High(d)), 0, ROUNDS);
    JoinLongSplit(c);
    JoinLongSplit(d);
  }

  lemma XorTwice(a: byte, b: byte)
    ensures XorByte(XorByte(a, b), b) == a
  {
  }

  lemma XorByteInjective(a: byte, b: byte, x: byte)
    requires XorByte(a, x) == XorByte(b, x)
    ensures a == b
  {
  }

  /** The key stream undoes itself. */
  lemma CryptTwice(data: seq<byte>, nonce: long)
    ensures Crypt(Crypt(data, nonce), nonce) == data
  {
    hide XorByte, KeyByte;
    forall k | 0 <= k < |data| ensures Crypt(Crypt(data, nonce), nonce)[k] == data[k] {
      XorTwice(data[k], KeyByte(nonce, k));
    }
  }

  // ---------- the file ----------

  const HEADER := 24
  const MAX_PLAIN := 20 * 1024 * 1024
  const MAGIC: seq<byte> := [0x46, 0x57, 0x58, 0x42]

  predicate GoodPreamble(file: seq<byte>)
    requires |file| >= HEADER
  {
    file[..4] == MAGIC && file[4] == 1 && file[5] == 1 && GetLe16(file[6..8]) == 24
  }

  function LengthField(file: seq<byte>): nat
    requires |file| >= HEADER
  {
    GetLe32(file[8..12]) as int
  }

  function CrcField(file: seq<byte>): word
    requires |file| >= HEADER
  {
    GetLe32(file[12..16])
  }

  function NonceField(file: seq<byte>): long
    requires |file| >= HEADER
  {
    GetLe64(file[16..24])
  }

  /** The decoder as a function of the file's bytes. */
  function Decode(file: seq<byte>): Option<seq<byte>> {
    if |file| > HEADER + MAX_PLAIN || |file| < HEADER || !GoodPreamble(file) then None
    else if LengthField(file) == 0 || LengthField(file) > MAX_PLAIN || |file| != HEADER + LengthField(file) then None
    else
      var plain := Crypt(file[HEADER..], NonceField(file));
      if Checksum(plain) == CrcField(file) then Some(plain) else None
  }

  /** Copies the body, decrypts the copy in place and checks it. */
  method DecryptFile(file: seq<byte>) returns (r: Option<seq<byte>>)
    ensures r == Decode(file)
  {
    hide GetLe16, GetLe32, GetLe64, Checksum, Crypt;
    if |file| <= 0 || |file| > HEADER + MAX_PLAIN { return None; }
    if |file| < HEADER || !GoodPreamble(file) { return None; }
    var plainLen := LengthField(file);
    if plainLen == 0 || plainLen > MAX_PLAIN || |file| != HEADER + plainLen { return None; }
    var plain := new byte[plainLen](k requires 0 <= k < plainLen => file[HEADER + k]);
    assert plain[..] == file[HEADER..];
    XteaCtrCrypt(plain, NonceField(file));
    var crc := FeatureCrc32(plain[..]);
    if crc != CrcField(file) { return None; }
    return Some(plain[..]);
  }

  /** What a correct container of `plain` looks like. */
  ghost predicate IsContainer(file: seq<byte>, plain: seq<byte>, nonce: long) {
    && 0 < |plain| <= MAX_PLAIN && |file| == HEADER + |plain|
    && GoodPreamble(file) && LengthField(file) == |plain| && NonceField(file) == nonce
    && CrcField(file) == Checksum(plain) && file[HEADER..] == Crypt(plain, nonce)
  }

  /** The bytes an encoder writes; `len` is the length field's value. */
  function Build(plain: seq<byte>, nonce: long, len: word): seq<byte> {
    MAGIC + [1, 1, 24, 0] + PutLe32(len) + PutLe32(Checksum(plain)) + PutLe64(nonce) + Crypt(plain, nonce)
  }

  lemma BuildIsContainer(plain: seq<byte>, nonce: long, len: word)
    requires 0 < |plain| <= MAX_PLAIN && len as int == |plain|
    ensures IsContainer(Build(plain, nonce, len), plain, nonce)
  {
    hide PutLe32, GetLe32, PutLe64, GetLe64, Checksum, Crypt;
    var file := Build(plain, nonce, len);
    assert file[..4] == MAGIC;
    assert file[6..8] == [24, 0];
    assert GetLe16([24, 0]) == 24;
    assert file[8..12] == PutLe32(len);
    assert file[12..16] == PutLe32(Checksum(plain));
    assert file[16..24] == PutLe64(nonce);
    assert file[HEADER..] == Crypt(plain, nonce);
    Le32RoundTrip(len);
    Le32RoundTrip(Checksum(plain));
    Le64RoundTrip(nonce);
  }

  /** The decoder accepts exactly the correct containers, and returns what they hold. */
  lemma DecodeMeaning(file: seq<byte>, plain: seq<byte>)
    ensures Decode(file) == Some(plain) <==> exists nonce :: IsContainer(file, plain, nonce)
  {
    hide GetLe16, GetLe32, GetLe64, Checksum, Crypt;
    if Decode(file) == Some(plain) {
      CryptTwice(file[HEADER..], NonceField(file));
      assert IsContainer(file, plain, NonceField(file));
    }
    forall nonce | IsContainer(file, plain, nonce) ensures Decode(file) == Some(plain) {
      CryptTwice(plain, nonce);
    }
  }

  lemma DecodesWhatWasBuilt(plain: seq<byte>, nonce: long, len: word)
    requires 0 < |plain| <= MAX_PLAIN && len as int == |plain|
    ensures Decode(Build(plain, nonce, len)) == Some(plain)
  {
    BuildIsContainer(plain, nonce, len);
    DecodeMeaning(Build(plain, nonce, len), plain);
  }

  /** `a` and `b` differ, and only inside the four bytes from `at`. */
  ghost predicate DifferInBurst(a: seq<byte>, b: seq<byte>, at: nat) {
    && |a| == |b| && a != b
    && forall k :: 0 <= k < |a| && a[k] != b[k] ==> at <= k < at + 4
  }

  /** A body damaged only inside four consecutive bytes is always refused. */
  lemma DamageIsRefused(file: seq<byte>, plain: seq<byte>, nonce: long, bad: seq<byte>, at: nat)
    requires IsContainer(file, plain, nonce)
    requires HEADER <= at && DifferInBurst(file, bad, at)
    ensures Decode(bad) == None
  {
    hide GetLe16, GetLe32, GetLe64, Checksum, Crypt;
    assert bad[..HEADER] == file[..HEADER];
    SameHeader(file, bad);
    var got := Crypt(bad[HEADER..], nonce);
    CryptTwice(plain, nonce);
    CryptKeepsBurst(file[HEADER..], bad[HEADER..], nonce, at - HEADER);
    BurstChangesChecksum(plain, got, at - HEADER);
  }

  lemma SameHeader(a: seq<byte>, b: seq<byte>)
    requires |a| == |b| >= HEADER && a[..HEADER] == b[..HEADER]
    ensures GoodPreamble(a) == GoodPreamble(b)
    ensures LengthField(a) == LengthField(b) && CrcField(a) == CrcField(b) && NonceField(a) == NonceField(b)
  {
    hide GetLe16, GetLe32, GetLe64;
    SlicePrefix(a, 0, 4);
    SlicePrefix(b, 0, 4);
    SlicePrefix(a, 6, 8);
    SlicePrefix(b, 6, 8);
    SlicePrefix(a, 8, 12);
    SlicePrefix(b, 8, 12);
    SlicePrefix(a, 12, 16);
    SlicePrefix(b, 12, 16);
    SlicePrefix(a, 16, 24);
    SlicePrefix(b, 16, 24);
    assert a[4] == a[..HEADER][4] && a[5] == a[..HEADER][5] && b[4] == b[..HEADER][4] && b[5] == b[..HEADER][5];
  }

  lemma SlicePrefix(a: seq<byte>, i: nat, j: nat)
    requires i <= j <= HEADER <= |a|
    ensures a[i..j] == a[..HEADER][i..j]
    ensures i == 0 ==> a[..j] == a[i..j]
  {
  }

  lemma CryptKeepsBurst(a: seq<byte>, b: seq<byte>, nonce: long, at: nat)
    requires DifferInBurst(a, b, at)
    ensures DifferInBurst(Crypt(a, nonce), Crypt(b, nonce), at)
  {
    hide XorByte, KeyByte;
    var k :| 0 <= k < |a| && a[k] != b[k];
    if Crypt(a, nonce)[k] == Crypt(b, nonce)[k] {
      XorByteInjective(a[k], b[k], KeyByte(nonce, k));
    }
  }

  lemma BurstChangesChecksum(a: seq<byte>, b: seq<byte>, at: nat)
    requires DifferInBurst(a, b, at)
    ensures Checksum(a) != Checksum(b)
  {
    hide Checksum;
    var end := if at + 4 <= |a| then at + 4 else |a|;
    assert at <= end by {
      var k :| 0 <= k < |a| && a[k] != b[k];
    }
    var x, y := a[at..end], b[at..end];
    assert a[..at] == b[..at] && a[end..] == b[end..];
    assert a == a[..at] + x + a[end..];
    assert b == a[..at] + y + a[end..];
    BurstDetected(a[..at], x, y, a[end..]);
  }
}
