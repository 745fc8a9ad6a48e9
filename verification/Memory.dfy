/** Physical memory (sw/runtime/device/memory.c) and the two ways a kernel access reaches it:
    the byte-granular one of the scalar simulator and the masked word one of the cores. */
module Memory {
  import opened Word
  import opened Arith

  /** Memory base of the default configuration; the size is the length of the byte buffer. */
  const MBASE: word := 0x8000_0000

  /** Where a kernel image is loaded. */
  const KERNEL_BASE: word := 0x8100_0000
  const KERNEL_END: word := 0x8101_0000

  type Mem = m: seq<byte> | MBASE + |m| <= WORD_SPAN witness []

  /** The `len` bytes at `a` all lie in PMEM. */
  predicate Span(m: Mem, a: word, len: nat) {
    MBASE <= a && a + len <= MBASE + |m|
  }

  /** `in_pmem`, in 32-bit arithmetic. */
  predicate InPmem(size: nat, addr: word) { Sub(addr, MBASE) < size }

  /** The test of `paddr_read` and `paddr_write`: both ends of the access lie in PMEM. */
  predicate Accessible(size: nat, addr: word, len: nat)
    requires 1 <= len <= 4
  {
    InPmem(size, addr) && InPmem(size, Add(addr, len - 1))
  }

  /** For accesses of at most a word the wrapping test of both ends admits exactly the accesses
      that lie in memory byte for byte. */
  lemma AccessibleIsSpan(m: Mem, addr: word, len: nat)
    requires 1 <= len <= 4
    ensures Accessible(|m|, addr, len) <==> Span(m, addr, len)
  {
  }

  /** The byte at an address; 0 outside memory. */
  function Peek(m: Mem, b: int): byte {
    if MBASE <= b < MBASE + |m| then m[b - MBASE] else 0
  }

  predicate AgreeOn(m1: Mem, m2: Mem, bytes: set<int>) {
    |m1| == |m2| && forall b | b in bytes :: Peek(m1, b) == Peek(m2, b)
  }

  /** Little-endian value of `len` bytes. */
  function ReadBytes(m: Mem, a: int, len: nat): (v: nat)
    requires MBASE <= a && a + len <= MBASE + |m|
    decreases len
  {
    if len == 0 then 0 else m[a - MBASE] + 256 * ReadBytes(m, a + 1, len - 1)
  }

  function WriteBytes(m: Mem, a: int, len: nat, data: nat): (r: Mem)
    requires MBASE <= a && a + len <= MBASE + |m|
    ensures |r| == |m|
    decreases len
  {
    if len == 0 then m else WriteBytes(m[a - MBASE := data % 256], a + 1, len - 1, data / 256)
  }

  method PaddrRead(pmem: array<byte>, addr: word, len: nat) returns (value: nat)
    requires MBASE + pmem.Length <= WORD_SPAN
    requires Span(pmem[..], addr, len)
    ensures value == ReadBytes(pmem[..], addr, len)
  {
    value := 0;
    var k := len;
    while k > 0
      invariant 0 <= k <= len
      invariant value == ReadBytes(pmem[..], addr + k, len - k)
    {
      k := k - 1;
      value := pmem[addr - MBASE + k] + 256 * value;
    }
  }

  method PaddrWrite(pmem: array<byte>, addr: word, len: nat, data: nat)
    requires MBASE + pmem.Length <= WORD_SPAN
    requires Span(pmem[..], addr, len)
    modifies pmem
    ensures pmem[..] == WriteBytes(old(pmem[..]), addr, len, data)
  {
    var k, rest := 0, data;
    while k < len
      invariant 0 <= k <= len
      invariant WriteBytes(pmem[..], addr + k, len - k, rest) == WriteBytes(old(pmem[..]), addr, len, data)
    {
      ghost var before := pmem[..];
      pmem[addr - MBASE + k] := rest % 256;
      assert pmem[..] == before[addr + k - MBASE := rest % 256];
      k, rest := k + 1, rest / 256;
    }
  }

  lemma {:induction false} WriteAt(m: Mem, a: int, len: nat, data: nat, b: int)
    requires MBASE <= a && a + len <= MBASE + |m| && MBASE <= b < MBASE + |m|
    ensures !(a <= b < a + len) ==> WriteBytes(m, a, len, data)[b - MBASE] == m[b - MBASE]
    decreases len
  {
    if len > 0 {
      WriteAt(m[a - MBASE := data % 256], a + 1, len - 1, data / 256, b);
    }
  }

  // ---- Scalar accesses (load_mem and store_mem of the scalar simulator) -------------------

  /** Bytes moved by an access; funct3 values outside {0, 1, 2, 4, 5} have none. */
  function AccessSize(f3: nat): nat {
    if f3 == 0 || f3 == 4 then 1 else if f3 == 1 || f3 == 5 then 2 else if f3 == 2 then 4 else 0
  }

  predicate LegalLoad(f3: nat) { f3 in {0, 1, 2, 4, 5} }

  predicate LegalStore(f3: nat) { f3 in {0, 1, 2} }

  function ScalarLoad(m: Mem, addr: word, f3: nat): (v: word)
    requires LegalLoad(f3) && Span(m, addr, AccessSize(f3))
  {
    ReadBound(m, addr, AccessSize(f3));
    assert Pow256(1) == 256 && Pow256(2) == 65536 && Pow256(4) == WORD_SPAN;
    var raw := ReadBytes(m, addr, AccessSize(f3));
    if f3 == 0 then SignExtend(raw, 256) else if f3 == 1 then SignExtend(raw, 65536) else raw
  }

  function ScalarStore(m: Mem, addr: word, f3: nat, data: word): (r: Mem)
    requires LegalStore(f3) && Span(m, addr, AccessSize(f3))
    ensures |r| == |m|
  {
    WriteBytes(m, addr, AccessSize(f3), data)
  }

  // ---- Core accesses: one aligned word, a byte mask and shifted data ----------------------

  datatype Store = Store(addr: word, data: word, mask: nat)

  function Pow256(k: nat): (p: nat)
    ensures p >= 1
  {
    if k == 0 then 1 else 256 * Pow256(k - 1)
  }

  function Load32(m: Mem, addr: word): (v: word) {
    if Span(m, addr, 4) then
      ReadBound(m, addr, 4);
      assert Pow256(4) == WORD_SPAN;
      ReadBytes(m, addr, 4)
    else 0
  }

  /** `load_value`: the addressed word shifted down and narrowed by funct3. */
  function CoreLoad(m: Mem, addr: word, f3: nat): word {
    var raw := Load32(m, addr - addr % 4);
    Narrow(raw, ShiftDown(raw, addr % 4), f3)
  }

  function ShiftDown(raw: word, off: nat): word {
    DivShrinks(raw, Pow256(off));
    raw / Pow256(off)
  }

  function Narrow(raw: word, sh: word, f3: nat): word {
    if f3 == 0 then SignExtend(sh, 256)
    else if f3 == 1 then SignExtend(sh, 65536)
    else if f3 == 2 then raw
    else if f3 == 4 then sh % 256
    else if f3 == 5 then sh % 65536
    else 0
  }

  /** The transaction a core puts on the memory port for one lane. */
  function CoreStore(addr: word, f3: nat, data: word): Store {
    var off := addr % 4;
    Store(addr - off,
          (data * Pow256(off)) % WORD_SPAN,
          if f3 == 0 then Pow2(off) % 256 else if f3 == 1 then (3 * Pow2(off)) % 256 else 15)
  }

  predicate MaskBit(mask: nat, b: nat) { mask / Pow2(b) % 2 == 1 }

  function StoreByte(s: Store, b: nat): byte { s.data / Pow256(b) % 256 }

  function StoreLane(m: Mem, s: Store, b: nat): (r: Mem)
    ensures |r| == |m|
  {
    if MaskBit(s.mask, b) && MBASE <= s.addr + b < MBASE + |m|
    then m[s.addr + b - MBASE := StoreByte(s, b)] else m
  }

  /** `store_ref` from byte lane b on: masked bytes outside memory are skipped. */
  function StoreFrom(m: Mem, s: Store, b: nat): (r: Mem)
    requires b <= 4
    ensures |r| == |m|
    decreases 4 - b
  {
    if b == 4 then m
    else
      StoreFrom(StoreLane(m, s, b), s, b + 1)
  }

  function StoreRef(m: Mem, s: Store): (r: Mem)
    ensures |r| == |m|
  {
    StoreFrom(m, s, 0)
  }

  /** `store_ref` raises the failure flag. */
  predicate StoreFails(m: Mem, s: Store) {
    exists b | 0 <= b < 4 :: MaskBit(s.mask, b) && !(MBASE <= s.addr + b < MBASE + |m|)
  }

  /** The access stays inside one aligned word. */
  predicate Contained(addr: word, f3: nat) { addr % 4 + AccessSize(f3) <= 4 }

  lemma {:induction false} ReadBound(m: Mem, a: int, len: nat)
    requires MBASE <= a && a + len <= MBASE + |m|
    ensures ReadBytes(m, a, len) < Pow256(len)
    decreases len
  {
    if len > 0 { ReadBound(m, a + 1, len - 1); }
  }

  lemma Pow256s()
    ensures Pow256(0) == 1 && Pow256(1) == 256 && Pow256(2) == 65536 && Pow256(3) == 16777216
    ensures Pow2(0) == 1 && Pow2(1) == 2 && Pow2(2) == 4 && Pow2(3) == 8
  {
  }

  lemma DropByte(m: Mem, a: int, len: nat)
    requires MBASE <= a && 1 <= len && a + len <= MBASE + |m|
    ensures ReadBytes(m, a, len) / 256 == ReadBytes(m, a + 1, len - 1)
    ensures ReadBytes(m, a, len) % 256 == ReadBytes(m, a, 1)
  {
    var b: int := m[a - MBASE];
    var rest := ReadBytes(m, a + 1, len - 1);
    assert ReadBytes(m, a, len) == b + 256 * rest;
    assert ReadBytes(m, a + 1, 0) == 0;
    assert ReadBytes(m, a, 1) == b;
  }

  lemma {:induction false} DropBytes(m: Mem, a: int, off: nat)
    requires MBASE <= a && a + 4 <= MBASE + |m| && off < 4
    ensures ReadBytes(m, a, 4) / Pow256(off) == ReadBytes(m, a + off, 4 - off)
  {
    hide ReadBytes, Pow256;
    Pow256s();
    var x := ReadBytes(m, a, 4);
    DropByte(m, a, 4);
    DropByte(m, a + 1, 3);
    DropByte(m, a + 2, 2);
  }

  lemma {:induction false} TakeTwo(m: Mem, a: int, len: nat)
    requires MBASE <= a && 2 <= len && a + len <= MBASE + |m|
    ensures ReadBytes(m, a, len) % 65536 == ReadBytes(m, a, 2)
  {
    hide ReadBytes;
    ReadBound(m, a, 2);
    Pow256s();
    var x := ReadBytes(m, a, len);
    DropByte(m, a, len);
    DropByte(m, a + 1, len - 1);
    DropByte(m, a, 2);
    DropByte(m, a + 1, 1);
  }

  /** For a legal access inside one word of memory, the shifted word load yields what the
      byte-granular load yields. */
  lemma LoadsAgree(m: Mem, addr: word, f3: nat)
    requires LegalLoad(f3) && Contained(addr, f3) && Span(m, addr - addr % 4, 4)
    ensures Span(m, addr, AccessSize(f3)) && CoreLoad(m, addr, f3) == ScalarLoad(m, addr, f3)
  {
    hide Load32, ReadBytes;
    var a, off := addr - addr % 4, addr % 4;
    assert Load32(m, a) == ReadBytes(m, a, 4) by { Load32Value(m, a); }
    DropBytes(m, a, off);
    var sh := ShiftDown(Load32(m, a), off);
    assert sh == ReadBytes(m, addr, 4 - off);
    if AccessSize(f3) == 1 {
      DropByte(m, addr, 4 - off);
      SignExtendLow(sh, 256);
    } else if AccessSize(f3) == 2 {
      TakeTwo(m, addr, 4 - off);
      SignExtendLow(sh, 65536);
    }
  }

  lemma {:induction false} Load32Value(m: Mem, a: word)
    requires Span(m, a, 4)
    ensures Load32(m, a) == ReadBytes(m, a, 4)
  {
  }

  lemma SignExtendLow(v: word, span: nat)
    requires span == 256 || span == 65536
    ensures SignExtend(v, span) == SignExtend(v % span, span)
  {
  }

  lemma {:induction false} WriteDigit(m: Mem, a: int, len: nat, data: nat, k: nat)
    requires MBASE <= a && a + len <= MBASE + |m| && k < len
    ensures WriteBytes(m, a, len, data)[a + k - MBASE] == data / Pow256(k) % 256
    decreases len
  {
    var m1 := m[a - MBASE := data % 256];
    if k == 0 {
      WriteAt(m1, a + 1, len - 1, data / 256, a);
    } else {
      WriteDigit(m1, a + 1, len - 1, data / 256, k - 1);
      DivDiv(data, 256, Pow256(k - 1));
    }
  }

  /** Cutting a value to its low j bytes keeps each of those bytes. */
  lemma {:induction false} LowBytes(val: nat, j: nat, k: nat)
    requires k < j <= 4
    ensures (val % Pow256(j)) / Pow256(k) % 256 == val / Pow256(k) % 256
  {
    PowSplit(k, j - k);
    LowDigit(val, Pow256(k), Pow256(j - k - 1));
  }

  lemma LowDigit(val: nat, d: nat, e: nat)
    requires d >= 1 && e >= 1 && d * (256 * e) >= 1
    ensures val % (d * (256 * e)) / d % 256 == val / d % 256
  {
    var p := d * (256 * e);
    DivShrinks(val, p);
    var q, r := val / p, val % p;
    DivShrinks(r, d);
    var t, low := r / d, r % d;
    assert p * q + (d * t + low) == val by {
      assert val == p * q + r;
      assert r == d * t + low;
    }
    SplitQuotient(val, d, e, p, q, t, low);
  }

  lemma SplitQuotient(val: nat, d: nat, e: nat, p: nat, q: nat, t: nat, low: nat)
    requires low < d && p == d * (256 * e) && val == p * q + (d * t + low)
    ensures val / d % 256 == t % 256
  {
    QuotientUnique(val, d, 256 * (e * q) + t, low);
  }

  lemma {:induction false} PowSplit(i: nat, j: nat)
    ensures Pow256(i + j) == Pow256(i) * Pow256(j)
  {
    if i > 0 {
      PowSplit(i - 1, j);
      assert Pow256(i + j) == 256 * (Pow256(i - 1) * Pow256(j)) == Pow256(i) * Pow256(j);
    }
  }

  lemma ShiftQuotient(val: nat, off: nat, k: nat)
    ensures val * Pow256(off) / Pow256(off + k) == val / Pow256(k)
  {
    hide Pow256;
    PowSplit(off, k);
    ShiftDivide(val, Pow256(off), Pow256(k));
  }

  lemma FourBytes()
    ensures Pow256(4) == WORD_SPAN
  {
  }

  lemma ShiftedDigit(val: word, off: nat, k: nat)
    requires off + k < 4
    ensures (val * Pow256(off) % WORD_SPAN) / Pow256(off + k) % 256 == val / Pow256(k) % 256
  {
    hide Pow256;
    FourBytes();
    LowBytes(val * Pow256(off), 4, off + k);
    ShiftQuotient(val, off, k);
  }

  /** The byte mask of a contained store selects exactly the addressed bytes. */
  lemma MaskBits(addr: word, f3: nat, b: nat)
    requires LegalStore(f3) && Contained(addr, f3) && b < 4
    ensures MaskBit(CoreStore(addr, f3, 0).mask, b) <==> addr % 4 <= b < addr % 4 + AccessSize(f3)
  {
    Pow256s();
    var off := addr % 4;
    assert off == 0 || off == 1 || off == 2 || off == 3;
    assert b == 0 || b == 1 || b == 2 || b == 3;
  }

  /** For a legal store inside one word of memory, the masked word transaction leaves the
      memory the byte-granular store leaves. */
  lemma StoresAgree(m: Mem, addr: word, f3: nat, data: word)
    requires LegalStore(f3) && Contained(addr, f3) && Span(m, addr, AccessSize(f3))
    ensures StoreRef(m, CoreStore(addr, f3, data)) == ScalarStore(m, addr, f3, data)
    ensures !StoreFails(m, CoreStore(addr, f3, data))
  {
    var s, size, off := CoreStore(addr, f3, data), AccessSize(f3), addr % 4;
    forall b | 0 <= b < 4 ensures MaskBit(s.mask, b) <==> off <= b < off + size {
      MaskBits(addr, f3, b);
    }
    forall i | 0 <= i < |m| ensures StoreRef(m, s)[i] == ScalarStore(m, addr, f3, data)[i] {
      var b := i + MBASE - s.addr;
      if off <= b < off + size {
        ShiftedDigit(data, off, b - off);
        WriteDigit(m, addr, size, data, b - off);
      } else {
        WriteAt(m, addr, size, data, i + MBASE);
      }
    }
  }

  // ---- Exactly the contained accesses agree ------------------------------------------------

  function Zeros(len: nat): (r: seq<byte>)
    ensures |r| == len && forall i | 0 <= i < len :: r[i] == 0
  {
    seq(len, _ => 0)
  }

  /** An address range of PMEM in some configuration. */
  predicate Addressable(addr: word, len: nat) { MBASE <= addr && addr + len <= WORD_SPAN }

  ghost predicate StoreAgrees(m: Mem, addr: word, f3: nat, data: word)
    requires LegalStore(f3)
  {
    Span(m, addr, AccessSize(f3)) ==> StoreRef(m, CoreStore(addr, f3, data)) == ScalarStore(m, addr, f3, data)
  }

  lemma TopDigit(data: nat, size: nat)
    requires 1 <= size <= 4 && data == WORD_SPAN - 1
    ensures data / Pow256(size - 1) % 256 == 255
  {
    Pow256s();
    assert size == 1 || size == 2 || size == 3 || size == 4;
  }

  /** Both machines store alike, on every memory and for every value, exactly when the access stays
      inside one word. */
  lemma StoresAgreeIff(addr: word, f3: nat)
    requires LegalStore(f3) && Addressable(addr, AccessSize(f3))
    ensures (forall m: Mem, data: word :: StoreAgrees(m, addr, f3, data)) <==> Contained(addr, f3)
  {
    hide StoreRef, ScalarStore, CoreStore;
    if Contained(addr, f3) {
      forall m: Mem, data: word ensures StoreAgrees(m, addr, f3, data) {
        if Span(m, addr, AccessSize(f3)) { StoresAgree(m, addr, f3, data); }
      }
    } else {
      CrossingStore(addr, f3);
    }
  }

  lemma CrossingStore(addr: word, f3: nat)
    requires LegalStore(f3) && Addressable(addr, AccessSize(f3)) && !Contained(addr, f3)
    ensures exists m: Mem, data: word :: !StoreAgrees(m, addr, f3, data)
  {
    var size := AccessSize(f3);
    var m: Mem := Zeros(addr + size - MBASE);
    var data: word := WORD_SPAN - 1;
    var s, last := CoreStore(addr, f3, data), addr + size - 1 - MBASE;
    WriteDigit(m, addr, size, data, size - 1);
    TopDigit(data, size);
    assert StoreRef(m, s)[last] == 0 && ScalarStore(m, addr, f3, data)[last] == 255;
    assert !StoreAgrees(m, addr, f3, data);
  }

  ghost predicate LoadAgrees(m: Mem, addr: word, f3: nat)
    requires LegalLoad(f3)
  {
    Span(m, addr - addr % 4, 4) && Span(m, addr, AccessSize(f3)) ==> CoreLoad(m, addr, f3) == ScalarLoad(m, addr, f3)
  }

  /** Both machines load alike, on every memory, exactly when the access stays inside one word. */
  lemma LoadsAgreeIff(addr: word, f3: nat)
    requires LegalLoad(f3) && Addressable(addr, AccessSize(f3)) && Addressable(addr - addr % 4, 4)
    ensures (forall m: Mem :: LoadAgrees(m, addr, f3)) <==> Contained(addr, f3)
  {
    hide CoreLoad, ScalarLoad;
    if Contained(addr, f3) {
      forall m: Mem ensures LoadAgrees(m, addr, f3) {
        if Span(m, addr - addr % 4, 4) { LoadsAgree(m, addr, f3); }
      }
    } else {
      CrossingLoad(addr, f3);
    }
  }

  lemma {:induction false} ZeroRead(m: Mem, a: int, len: nat)
    requires MBASE <= a && a + len <= MBASE + |m| && forall i | a <= i < a + len :: Peek(m, i) == 0
    ensures ReadBytes(m, a, len) == 0
    decreases len
  {
    if len > 0 {
      assert Peek(m, a) == 0;
      ZeroRead(m, a + 1, len - 1);
    }
  }

  /** The last byte of a range is its most significant one. */
  lemma {:induction false} LastByte(m: Mem, a: int, len: nat)
    requires MBASE <= a && 1 <= len && a + len <= MBASE + |m| && m[a + len - 1 - MBASE] == 1
    requires forall i | a <= i < a + len - 1 :: Peek(m, i) == 0
    ensures ReadBytes(m, a, len) == Pow256(len - 1)
    decreases len
  {
    if len > 1 {
      assert Peek(m, a) == 0;
      LastByte(m, a + 1, len - 1);
    } else {
      assert ReadBytes(m, a + 1, 0) == 0;
    }
  }

  lemma CrossingLoad(addr: word, f3: nat)
    requires LegalLoad(f3) && Addressable(addr, AccessSize(f3)) && !Contained(addr, f3)
    ensures exists m: Mem :: !LoadAgrees(m, addr, f3)
  {
    var size := AccessSize(f3);
    var zeros := Zeros(addr + size - MBASE);
    var m: Mem := zeros[addr + size - 1 - MBASE := 1];
    var a := addr - addr % 4;
    ZeroRead(m, a, 4);
    LastByte(m, addr, size);
    Load32Value(m, a);
    Pow256s();
    assert CoreLoad(m, addr, f3) == 0;
    assert ScalarLoad(m, addr, f3) == Pow256(size - 1);
    assert !LoadAgrees(m, addr, f3);
  }
}
