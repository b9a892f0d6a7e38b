/** The checksum that keys are hashed with in src/hashmap.c: a table-driven CRC. */
module Crc {
  // ----- The reference: one bit at a time --------------------------------------------------------

  const POLY: bv32 := 0xEDB88320

  // Named so that proofs about many steps need not look inside them.
  function Xor(a: bv32, b: bv32): bv32 { a ^ b }
  function Half(a: bv32): bv32 { a >> 1 }
  predicate Odd(a: bv32) { a & 1 == 1 }
  function Wide(b: bv8): bv32 { b as bv32 }
  function Low8(a: bv32): bv8 { (a & 0xff) as bv8 }
  function Drop8(a: bv32): bv32 { a >> 8 }

  /** One step of the reflected CRC register, after the message bit was xored into its low bit. */
  function Shift(c: bv32): bv32 {
    if c & 1 == 1 then (c >> 1) ^ POLY else c >> 1
  }

  /** Feed one message bit. */
  function BitStep(c: bv32, bit: bool): bv32 {
    Shift(if bit then Xor(c, 1) else c)
  }

  /** The register after a message given bit by bit. */
  function BitCrc(c: bv32, bits: seq<bool>): bv32
    decreases |bits|
  {
    if bits == [] then c else BitStep(BitCrc(c, bits[..|bits| - 1]), bits[|bits| - 1])
  }

  /** The bits of a byte, low bit first. */
  function Bits(b: bv8): seq<bool> {
    [b & 1 == 1, b & 2 == 2, b & 4 == 4, b & 8 == 8, b & 16 == 16, b & 32 == 32, b & 64 == 64, b & 128 == 128]
  }

  function AllBits(s: seq<bv8>): seq<bool> {
    if s == [] then [] else AllBits(s[..|s| - 1]) + Bits(s[|s| - 1])
  }

  // ----- The table -------------------------------------------------------------------------------

  function Shift8(c: bv32): bv32 {
    Shift(Shift(Shift(Shift(Shift(Shift(Shift(Shift(c))))))))
  }

  /** Entries 0 to 15. */
  function Row0(x: bv4): bv32 {
    if x == 0 then 0x00000000 else if x == 1 then 0x77073096 else if x == 2 then 0xee0e612c else if x == 3 then 0x990951ba
    else if x == 4 then 0x076dc419 else if x == 5 then 0x706af48f else if x == 6 then 0xe963a535 else if x == 7 then 0x9e6495a3
    else if x == 8 then 0x0edb8832 else if x == 9 then 0x79dcb8a4 else if x == 10 then 0xe0d5e91e else if x == 11 then 0x97d2d988
    else if x == 12 then 0x09b64c2b else if x == 13 then 0x7eb17cbd else if x == 14 then 0xe7b82d07 else 0x90bf1d91
  }

  /** Entries 16 to 31. */
  function Row1(x: bv4): bv32 {
    if x == 0 then 0x1db71064 else if x == 1 then 0x6ab020f2 else if x == 2 then 0xf3b97148 else if x == 3 then 0x84be41de
    else if x == 4 then 0x1adad47d else if x == 5 then 0x6ddde4eb else if x == 6 then 0xf4d4b551 else if x == 7 then 0x83d385c7
    else if x == 8 then 0x136c9856 else if x == 9 then 0x646ba8c0 else if x == 10 then 0xfd62f97a else if x == 11 then 0x8a65c9ec
    else if x == 12 then 0x14015c4f else if x == 13 then 0x63066cd9 else if x == 14 then 0xfa0f3d63 else 0x8d080df5
  }

  /** Entries 32 to 47. */
  function Row2(x: bv4): bv32 {
    if x == 0 then 0x3b6e20c8 else if x == 1 then 0x4c69105e else if x == 2 then 0xd56041e4 else if x == 3 then 0xa2677172
    else if x == 4 then 0x3c03e4d1 else if x == 5 then 0x4b04d447 else if x == 6 then 0xd20d85fd else if x == 7 then 0xa50ab56b
    else if x == 8 then 0x35b5a8fa else if x == 9 then 0x42b2986c else if x == 10 then 0xdbbbc9d6 else if x == 11 then 0xacbcf940
    else if x == 12 then 0x32d86ce3 else if x == 13 then 0x45df5c75 else if x == 14 then 0xdcd60dcf else 0xabd13d59
  }

  /** Entries 48 to 63. */
  function Row3(x: bv4): bv32 {
    if x == 0 then 0x26d930ac else if x == 1 then 0x51de003a else if x == 2 then 0xc8d75180 else if x == 3 then 0xbfd06116
    else if x == 4 then 0x21b4f4b5 else if x == 5 then 0x56b3c423 else if x == 6 then 0xcfba9599 else if x == 7 then 0xb8bda50f
    else if x == 8 then 0x2802b89e else if x == 9 then 0x5f058808 else if x == 10 then 0xc60cd9b2 else if x == 11 then 0xb10be924
    else if x == 12 then 0x2f6f7c87 else if x == 13 then 0x58684c11 else if x == 14 then 0xc1611dab else 0xb6662d3d
  }

  /** Entries 64 to 79. */
  function Row4(x: bv4): bv32 {
    if x == 0 then 0x76dc4190 else if x == 1 then 0x01db7106 else if x == 2 then 0x98d220bc else if x == 3 then 0xefd5102a
    else if x == 4 then 0x71b18589 else if x == 5 then 0x06b6b51f else if x == 6 then 0x9fbfe4a5 else if x == 7 then 0xe8b8d433
    else if x == 8 then 0x7807c9a2 else if x == 9 then 0x0f00f934 else if x == 10 then 0x9609a88e else if x == 11 then 0xe10e9818
    else if x == 12 then 0x7f6a0dbb else if x == 13 then 0x086d3d2d else if x == 14 then 0x91646c97 else 0xe6635c01
  }

  /** Entries 80 to 95. */
  function Row5(x: bv4): bv32 {
    if x == 0 then 0x6b6b51f4 else if x == 1 then 0x1c6c6162 else if x == 2 then 0x856530d8 else if x == 3 then 0xf262004e
    else if x == 4 then 0x6c0695ed else if x == 5 then 0x1b01a57b else if x == 6 then 0x8208f4c1 else if x == 7 then 0xf50fc457
    else if x == 8 then 0x65b0d9c6 else if x == 9 then 0x12b7e950 else if x == 10 then 0x8bbeb8ea else if x == 11 then 0xfcb9887c
    else if x == 12 then 0x62dd1ddf else if x == 13 then 0x15da2d49 else if x == 14 then 0x8cd37cf3 else 0xfbd44c65
  }

  /** Entries 96 to 111. */
  function Row6(x: bv4): bv32 {
    if x == 0 then 0x4db26158 else if x == 1 then 0x3ab551ce else if x == 2 then 0xa3bc0074 else if x == 3 then 0xd4bb30e2
    else if x == 4 then 0x4adfa541 else if x == 5 then 0x3dd895d7 else if x == 6 then 0xa4d1c46d else if x == 7 then 0xd3d6f4fb
    else if x == 8 then 0x4369e96a else if x == 9 then 0x346ed9fc else if x == 10 then 0xad678846 else if x == 11 then 0xda60b8d0
    else if x == 12 then 0x44042d73 else if x == 13 then 0x33031de5 else if x == 14 then 0xaa0a4c5f else 0xdd0d7cc9
  }

  /** Entries 112 to 127. */
  function Row7(x: bv4): bv32 {
    if x == 0 then 0x5005713c else if x == 1 then 0x270241aa else if x == 2 then 0xbe0b1010 else if x == 3 then 0xc90c2086
    else if x == 4 then 0x5768b525 else if x == 5 then 0x206f85b3 else if x == 6 then 0xb966d409 else if x == 7 then 0xce61e49f
    else if x == 8 then 0x5edef90e else if x == 9 then 0x29d9c998 else if x == 10 then 0xb0d09822 else if x == 11 then 0xc7d7a8b4
    else if x == 12 then 0x59b33d17 else if x == 13 then 0x2eb40d81 else if x == 14 then 0xb7bd5c3b else 0xc0ba6cad
  }

  /** Entries 128 to 143. */
  function Row8(x: bv4): bv32 {
    if x == 0 then 0xedb88320 else if x == 1 then 0x9abfb3b6 else if x == 2 then 0x03b6e20c else if x == 3 then 0x74b1d29a
    else if x == 4 then 0xead54739 else if x == 5 then 0x9dd277af else if x == 6 then 0x04db2615 else if x == 7 then 0x73dc1683
    else if x == 8 then 0xe3630b12 else if x == 9 then 0x94643b84 else if x == 10 then 0x0d6d6a3e else if x == 11 then 0x7a6a5aa8
    else if x == 12 then 0xe40ecf0b else if x == 13 then 0x9309ff9d else if x == 14 then 0x0a00ae27 else 0x7d079eb1
  }

  /** Entries 144 to 159. */
  function Row9(x: bv4): bv32 {
    if x == 0 then 0xf00f9344 else if x == 1 then 0x8708a3d2 else if x == 2 then 0x1e01f268 else if x == 3 then 0x6906c2fe
    else if x == 4 then 0xf762575d else if x == 5 then 0x806567cb else if x == 6 then 0x196c3671 else if x == 7 then 0x6e6b06e7
    else if x == 8 then 0xfed41b76 else if x == 9 then 0x89d32be0 else if x == 10 then 0x10da7a5a else if x == 11 then 0x67dd4acc
    else if x == 12 then 0xf9b9df6f else if x == 13 then 0x8ebeeff9 else if x == 14 then 0x17b7be43 else 0x60b08ed5
  }

  /** Entries 160 to 175. */
  function RowA(x: bv4): bv32 {
    if x == 0 then 0xd6d6a3e8 else if x == 1 then 0xa1d1937e else if x == 2 then 0x38d8c2c4 else if x == 3 then 0x4fdff252
    else if x == 4 then 0xd1bb67f1 else if x == 5 then 0xa6bc5767 else if x == 6 then 0x3fb506dd else if x == 7 then 0x48b2364b
    else if x == 8 then 0xd80d2bda else if x == 9 then 0xaf0a1b4c else if x == 10 then 0x36034af6 else if x == 11 then 0x41047a60
    else if x == 12 then 0xdf60efc3 else if x == 13 then 0xa867df55 else if x == 14 then 0x316e8eef else 0x4669be79
  }

  /** Entries 176 to 191. */
  function RowB(x: bv4): bv32 {
    if x == 0 then 0xcb61b38c else if x == 1 then 0xbc66831a else if x == 2 then 0x256fd2a0 else if x == 3 then 0x5268e236
    else if x == 4 then 0xcc0c7795 else if x == 5 then 0xbb0b4703 else if x == 6 then 0x220216b9 else if x == 7 then 0x5505262f
    else if x == 8 then 0xc5ba3bbe else if x == 9 then 0xb2bd0b28 else if x == 10 then 0x2bb45a92 else if x == 11 then 0x5cb36a04
    else if x == 12 then 0xc2d7ffa7 else if x == 13 then 0xb5d0cf31 else if x == 14 then 0x2cd99e8b else 0x5bdeae1d
  }

  /** Entries 192 to 207. */
  function RowC(x: bv4): bv32 {
    if x == 0 then 0x9b64c2b0 else if x == 1 then 0xec63f226 else if x == 2 then 0x756aa39c else if x == 3 then 0x026d930a
    else if x == 4 then 0x9c0906a9 else if x == 5 then 0xeb0e363f else if x == 6 then 0x72076785 else if x == 7 then 0x05005713
    else if x == 8 then 0x95bf4a82 else if x == 9 then 0xe2b87a14 else if x == 10 then 0x7bb12bae else if x == 11 then 0x0cb61b38
    else if x == 12 then 0x92d28e9b else if x == 13 then 0xe5d5be0d else if x == 14 then 0x7cdcefb7 else 0x0bdbdf21
  }

  /** Entries 208 to 223. */
  function RowD(x: bv4): bv32 {
    if x == 0 then 0x86d3d2d4 else if x == 1 then 0xf1d4e242 else if x == 2 then 0x68ddb3f8 else if x == 3 then 0x1fda836e
    else if x == 4 then 0x81be16cd else if x == 5 then 0xf6b9265b else if x == 6 then 0x6fb077e1 else if x == 7 then 0x18b74777
    else if x == 8 then 0x88085ae6 else if x == 9 then 0xff0f6a70 else if x == 10 then 0x66063bca else if x == 11 then 0x11010b5c
    else if x == 12 then 0x8f659eff else if x == 13 then 0xf862ae69 else if x == 14 then 0x616bffd3 else 0x166ccf45
  }

  /** Entries 224 to 239. */
  function RowE(x: bv4): bv32 {
    if x == 0 then 0xa00ae278 else if x == 1 then 0xd70dd2ee else if x == 2 then 0x4e048354 else if x == 3 then 0x3903b3c2
    else if x == 4 then 0xa7672661 else if x == 5 then 0xd06016f7 else if x == 6 then 0x4969474d else if x == 7 then 0x3e6e77db
    else if x == 8 then 0xaed16a4a else if x == 9 then 0xd9d65adc else if x == 10 then 0x40df0b66 else if x == 11 then 0x37d83bf0
    else if x == 12 then 0xa9bcae53 else if x == 13 then 0xdebb9ec5 else if x == 14 then 0x47b2cf7f else 0x30b5ffe9
  }

  /** Entries 240 to 255. */
  function RowF(x: bv4): bv32 {
    if x == 0 then 0xbdbdf21c else if x == 1 then 0xcabac28a else if x == 2 then 0x53b39330 else if x == 3 then 0x24b4a3a6
    else if x == 4 then 0xbad03605 else if x == 5 then 0xcdd70693 else if x == 6 then 0x54de5729 else if x == 7 then 0x23d967bf
    else if x == 8 then 0xb3667a2e else if x == 9 then 0xc4614ab8 else if x == 10 then 0x5d681b02 else if x == 11 then 0x2a6f2b94
    else if x == 12 then 0xb40bbe37 else if x == 13 then 0xc30c8ea1 else if x == 14 then 0x5a05df1b else 0x2d02ef8d
  }

  /** `crc32_tab`. */
  function Table(b: bv8): bv32 {
    var hi, lo := (b >> 4) as bv4, (b & 15) as bv4;
    if hi == 0 then Row0(lo) else if hi == 1 then Row1(lo) else if hi == 2 then Row2(lo) else if hi == 3 then Row3(lo)
    else if hi == 4 then Row4(lo) else if hi == 5 then Row5(lo) else if hi == 6 then Row6(lo) else if hi == 7 then Row7(lo)
    else if hi == 8 then Row8(lo) else if hi == 9 then Row9(lo) else if hi == 10 then RowA(lo) else if hi == 11 then RowB(lo)
    else if hi == 12 then RowC(lo) else if hi == 13 then RowD(lo) else if hi == 14 then RowE(lo) else RowF(lo)
  }

  // Each row of sixteen constants.

  lemma Row0IsShift8(b: bv8)
    requires b >> 4 == 0
    ensures Row0((b & 15) as bv4) == Shift8(Wide(b))
  {
  }

  lemma Row1IsShift8(b: bv8)
    requires b >> 4 == 1
    ensures Row1((b & 15) as bv4) == Shift8(Wide(b))
  {
  }

  lemma Row2IsShift8(b: bv8)
    requires b >> 4 == 2
    ensures Row2((b & 15) as bv4) == Shift8(Wide(b))
  {
  }

  lemma Row3IsShift8(b: bv8)
    requires b >> 4 == 3
    ensures Row3((b & 15) as bv4) == Shift8(Wide(b))
  {
  }

  lemma Row4IsShift8(b: bv8)
    requires b >> 4 == 4
    ensures Row4((b & 15) as bv4) == Shift8(Wide(b))
  {
  }

  lemma Row5IsShift8(b: bv8)
    requires b >> 4 == 5
    ensures Row5((b & 15) as bv4) == Shift8(Wide(b))
  {
  }

  lemma Row6IsShift8(b: bv8)
    requires b >> 4 == 6
    ensures Row6((b & 15) as bv4) == Shift8(Wide(b))
  {
  }

  lemma Row7IsShift8(b: bv8)
    requires b >> 4 == 7
    ensures Row7((b & 15) as bv4) == Shift8(Wide(b))
  {
  }

  lemma Row8IsShift8(b: bv8)
    requires b >> 4 == 8
    ensures Row8((b & 15) as bv4) == Shift8(Wide(b))
  {
  }

  lemma Row9IsShift8(b: bv8)
    requires b >> 4 == 9
    ensures Row9((b & 15) as bv4) == Shift8(Wide(b))
  {
  }

  lemma RowAIsShift8(b: bv8)
    requires b >> 4 == 10
    ensures RowA((b & 15) as bv4) == Shift8(Wide(b))
  {
  }

  lemma RowBIsShift8(b: bv8)
    requires b >> 4 == 11
    ensures RowB((b & 15) as bv4) == Shift8(Wide(b))
  {
  }

  lemma RowCIsShift8(b: bv8)
    requires b >> 4 == 12
    ensures RowC((b & 15) as bv4) == Shift8(Wide(b))
  {
  }

  lemma RowDIsShift8(b: bv8)
    requires b >> 4 == 13
    ensures RowD((b & 15) as bv4) == Shift8(Wide(b))
  {
  }

  lemma RowEIsShift8(b: bv8)
    requires b >> 4 == 14
    ensures RowE((b & 15) as bv4) == Shift8(Wide(b))
  {
  }

  lemma RowFIsShift8(b: bv8)
    requires b >> 4 == 15
    ensures RowF((b & 15) as bv4) == Shift8(Wide(b))
  {
  }

  /** Each of the 256 constants is what eight single-bit steps make of its index. */
  lemma TableIsShift8(b: bv8)
    ensures Table(b) == Shift8(Wide(b))
  {
    hide Row0, Row1, Row2, Row3, Row4, Row5, Row6, Row7, Row8, Row9, RowA, RowB, RowC, RowD, RowE, RowF, Shift8, Wide;
    var hi := b >> 4;
    if hi == 0 {
      Row0IsShift8(b);
    } else if hi == 1 {
      Row1IsShift8(b);
    } else if hi == 2 {
      Row2IsShift8(b);
    } else if hi == 3 {
      Row3IsShift8(b);
    } else if hi == 4 {
      Row4IsShift8(b);
    } else if hi == 5 {
      Row5IsShift8(b);
    } else if hi == 6 {
      Row6IsShift8(b);
    } else if hi == 7 {
      Row7IsShift8(b);
    } else if hi == 8 {
      Row8IsShift8(b);
    } else if hi == 9 {
      Row9IsShift8(b);
    } else if hi == 10 {
      RowAIsShift8(b);
    } else if hi == 11 {
      RowBIsShift8(b);
    } else if hi == 12 {
      RowCIsShift8(b);
    } else if hi == 13 {
      RowDIsShift8(b);
    } else if hi == 14 {
      RowEIsShift8(b);
    } else {
      RowFIsShift8(b);
    }
  }

  // ----- The fast form ---------------------------------------------------------------------------

  /** `crc32_tab[(crc32val ^ s[i]) & 0xff] ^ (crc32val >> 8)`. */
  function ByteStep(c: bv32, b: bv8): bv32 {
    Xor(Table(Low8(Xor(c, Wide(b)))), Drop8(c))
  }

  lemma ShiftCases(c: bv32)
    ensures Shift(c) == if Odd(c) then Xor(Half(c), POLY) else Half(c)
  {
  }

  lemma XorAssoc(p: bv32, q: bv32, r: bv32)
    ensures Xor(Xor(p, q), r) == Xor(p, Xor(q, r))
  {
  }

  lemma XorBasics(p: bv32, q: bv32)
    ensures Xor(p, q) == Xor(q, p)
    ensures Xor(p, p) == 0 && Xor(p, 0) == p && Xor(0, p) == p
  {
  }

  lemma XorSwap(p: bv32, q: bv32, r: bv32)
    ensures Xor(Xor(p, q), r) == Xor(Xor(p, r), q)
  {
    hide Xor;
    XorAssoc(p, q, r);
    XorAssoc(p, r, q);
    XorBasics(q, r);
  }

  lemma XorCancels(p: bv32, r: bv32)
    ensures Xor(Xor(p, r), r) == p
  {
  }

  lemma XorPairs(a: bv32, b: bv32, c: bv32, d: bv32)
    ensures Xor(Xor(a, b), Xor(c, d)) == Xor(Xor(a, c), Xor(b, d))
  {
    hide Xor;
    XorAssoc(Xor(a, b), c, d);
    XorSwap(a, b, c);
    XorAssoc(Xor(a, c), b, d);
  }

  lemma HalfOfXor(a: bv32, b: bv32)
    ensures Odd(Xor(a, b)) <==> Odd(a) != Odd(b)
    ensures Half(Xor(a, b)) == Xor(Half(a), Half(b))
  {
  }

  /** The register steps are linear. */
  lemma ShiftXor(a: bv32, b: bv32)
    ensures Shift(Xor(a, b)) == Xor(Shift(a), Shift(b))
  {
    hide Xor, Odd, Half, Shift;
    ShiftCases(a);
    ShiftCases(b);
    ShiftCases(Xor(a, b));
    HalfOfXor(a, b);
    var p, q := Half(a), Half(b);
    XorPairs(p, POLY, q, POLY);
    XorBasics(POLY, 0);
    XorBasics(Xor(p, q), 0);
    XorSwap(p, POLY, q);
    XorAssoc(p, q, POLY);
  }

  lemma Shift8Xor(a: bv32, b: bv32)
    ensures Shift8(Xor(a, b)) == Xor(Shift8(a), Shift8(b))
  {
    hide Shift, Xor;
    ShiftXor(a, b);
    var a1, b1 := Shift(a), Shift(b);
    ShiftXor(a1, b1);
    var a2, b2 := Shift(a1), Shift(b1);
    ShiftXor(a2, b2);
    var a3, b3 := Shift(a2), Shift(b2);
    ShiftXor(a3, b3);
    var a4, b4 := Shift(a3), Shift(b3);
    ShiftXor(a4, b4);
    var a5, b5 := Shift(a4), Shift(b4);
    ShiftXor(a5, b5);
    var a6, b6 := Shift(a5), Shift(b5);
    ShiftXor(a6, b6);
    ShiftXor(Shift(a6), Shift(b6));
  }

  lemma Shift8OfHighBits(y: bv32)
    requires y & 0xff == 0
    ensures Shift8(y) == Drop8(y)
  {
  }

  lemma SplitLowByte(c: bv32, b: bv8) returns (high: bv32)
    ensures high & 0xff == 0
    ensures Xor(Wide(Low8(Xor(c, Wide(b)))), high) == Xor(c, Wide(b))
    ensures Drop8(high) == Drop8(c)
  {
    high := (c ^ (b as bv32)) & 0xffffff00;
  }

  /** One table lookup does the work of eight single-bit steps. */
  lemma ByteStepIsShift8(c: bv32, b: bv8)
    ensures ByteStep(c, b) == Shift8(Xor(c, Wide(b)))
  {
    hide Table, Shift8, Xor, Wide, Low8, Drop8;
    var high := SplitLowByte(c, b);
    var low := Low8(Xor(c, Wide(b)));
    TableIsShift8(low);
    Shift8OfHighBits(high);
    Shift8Xor(Wide(low), high);
  }

  function CrcFrom(c: bv32, s: seq<bv8>): bv32 {
    if s == [] then c else ByteStep(CrcFrom(c, s[..|s| - 1]), s[|s| - 1])
  }

  lemma {:induction false} CrcFromAppend(c: bv32, s: seq<bv8>, t: seq<bv8>)
    ensures CrcFrom(c, s + t) == CrcFrom(CrcFrom(c, s), t)
  {
    hide ByteStep;
    if t == [] {
      assert s + t == s;
    } else {
      assert (s + t)[..|s + t| - 1] == s + t[..|t| - 1];
      CrcFromAppend(c, s, t[..|t| - 1]);
    }
  }

  // ----- The fast form computes the bitwise one --------------------------------------------------

  /** A shift of a register into which a word was xored: its low bit is fed, the rest moves down. */
  lemma ShiftFeedsLowBit(c: bv32, w: bv32)
    ensures Shift(Xor(c, w)) == Xor(BitStep(c, Odd(w)), Half(w))
  {
    FeedEven(c, w);
    FeedOdd(c, w);
  }

  lemma FeedEven(c: bv32, w: bv32)
    ensures !Odd(w) ==> Shift(Xor(c, w)) == Xor(Shift(c), Half(w))
  {
    hide Xor, Half, Odd, Shift;
    ShiftXor(c, w);
    ShiftCases(w);
  }

  lemma FeedOdd(c: bv32, w: bv32)
    ensures Odd(w) ==> Shift(Xor(c, w)) == Xor(Shift(Xor(c, 1)), Half(w))
  {
    hide Xor, Half, Odd, Shift;
    if Odd(w) {
      ClearLowBit(w);
      XorAssoc(c, 1, Xor(w, 1));
      ShiftXor(Xor(c, 1), Xor(w, 1));
      ShiftCases(Xor(w, 1));
    }
  }

  lemma ClearLowBit(w: bv32)
    ensures Odd(w) ==> !Odd(Xor(w, 1)) && Half(Xor(w, 1)) == Half(w)
    ensures Xor(1, Xor(w, 1)) == w
  {
    assert Odd(1) && Half(1) == 0;
    hide Xor, Half, Odd;
    HalfOfXor(w, 1);
    XorBasics(Half(w), 0);
    XorBasics(1, Xor(w, 1));
    XorCancels(w, 1);
  }

  lemma BitsAreLowBits(b: bv8)
    ensures
      var w := Wide(b);
      var w1 := Half(w); var w2 := Half(w1); var w3 := Half(w2); var w4 := Half(w3);
      var w5 := Half(w4); var w6 := Half(w5); var w7 := Half(w6);
      && Bits(b) == [Odd(w), Odd(w1), Odd(w2), Odd(w3), Odd(w4), Odd(w5), Odd(w6), Odd(w7)]
      && Half(w7) == 0
  {
  }

  lemma {:induction false} BitCrcAppend(c: bv32, x: seq<bool>, y: seq<bool>)
    ensures BitCrc(c, x + y) == BitCrc(BitCrc(c, x), y)
  {
    hide BitStep;
    if y == [] {
      assert x + y == x;
    } else {
      assert (x + y)[..|x + y| - 1] == x + y[..|y| - 1];
      BitCrcAppend(c, x, y[..|y| - 1]);
    }
  }

  function BitSteps8(c: bv32, bits: seq<bool>): bv32
    requires |bits| == 8
  {
    BitStep(BitStep(BitStep(BitStep(BitStep(BitStep(BitStep(BitStep(c,
      bits[0]), bits[1]), bits[2]), bits[3]), bits[4]), bits[5]), bits[6]), bits[7])
  }

  lemma EightBits(c: bv32, bits: seq<bool>)
    requires |bits| == 8
    ensures BitCrc(c, bits) == BitSteps8(c, bits)
  {
    hide BitStep;
    BitCrcOne(c, bits, 1);
    BitCrcOne(c, bits, 2);
    BitCrcOne(c, bits, 3);
    BitCrcOne(c, bits, 4);
    BitCrcOne(c, bits, 5);
    BitCrcOne(c, bits, 6);
    BitCrcOne(c, bits, 7);
    BitCrcOne(c, bits, 8);
    assert bits[..8] == bits && bits[..0] == [];
  }

  lemma BitCrcOne(c: bv32, bits: seq<bool>, i: nat)
    requires 0 < i <= |bits|
    ensures BitCrc(c, bits[..i]) == BitStep(BitCrc(c, bits[..i - 1]), bits[i - 1])
  {
    assert bits[..i][..i - 1] == bits[..i - 1];
  }

  /** One byte through the table is its eight bits, low bit first. */
  lemma ByteStepIsBits(c: bv32, b: bv8)
    ensures BitCrc(c, Bits(b)) == ByteStep(c, b)
  {
    hide Xor, Half, Odd, Shift, BitStep, Bits, Wide, ByteStep, BitCrc;
    ByteStepIsShift8(c, b);
    BitsAreLowBits(b);
    EightBits(c, Bits(b));
    var w := Wide(b);
    var w1 := Half(w); var w2 := Half(w1); var w3 := Half(w2); var w4 := Half(w3);
    var w5 := Half(w4); var w6 := Half(w5); var w7 := Half(w6);
    ShiftFeedsLowBit(c, w);
    var c1 := BitStep(c, Odd(w));
    ShiftFeedsLowBit(c1, w1);
    var c2 := BitStep(c1, Odd(w1));
    ShiftFeedsLowBit(c2, w2);
    var c3 := BitStep(c2, Odd(w2));
    ShiftFeedsLowBit(c3, w3);
    var c4 := BitStep(c3, Odd(w3));
    ShiftFeedsLowBit(c4, w4);
    var c5 := BitStep(c4, Odd(w4));
    ShiftFeedsLowBit(c5, w5);
    var c6 := BitStep(c5, Odd(w5));
    ShiftFeedsLowBit(c6, w6);
    var c7 := BitStep(c6, Odd(w6));
    ShiftFeedsLowBit(c7, w7);
    XorBasics(BitStep(c7, Odd(w7)), 0);
  }

  /** The table-driven checksum is the bit-at-a-time one, on every buffer. */
  lemma {:induction false} CrcIsBitCrc(c: bv32, s: seq<bv8>)
    ensures CrcFrom(c, s) == BitCrc(c, AllBits(s))
  {
    hide ByteStep, BitStep, Bits;
    if s != [] {
      var front, last := s[..|s| - 1], s[|s| - 1];
      CrcIsBitCrc(c, front);
      BitCrcAppend(c, AllBits(front), Bits(last));
      ByteStepIsBits(CrcFrom(c, front), last);
    }
  }

  /** `crc32`. */
  method Crc32(s: seq<bv8>) returns (crc: bv32)
    ensures crc == CrcFrom(0, s)
    ensures crc == BitCrc(0, AllBits(s))
  {
    hide ByteStep, BitCrc, AllBits;
    crc := 0;
    for i := 0 to |s|
      invariant crc == CrcFrom(0, s[..i])
    {
      assert s[..i + 1][..i] == s[..i];
      crc := ByteStep(crc, s[i]);
    }
    assert s[..|s|] == s;
    CrcIsBitCrc(0, s);
  }

  // ----- Linearity -------------------------------------------------------------------------------

  function XorBytes(s: seq<bv8>, t: seq<bv8>): (r: seq<bv8>)
    requires |s| == |t|
    ensures |r| == |s|
  {
    seq(|s|, i requires 0 <= i < |s| => s[i] ^ t[i])
  }

  lemma WideXor(a: bv8, b: bv8)
    ensures Wide(a ^ b) == Xor(Wide(a), Wide(b))
  {
  }

  lemma ByteStepXor(c: bv32, d: bv32, a: bv8, b: bv8)
    ensures ByteStep(Xor(c, d), a ^ b) == Xor(ByteStep(c, a), ByteStep(d, b))
  {
    WideXor(a, b);
    hide Xor, Wide, Shift8, ByteStep;
    ByteStepIsShift8(c, a);
    ByteStepIsShift8(d, b);
    ByteStepIsShift8(Xor(c, d), a ^ b);
    XorPairs(c, d, Wide(a), Wide(b));
    Shift8Xor(Xor(c, Wide(a)), Xor(d, Wide(b)));
  }

  /** On equal-length buffers the checksum of the xor is the xor of the checksums. */
  lemma {:induction false} CrcIsLinear(c: bv32, d: bv32, s: seq<bv8>, t: seq<bv8>)
    requires |s| == |t|
    ensures CrcFrom(Xor(c, d), XorBytes(s, t)) == Xor(CrcFrom(c, s), CrcFrom(d, t))
  {
    hide Xor, ByteStep;
    if s != [] {
      var m := |s| - 1;
      CrcIsLinear(c, d, s[..m], t[..m]);
      assert XorBytes(s, t)[..m] == XorBytes(s[..m], t[..m]);
      ByteStepXor(CrcFrom(c, s[..m]), CrcFrom(d, t[..m]), s[m], t[m]);
    }
  }

  // ----- Separation ------------------------------------------------------------------------------

  lemma ShiftInjective(a: bv32, b: bv32)
    requires Shift(a) == Shift(b)
    ensures a == b
  {
  }

  lemma Shift8Injective(a: bv32, b: bv32)
    requires Shift8(a) == Shift8(b)
    ensures a == b
  {
    hide Shift;
    var a1, b1 := Shift(a), Shift(b);
    var a2, b2 := Shift(a1), Shift(b1);
    var a3, b3 := Shift(a2), Shift(b2);
    var a4, b4 := Shift(a3), Shift(b3);
    var a5, b5 := Shift(a4), Shift(b4);
    var a6, b6 := Shift(a5), Shift(b5);
    var a7, b7 := Shift(a6), Shift(b6);
    ShiftInjective(a7, b7);
    ShiftInjective(a6, b6);
    ShiftInjective(a5, b5);
    ShiftInjective(a4, b4);
    ShiftInjective(a3, b3);
    ShiftInjective(a2, b2);
    ShiftInjective(a1, b1);
    ShiftInjective(a, b);
  }

  /** For a fixed byte the step is a bijection on registers: injective, and every register is reached. */
  lemma ByteStepInjective(c: bv32, d: bv32, b: bv8)
    requires ByteStep(c, b) == ByteStep(d, b)
    ensures c == d
  {
    hide Xor, Wide, Shift8, ByteStep;
    ByteStepIsShift8(c, b);
    ByteStepIsShift8(d, b);
    Shift8Injective(Xor(c, Wide(b)), Xor(d, Wide(b)));
    XorCancels(c, Wide(b));
    XorCancels(d, Wide(b));
  }

  function Unshift(c: bv32): bv32 {
    if c & 0x80000000 != 0 then Up1Odd(Xor(c, POLY)) else Up1(c)
  }

  function Up1(a: bv32): bv32 { a << 1 }
  function Up1Odd(a: bv32): bv32 { (a << 1) | 1 }

  lemma Up1IsUndone(a: bv32)
    requires a & 0x80000000 == 0
    ensures !Odd(Up1(a)) && Half(Up1(a)) == a
  {
  }

  lemma Up1OddIsUndone(a: bv32)
    requires a & 0x80000000 == 0
    ensures Odd(Up1Odd(a)) && Half(Up1Odd(a)) == a
  {
  }

  lemma TopBitOfPoly(c: bv32)
    requires c & 0x80000000 != 0
    ensures Xor(c, POLY) & 0x80000000 == 0
  {
  }

  lemma ShiftUnshift(c: bv32)
    ensures Shift(Unshift(c)) == c
  {
    hide Xor, Half, Odd, Up1, Up1Odd, Shift;
    ShiftCases(Unshift(c));
    if c & 0x80000000 != 0 {
      TopBitOfPoly(c);
      Up1OddIsUndone(Xor(c, POLY));
      XorCancels(c, POLY);
    } else {
      Up1IsUndone(c);
    }
  }

  lemma ByteStepSurjective(c: bv32, b: bv8) returns (d: bv32)
    ensures ByteStep(d, b) == c
  {
    hide Xor, Wide, Shift, Unshift, ByteStep;
    var c1 := Unshift(c);
    var c2 := Unshift(c1);
    var c3 := Unshift(c2);
    var c4 := Unshift(c3);
    var c5 := Unshift(c4);
    var c6 := Unshift(c5);
    var c7 := Unshift(c6);
    var c8 := Unshift(c7);
    ShiftUnshift(c); ShiftUnshift(c1); ShiftUnshift(c2); ShiftUnshift(c3);
    ShiftUnshift(c4); ShiftUnshift(c5); ShiftUnshift(c6); ShiftUnshift(c7);
    d := Xor(c8, Wide(b));
    XorCancels(c8, Wide(b));
    ByteStepIsShift8(d, b);
  }

  lemma {:induction false} CrcFromInjective(c: bv32, d: bv32, s: seq<bv8>)
    requires CrcFrom(c, s) == CrcFrom(d, s)
    ensures c == d
  {
    hide ByteStep;
    if s != [] {
      var m := |s| - 1;
      ByteStepInjective(CrcFrom(c, s[..m]), CrcFrom(d, s[..m]), s[m]);
      CrcFromInjective(c, d, s[..m]);
    }
  }

  /** Up to four bytes as one little-endian word. */
  function Word(s: seq<bv8>): bv32
    requires |s| <= 4
  {
    if s == [] then 0 else Xor(Wide(s[0]), Up8(Word(s[1..])))
  }

  function Up8(a: bv32): bv32 { a << 8 }

  predicate Fits(a: bv32, n: nat) {
    (n <= 0 ==> a == 0) && (n <= 1 ==> a <= 0xff) && (n <= 2 ==> a <= 0xffff) && (n <= 3 ==> a <= 0xffffff)
  }

  lemma {:induction false} WordFits(s: seq<bv8>)
    requires |s| <= 4
    ensures Fits(Word(s), |s|)
  {
    if s != [] {
      WordFits(s[1..]);
      UpFits(s[0], Word(s[1..]), |s| - 1);
    }
  }

  lemma UpFits(b: bv8, w: bv32, n: nat)
    requires n <= 3 && Fits(w, n)
    ensures Fits(Xor(Wide(b), Up8(w)), n + 1)
  {
  }

  lemma UpSplits(b: bv8, c: bv8, w: bv32, x: bv32)
    requires w <= 0xffffff && x <= 0xffffff
    requires Xor(Wide(b), Up8(w)) == Xor(Wide(c), Up8(x))
    ensures b == c && w == x
  {
  }

  lemma {:induction false} WordInjective(s: seq<bv8>, t: seq<bv8>)
    requires |s| == |t| <= 4 && Word(s) == Word(t)
    ensures s == t
  {
    if s != [] {
      WordFits(s[1..]);
      WordFits(t[1..]);
      UpSplits(s[0], t[0], Word(s[1..]), Word(t[1..]));
      WordInjective(s[1..], t[1..]);
      assert s == [s[0]] + s[1..] && t == [t[0]] + t[1..];
    }
  }

  function ShiftBytes(n: nat, c: bv32): bv32 {
    if n == 0 then c else ShiftBytes(n - 1, Shift8(c))
  }

  lemma {:induction false} ShiftBytesInjective(n: nat, c: bv32, d: bv32)
    requires ShiftBytes(n, c) == ShiftBytes(n, d)
    ensures c == d
  {
    hide Shift8;
    if n > 0 {
      ShiftBytesInjective(n - 1, Shift8(c), Shift8(d));
      Shift8Injective(c, d);
    }
  }

  lemma UpIsUndone(w: bv32)
    requires w <= 0xffffff
    ensures Shift8(Up8(w)) == w
  {
  }

  /** Up to four bytes enter the register as one word. */
  lemma {:induction false} CrcOfWord(c: bv32, s: seq<bv8>)
    requires |s| <= 4
    ensures CrcFrom(c, s) == ShiftBytes(|s|, Xor(c, Word(s)))
    decreases |s|
  {
    XorBasics(c, 0);
    if s != [] {
      var b, rest := s[0], s[1..];
      var w := Word(rest);
      WordFits(rest);
      hide Xor, Wide, Shift8, ByteStep, Up8;
      assert s == [b] + rest && [b][..0] == [];
      CrcFromAppend(c, [b], rest);
      assert CrcFrom(c, [b]) == ByteStep(c, b);
      ByteStepIsShift8(c, b);
      CrcOfWord(ByteStep(c, b), rest);
      UpIsUndone(w);
      Shift8Xor(Xor(c, Wide(b)), Up8(w));
      XorAssoc(c, Wide(b), Up8(w));
    }
  }

  /** Equal-length keys that differ only within four consecutive bytes never have the same checksum. */
  lemma BurstsAreSeparated(pre: seq<bv8>, s: seq<bv8>, t: seq<bv8>, post: seq<bv8>)
    requires |s| == |t| <= 4 && s != t
    ensures CrcFrom(0, pre + s + post) != CrcFrom(0, pre + t + post)
  {
    hide Xor, ByteStep, Word, ShiftBytes, CrcFrom;
    var c := CrcFrom(0, pre);
    CrcFromAppend(0, pre + s, post);
    CrcFromAppend(0, pre, s);
    CrcFromAppend(0, pre + t, post);
    CrcFromAppend(0, pre, t);
    if CrcFrom(0, pre + s + post) == CrcFrom(0, pre + t + post) {
      CrcFromInjective(CrcFrom(c, s), CrcFrom(c, t), post);
      CrcOfWord(c, s);
      CrcOfWord(c, t);
      ShiftBytesInjective(|s|, Xor(c, Word(s)), Xor(c, Word(t)));
      XorAgrees(c, Word(s), Word(t));
      WordInjective(s, t);
    }
  }

  lemma XorAgrees(c: bv32, v: bv32, w: bv32)
    requires Xor(c, v) == Xor(c, w)
    ensures v == w
  {
  }
}
