/** The look-up table of Source/Core/Misc/Crc32Hash.h, written in rows of eight entries, and the proof that
    entry i is i shifted eight times through the reflected polynomial 0xEDB88320. */
module CrcTable {

  const POLYNOMIAL: bv32 := 0xEDB88320

  /** One step of the reflected shift register with no input. */
  function Shift(x: bv32): bv32 {
    if x & 1 == 1 then (x >> 1) ^ POLYNOMIAL else x >> 1
  }

  function Shift8(x: bv32): bv32 {
    Shift(Shift(Shift(Shift(Shift(Shift(Shift(Shift(x))))))))
  }

  /** Entry n of the table, computed bit by bit. */
  function Entry(n: nat): bv32 {
    if n < 256 then Shift8(n as bv32) else 0
  }

  const ROW0: seq<bv32> := [
    0x00000000, 0x77073096, 0xee0e612c, 0x990951ba,
    0x076dc419, 0x706af48f, 0xe963a535, 0x9e6495a3]
  const ROW1: seq<bv32> := [
    0x0edb8832, 0x79dcb8a4, 0xe0d5e91e, 0x97d2d988,
    0x09b64c2b, 0x7eb17cbd, 0xe7b82d07, 0x90bf1d91]
  const ROW2: seq<bv32> := [
    0x1db71064, 0x6ab020f2, 0xf3b97148, 0x84be41de,
    0x1adad47d, 0x6ddde4eb, 0xf4d4b551, 0x83d385c7]
  const ROW3: seq<bv32> := [
    0x136c9856, 0x646ba8c0, 0xfd62f97a, 0x8a65c9ec,
    0x14015c4f, 0x63066cd9, 0xfa0f3d63, 0x8d080df5]
  const ROW4: seq<bv32> := [
    0x3b6e20c8, 0x4c69105e, 0xd56041e4, 0xa2677172,
    0x3c03e4d1, 0x4b04d447, 0xd20d85fd, 0xa50ab56b]
  const ROW5: seq<bv32> := [
    0x35b5a8fa, 0x42b2986c, 0xdbbbc9d6, 0xacbcf940,
    0x32d86ce3, 0x45df5c75, 0xdcd60dcf, 0xabd13d59]
  const ROW6: seq<bv32> := [
    0x26d930ac, 0x51de003a, 0xc8d75180, 0xbfd06116,
    0x21b4f4b5, 0x56b3c423, 0xcfba9599, 0xb8bda50f]
  const ROW7: seq<bv32> := [
    0x2802b89e, 0x5f058808, 0xc60cd9b2, 0xb10be924,
    0x2f6f7c87, 0x58684c11, 0xc1611dab, 0xb6662d3d]
  const ROW8: seq<bv32> := [
    0x76dc4190, 0x01db7106, 0x98d220bc, 0xefd5102a,
    0x71b18589, 0x06b6b51f, 0x9fbfe4a5, 0xe8b8d433]
  const ROW9: seq<bv32> := [
    0x7807c9a2, 0x0f00f934, 0x9609a88e, 0xe10e9818,
    0x7f6a0dbb, 0x086d3d2d, 0x91646c97, 0xe6635c01]
  const ROW10: seq<bv32> := [
    0x6b6b51f4, 0x1c6c6162, 0x856530d8, 0xf262004e,
    0x6c0695ed, 0x1b01a57b, 0x8208f4c1, 0xf50fc457]
  const ROW11: seq<bv32> := [
    0x65b0d9c6, 0x12b7e950, 0x8bbeb8ea, 0xfcb9887c,
    0x62dd1ddf, 0x15da2d49, 0x8cd37cf3, 0xfbd44c65]
  const ROW12: seq<bv32> := [
    0x4db26158, 0x3ab551ce, 0xa3bc0074, 0xd4bb30e2,
    0x4adfa541, 0x3dd895d7, 0xa4d1c46d, 0xd3d6f4fb]
  const ROW13: seq<bv32> := [
    0x4369e96a, 0x346ed9fc, 0xad678846, 0xda60b8d0,
    0x44042d73, 0x33031de5, 0xaa0a4c5f, 0xdd0d7cc9]
  const ROW14: seq<bv32> := [
    0x5005713c, 0x270241aa, 0xbe0b1010, 0xc90c2086,
    0x5768b525, 0x206f85b3, 0xb966d409, 0xce61e49f]
  const ROW15: seq<bv32> := [
    0x5edef90e, 0x29d9c998, 0xb0d09822, 0xc7d7a8b4,
    0x59b33d17, 0x2eb40d81, 0xb7bd5c3b, 0xc0ba6cad]
  const ROW16: seq<bv32> := [
    0xedb88320, 0x9abfb3b6, 0x03b6e20c, 0x74b1d29a,
    0xead54739, 0x9dd277af, 0x04db2615, 0x73dc1683]
  const ROW17: seq<bv32> := [
    0xe3630b12, 0x94643b84, 0x0d6d6a3e, 0x7a6a5aa8,
    0xe40ecf0b, 0x9309ff9d, 0x0a00ae27, 0x7d079eb1]
  const ROW18: seq<bv32> := [
    0xf00f9344, 0x8708a3d2, 0x1e01f268, 0x6906c2fe,
    0xf762575d, 0x806567cb, 0x196c3671, 0x6e6b06e7]
  const ROW19: seq<bv32> := [
    0xfed41b76, 0x89d32be0, 0x10da7a5a, 0x67dd4acc,
    0xf9b9df6f, 0x8ebeeff9, 0x17b7be43, 0x60b08ed5]
  const ROW20: seq<bv32> := [
    0xd6d6a3e8, 0xa1d1937e, 0x38d8c2c4, 0x4fdff252,
    0xd1bb67f1, 0xa6bc5767, 0x3fb506dd, 0x48b2364b]
  const ROW21: seq<bv32> := [
    0xd80d2bda, 0xaf0a1b4c, 0x36034af6, 0x41047a60,
    0xdf60efc3, 0xa867df55, 0x316e8eef, 0x4669be79]
  const ROW22: seq<bv32> := [
    0xcb61b38c, 0xbc66831a, 0x256fd2a0, 0x5268e236,
    0xcc0c7795, 0xbb0b4703, 0x220216b9, 0x5505262f]
  const ROW23: seq<bv32> := [
    0xc5ba3bbe, 0xb2bd0b28, 0x2bb45a92, 0x5cb36a04,
    0xc2d7ffa7, 0xb5d0cf31, 0x2cd99e8b, 0x5bdeae1d]
  const ROW24: seq<bv32> := [
    0x9b64c2b0, 0xec63f226, 0x756aa39c, 0x026d930a,
    0x9c0906a9, 0xeb0e363f, 0x72076785, 0x05005713]
  const ROW25: seq<bv32> := [
    0x95bf4a82, 0xe2b87a14, 0x7bb12bae, 0x0cb61b38,
    0x92d28e9b, 0xe5d5be0d, 0x7cdcefb7, 0x0bdbdf21]
  const ROW26: seq<bv32> := [
    0x86d3d2d4, 0xf1d4e242, 0x68ddb3f8, 0x1fda836e,
    0x81be16cd, 0xf6b9265b, 0x6fb077e1, 0x18b74777]
  const ROW27: seq<bv32> := [
    0x88085ae6, 0xff0f6a70, 0x66063bca, 0x11010b5c,
    0x8f659eff, 0xf862ae69, 0x616bffd3, 0x166ccf45]
  const ROW28: seq<bv32> := [
    0xa00ae278, 0xd70dd2ee, 0x4e048354, 0x3903b3c2,
    0xa7672661, 0xd06016f7, 0x4969474d, 0x3e6e77db]
  const ROW29: seq<bv32> := [
    0xaed16a4a, 0xd9d65adc, 0x40df0b66, 0x37d83bf0,
    0xa9bcae53, 0xdebb9ec5, 0x47b2cf7f, 0x30b5ffe9]
  const ROW30: seq<bv32> := [
    0xbdbdf21c, 0xcabac28a, 0x53b39330, 0x24b4a3a6,
    0xbad03605, 0xcdd70693, 0x54de5729, 0x23d967bf]
  const ROW31: seq<bv32> := [
    0xb3667a2e, 0xc4614ab8, 0x5d681b02, 0x2a6f2b94,
    0xb40bbe37, 0xc30c8ea1, 0x5a05df1b, 0x2d02ef8d]

  const FROM192: seq<bv32> := ROW24 + (ROW25 + (ROW26 + (ROW27 + (ROW28 + (ROW29 + (ROW30 + (ROW31)))))))
  const FROM128: seq<bv32> := ROW16 + (ROW17 + (ROW18 + (ROW19 + (ROW20 + (ROW21 + (ROW22 + (ROW23 + FROM192)))))))
  const FROM64: seq<bv32> := ROW8 + (ROW9 + (ROW10 + (ROW11 + (ROW12 + (ROW13 + (ROW14 + (ROW15 + FROM128)))))))
  const FROM0: seq<bv32> := ROW0 + (ROW1 + (ROW2 + (ROW3 + (ROW4 + (ROW5 + (ROW6 + (ROW7 + FROM64)))))))
  const CRC_TABLE: seq<bv32> := FROM0

  ghost predicate RowOf(f: nat -> bv32, row: seq<bv32>, first: nat) {
    && |row| == 8
    && row[0] == f(first) && row[1] == f(first + 1) && row[2] == f(first + 2) && row[3] == f(first + 3)
    && row[4] == f(first + 4) && row[5] == f(first + 5) && row[6] == f(first + 6) && row[7] == f(first + 7)
  }

  /** The sequence lists f from argument `first` up to 255. */
  ghost predicate Lists(f: nat -> bv32, s: seq<bv32>, first: nat) {
    |s| + first == 256 && forall i :: 0 <= i < |s| ==> s[i] == f(first + i)
  }

  lemma Prepend(f: nat -> bv32, row: seq<bv32>, s: seq<bv32>, first: nat)
    requires RowOf(f, row, first) && Lists(f, s, first + 8)
    ensures Lists(f, row + s, first)
  {
  }

  lemma Row0() ensures RowOf(Entry, ROW0, 0) {}
  lemma Row1() ensures RowOf(Entry, ROW1, 8) {}
  lemma Row2() ensures RowOf(Entry, ROW2, 16) {}
  lemma Row3() ensures RowOf(Entry, ROW3, 24) {}
  lemma Row4() ensures RowOf(Entry, ROW4, 32) {}
  lemma Row5() ensures RowOf(Entry, ROW5, 40) {}
  lemma Row6() ensures RowOf(Entry, ROW6, 48) {}
  lemma Row7() ensures RowOf(Entry, ROW7, 56) {}
  lemma Row8() ensures RowOf(Entry, ROW8, 64) {}
  lemma Row9() ensures RowOf(Entry, ROW9, 72) {}
  lemma Row10() ensures RowOf(Entry, ROW10, 80) {}
  lemma Row11() ensures RowOf(Entry, ROW11, 88) {}
  lemma Row12() ensures RowOf(Entry, ROW12, 96) {}
  lemma Row13() ensures RowOf(Entry, ROW13, 104) {}
  lemma Row14() ensures RowOf(Entry, ROW14, 112) {}
  lemma Row15() ensures RowOf(Entry, ROW15, 120) {}
  lemma Row16() ensures RowOf(Entry, ROW16, 128) {}
  lemma Row17() ensures RowOf(Entry, ROW17, 136) {}
  lemma Row18() ensures RowOf(Entry, ROW18, 144) {}
  lemma Row19() ensures RowOf(Entry, ROW19, 152) {}
  lemma Row20() ensures RowOf(Entry, ROW20, 160) {}
  lemma Row21() ensures RowOf(Entry, ROW21, 168) {}
  lemma Row22() ensures RowOf(Entry, ROW22, 176) {}
  lemma Row23() ensures RowOf(Entry, ROW23, 184) {}
  lemma Row24() ensures RowOf(Entry, ROW24, 192) {}
  lemma Row25() ensures RowOf(Entry, ROW25, 200) {}
  lemma Row26() ensures RowOf(Entry, ROW26, 208) {}
  lemma Row27() ensures RowOf(Entry, ROW27, 216) {}
  lemma Row28() ensures RowOf(Entry, ROW28, 224) {}
  lemma Row29() ensures RowOf(Entry, ROW29, 232) {}
  lemma Row30() ensures RowOf(Entry, ROW30, 240) {}
  lemma Row31() ensures RowOf(Entry, ROW31, 248) {}

  /** The rows are chained from the last one, for any function they list. */
  lemma Chain192(f: nat -> bv32)
    requires RowOf(f, ROW24, 192)
    requires RowOf(f, ROW25, 200)
    requires RowOf(f, ROW26, 208)
    requires RowOf(f, ROW27, 216)
    requires RowOf(f, ROW28, 224)
    requires RowOf(f, ROW29, 232)
    requires RowOf(f, ROW30, 240)
    requires RowOf(f, ROW31, 248)
    ensures Lists(f, FROM192, 192)
  {
    Prepend(f, ROW31, [], 248);
    Prepend(f, ROW30, ROW31, 240);
    Prepend(f, ROW29, ROW30 + (ROW31), 232);
    Prepend(f, ROW28, ROW29 + (ROW30 + (ROW31)), 224);
    Prepend(f, ROW27, ROW28 + (ROW29 + (ROW30 + (ROW31))), 216);
    Prepend(f, ROW26, ROW27 + (ROW28 + (ROW29 + (ROW30 + (ROW31)))), 208);
    Prepend(f, ROW25, ROW26 + (ROW27 + (ROW28 + (ROW29 + (ROW30 + (ROW31))))), 200);
    Prepend(f, ROW24, ROW25 + (ROW26 + (ROW27 + (ROW28 + (ROW29 + (ROW30 + (ROW31)))))), 192);
  }

  lemma Chain128(f: nat -> bv32)
    requires RowOf(f, ROW16, 128)
    requires RowOf(f, ROW17, 136)
    requires RowOf(f, ROW18, 144)
    requires RowOf(f, ROW19, 152)
    requires RowOf(f, ROW20, 160)
    requires RowOf(f, ROW21, 168)
    requires RowOf(f, ROW22, 176)
    requires RowOf(f, ROW23, 184)
    requires Lists(f, FROM192, 192)
    ensures Lists(f, FROM128, 128)
  {
    Prepend(f, ROW23, FROM192, 184);
    Prepend(f, ROW22, ROW23 + FROM192, 176);
    Prepend(f, ROW21, ROW22 + (ROW23 + FROM192), 168);
    Prepend(f, ROW20, ROW21 + (ROW22 + (ROW23 + FROM192)), 160);
    Prepend(f, ROW19, ROW20 + (ROW21 + (ROW22 + (ROW23 + FROM192))), 152);
    Prepend(f, ROW18, ROW19 + (ROW20 + (ROW21 + (ROW22 + (ROW23 + FROM192)))), 144);
    Prepend(f, ROW17, ROW18 + (ROW19 + (ROW20 + (ROW21 + (ROW22 + (ROW23 + FROM192))))), 136);
    Prepend(f, ROW16, ROW17 + (ROW18 + (ROW19 + (ROW20 + (ROW21 + (ROW22 + (ROW23 + FROM192)))))), 128);
  }

  lemma Chain64(f: nat -> bv32)
    requires RowOf(f, ROW8, 64)
    requires RowOf(f, ROW9, 72)
    requires RowOf(f, ROW10, 80)
    requires RowOf(f, ROW11, 88)
    requires RowOf(f, ROW12, 96)
    requires RowOf(f, ROW13, 104)
    requires RowOf(f, ROW14, 112)
    requires RowOf(f, ROW15, 120)
    requires Lists(f, FROM128, 128)
    ensures Lists(f, FROM64, 64)
  {
    Prepend(f, ROW15, FROM128, 120);
    Prepend(f, ROW14, ROW15 + FROM128, 112);
    Prepend(f, ROW13, ROW14 + (ROW15 + FROM128), 104);
    Prepend(f, ROW12, ROW13 + (ROW14 + (ROW15 + FROM128)), 96);
    Prepend(f, ROW11, ROW12 + (ROW13 + (ROW14 + (ROW15 + FROM128))), 88);
    Prepend(f, ROW10, ROW11 + (ROW12 + (ROW13 + (ROW14 + (ROW15 + FROM128)))), 80);
    Prepend(f, ROW9, ROW10 + (ROW11 + (ROW12 + (ROW13 + (ROW14 + (ROW15 + FROM128))))), 72);
    Prepend(f, ROW8, ROW9 + (ROW10 + (ROW11 + (ROW12 + (ROW13 + (ROW14 + (ROW15 + FROM128)))))), 64);
  }

  lemma Chain0(f: nat -> bv32)
    requires RowOf(f, ROW0, 0)
    requires RowOf(f, ROW1, 8)
    requires RowOf(f, ROW2, 16)
    requires RowOf(f, ROW3, 24)
    requires RowOf(f, ROW4, 32)
    requires RowOf(f, ROW5, 40)
    requires RowOf(f, ROW6, 48)
    requires RowOf(f, ROW7, 56)
    requires Lists(f, FROM64, 64)
    ensures Lists(f, FROM0, 0)
  {
    Prepend(f, ROW7, FROM64, 56);
    Prepend(f, ROW6, ROW7 + FROM64, 48);
    Prepend(f, ROW5, ROW6 + (ROW7 + FROM64), 40);
    Prepend(f, ROW4, ROW5 + (ROW6 + (ROW7 + FROM64)), 32);
    Prepend(f, ROW3, ROW4 + (ROW5 + (ROW6 + (ROW7 + FROM64))), 24);
    Prepend(f, ROW2, ROW3 + (ROW4 + (ROW5 + (ROW6 + (ROW7 + FROM64)))), 16);
    Prepend(f, ROW1, ROW2 + (ROW3 + (ROW4 + (ROW5 + (ROW6 + (ROW7 + FROM64))))), 8);
    Prepend(f, ROW0, ROW1 + (ROW2 + (ROW3 + (ROW4 + (ROW5 + (ROW6 + (ROW7 + FROM64)))))), 0);
  }

  lemma ListsFrom192()
    ensures Lists(Entry, FROM192, 192)
  {
    Row24(); Row25(); Row26(); Row27(); Row28(); Row29(); Row30(); Row31();
    Chain192(Entry);
  }

  lemma ListsFrom128()
    ensures Lists(Entry, FROM128, 128)
  {
    Row16(); Row17(); Row18(); Row19(); Row20(); Row21(); Row22(); Row23();
    ListsFrom192();
    Chain128(Entry);
  }

  lemma ListsFrom64()
    ensures Lists(Entry, FROM64, 64)
  {
    Row8(); Row9(); Row10(); Row11(); Row12(); Row13(); Row14(); Row15();
    ListsFrom128();
    Chain64(Entry);
  }

  lemma ListsFrom0()
    ensures Lists(Entry, FROM0, 0)
  {
    Row0(); Row1(); Row2(); Row3(); Row4(); Row5(); Row6(); Row7();
    ListsFrom64();
    Chain0(Entry);
  }

  lemma TableEntry(i: nat)
    requires i < 256
    ensures |CRC_TABLE| == 256 && CRC_TABLE[i] == Shift8(i as bv32)
  {
    ListsFrom0();
  }
}
