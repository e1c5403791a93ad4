/** The table of ns_crc32, checked entry by entry against the division. */
module CrcTable {

  const CRC_MASK: bv32 := 0xFFFF_FFFF
  /** The CRC polynomial 0x04C11DB7, reversed. */
  const CRCPOLY: bv32 := 0xEDB8_8320

  /** One step of the division: shift a bit out, and subtract the polynomial if it was set. */
  function Step(r: bv32): bv32 {
    if r & 1 == 1 then (r >> 1) ^ CRCPOLY else r >> 1
  }

  function Steps8(r: bv32): bv32 {
    Step(Step(Step(Step(Step(Step(Step(Step(r))))))))
  }

  /** The k-th of eight table entries. */
  function Pick(k: bv8, e0: bv32, e1: bv32, e2: bv32, e3: bv32, e4: bv32, e5: bv32, e6: bv32, e7: bv32): bv32 {
    if k == 0 then e0 else
    if k == 1 then e1 else
    if k == 2 then e2 else
    if k == 3 then e3 else
    if k == 4 then e4 else
    if k == 5 then e5 else
    if k == 6 then e6 else
    e7
  }

  // ---- crctable, eight entries a row ----

  function Row0(k: bv8): bv32 {
    Pick(k, 0x00000000, 0x77073096, 0xee0e612c, 0x990951ba, 0x076dc419, 0x706af48f, 0xe963a535, 0x9e6495a3)
  }

  function Row1(k: bv8): bv32 {
    Pick(k, 0x0edb8832, 0x79dcb8a4, 0xe0d5e91e, 0x97d2d988, 0x09b64c2b, 0x7eb17cbd, 0xe7b82d07, 0x90bf1d91)
  }

  function Row2(k: bv8): bv32 {
    Pick(k, 0x1db71064, 0x6ab020f2, 0xf3b97148, 0x84be41de, 0x1adad47d, 0x6ddde4eb, 0xf4d4b551, 0x83d385c7)
  }

  function Row3(k: bv8): bv32 {
    Pick(k, 0x136c9856, 0x646ba8c0, 0xfd62f97a, 0x8a65c9ec, 0x14015c4f, 0x63066cd9, 0xfa0f3d63, 0x8d080df5)
  }

  function Row4(k: bv8): bv32 {
    Pick(k, 0x3b6e20c8, 0x4c69105e, 0xd56041e4, 0xa2677172, 0x3c03e4d1, 0x4b04d447, 0xd20d85fd, 0xa50ab56b)
  }

  function Row5(k: bv8): bv32 {
    Pick(k, 0x35b5a8fa, 0x42b2986c, 0xdbbbc9d6, 0xacbcf940, 0x32d86ce3, 0x45df5c75, 0xdcd60dcf, 0xabd13d59)
  }

  function Row6(k: bv8): bv32 {
    Pick(k, 0x26d930ac, 0x51de003a, 0xc8d75180, 0xbfd06116, 0x21b4f4b5, 0x56b3c423, 0xcfba9599, 0xb8bda50f)
  }

  function Row7(k: bv8): bv32 {
    Pick(k, 0x2802b89e, 0x5f058808, 0xc60cd9b2, 0xb10be924, 0x2f6f7c87, 0x58684c11, 0xc1611dab, 0xb6662d3d)
  }

  function Row8(k: bv8): bv32 {
    Pick(k, 0x76dc4190, 0x01db7106, 0x98d220bc, 0xefd5102a, 0x71b18589, 0x06b6b51f, 0x9fbfe4a5, 0xe8b8d433)
  }

  function Row9(k: bv8): bv32 {
    Pick(k, 0x7807c9a2, 0x0f00f934, 0x9609a88e, 0xe10e9818, 0x7f6a0dbb, 0x086d3d2d, 0x91646c97, 0xe6635c01)
  }

  function Row10(k: bv8): bv32 {
    Pick(k, 0x6b6b51f4, 0x1c6c6162, 0x856530d8, 0xf262004e, 0x6c0695ed, 0x1b01a57b, 0x8208f4c1, 0xf50fc457)
  }

  function Row11(k: bv8): bv32 {
    Pick(k, 0x65b0d9c6, 0x12b7e950, 0x8bbeb8ea, 0xfcb9887c, 0x62dd1ddf, 0x15da2d49, 0x8cd37cf3, 0xfbd44c65)
  }

  function Row12(k: bv8): bv32 {
    Pick(k, 0x4db26158, 0x3ab551ce, 0xa3bc0074, 0xd4bb30e2, 0x4adfa541, 0x3dd895d7, 0xa4d1c46d, 0xd3d6f4fb)
  }

  function Row13(k: bv8): bv32 {
    Pick(k, 0x4369e96a, 0x346ed9fc, 0xad678846, 0xda60b8d0, 0x44042d73, 0x33031de5, 0xaa0a4c5f, 0xdd0d7cc9)
  }

  function Row14(k: bv8): bv32 {
    Pick(k, 0x5005713c, 0x270241aa, 0xbe0b1010, 0xc90c2086, 0x5768b525, 0x206f85b3, 0xb966d409, 0xce61e49f)
  }

  function Row15(k: bv8): bv32 {
    Pick(k, 0x5edef90e, 0x29d9c998, 0xb0d09822, 0xc7d7a8b4, 0x59b33d17, 0x2eb40d81, 0xb7bd5c3b, 0xc0ba6cad)
  }

  function Row16(k: bv8): bv32 {
    Pick(k, 0xedb88320, 0x9abfb3b6, 0x03b6e20c, 0x74b1d29a, 0xead54739, 0x9dd277af, 0x04db2615, 0x73dc1683)
  }

  function Row17(k: bv8): bv32 {
    Pick(k, 0xe3630b12, 0x94643b84, 0x0d6d6a3e, 0x7a6a5aa8, 0xe40ecf0b, 0x9309ff9d, 0x0a00ae27, 0x7d079eb1)
  }

  function Row18(k: bv8): bv32 {
    Pick(k, 0xf00f9344, 0x8708a3d2, 0x1e01f268, 0x6906c2fe, 0xf762575d, 0x806567cb, 0x196c3671, 0x6e6b06e7)
  }

  function Row19(k: bv8): bv32 {
    Pick(k, 0xfed41b76, 0x89d32be0, 0x10da7a5a, 0x67dd4acc, 0xf9b9df6f, 0x8ebeeff9, 0x17b7be43, 0x60b08ed5)
  }

  function Row20(k: bv8): bv32 {
    Pick(k, 0xd6d6a3e8, 0xa1d1937e, 0x38d8c2c4, 0x4fdff252, 0xd1bb67f1, 0xa6bc5767, 0x3fb506dd, 0x48b2364b)
  }

  function Row21(k: bv8): bv32 {
    Pick(k, 0xd80d2bda, 0xaf0a1b4c, 0x36034af6, 0x41047a60, 0xdf60efc3, 0xa867df55, 0x316e8eef, 0x4669be79)
  }

  function Row22(k: bv8): bv32 {
    Pick(k, 0xcb61b38c, 0xbc66831a, 0x256fd2a0, 0x5268e236, 0xcc0c7795, 0xbb0b4703, 0x220216b9, 0x5505262f)
  }

  function Row23(k: bv8): bv32 {
    Pick(k, 0xc5ba3bbe, 0xb2bd0b28, 0x2bb45a92, 0x5cb36a04, 0xc2d7ffa7, 0xb5d0cf31, 0x2cd99e8b, 0x5bdeae1d)
  }

  function Row24(k: bv8): bv32 {
    Pick(k, 0x9b64c2b0, 0xec63f226, 0x756aa39c, 0x026d930a, 0x9c0906a9, 0xeb0e363f, 0x72076785, 0x05005713)
  }

  function Row25(k: bv8): bv32 {
    Pick(k, 0x95bf4a82, 0xe2b87a14, 0x7bb12bae, 0x0cb61b38, 0x92d28e9b, 0xe5d5be0d, 0x7cdcefb7, 0x0bdbdf21)
  }

  function Row26(k: bv8): bv32 {
    Pick(k, 0x86d3d2d4, 0xf1d4e242, 0x68ddb3f8, 0x1fda836e, 0x81be16cd, 0xf6b9265b, 0x6fb077e1, 0x18b74777)
  }

  function Row27(k: bv8): bv32 {
    Pick(k, 0x88085ae6, 0xff0f6a70, 0x66063bca, 0x11010b5c, 0x8f659eff, 0xf862ae69, 0x616bffd3, 0x166ccf45)
  }

  function Row28(k: bv8): bv32 {
    Pick(k, 0xa00ae278, 0xd70dd2ee, 0x4e048354, 0x3903b3c2, 0xa7672661, 0xd06016f7, 0x4969474d, 0x3e6e77db)
  }

  function Row29(k: bv8): bv32 {
    Pick(k, 0xaed16a4a, 0xd9d65adc, 0x40df0b66, 0x37d83bf0, 0xa9bcae53, 0xdebb9ec5, 0x47b2cf7f, 0x30b5ffe9)
  }

  function Row30(k: bv8): bv32 {
    Pick(k, 0xbdbdf21c, 0xcabac28a, 0x53b39330, 0x24b4a3a6, 0xbad03605, 0xcdd70693, 0x54de5729, 0x23d967bf)
  }

  function Row31(k: bv8): bv32 {
    Pick(k, 0xb3667a2e, 0xc4614ab8, 0x5d681b02, 0x2a6f2b94, 0xb40bbe37, 0xc30c8ea1, 0x5a05df1b, 0x2d02ef8d)
  }

  function TableEntry(i: bv8): bv32 {
    if i >> 3 == 0 then Row0(i & 7)
    else if i >> 3 == 1 then Row1(i & 7)
    else if i >> 3 == 2 then Row2(i & 7)
    else if i >> 3 == 3 then Row3(i & 7)
    else if i >> 3 == 4 then Row4(i & 7)
    else if i >> 3 == 5 then Row5(i & 7)
    else if i >> 3 == 6 then Row6(i & 7)
    else if i >> 3 == 7 then Row7(i & 7)
    else if i >> 3 == 8 then Row8(i & 7)
    else if i >> 3 == 9 then Row9(i & 7)
    else if i >> 3 == 10 then Row10(i & 7)
    else if i >> 3 == 11 then Row11(i & 7)
    else if i >> 3 == 12 then Row12(i & 7)
    else if i >> 3 == 13 then Row13(i & 7)
    else if i >> 3 == 14 then Row14(i & 7)
    else if i >> 3 == 15 then Row15(i & 7)
    else if i >> 3 == 16 then Row16(i & 7)
    else if i >> 3 == 17 then Row17(i & 7)
    else if i >> 3 == 18 then Row18(i & 7)
    else if i >> 3 == 19 then Row19(i & 7)
    else if i >> 3 == 20 then Row20(i & 7)
    else if i >> 3 == 21 then Row21(i & 7)
    else if i >> 3 == 22 then Row22(i & 7)
    else if i >> 3 == 23 then Row23(i & 7)
    else if i >> 3 == 24 then Row24(i & 7)
    else if i >> 3 == 25 then Row25(i & 7)
    else if i >> 3 == 26 then Row26(i & 7)
    else if i >> 3 == 27 then Row27(i & 7)
    else if i >> 3 == 28 then Row28(i & 7)
    else if i >> 3 == 29 then Row29(i & 7)
    else if i >> 3 == 30 then Row30(i & 7)
    else Row31(i & 7)
  }

  // ---- Each row is what eight steps make of its indices ----

  lemma Row0Right(i: bv8)
    requires i >> 3 == 0
    ensures Row0(i & 7) == Steps8(i as bv32)
  {
  }

  lemma Row1Right(i: bv8)
    requires i >> 3 == 1
    ensures Row1(i & 7) == Steps8(i as bv32)
  {
  }

  lemma Row2Right(i: bv8)
    requires i >> 3 == 2
    ensures Row2(i & 7) == Steps8(i as bv32)
  {
  }

  lemma Row3Right(i: bv8)
    requires i >> 3 == 3
    ensures Row3(i & 7) == Steps8(i as bv32)
  {
  }

  lemma Row4Right(i: bv8)
    requires i >> 3 == 4
    ensures Row4(i & 7) == Steps8(i as bv32)
  {
  }

  lemma Row5Right(i: bv8)
    requires i >> 3 == 5
    ensures Row5(i & 7) == Steps8(i as bv32)
  {
  }

  lemma Row6Right(i: bv8)
    requires i >> 3 == 6
    ensures Row6(i & 7) == Steps8(i as bv32)
  {
  }

  lemma Row7Right(i: bv8)
    requires i >> 3 == 7
    ensures Row7(i & 7) == Steps8(i as bv32)
  {
  }

  lemma Row8Right(i: bv8)
    requires i >> 3 == 8
    ensures Row8(i & 7) == Steps8(i as bv32)
  {
  }

  lemma Row9Right(i: bv8)
    requires i >> 3 == 9
    ensures Row9(i & 7) == Steps8(i as bv32)
  {
  }

  lemma Row10Right(i: bv8)
    requires i >> 3 == 10
    ensures Row10(i & 7) == Steps8(i as bv32)
  {
  }

  lemma Row11Right(i: bv8)
    requires i >> 3 == 11
    ensures Row11(i & 7) == Steps8(i as bv32)
  {
  }

  lemma Row12Right(i: bv8)
    requires i >> 3 == 12
    ensures Row12(i & 7) == Steps8(i as bv32)
  {
  }

  lemma Row13Right(i: bv8)
    requires i >> 3 == 13
    ensures Row13(i & 7) == Steps8(i as bv32)
  {
  }

  lemma Row14Right(i: bv8)
    requires i >> 3 == 14
    ensures Row14(i & 7) == Steps8(i as bv32)
  {
  }

  lemma Row15Right(i: bv8)
    requires i >> 3 == 15
    ensures Row15(i & 7) == Steps8(i as bv32)
  {
  }

  lemma Row16Right(i: bv8)
    requires i >> 3 == 16
    ensures Row16(i & 7) == Steps8(i as bv32)
  {
  }

  lemma Row17Right(i: bv8)
    requires i >> 3 == 17
    ensures Row17(i & 7) == Steps8(i as bv32)
  {
  }

  lemma Row18Right(i: bv8)
    requires i >> 3 == 18
    ensures Row18(i & 7) == Steps8(i as bv32)
  {
  }

  lemma Row19Right(i: bv8)
    requires i >> 3 == 19
    ensures Row19(i & 7) == Steps8(i as bv32)
  {
  }

  lemma Row20Right(i: bv8)
    requires i >> 3 == 20
    ensures Row20(i & 7) == Steps8(i as bv32)
  {
  }

  lemma Row21Right(i: bv8)
    requires i >> 3 == 21
    ensures Row21(i & 7) == Steps8(i as bv32)
  {
  }

  lemma Row22Right(i: bv8)
    requires i >> 3 == 22
    ensures Row22(i & 7) == Steps8(i as bv32)
  {
  }

  lemma Row23Right(i: bv8)
    requires i >> 3 == 23
    ensures Row23(i & 7) == Steps8(i as bv32)
  {
  }

  lemma Row24Right(i: bv8)
    requires i >> 3 == 24
    ensures Row24(i & 7) == Steps8(i as bv32)
  {
  }

  lemma Row25Right(i: bv8)
    requires i >> 3 == 25
    ensures Row25(i & 7) == Steps8(i as bv32)
  {
  }

  lemma Row26Right(i: bv8)
    requires i >> 3 == 26
    ensures Row26(i & 7) == Steps8(i as bv32)
  {
  }

  lemma Row27Right(i: bv8)
    requires i >> 3 == 27
    ensures Row27(i & 7) == Steps8(i as bv32)
  {
  }

  lemma Row28Right(i: bv8)
    requires i >> 3 == 28
    ensures Row28(i & 7) == Steps8(i as bv32)
  {
  }

  lemma Row29Right(i: bv8)
    requires i >> 3 == 29
    ensures Row29(i & 7) == Steps8(i as bv32)
  {
  }

  lemma Row30Right(i: bv8)
    requires i >> 3 == 30
    ensures Row30(i & 7) == Steps8(i as bv32)
  {
  }

  lemma Row31Right(i: bv8)
    requires i >> 3 == 31
    ensures Row31(i & 7) == Steps8(i as bv32)
  {
  }

  lemma ThirtyTwo(i: bv8)
    ensures i >> 3 < 32
  {
  }

  /** Every entry is what eight steps make of its index. */
  lemma TableRight(i: bv8)
    ensures TableEntry(i) == Steps8(i as bv32)
  {
    hide Steps8,
      Row0, Row1, Row2, Row3, Row4, Row5, Row6, Row7, Row8, Row9, Row10, Row11,
      Row12, Row13, Row14, Row15, Row16, Row17, Row18, Row19, Row20, Row21, Row22, Row23,
      Row24, Row25, Row26, Row27, Row28, Row29, Row30, Row31;
    var r := i >> 3;
    ThirtyTwo(i);
    if r == 0 {
      Row0Right(i);
    } else if r == 1 {
      Row1Right(i);
    } else if r == 2 {
      Row2Right(i);
    } else if r == 3 {
      Row3Right(i);
    } else if r == 4 {
      Row4Right(i);
    } else if r == 5 {
      Row5Right(i);
    } else if r == 6 {
      Row6Right(i);
    } else if r == 7 {
      Row7Right(i);
    } else if r == 8 {
      Row8Right(i);
    } else if r == 9 {
      Row9Right(i);
    } else if r == 10 {
      Row10Right(i);
    } else if r == 11 {
      Row11Right(i);
    } else if r == 12 {
      Row12Right(i);
    } else if r == 13 {
      Row13Right(i);
    } else if r == 14 {
      Row14Right(i);
    } else if r == 15 {
      Row15Right(i);
    } else if r == 16 {
      Row16Right(i);
    } else if r == 17 {
      Row17Right(i);
    } else if r == 18 {
      Row18Right(i);
    } else if r == 19 {
      Row19Right(i);
    } else if r == 20 {
      Row20Right(i);
    } else if r == 21 {
      Row21Right(i);
    } else if r == 22 {
      Row22Right(i);
    } else if r == 23 {
      Row23Right(i);
    } else if r == 24 {
      Row24Right(i);
    } else if r == 25 {
      Row25Right(i);
    } else if r == 26 {
      Row26Right(i);
    } else if r == 27 {
      Row27Right(i);
    } else if r == 28 {
      Row28Right(i);
    } else if r == 29 {
      Row29Right(i);
    } else if r == 30 {
      Row30Right(i);
    } else {
      Row31Right(i);
    }
  }
}
