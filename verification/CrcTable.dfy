/** The table of the crc program, and what its entries are: each line of eight is found again, doubled and reduced, in
    the two lines at twice its place. */
module CrcTable {
  const ROW0: seq<nat> := [0x0000, 0x1021, 0x2042, 0x3063, 0x4084, 0x50a5, 0x60c6, 0x70e7]
  const ROW1: seq<nat> := [0x8108, 0x9129, 0xa14a, 0xb16b, 0xc18c, 0xd1ad, 0xe1ce, 0xf1ef]
  const ROW2: seq<nat> := [0x1231, 0x0210, 0x3273, 0x2252, 0x52b5, 0x4294, 0x72f7, 0x62d6]
  const ROW3: seq<nat> := [0x9339, 0x8318, 0xb37b, 0xa35a, 0xd3bd, 0xc39c, 0xf3ff, 0xe3de]
  const ROW4: seq<nat> := [0x2462, 0x3443, 0x0420, 0x1401, 0x64e6, 0x74c7, 0x44a4, 0x5485]
  const ROW5: seq<nat> := [0xa56a, 0xb54b, 0x8528, 0x9509, 0xe5ee, 0xf5cf, 0xc5ac, 0xd58d]
  const ROW6: seq<nat> := [0x3653, 0x2672, 0x1611, 0x0630, 0x76d7, 0x66f6, 0x5695, 0x46b4]
  const ROW7: seq<nat> := [0xb75b, 0xa77a, 0x9719, 0x8738, 0xf7df, 0xe7fe, 0xd79d, 0xc7bc]
  const ROW8: seq<nat> := [0x48c4, 0x58e5, 0x6886, 0x78a7, 0x0840, 0x1861, 0x2802, 0x3823]
  const ROW9: seq<nat> := [0xc9cc, 0xd9ed, 0xe98e, 0xf9af, 0x8948, 0x9969, 0xa90a, 0xb92b]
  const ROW10: seq<nat> := [0x5af5, 0x4ad4, 0x7ab7, 0x6a96, 0x1a71, 0x0a50, 0x3a33, 0x2a12]
  const ROW11: seq<nat> := [0xdbfd, 0xcbdc, 0xfbbf, 0xeb9e, 0x9b79, 0x8b58, 0xbb3b, 0xab1a]
  const ROW12: seq<nat> := [0x6ca6, 0x7c87, 0x4ce4, 0x5cc5, 0x2c22, 0x3c03, 0x0c60, 0x1c41]
  const ROW13: seq<nat> := [0xedae, 0xfd8f, 0xcdec, 0xddcd, 0xad2a, 0xbd0b, 0x8d68, 0x9d49]
  const ROW14: seq<nat> := [0x7e97, 0x6eb6, 0x5ed5, 0x4ef4, 0x3e13, 0x2e32, 0x1e51, 0x0e70]
  const ROW15: seq<nat> := [0xff9f, 0xefbe, 0xdfdd, 0xcffc, 0xbf1b, 0xaf3a, 0x9f59, 0x8f78]
  const ROW16: seq<nat> := [0x9188, 0x81a9, 0xb1ca, 0xa1eb, 0xd10c, 0xc12d, 0xf14e, 0xe16f]
  const ROW17: seq<nat> := [0x1080, 0x00a1, 0x30c2, 0x20e3, 0x5004, 0x4025, 0x7046, 0x6067]
  const ROW18: seq<nat> := [0x83b9, 0x9398, 0xa3fb, 0xb3da, 0xc33d, 0xd31c, 0xe37f, 0xf35e]
  const ROW19: seq<nat> := [0x02b1, 0x1290, 0x22f3, 0x32d2, 0x4235, 0x5214, 0x6277, 0x7256]
  const ROW20: seq<nat> := [0xb5ea, 0xa5cb, 0x95a8, 0x8589, 0xf56e, 0xe54f, 0xd52c, 0xc50d]
  const ROW21: seq<nat> := [0x34e2, 0x24c3, 0x14a0, 0x0481, 0x7466, 0x6447, 0x5424, 0x4405]
  const ROW22: seq<nat> := [0xa7db, 0xb7fa, 0x8799, 0x97b8, 0xe75f, 0xf77e, 0xc71d, 0xd73c]
  const ROW23: seq<nat> := [0x26d3, 0x36f2, 0x0691, 0x16b0, 0x6657, 0x7676, 0x4615, 0x5634]
  const ROW24: seq<nat> := [0xd94c, 0xc96d, 0xf90e, 0xe92f, 0x99c8, 0x89e9, 0xb98a, 0xa9ab]
  const ROW25: seq<nat> := [0x5844, 0x4865, 0x7806, 0x6827, 0x18c0, 0x08e1, 0x3882, 0x28a3]
  const ROW26: seq<nat> := [0xcb7d, 0xdb5c, 0xeb3f, 0xfb1e, 0x8bf9, 0x9bd8, 0xabbb, 0xbb9a]
  const ROW27: seq<nat> := [0x4a75, 0x5a54, 0x6a37, 0x7a16, 0x0af1, 0x1ad0, 0x2ab3, 0x3a92]
  const ROW28: seq<nat> := [0xfd2e, 0xed0f, 0xdd6c, 0xcd4d, 0xbdaa, 0xad8b, 0x9de8, 0x8dc9]
  const ROW29: seq<nat> := [0x7c26, 0x6c07, 0x5c64, 0x4c45, 0x3ca2, 0x2c83, 0x1ce0, 0x0cc1]
  const ROW30: seq<nat> := [0xef1f, 0xff3e, 0xcf5d, 0xdf7c, 0xaf9b, 0xbfba, 0x8fd9, 0x9ff8]
  const ROW31: seq<nat> := [0x6e17, 0x7e36, 0x4e55, 0x5e74, 0x2e93, 0x3eb2, 0x0ed1, 0x1ef0]

  function Row(n: nat): (r: seq<nat>)
    requires n < 32
    ensures |r| == 8
  {
    if n < 16 then
      if n < 8 then
        if n < 4 then
          if n < 2 then (if n < 1 then ROW0 else ROW1) else (if n < 3 then ROW2 else ROW3)
        else
          if n < 6 then (if n < 5 then ROW4 else ROW5) else (if n < 7 then ROW6 else ROW7)
      else
        if n < 12 then
          if n < 10 then (if n < 9 then ROW8 else ROW9) else (if n < 11 then ROW10 else ROW11)
        else
          if n < 14 then (if n < 13 then ROW12 else ROW13) else (if n < 15 then ROW14 else ROW15)
    else
      if n < 24 then
        if n < 20 then
          if n < 18 then (if n < 17 then ROW16 else ROW17) else (if n < 19 then ROW18 else ROW19)
        else
          if n < 22 then (if n < 21 then ROW20 else ROW21) else (if n < 23 then ROW22 else ROW23)
      else
        if n < 28 then
          if n < 26 then (if n < 25 then ROW24 else ROW25) else (if n < 27 then ROW26 else ROW27)
        else
          if n < 30 then (if n < 29 then ROW28 else ROW29) else (if n < 31 then ROW30 else ROW31)
  }

  /** crctab */
  function Table(i: nat): nat
    requires i < 256
  {
    Row(i / 8)[i % 8]
  }

  const TOP := 0x10000

  /** A 16-bit register shifted by one place and reduced. */
  function Shifted(r: nat): int { if r < 0x8000 then 2 * r else Plus(2 * r - TOP) }

  /** The terms x^12, x^5 and 1 added. */
  function Plus(r: int): int { Flip0(Flip5(Flip12(r))) }

  function Flip12(x: int): int { if x / 4096 % 2 == 1 then x - 4096 else x + 4096 }

  function Flip5(x: int): int { if x / 32 % 2 == 1 then x - 32 else x + 32 }

  function Flip0(x: int): int { if x % 2 == 1 then x - 1 else x + 1 }

  /** The two entries after the double of one. */
  predicate Doubles(r: nat, even: nat, odd: nat) { r < TOP && even < TOP && odd < TOP && even == Shifted(r) && odd == Plus(even) }

  predicate RowDoubles(row: seq<nat>, first: seq<nat>, second: seq<nat>, k: nat)
    requires k < 8 && |row| == |first| == |second| == 8
  {
    if k < 4 then Doubles(row[k], first[2 * k], first[2 * k + 1]) else Doubles(row[k], second[2 * k - 8], second[2 * k - 7])
  }

  lemma Row0(k: nat)
    requires k < 8
    ensures RowDoubles(ROW0, ROW0, ROW1, k)
  {
    match k {
      case 0 => assert Doubles(0x0000, 0x0000, 0x1021);
      case 1 => assert Doubles(0x1021, 0x2042, 0x3063);
      case 2 => assert Doubles(0x2042, 0x4084, 0x50a5);
      case 3 => assert Doubles(0x3063, 0x60c6, 0x70e7);
      case 4 => assert Doubles(0x4084, 0x8108, 0x9129);
      case 5 => assert Doubles(0x50a5, 0xa14a, 0xb16b);
      case 6 => assert Doubles(0x60c6, 0xc18c, 0xd1ad);
      case 7 => assert Doubles(0x70e7, 0xe1ce, 0xf1ef);
    }
    hide Doubles;
  }

  lemma Row1(k: nat)
    requires k < 8
    ensures RowDoubles(ROW1, ROW2, ROW3, k)
  {
    match k {
      case 0 => assert Doubles(0x8108, 0x1231, 0x0210);
      case 1 => assert Doubles(0x9129, 0x3273, 0x2252);
      case 2 => assert Doubles(0xa14a, 0x52b5, 0x4294);
      case 3 => assert Doubles(0xb16b, 0x72f7, 0x62d6);
      case 4 => assert Doubles(0xc18c, 0x9339, 0x8318);
      case 5 => assert Doubles(0xd1ad, 0xb37b, 0xa35a);
      case 6 => assert Doubles(0xe1ce, 0xd3bd, 0xc39c);
      case 7 => assert Doubles(0xf1ef, 0xf3ff, 0xe3de);
    }
    hide Doubles;
  }

  lemma Row2(k: nat)
    requires k < 8
    ensures RowDoubles(ROW2, ROW4, ROW5, k)
  {
    match k {
      case 0 => assert Doubles(0x1231, 0x2462, 0x3443);
      case 1 => assert Doubles(0x0210, 0x0420, 0x1401);
      case 2 => assert Doubles(0x3273, 0x64e6, 0x74c7);
      case 3 => assert Doubles(0x2252, 0x44a4, 0x5485);
      case 4 => assert Doubles(0x52b5, 0xa56a, 0xb54b);
      case 5 => assert Doubles(0x4294, 0x8528, 0x9509);
      case 6 => assert Doubles(0x72f7, 0xe5ee, 0xf5cf);
      case 7 => assert Doubles(0x62d6, 0xc5ac, 0xd58d);
    }
    hide Doubles;
  }

  lemma Row3(k: nat)
    requires k < 8
    ensures RowDoubles(ROW3, ROW6, ROW7, k)
  {
    match k {
      case 0 => assert Doubles(0x9339, 0x3653, 0x2672);
      case 1 => assert Doubles(0x8318, 0x1611, 0x0630);
      case 2 => assert Doubles(0xb37b, 0x76d7, 0x66f6);
      case 3 => assert Doubles(0xa35a, 0x5695, 0x46b4);
      case 4 => assert Doubles(0xd3bd, 0xb75b, 0xa77a);
      case 5 => assert Doubles(0xc39c, 0x9719, 0x8738);
      case 6 => assert Doubles(0xf3ff, 0xf7df, 0xe7fe);
      case 7 => assert Doubles(0xe3de, 0xd79d, 0xc7bc);
    }
    hide Doubles;
  }

  lemma Row4(k: nat)
    requires k < 8
    ensures RowDoubles(ROW4, ROW8, ROW9, k)
  {
    match k {
      case 0 => assert Doubles(0x2462, 0x48c4, 0x58e5);
      case 1 => assert Doubles(0x3443, 0x6886, 0x78a7);
      case 2 => assert Doubles(0x0420, 0x0840, 0x1861);
      case 3 => assert Doubles(0x1401, 0x2802, 0x3823);
      case 4 => assert Doubles(0x64e6, 0xc9cc, 0xd9ed);
      case 5 => assert Doubles(0x74c7, 0xe98e, 0xf9af);
      case 6 => assert Doubles(0x44a4, 0x8948, 0x9969);
      case 7 => assert Doubles(0x5485, 0xa90a, 0xb92b);
    }
    hide Doubles;
  }

  lemma Row5(k: nat)
    requires k < 8
    ensures RowDoubles(ROW5, ROW10, ROW11, k)
  {
    match k {
      case 0 => assert Doubles(0xa56a, 0x5af5, 0x4ad4);
      case 1 => assert Doubles(0xb54b, 0x7ab7, 0x6a96);
      case 2 => assert Doubles(0x8528, 0x1a71, 0x0a50);
      case 3 => assert Doubles(0x9509, 0x3a33, 0x2a12);
      case 4 => assert Doubles(0xe5ee, 0xdbfd, 0xcbdc);
      case 5 => assert Doubles(0xf5cf, 0xfbbf, 0xeb9e);
      case 6 => assert Doubles(0xc5ac, 0x9b79, 0x8b58);
      case 7 => assert Doubles(0xd58d, 0xbb3b, 0xab1a);
    }
    hide Doubles;
  }

  lemma Row6(k: nat)
    requires k < 8
    ensures RowDoubles(ROW6, ROW12, ROW13, k)
  {
    match k {
      case 0 => assert Doubles(0x3653, 0x6ca6, 0x7c87);
      case 1 => assert Doubles(0x2672, 0x4ce4, 0x5cc5);
      case 2 => assert Doubles(0x1611, 0x2c22, 0x3c03);
      case 3 => assert Doubles(0x0630, 0x0c60, 0x1c41);
      case 4 => assert Doubles(0x76d7, 0xedae, 0xfd8f);
      case 5 => assert Doubles(0x66f6, 0xcdec, 0xddcd);
      case 6 => assert Doubles(0x5695, 0xad2a, 0xbd0b);
      case 7 => assert Doubles(0x46b4, 0x8d68, 0x9d49);
    }
    hide Doubles;
  }

  lemma Row7(k: nat)
    requires k < 8
    ensures RowDoubles(ROW7, ROW14, ROW15, k)
  {
    match k {
      case 0 => assert Doubles(0xb75b, 0x7e97, 0x6eb6);
      case 1 => assert Doubles(0xa77a, 0x5ed5, 0x4ef4);
      case 2 => assert Doubles(0x9719, 0x3e13, 0x2e32);
      case 3 => assert Doubles(0x8738, 0x1e51, 0x0e70);
      case 4 => assert Doubles(0xf7df, 0xff9f, 0xefbe);
      case 5 => assert Doubles(0xe7fe, 0xdfdd, 0xcffc);
      case 6 => assert Doubles(0xd79d, 0xbf1b, 0xaf3a);
      case 7 => assert Doubles(0xc7bc, 0x9f59, 0x8f78);
    }
    hide Doubles;
  }

  lemma Row8(k: nat)
    requires k < 8
    ensures RowDoubles(ROW8, ROW16, ROW17, k)
  {
    match k {
      case 0 => assert Doubles(0x48c4, 0x9188, 0x81a9);
      case 1 => assert Doubles(0x58e5, 0xb1ca, 0xa1eb);
      case 2 => assert Doubles(0x6886, 0xd10c, 0xc12d);
      case 3 => assert Doubles(0x78a7, 0xf14e, 0xe16f);
      case 4 => assert Doubles(0x0840, 0x1080, 0x00a1);
      case 5 => assert Doubles(0x1861, 0x30c2, 0x20e3);
      case 6 => assert Doubles(0x2802, 0x5004, 0x4025);
      case 7 => assert Doubles(0x3823, 0x7046, 0x6067);
    }
    hide Doubles;
  }

  lemma Row9(k: nat)
    requires k < 8
    ensures RowDoubles(ROW9, ROW18, ROW19, k)
  {
    match k {
      case 0 => assert Doubles(0xc9cc, 0x83b9, 0x9398);
      case 1 => assert Doubles(0xd9ed, 0xa3fb, 0xb3da);
      case 2 => assert Doubles(0xe98e, 0xc33d, 0xd31c);
      case 3 => assert Doubles(0xf9af, 0xe37f, 0xf35e);
      case 4 => assert Doubles(0x8948, 0x02b1, 0x1290);
      case 5 => assert Doubles(0x9969, 0x22f3, 0x32d2);
      case 6 => assert Doubles(0xa90a, 0x4235, 0x5214);
      case 7 => assert Doubles(0xb92b, 0x6277, 0x7256);
    }
    hide Doubles;
  }

  lemma Row10(k: nat)
    requires k < 8
    ensures RowDoubles(ROW10, ROW20, ROW21, k)
  {
    match k {
      case 0 => assert Doubles(0x5af5, 0xb5ea, 0xa5cb);
      case 1 => assert Doubles(0x4ad4, 0x95a8, 0x8589);
      case 2 => assert Doubles(0x7ab7, 0xf56e, 0xe54f);
      case 3 => assert Doubles(0x6a96, 0xd52c, 0xc50d);
      case 4 => assert Doubles(0x1a71, 0x34e2, 0x24c3);
      case 5 => assert Doubles(0x0a50, 0x14a0, 0x0481);
      case 6 => assert Doubles(0x3a33, 0x7466, 0x6447);
      case 7 => assert Doubles(0x2a12, 0x5424, 0x4405);
    }
    hide Doubles;
  }

  lemma Row11(k: nat)
    requires k < 8
    ensures RowDoubles(ROW11, ROW22, ROW23, k)
  {
    match k {
      case 0 => assert Doubles(0xdbfd, 0xa7db, 0xb7fa);
      case 1 => assert Doubles(0xcbdc, 0x8799, 0x97b8);
      case 2 => assert Doubles(0xfbbf, 0xe75f, 0xf77e);
      case 3 => assert Doubles(0xeb9e, 0xc71d, 0xd73c);
      case 4 => assert Doubles(0x9b79, 0x26d3, 0x36f2);
      case 5 => assert Doubles(0x8b58, 0x0691, 0x16b0);
      case 6 => assert Doubles(0xbb3b, 0x6657, 0x7676);
      case 7 => assert Doubles(0xab1a, 0x4615, 0x5634);
    }
    hide Doubles;
  }

  lemma Row12(k: nat)
    requires k < 8
    ensures RowDoubles(ROW12, ROW24, ROW25, k)
  {
    match k {
      case 0 => assert Doubles(0x6ca6, 0xd94c, 0xc96d);
      case 1 => assert Doubles(0x7c87, 0xf90e, 0xe92f);
      case 2 => assert Doubles(0x4ce4, 0x99c8, 0x89e9);
      case 3 => assert Doubles(0x5cc5, 0xb98a, 0xa9ab);
      case 4 => assert Doubles(0x2c22, 0x5844, 0x4865);
      case 5 => assert Doubles(0x3c03, 0x7806, 0x6827);
      case 6 => assert Doubles(0x0c60, 0x18c0, 0x08e1);
      case 7 => assert Doubles(0x1c41, 0x3882, 0x28a3);
    }
    hide Doubles;
  }

  lemma Row13(k: nat)
    requires k < 8
    ensures RowDoubles(ROW13, ROW26, ROW27, k)
  {
    match k {
      case 0 => assert Doubles(0xedae, 0xcb7d, 0xdb5c);
      case 1 => assert Doubles(0xfd8f, 0xeb3f, 0xfb1e);
      case 2 => assert Doubles(0xcdec, 0x8bf9, 0x9bd8);
      case 3 => assert Doubles(0xddcd, 0xabbb, 0xbb9a);
      case 4 => assert Doubles(0xad2a, 0x4a75, 0x5a54);
      case 5 => assert Doubles(0xbd0b, 0x6a37, 0x7a16);
      case 6 => assert Doubles(0x8d68, 0x0af1, 0x1ad0);
      case 7 => assert Doubles(0x9d49, 0x2ab3, 0x3a92);
    }
    hide Doubles;
  }

  lemma Row14(k: nat)
    requires k < 8
    ensures RowDoubles(ROW14, ROW28, ROW29, k)
  {
    match k {
      case 0 => assert Doubles(0x7e97, 0xfd2e, 0xed0f);
      case 1 => assert Doubles(0x6eb6, 0xdd6c, 0xcd4d);
      case 2 => assert Doubles(0x5ed5, 0xbdaa, 0xad8b);
      case 3 => assert Doubles(0x4ef4, 0x9de8, 0x8dc9);
      case 4 => assert Doubles(0x3e13, 0x7c26, 0x6c07);
      case 5 => assert Doubles(0x2e32, 0x5c64, 0x4c45);
      case 6 => assert Doubles(0x1e51, 0x3ca2, 0x2c83);
      case 7 => assert Doubles(0x0e70, 0x1ce0, 0x0cc1);
    }
    hide Doubles;
  }

  lemma Row15(k: nat)
    requires k < 8
    ensures RowDoubles(ROW15, ROW30, ROW31, k)
  {
    match k {
      case 0 => assert Doubles(0xff9f, 0xef1f, 0xff3e);
      case 1 => assert Doubles(0xefbe, 0xcf5d, 0xdf7c);
      case 2 => assert Doubles(0xdfdd, 0xaf9b, 0xbfba);
      case 3 => assert Doubles(0xcffc, 0x8fd9, 0x9ff8);
      case 4 => assert Doubles(0xbf1b, 0x6e17, 0x7e36);
      case 5 => assert Doubles(0xaf3a, 0x4e55, 0x5e74);
      case 6 => assert Doubles(0x9f59, 0x2e93, 0x3eb2);
      case 7 => assert Doubles(0x8f78, 0x0ed1, 0x1ef0);
    }
    hide Doubles;
  }

  lemma RowsDouble(n: nat, k: nat)
    requires n < 16 && k < 8
    ensures RowDoubles(Row(n), Row(2 * n), Row(2 * n + 1), k)
  {
    hide RowDoubles;
    match n
    case 0 => Row0(k);
    case 1 => Row1(k);
    case 2 => Row2(k);
    case 3 => Row3(k);
    case 4 => Row4(k);
    case 5 => Row5(k);
    case 6 => Row6(k);
    case 7 => Row7(k);
    case 8 => Row8(k);
    case 9 => Row9(k);
    case 10 => Row10(k);
    case 11 => Row11(k);
    case 12 => Row12(k);
    case 13 => Row13(k);
    case 14 => Row14(k);
    case 15 => Row15(k);
  }

  /** Every entry is the double of the one at half its place, with the generator's low terms added for an odd place. */
  lemma TableDoubles(j: nat)
    requires j < 128
    ensures Table(2 * j) < TOP && Table(2 * j + 1) < TOP
    ensures Table(2 * j) == Shifted(Table(j)) && Table(2 * j + 1) == Plus(Table(2 * j)) && Table(j) < TOP
  {
    hide Row, Shifted, Plus;
    RowsDouble(j / 8, j % 8);
  }
}
