/**
 The CRC-16 table shared by cdda2wav/cd_text.c and cdrecord/crc16.c, and the bit-serial step
 it abbreviates. The 256 entries are kept as sixteen rows of sixteen.
 */
module CrcTable {
  import opened LinearCode
  import opened CrcBits

  const ROW_0: seq<bv16> := [
    0x0000, 0x1021, 0x2042, 0x3063, 0x4084, 0x50a5, 0x60c6, 0x70e7,
    0x8108, 0x9129, 0xa14a, 0xb16b, 0xc18c, 0xd1ad, 0xe1ce, 0xf1ef]
  const ROW_1: seq<bv16> := [
    0x1231, 0x0210, 0x3273, 0x2252, 0x52b5, 0x4294, 0x72f7, 0x62d6,
    0x9339, 0x8318, 0xb37b, 0xa35a, 0xd3bd, 0xc39c, 0xf3ff, 0xe3de]
  const ROW_2: seq<bv16> := [
    0x2462, 0x3443, 0x0420, 0x1401, 0x64e6, 0x74c7, 0x44a4, 0x5485,
    0xa56a, 0xb54b, 0x8528, 0x9509, 0xe5ee, 0xf5cf, 0xc5ac, 0xd58d]
  const ROW_3: seq<bv16> := [
    0x3653, 0x2672, 0x1611, 0x0630, 0x76d7, 0x66f6, 0x5695, 0x46b4,
    0xb75b, 0xa77a, 0x9719, 0x8738, 0xf7df, 0xe7fe, 0xd79d, 0xc7bc]
  const ROW_4: seq<bv16> := [
    0x48c4, 0x58e5, 0x6886, 0x78a7, 0x0840, 0x1861, 0x2802, 0x3823,
    0xc9cc, 0xd9ed, 0xe98e, 0xf9af, 0x8948, 0x9969, 0xa90a, 0xb92b]
  const ROW_5: seq<bv16> := [
    0x5af5, 0x4ad4, 0x7ab7, 0x6a96, 0x1a71, 0x0a50, 0x3a33, 0x2a12,
    0xdbfd, 0xcbdc, 0xfbbf, 0xeb9e, 0x9b79, 0x8b58, 0xbb3b, 0xab1a]
  const ROW_6: seq<bv16> := [
    0x6ca6, 0x7c87, 0x4ce4, 0x5cc5, 0x2c22, 0x3c03, 0x0c60, 0x1c41,
    0xedae, 0xfd8f, 0xcdec, 0xddcd, 0xad2a, 0xbd0b, 0x8d68, 0x9d49]
  const ROW_7: seq<bv16> := [
    0x7e97, 0x6eb6, 0x5ed5, 0x4ef4, 0x3e13, 0x2e32, 0x1e51, 0x0e70,
    0xff9f, 0xefbe, 0xdfdd, 0xcffc, 0xbf1b, 0xaf3a, 0x9f59, 0x8f78]
  const ROW_8: seq<bv16> := [
    0x9188, 0x81a9, 0xb1ca, 0xa1eb, 0xd10c, 0xc12d, 0xf14e, 0xe16f,
    0x1080, 0x00a1, 0x30c2, 0x20e3, 0x5004, 0x4025, 0x7046, 0x6067]
  const ROW_9: seq<bv16> := [
    0x83b9, 0x9398, 0xa3fb, 0xb3da, 0xc33d, 0xd31c, 0xe37f, 0xf35e,
    0x02b1, 0x1290, 0x22f3, 0x32d2, 0x4235, 0x5214, 0x6277, 0x7256]
  const ROW_A: seq<bv16> := [
    0xb5ea, 0xa5cb, 0x95a8, 0x8589, 0xf56e, 0xe54f, 0xd52c, 0xc50d,
    0x34e2, 0x24c3, 0x14a0, 0x0481, 0x7466, 0x6447, 0x5424, 0x4405]
  const ROW_B: seq<bv16> := [
    0xa7db, 0xb7fa, 0x8799, 0x97b8, 0xe75f, 0xf77e, 0xc71d, 0xd73c,
    0x26d3, 0x36f2, 0x0691, 0x16b0, 0x6657, 0x7676, 0x4615, 0x5634]
  const ROW_C: seq<bv16> := [
    0xd94c, 0xc96d, 0xf90e, 0xe92f, 0x99c8, 0x89e9, 0xb98a, 0xa9ab,
    0x5844, 0x4865, 0x7806, 0x6827, 0x18c0, 0x08e1, 0x3882, 0x28a3]
  const ROW_D: seq<bv16> := [
    0xcb7d, 0xdb5c, 0xeb3f, 0xfb1e, 0x8bf9, 0x9bd8, 0xabbb, 0xbb9a,
    0x4a75, 0x5a54, 0x6a37, 0x7a16, 0x0af1, 0x1ad0, 0x2ab3, 0x3a92]
  const ROW_E: seq<bv16> := [
    0xfd2e, 0xed0f, 0xdd6c, 0xcd4d, 0xbdaa, 0xad8b, 0x9de8, 0x8dc9,
    0x7c26, 0x6c07, 0x5c64, 0x4c45, 0x3ca2, 0x2c83, 0x1ce0, 0x0cc1]
  const ROW_F: seq<bv16> := [
    0xef1f, 0xff3e, 0xcf5d, 0xdf7c, 0xaf9b, 0xbfba, 0x8fd9, 0x9ff8,
    0x6e17, 0x7e36, 0x4e55, 0x5e74, 0x2e93, 0x3eb2, 0x0ed1, 0x1ef0]

  function Row(h: bv8): (r: seq<bv16>)
    ensures |r| == 16
  {
    if h == 0 then ROW_0 else if h == 1 then ROW_1 else if h == 2 then ROW_2 else if h == 3 then ROW_3 else 
    if h == 4 then ROW_4 else if h == 5 then ROW_5 else if h == 6 then ROW_6 else if h == 7 then ROW_7 else 
    if h == 8 then ROW_8 else if h == 9 then ROW_9 else if h == 10 then ROW_A else if h == 11 then ROW_B else 
    if h == 12 then ROW_C else if h == 13 then ROW_D else if h == 14 then ROW_E else ROW_F
  }

  function CrcTab(i: bv8): bv16 { Row(i >> 4)[(i & 0xf) as int] }

  lemma Row0(i: bv8) requires i >> 4 == 0x0 ensures CrcTab(i) == Shift8((i as bv16) << 8) {}
  lemma Row1(i: bv8) requires i >> 4 == 0x1 ensures CrcTab(i) == Shift8((i as bv16) << 8) {}
  lemma Row2(i: bv8) requires i >> 4 == 0x2 ensures CrcTab(i) == Shift8((i as bv16) << 8) {}
  lemma Row3(i: bv8) requires i >> 4 == 0x3 ensures CrcTab(i) == Shift8((i as bv16) << 8) {}
  lemma Row4(i: bv8) requires i >> 4 == 0x4 ensures CrcTab(i) == Shift8((i as bv16) << 8) {}
  lemma Row5(i: bv8) requires i >> 4 == 0x5 ensures CrcTab(i) == Shift8((i as bv16) << 8) {}
  lemma Row6(i: bv8) requires i >> 4 == 0x6 ensures CrcTab(i) == Shift8((i as bv16) << 8) {}
  lemma Row7(i: bv8) requires i >> 4 == 0x7 ensures CrcTab(i) == Shift8((i as bv16) << 8) {}
  lemma Row8(i: bv8) requires i >> 4 == 0x8 ensures CrcTab(i) == Shift8((i as bv16) << 8) {}
  lemma Row9(i: bv8) requires i >> 4 == 0x9 ensures CrcTab(i) == Shift8((i as bv16) << 8) {}
  lemma RowA(i: bv8) requires i >> 4 == 0xa ensures CrcTab(i) == Shift8((i as bv16) << 8) {}
  lemma RowB(i: bv8) requires i >> 4 == 0xb ensures CrcTab(i) == Shift8((i as bv16) << 8) {}
  lemma RowC(i: bv8) requires i >> 4 == 0xc ensures CrcTab(i) == Shift8((i as bv16) << 8) {}
  lemma RowD(i: bv8) requires i >> 4 == 0xd ensures CrcTab(i) == Shift8((i as bv16) << 8) {}
  lemma RowE(i: bv8) requires i >> 4 == 0xe ensures CrcTab(i) == Shift8((i as bv16) << 8) {}
  lemma RowF(i: bv8) requires i >> 4 == 0xf ensures CrcTab(i) == Shift8((i as bv16) << 8) {}

  /** Every table entry is eight bit-serial steps of its index. */
  lemma TableEntry(i: bv8)
    ensures CrcTab(i) == Shift8((i as bv16) << 8)
  {
    if i >> 4 == 0x0 {
      Row0(i);
    } else if i >> 4 == 0x1 {
      Row1(i);
    } else if i >> 4 == 0x2 {
      Row2(i);
    } else if i >> 4 == 0x3 {
      Row3(i);
    } else if i >> 4 == 0x4 {
      Row4(i);
    } else if i >> 4 == 0x5 {
      Row5(i);
    } else if i >> 4 == 0x6 {
      Row6(i);
    } else if i >> 4 == 0x7 {
      Row7(i);
    } else if i >> 4 == 0x8 {
      Row8(i);
    } else if i >> 4 == 0x9 {
      Row9(i);
    } else if i >> 4 == 0xa {
      RowA(i);
    } else if i >> 4 == 0xb {
      RowB(i);
    } else if i >> 4 == 0xc {
      RowC(i);
    } else if i >> 4 == 0xd {
      RowD(i);
    } else if i >> 4 == 0xe {
      RowE(i);
    } else {
      RowF(i);
    }
  }

  /** One byte of updcrc. */
  function Update(crc: bv16, b: bv8): bv16 { (crc << 8) ^ CrcTab(High(crc) ^ b) }

  lemma TableIsSteps(x: bv8)
    ensures Steps(CRC16, 8, Load(x)) == CrcTab(x)
  {
    TableEntry(x);
    EightSteps(Load(x));
  }

  lemma LowIsMoved(c: bv16)
    ensures Steps(CRC16, 8, c & 0xff) == c << 8
  {
    Shift8Low(c);
    EightSteps(c & 0xff);
  }

  lemma SplitCrc(c: bv16, b: bv8)
    ensures CRC16.add(c, CRC16.load(b)) == CRC16.add(c & 0xff, Load(High(c) ^ b))
  {
    SplitLoad(c, b);
  }

  /** The table step is eight bit-serial steps after adding the byte on top. */
  lemma UpdateIsFeed(crc: bv16, b: bv8)
    ensures Update(crc, b) == Feed(CRC16, crc, b)
  {
    var x := High(crc) ^ b;
    Crc16Linear();
    SplitCrc(crc, b);
    FeedSplit(CRC16, crc, b, crc & 0xff, Load(x));
    LowIsMoved(crc);
    TableIsSteps(x);
  }

  /** A register fed its own high byte is only moved. */
  lemma UpdateOwnHigh(c: bv16, h: bv8)
    requires h == High(c)
    ensures Update(c, h) == c << 8
  {
    Xor8Self(h);
    Row0(0);
    XorWithZero(c << 8);
  }

  /** A register fed its own two bytes is empty. */
  lemma UpdateOwnBytes(c: bv16, h: bv8, l: bv8)
    requires h == High(c) && l == Low(c)
    ensures Update(Update(c, h), l) == 0
  {
    UpdateOwnHigh(c, h);
    HighOfShl(c);
    UpdateOwnHigh(c << 8, l);
    ShlEmpty(c);
  }

  lemma UpdateIsShift8(c: bv16, b: bv8)
    ensures Update(c, b) == Shift8(Xor16(c, Load(b)))
  {
    UpdateIsFeed(c, b);
    EightSteps(Xor16(c, Load(b)));
  }

  /** And only its own two bytes empty a register. */
  lemma OnlyOwnBytes(c: bv16, h: bv8, l: bv8)
    requires Update(Update(c, h), l) == 0
    ensures h == High(c) && l == Low(c)
  {
    var c1 := Update(c, h);
    UpdateIsShift8(c1, l);
    EmptyBefore(Xor16(c1, Load(l)));
    OnlyHighByte(c1, l);
    UpdateIsShift8(c, h);
    HighWasEmpty(Xor16(c, Load(h)));
    HighsAgree(c, h);
    UpdateOwnHigh(c, h);
    HighOfShl(c);
  }
}
