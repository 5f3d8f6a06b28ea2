/**
 CRC-16 of the serial link to the lower controller: the table-driven code, proved equal to the bit-serial
 register of ShiftRegister, and the error-detection guarantees of the link.
 */
module Crc16 {
  import opened ShiftRegister

  const CRC16_INIT: bv16 := 0xFFFF

  // The 256 table entries, sixteen to a row; a row is selected by the high nibble of the index.
  function Row0(i: bv16): bv16 {
    match i
    case 0 => 0x0000 case 1 => 0x1189 case 2 => 0x2312 case 3 => 0x329b
    case 4 => 0x4624 case 5 => 0x57ad case 6 => 0x6536 case 7 => 0x74bf
    case 8 => 0x8c48 case 9 => 0x9dc1 case 10 => 0xaf5a case 11 => 0xbed3
    case 12 => 0xca6c case 13 => 0xdbe5 case 14 => 0xe97e case _ => 0xf8f7
  }

  function Row1(i: bv16): bv16 {
    match i
    case 0 => 0x1081 case 1 => 0x0108 case 2 => 0x3393 case 3 => 0x221a
    case 4 => 0x56a5 case 5 => 0x472c case 6 => 0x75b7 case 7 => 0x643e
    case 8 => 0x9cc9 case 9 => 0x8d40 case 10 => 0xbfdb case 11 => 0xae52
    case 12 => 0xdaed case 13 => 0xcb64 case 14 => 0xf9ff case _ => 0xe876
  }

  function Row2(i: bv16): bv16 {
    match i
    case 0 => 0x2102 case 1 => 0x308b case 2 => 0x0210 case 3 => 0x1399
    case 4 => 0x6726 case 5 => 0x76af case 6 => 0x4434 case 7 => 0x55bd
    case 8 => 0xad4a case 9 => 0xbcc3 case 10 => 0x8e58 case 11 => 0x9fd1
    case 12 => 0xeb6e case 13 => 0xfae7 case 14 => 0xc87c case _ => 0xd9f5
  }

  function Row3(i: bv16): bv16 {
    match i
    case 0 => 0x3183 case 1 => 0x200a case 2 => 0x1291 case 3 => 0x0318
    case 4 => 0x77a7 case 5 => 0x662e case 6 => 0x54b5 case 7 => 0x453c
    case 8 => 0xbdcb case 9 => 0xac42 case 10 => 0x9ed9 case 11 => 0x8f50
    case 12 => 0xfbef case 13 => 0xea66 case 14 => 0xd8fd case _ => 0xc974
  }

  function Row4(i: bv16): bv16 {
    match i
    case 0 => 0x4204 case 1 => 0x538d case 2 => 0x6116 case 3 => 0x709f
    case 4 => 0x0420 case 5 => 0x15a9 case 6 => 0x2732 case 7 => 0x36bb
    case 8 => 0xce4c case 9 => 0xdfc5 case 10 => 0xed5e case 11 => 0xfcd7
    case 12 => 0x8868 case 13 => 0x99e1 case 14 => 0xab7a case _ => 0xbaf3
  }

  function Row5(i: bv16): bv16 {
    match i
    case 0 => 0x5285 case 1 => 0x430c case 2 => 0x7197 case 3 => 0x601e
    case 4 => 0x14a1 case 5 => 0x0528 case 6 => 0x37b3 case 7 => 0x263a
    case 8 => 0xdecd case 9 => 0xcf44 case 10 => 0xfddf case 11 => 0xec56
    case 12 => 0x98e9 case 13 => 0x8960 case 14 => 0xbbfb case _ => 0xaa72
  }

  function Row6(i: bv16): bv16 {
    match i
    case 0 => 0x6306 case 1 => 0x728f case 2 => 0x4014 case 3 => 0x519d
    case 4 => 0x2522 case 5 => 0x34ab case 6 => 0x0630 case 7 => 0x17b9
    case 8 => 0xef4e case 9 => 0xfec7 case 10 => 0xcc5c case 11 => 0xddd5
    case 12 => 0xa96a case 13 => 0xb8e3 case 14 => 0x8a78 case _ => 0x9bf1
  }

  function Row7(i: bv16): bv16 {
    match i
    case 0 => 0x7387 case 1 => 0x620e case 2 => 0x5095 case 3 => 0x411c
    case 4 => 0x35a3 case 5 => 0x242a case 6 => 0x16b1 case 7 => 0x0738
    case 8 => 0xffcf case 9 => 0xee46 case 10 => 0xdcdd case 11 => 0xcd54
    case 12 => 0xb9eb case 13 => 0xa862 case 14 => 0x9af9 case _ => 0x8b70
  }

  function Row8(i: bv16): bv16 {
    match i
    case 0 => 0x8408 case 1 => 0x9581 case 2 => 0xa71a case 3 => 0xb693
    case 4 => 0xc22c case 5 => 0xd3a5 case 6 => 0xe13e case 7 => 0xf0b7
    case 8 => 0x0840 case 9 => 0x19c9 case 10 => 0x2b52 case 11 => 0x3adb
    case 12 => 0x4e64 case 13 => 0x5fed case 14 => 0x6d76 case _ => 0x7cff
  }

  function Row9(i: bv16): bv16 {
    match i
    case 0 => 0x9489 case 1 => 0x8500 case 2 => 0xb79b case 3 => 0xa612
    case 4 => 0xd2ad case 5 => 0xc324 case 6 => 0xf1bf case 7 => 0xe036
    case 8 => 0x18c1 case 9 => 0x0948 case 10 => 0x3bd3 case 11 => 0x2a5a
    case 12 => 0x5ee5 case 13 => 0x4f6c case 14 => 0x7df7 case _ => 0x6c7e
  }

  function RowA(i: bv16): bv16 {
    match i
    case 0 => 0xa50a case 1 => 0xb483 case 2 => 0x8618 case 3 => 0x9791
    case 4 => 0xe32e case 5 => 0xf2a7 case 6 => 0xc03c case 7 => 0xd1b5
    case 8 => 0x2942 case 9 => 0x38cb case 10 => 0x0a50 case 11 => 0x1bd9
    case 12 => 0x6f66 case 13 => 0x7eef case 14 => 0x4c74 case _ => 0x5dfd
  }

  function RowB(i: bv16): bv16 {
    match i
    case 0 => 0xb58b case 1 => 0xa402 case 2 => 0x9699 case 3 => 0x8710
    case 4 => 0xf3af case 5 => 0xe226 case 6 => 0xd0bd case 7 => 0xc134
    case 8 => 0x39c3 case 9 => 0x284a case 10 => 0x1ad1 case 11 => 0x0b58
    case 12 => 0x7fe7 case 13 => 0x6e6e case 14 => 0x5cf5 case _ => 0x4d7c
  }

  function RowC(i: bv16): bv16 {
    match i
    case 0 => 0xc60c case 1 => 0xd785 case 2 => 0xe51e case 3 => 0xf497
    case 4 => 0x8028 case 5 => 0x91a1 case 6 => 0xa33a case 7 => 0xb2b3
    case 8 => 0x4a44 case 9 => 0x5bcd case 10 => 0x6956 case 11 => 0x78df
    case 12 => 0x0c60 case 13 => 0x1de9 case 14 => 0x2f72 case _ => 0x3efb
  }

  function RowD(i: bv16): bv16 {
    match i
    case 0 => 0xd68d case 1 => 0xc704 case 2 => 0xf59f case 3 => 0xe416
    case 4 => 0x90a9 case 5 => 0x8120 case 6 => 0xb3bb case 7 => 0xa232
    case 8 => 0x5ac5 case 9 => 0x4b4c case 10 => 0x79d7 case 11 => 0x685e
    case 12 => 0x1ce1 case 13 => 0x0d68 case 14 => 0x3ff3 case _ => 0x2e7a
  }

  function RowE(i: bv16): bv16 {
    match i
    case 0 => 0xe70e case 1 => 0xf687 case 2 => 0xc41c case 3 => 0xd595
    case 4 => 0xa12a case 5 => 0xb0a3 case 6 => 0x8238 case 7 => 0x93b1
    case 8 => 0x6b46 case 9 => 0x7acf case 10 => 0x4854 case 11 => 0x59dd
    case 12 => 0x2d62 case 13 => 0x3ceb case 14 => 0x0e70 case _ => 0x1ff9
  }

  function RowF(i: bv16): bv16 {
    match i
    case 0 => 0xf78f case 1 => 0xe606 case 2 => 0xd49d case 3 => 0xc514
    case 4 => 0xb1ab case 5 => 0xa022 case 6 => 0x92b9 case 7 => 0x8330
    case 8 => 0x7bc7 case 9 => 0x6a4e case 10 => 0x58d5 case 11 => 0x495c
    case 12 => 0x3de3 case 13 => 0x2c6a case 14 => 0x1ef1 case _ => 0x0f78
  }

  function TableEntry(index: bv16): bv16
    requires index < 256
  {
    var i := index & 0x000F;
    match index >> 4
    case 0 => Row0(i)
    case 1 => Row1(i)
    case 2 => Row2(i)
    case 3 => Row3(i)
    case 4 => Row4(i)
    case 5 => Row5(i)
    case 6 => Row6(i)
    case 7 => Row7(i)
    case 8 => Row8(i)
    case 9 => Row9(i)
    case 10 => RowA(i)
    case 11 => RowB(i)
    case 12 => RowC(i)
    case 13 => RowD(i)
    case 14 => RowE(i)
    case _ => RowF(i)
  }

  function LowByte(c: bv16): (low: bv16)
    ensures low < 256
  {
    c & 0x00FF
  }

  function HighByte(c: bv16): bv16 { c >> 8 }

  function Update(crc: bv16, data: bv8): bv16 {
    Xor(HighByte(crc), TableEntry(LowByte(Xor(crc, data as bv16))))
  }

  // The register after a whole message, the first byte first.
  function Checksum(crc: bv16, message: seq<bv8>): bv16
    decreases |message|
  {
    if message == [] then crc else Checksum(Update(crc, message[0]), message[1..])
  }

  predicate IsTrailer(crc: bv16, x: bv8, y: bv8) {
    x as bv16 == LowByte(crc) && y as bv16 == HighByte(crc)
  }

  function Low(crc: bv16): bv8 { (crc & 0x00FF) as bv8 }

  function High(crc: bv16): bv8 { ((crc >> 8) & 0x00FF) as bv8 }

  // What the receiver accepts: the last two bytes are the checksum of the others, low byte first.
  predicate Accepts(message: seq<bv8>) {
    var n := |message| - 2;
    n > 0 && IsTrailer(Checksum(CRC16_INIT, message[..n]), message[n], message[n + 1])
  }

  // --------------------------------------------------------------------------
  // The table holds the eight-fold shifts

  lemma Row0IsShifts(i: bv16)
    requires i < 16
    ensures Row0(i) == Shifts(0x00 | i, 8)
  {
    match i
    case 0 => assert Shifts(0x00, 8) == 0x0000; case 1 => assert Shifts(0x01, 8) == 0x1189;
    case 2 => assert Shifts(0x02, 8) == 0x2312; case 3 => assert Shifts(0x03, 8) == 0x329b;
    case 4 => assert Shifts(0x04, 8) == 0x4624; case 5 => assert Shifts(0x05, 8) == 0x57ad;
    case 6 => assert Shifts(0x06, 8) == 0x6536; case 7 => assert Shifts(0x07, 8) == 0x74bf;
    case 8 => assert Shifts(0x08, 8) == 0x8c48; case 9 => assert Shifts(0x09, 8) == 0x9dc1;
    case 10 => assert Shifts(0x0A, 8) == 0xaf5a; case 11 => assert Shifts(0x0B, 8) == 0xbed3;
    case 12 => assert Shifts(0x0C, 8) == 0xca6c; case 13 => assert Shifts(0x0D, 8) == 0xdbe5;
    case 14 => assert Shifts(0x0E, 8) == 0xe97e; case _ => assert Shifts(0x0F, 8) == 0xf8f7;
  }

  lemma Row1IsShifts(i: bv16)
    requires i < 16
    ensures Row1(i) == Shifts(0x10 | i, 8)
  {
    match i
    case 0 => assert Shifts(0x10, 8) == 0x1081; case 1 => assert Shifts(0x11, 8) == 0x0108;
    case 2 => assert Shifts(0x12, 8) == 0x3393; case 3 => assert Shifts(0x13, 8) == 0x221a;
    case 4 => assert Shifts(0x14, 8) == 0x56a5; case 5 => assert Shifts(0x15, 8) == 0x472c;
    case 6 => assert Shifts(0x16, 8) == 0x75b7; case 7 => assert Shifts(0x17, 8) == 0x643e;
    case 8 => assert Shifts(0x18, 8) == 0x9cc9; case 9 => assert Shifts(0x19, 8) == 0x8d40;
    case 10 => assert Shifts(0x1A, 8) == 0xbfdb; case 11 => assert Shifts(0x1B, 8) == 0xae52;
    case 12 => assert Shifts(0x1C, 8) == 0xdaed; case 13 => assert Shifts(0x1D, 8) == 0xcb64;
    case 14 => assert Shifts(0x1E, 8) == 0xf9ff; case _ => assert Shifts(0x1F, 8) == 0xe876;
  }

  lemma Row2IsShifts(i: bv16)
    requires i < 16
    ensures Row2(i) == Shifts(0x20 | i, 8)
  {
    match i
    case 0 => assert Shifts(0x20, 8) == 0x2102; case 1 => assert Shifts(0x21, 8) == 0x308b;
    case 2 => assert Shifts(0x22, 8) == 0x0210; case 3 => assert Shifts(0x23, 8) == 0x1399;
    case 4 => assert Shifts(0x24, 8) == 0x6726; case 5 => assert Shifts(0x25, 8) == 0x76af;
    case 6 => assert Shifts(0x26, 8) == 0x4434; case 7 => assert Shifts(0x27, 8) == 0x55bd;
    case 8 => assert Shifts(0x28, 8) == 0xad4a; case 9 => assert Shifts(0x29, 8) == 0xbcc3;
    case 10 => assert Shifts(0x2A, 8) == 0x8e58; case 11 => assert Shifts(0x2B, 8) == 0x9fd1;
    case 12 => assert Shifts(0x2C, 8) == 0xeb6e; case 13 => assert Shifts(0x2D, 8) == 0xfae7;
    case 14 => assert Shifts(0x2E, 8) == 0xc87c; case _ => assert Shifts(0x2F, 8) == 0xd9f5;
  }

  lemma Row3IsShifts(i: bv16)
    requires i < 16
    ensures Row3(i) == Shifts(0x30 | i, 8)
  {
    match i
    case 0 => assert Shifts(0x30, 8) == 0x3183; case 1 => assert Shifts(0x31, 8) == 0x200a;
    case 2 => assert Shifts(0x32, 8) == 0x1291; case 3 => assert Shifts(0x33, 8) == 0x0318;
    case 4 => assert Shifts(0x34, 8) == 0x77a7; case 5 => assert Shifts(0x35, 8) == 0x662e;
    case 6 => assert Shifts(0x36, 8) == 0x54b5; case 7 => assert Shifts(0x37, 8) == 0x453c;
    case 8 => assert Shifts(0x38, 8) == 0xbdcb; case 9 => assert Shifts(0x39, 8) == 0xac42;
    case 10 => assert Shifts(0x3A, 8) == 0x9ed9; case 11 => assert Shifts(0x3B, 8) == 0x8f50;
    case 12 => assert Shifts(0x3C, 8) == 0xfbef; case 13 => assert Shifts(0x3D, 8) == 0xea66;
    case 14 => assert Shifts(0x3E, 8) == 0xd8fd; case _ => assert Shifts(0x3F, 8) == 0xc974;
  }

  lemma Row4IsShifts(i: bv16)
    requires i < 16
    ensures Row4(i) == Shifts(0x40 | i, 8)
  {
    match i
    case 0 => assert Shifts(0x40, 8) == 0x4204; case 1 => assert Shifts(0x41, 8) == 0x538d;
    case 2 => assert Shifts(0x42, 8) == 0x6116; case 3 => assert Shifts(0x43, 8) == 0x709f;
    case 4 => assert Shifts(0x44, 8) == 0x0420; case 5 => assert Shifts(0x45, 8) == 0x15a9;
    case 6 => assert Shifts(0x46, 8) == 0x2732; case 7 => assert Shifts(0x47, 8) == 0x36bb;
    case 8 => assert Shifts(0x48, 8) == 0xce4c; case 9 => assert Shifts(0x49, 8) == 0xdfc5;
    case 10 => assert Shifts(0x4A, 8) == 0xed5e; case 11 => assert Shifts(0x4B, 8) == 0xfcd7;
    case 12 => assert Shifts(0x4C, 8) == 0x8868; case 13 => assert Shifts(0x4D, 8) == 0x99e1;
    case 14 => assert Shifts(0x4E, 8) == 0xab7a; case _ => assert Shifts(0x4F, 8) == 0xbaf3;
  }

  lemma Row5IsShifts(i: bv16)
    requires i < 16
    ensures Row5(i) == Shifts(0x50 | i, 8)
  {
    match i
    case 0 => assert Shifts(0x50, 8) == 0x5285; case 1 => assert Shifts(0x51, 8) == 0x430c;
    case 2 => assert Shifts(0x52, 8) == 0x7197; case 3 => assert Shifts(0x53, 8) == 0x601e;
    case 4 => assert Shifts(0x54, 8) == 0x14a1; case 5 => assert Shifts(0x55, 8) == 0x0528;
    case 6 => assert Shifts(0x56, 8) == 0x37b3; case 7 => assert Shifts(0x57, 8) == 0x263a;
    case 8 => assert Shifts(0x58, 8) == 0xdecd; case 9 => assert Shifts(0x59, 8) == 0xcf44;
    case 10 => assert Shifts(0x5A, 8) == 0xfddf; case 11 => assert Shifts(0x5B, 8) == 0xec56;
    case 12 => assert Shifts(0x5C, 8) == 0x98e9; case 13 => assert Shifts(0x5D, 8) == 0x8960;
    case 14 => assert Shifts(0x5E, 8) == 0xbbfb; case _ => assert Shifts(0x5F, 8) == 0xaa72;
  }

  lemma Row6IsShifts(i: bv16)
    requires i < 16
    ensures Row6(i) == Shifts(0x60 | i, 8)
  {
    match i
    case 0 => assert Shifts(0x60, 8) == 0x6306; case 1 => assert Shifts(0x61, 8) == 0x728f;
    case 2 => assert Shifts(0x62, 8) == 0x4014; case 3 => assert Shifts(0x63, 8) == 0x519d;
    case 4 => assert Shifts(0x64, 8) == 0x2522; case 5 => assert Shifts(0x65, 8) == 0x34ab;
    case 6 => assert Shifts(0x66, 8) == 0x0630; case 7 => assert Shifts(0x67, 8) == 0x17b9;
    case 8 => assert Shifts(0x68, 8) == 0xef4e; case 9 => assert Shifts(0x69, 8) == 0xfec7;
    case 10 => assert Shifts(0x6A, 8) == 0xcc5c; case 11 => assert Shifts(0x6B, 8) == 0xddd5;
    case 12 => assert Shifts(0x6C, 8) == 0xa96a; case 13 => assert Shifts(0x6D, 8) == 0xb8e3;
    case 14 => assert Shifts(0x6E, 8) == 0x8a78; case _ => assert Shifts(0x6F, 8) == 0x9bf1;
  }

  lemma Row7IsShifts(i: bv16)
    requires i < 16
    ensures Row7(i) == Shifts(0x70 | i, 8)
  {
    match i
    case 0 => assert Shifts(0x70, 8) == 0x7387; case 1 => assert Shifts(0x71, 8) == 0x620e;
    case 2 => assert Shifts(0x72, 8) == 0x5095; case 3 => assert Shifts(0x73, 8) == 0x411c;
    case 4 => assert Shifts(0x74, 8) == 0x35a3; case 5 => assert Shifts(0x75, 8) == 0x242a;
    case 6 => assert Shifts(0x76, 8) == 0x16b1; case 7 => assert Shifts(0x77, 8) == 0x0738;
    case 8 => assert Shifts(0x78, 8) == 0xffcf; case 9 => assert Shifts(0x79, 8) == 0xee46;
    case 10 => assert Shifts(0x7A, 8) == 0xdcdd; case 11 => assert Shifts(0x7B, 8) == 0xcd54;
    case 12 => assert Shifts(0x7C, 8) == 0xb9eb; case 13 => assert Shifts(0x7D, 8) == 0xa862;
    case 14 => assert Shifts(0x7E, 8) == 0x9af9; case _ => assert Shifts(0x7F, 8) == 0x8b70;
  }

  lemma Row8IsShifts(i: bv16)
    requires i < 16
    ensures Row8(i) == Shifts(0x80 | i, 8)
  {
    match i
    case 0 => assert Shifts(0x80, 8) == 0x8408; case 1 => assert Shifts(0x81, 8) == 0x9581;
    case 2 => assert Shifts(0x82, 8) == 0xa71a; case 3 => assert Shifts(0x83, 8) == 0xb693;
    case 4 => assert Shifts(0x84, 8) == 0xc22c; case 5 => assert Shifts(0x85, 8) == 0xd3a5;
    case 6 => assert Shifts(0x86, 8) == 0xe13e; case 7 => assert Shifts(0x87, 8) == 0xf0b7;
    case 8 => assert Shifts(0x88, 8) == 0x0840; case 9 => assert Shifts(0x89, 8) == 0x19c9;
    case 10 => assert Shifts(0x8A, 8) == 0x2b52; case 11 => assert Shifts(0x8B, 8) == 0x3adb;
    case 12 => assert Shifts(0x8C, 8) == 0x4e64; case 13 => assert Shifts(0x8D, 8) == 0x5fed;
    case 14 => assert Shifts(0x8E, 8) == 0x6d76; case _ => assert Shifts(0x8F, 8) == 0x7cff;
  }

  lemma Row9IsShifts(i: bv16)
    requires i < 16
    ensures Row9(i) == Shifts(0x90 | i, 8)
  {
    match i
    case 0 => assert Shifts(0x90, 8) == 0x9489; case 1 => assert Shifts(0x91, 8) == 0x8500;
    case 2 => assert Shifts(0x92, 8) == 0xb79b; case 3 => assert Shifts(0x93, 8) == 0xa612;
    case 4 => assert Shifts(0x94, 8) == 0xd2ad; case 5 => assert Shifts(0x95, 8) == 0xc324;
    case 6 => assert Shifts(0x96, 8) == 0xf1bf; case 7 => assert Shifts(0x97, 8) == 0xe036;
    case 8 => assert Shifts(0x98, 8) == 0x18c1; case 9 => assert Shifts(0x99, 8) == 0x0948;
    case 10 => assert Shifts(0x9A, 8) == 0x3bd3; case 11 => assert Shifts(0x9B, 8) == 0x2a5a;
    case 12 => assert Shifts(0x9C, 8) == 0x5ee5; case 13 => assert Shifts(0x9D, 8) == 0x4f6c;
    case 14 => assert Shifts(0x9E, 8) == 0x7df7; case _ => assert Shifts(0x9F, 8) == 0x6c7e;
  }

  lemma RowAIsShifts(i: bv16)
    requires i < 16
    ensures RowA(i) == Shifts(0xA0 | i, 8)
  {
    match i
    case 0 => assert Shifts(0xA0, 8) == 0xa50a; case 1 => assert Shifts(0xA1, 8) == 0xb483;
    case 2 => assert Shifts(0xA2, 8) == 0x8618; case 3 => assert Shifts(0xA3, 8) == 0x9791;
    case 4 => assert Shifts(0xA4, 8) == 0xe32e; case 5 => assert Shifts(0xA5, 8) == 0xf2a7;
    case 6 => assert Shifts(0xA6, 8) == 0xc03c; case 7 => assert Shifts(0xA7, 8) == 0xd1b5;
    case 8 => assert Shifts(0xA8, 8) == 0x2942; case 9 => assert Shifts(0xA9, 8) == 0x38cb;
    case 10 => assert Shifts(0xAA, 8) == 0x0a50; case 11 => assert Shifts(0xAB, 8) == 0x1bd9;
    case 12 => assert Shifts(0xAC, 8) == 0x6f66; case 13 => assert Shifts(0xAD, 8) == 0x7eef;
    case 14 => assert Shifts(0xAE, 8) == 0x4c74; case _ => assert Shifts(0xAF, 8) == 0x5dfd;
  }

  lemma RowBIsShifts(i: bv16)
    requires i < 16
    ensures RowB(i) == Shifts(0xB0 | i, 8)
  {
    match i
    case 0 => assert Shifts(0xB0, 8) == 0xb58b; case 1 => assert Shifts(0xB1, 8) == 0xa402;
    case 2 => assert Shifts(0xB2, 8) == 0x9699; case 3 => assert Shifts(0xB3, 8) == 0x8710;
    case 4 => assert Shifts(0xB4, 8) == 0xf3af; case 5 => assert Shifts(0xB5, 8) == 0xe226;
    case 6 => assert Shifts(0xB6, 8) == 0xd0bd; case 7 => assert Shifts(0xB7, 8) == 0xc134;
    case 8 => assert Shifts(0xB8, 8) == 0x39c3; case 9 => assert Shifts(0xB9, 8) == 0x284a;
    case 10 => assert Shifts(0xBA, 8) == 0x1ad1; case 11 => assert Shifts(0xBB, 8) == 0x0b58;
    case 12 => assert Shifts(0xBC, 8) == 0x7fe7; case 13 => assert Shifts(0xBD, 8) == 0x6e6e;
    case 14 => assert Shifts(0xBE, 8) == 0x5cf5; case _ => assert Shifts(0xBF, 8) == 0x4d7c;
  }

  lemma RowCIsShifts(i: bv16)
    requires i < 16
    ensures RowC(i) == Shifts(0xC0 | i, 8)
  {
    match i
    case 0 => assert Shifts(0xC0, 8) == 0xc60c; case 1 => assert Shifts(0xC1, 8) == 0xd785;
    case 2 => assert Shifts(0xC2, 8) == 0xe51e; case 3 => assert Shifts(0xC3, 8) == 0xf497;
    case 4 => assert Shifts(0xC4, 8) == 0x8028; case 5 => assert Shifts(0xC5, 8) == 0x91a1;
    case 6 => assert Shifts(0xC6, 8) == 0xa33a; case 7 => assert Shifts(0xC7, 8) == 0xb2b3;
    case 8 => assert Shifts(0xC8, 8) == 0x4a44; case 9 => assert Shifts(0xC9, 8) == 0x5bcd;
    case 10 => assert Shifts(0xCA, 8) == 0x6956; case 11 => assert Shifts(0xCB, 8) == 0x78df;
    case 12 => assert Shifts(0xCC, 8) == 0x0c60; case 13 => assert Shifts(0xCD, 8) == 0x1de9;
    case 14 => assert Shifts(0xCE, 8) == 0x2f72; case _ => assert Shifts(0xCF, 8) == 0x3efb;
  }

  lemma RowDIsShifts(i: bv16)
    requires i < 16
    ensures RowD(i) == Shifts(0xD0 | i, 8)
  {
    match i
    case 0 => assert Shifts(0xD0, 8) == 0xd68d; case 1 => assert Shifts(0xD1, 8) == 0xc704;
    case 2 => assert Shifts(0xD2, 8) == 0xf59f; case 3 => assert Shifts(0xD3, 8) == 0xe416;
    case 4 => assert Shifts(0xD4, 8) == 0x90a9; case 5 => assert Shifts(0xD5, 8) == 0x8120;
    case 6 => assert Shifts(0xD6, 8) == 0xb3bb; case 7 => assert Shifts(0xD7, 8) == 0xa232;
    case 8 => assert Shifts(0xD8, 8) == 0x5ac5; case 9 => assert Shifts(0xD9, 8) == 0x4b4c;
    case 10 => assert Shifts(0xDA, 8) == 0x79d7; case 11 => assert Shifts(0xDB, 8) == 0x685e;
    case 12 => assert Shifts(0xDC, 8) == 0x1ce1; case 13 => assert Shifts(0xDD, 8) == 0x0d68;
    case 14 => assert Shifts(0xDE, 8) == 0x3ff3; case _ => assert Shifts(0xDF, 8) == 0x2e7a;
  }

  lemma RowEIsShifts(i: bv16)
    requires i < 16
    ensures RowE(i) == Shifts(0xE0 | i, 8)
  {
    match i
    case 0 => assert Shifts(0xE0, 8) == 0xe70e; case 1 => assert Shifts(0xE1, 8) == 0xf687;
    case 2 => assert Shifts(0xE2, 8) == 0xc41c; case 3 => assert Shifts(0xE3, 8) == 0xd595;
    case 4 => assert Shifts(0xE4, 8) == 0xa12a; case 5 => assert Shifts(0xE5, 8) == 0xb0a3;
    case 6 => assert Shifts(0xE6, 8) == 0x8238; case 7 => assert Shifts(0xE7, 8) == 0x93b1;
    case 8 => assert Shifts(0xE8, 8) == 0x6b46; case 9 => assert Shifts(0xE9, 8) == 0x7acf;
    case 10 => assert Shifts(0xEA, 8) == 0x4854; case 11 => assert Shifts(0xEB, 8) == 0x59dd;
    case 12 => assert Shifts(0xEC, 8) == 0x2d62; case 13 => assert Shifts(0xED, 8) == 0x3ceb;
    case 14 => assert Shifts(0xEE, 8) == 0x0e70; case _ => assert Shifts(0xEF, 8) == 0x1ff9;
  }

  lemma RowFIsShifts(i: bv16)
    requires i < 16
    ensures RowF(i) == Shifts(0xF0 | i, 8)
  {
    match i
    case 0 => assert Shifts(0xF0, 8) == 0xf78f; case 1 => assert Shifts(0xF1, 8) == 0xe606;
    case 2 => assert Shifts(0xF2, 8) == 0xd49d; case 3 => assert Shifts(0xF3, 8) == 0xc514;
    case 4 => assert Shifts(0xF4, 8) == 0xb1ab; case 5 => assert Shifts(0xF5, 8) == 0xa022;
    case 6 => assert Shifts(0xF6, 8) == 0x92b9; case 7 => assert Shifts(0xF7, 8) == 0x8330;
    case 8 => assert Shifts(0xF8, 8) == 0x7bc7; case 9 => assert Shifts(0xF9, 8) == 0x6a4e;
    case 10 => assert Shifts(0xFA, 8) == 0x58d5; case 11 => assert Shifts(0xFB, 8) == 0x495c;
    case 12 => assert Shifts(0xFC, 8) == 0x3de3; case 13 => assert Shifts(0xFD, 8) == 0x2c6a;
    case 14 => assert Shifts(0xFE, 8) == 0x1ef1; case _ => assert Shifts(0xFF, 8) == 0x0f78;
  }

  lemma TableIsEightShifts(index: bv16)
    requires index < 256
    ensures TableEntry(index) == Shifts(index, 8)
  {
    hide Shifts, Row0, Row1, Row2, Row3, Row4, Row5, Row6, Row7, Row8, Row9, RowA, RowB, RowC, RowD, RowE, RowF;
    var i := index & 0x000F;
    assert index == ((index >> 4) << 4) | i;
    match index >> 4
    case 0 => Row0IsShifts(i);
    case 1 => Row1IsShifts(i);
    case 2 => Row2IsShifts(i);
    case 3 => Row3IsShifts(i);
    case 4 => Row4IsShifts(i);
    case 5 => Row5IsShifts(i);
    case 6 => Row6IsShifts(i);
    case 7 => Row7IsShifts(i);
    case 8 => Row8IsShifts(i);
    case 9 => Row9IsShifts(i);
    case 10 => RowAIsShifts(i);
    case 11 => RowBIsShifts(i);
    case 12 => RowCIsShifts(i);
    case 13 => RowDIsShifts(i);
    case 14 => RowEIsShifts(i);
    case _ => RowFIsShifts(i);
  }

  // --------------------------------------------------------------------------
  // The table-driven code is the bit-serial register

  function ByteBits(b: bv8): (bits: seq<bool>)
    ensures |bits| == 8
  {
    LowBits(b as bv16, 8)
  }

  function MessageBits(message: seq<bv8>): (bits: seq<bool>)
    ensures |bits| == 8 * |message|
    decreases |message|
  {
    if message == [] then [] else ByteBits(message[0]) + MessageBits(message[1..])
  }

  function Zeros(n: nat): seq<bool> { seq(n, _ => false) }

  lemma {:induction false} FeedingZeros(c: bv16, n: nat)
    ensures Lfsr(c, Zeros(n)) == Shifts(c, n)
    decreases n
  {
    if n > 0 {
      assert Feed(c, false) == Shift(c);
      hide Feed, Shift;
      assert Zeros(n)[1..] == Zeros(n - 1);
      FeedingZeros(Shift(c), n - 1);
    }
  }

  predicate Disjoint(h: bv16, m: bv16) { h & m == 0 }

  // The n low bits of the mask are set.
  predicate Covers(m: bv16, n: nat)
    decreases n
  {
    n == 0 || (Odd(m) && Covers(Half(m), n - 1))
  }

  lemma DisjointStep(h: bv16, m: bv16)
    requires Disjoint(h, m)
    ensures Odd(m) ==> !Odd(h)
    ensures Disjoint(Half(h), Half(m))
  {}

  lemma {:induction false} LowZeros(h: bv16, m: bv16, n: nat)
    requires Covers(m, n) && Disjoint(h, m)
    ensures LowBits(h, n) == Zeros(n)
    decreases n
  {
    hide Odd, Half, Disjoint;
    if n > 0 {
      DisjointStep(h, m);
      LowZeros(Half(h), Half(m), n - 1);
    }
  }

  lemma ByteMask()
    ensures Covers(0x00FF, 8)
  {
    assert Covers(0x0007, 3);
    assert Covers(0x003F, 6);
  }

  function Upper(c: bv16): bv16 { c & 0xFF00 }

  lemma Halves(c: bv16)
    ensures c == Xor(LowByte(c), Upper(c))
    ensures Disjoint(Upper(c), 0x00FF)
  {}

  lemma FourHalves(c: bv16)
    ensures Half(Half(Half(Half(c)))) == c >> 4
    ensures (c >> 4) >> 4 == HighByte(c) && HighByte(Upper(c)) == HighByte(c)
  {}

  lemma DropFour(c: bv16, n: nat)
    ensures Drop(c, n + 4) == Drop(Half(Half(Half(Half(c)))), n)
  {
    hide Half;
    assert Drop(c, n + 4) == Drop(Half(Half(c)), n + 2);
  }

  lemma DropByte(c: bv16)
    ensures Drop(c, 8) == HighByte(c)
  {
    hide Half, HighByte, Upper;
    FourHalves(c);
    FourHalves(c >> 4);
    DropFour(c, 4);
    DropFour(c >> 4, 0);
  }

  lemma ShiftsOfWord(x: bv16)
    ensures Shifts(x, 8) == Xor(Shifts(LowByte(x), 8), HighByte(x))
  {
    hide Shifts, LowByte, HighByte, Upper, Xor, Drop, Disjoint;
    var low, up := LowByte(x), Upper(x);
    Halves(x);
    FeedingIsShifting(low, up, 8);
    ByteMask();
    LowZeros(up, 0x00FF, 8);
    FeedingZeros(low, 8);
    DropByte(up);
    FourHalves(x);
  }

  lemma XorFacts(c: bv16, d: bv16)
    ensures Xor(c, d) == Xor(d, c) && Xor(c, 0) == c
    ensures d < 256 ==> HighByte(Xor(c, d)) == HighByte(c)
  {}

  lemma UpdateIsLfsr(crc: bv16, data: bv8)
    ensures Update(crc, data) == Lfsr(crc, ByteBits(data))
  {
    var d := data as bv16;
    assert d < 256;
    var x := Xor(crc, d);
    hide Shifts, LowByte, HighByte, Xor, Drop, TableEntry;
    XorFacts(crc, d);
    XorFacts(Lfsr(crc, ByteBits(data)), 0);
    XorFacts(HighByte(x), Shifts(LowByte(x), 8));
    DropAll(d);
    FeedingIsShifting(crc, d, 8);
    ShiftsOfWord(x);
    TableIsEightShifts(LowByte(x));
  }

  // The table-driven checksum of every message, from every starting value, is the bit-serial one.
  lemma {:induction false} ChecksumIsLfsr(crc: bv16, message: seq<bv8>)
    ensures Checksum(crc, message) == Lfsr(crc, MessageBits(message))
    decreases |message|
  {
    if message != [] {
      hide Update, ByteBits;
      UpdateIsLfsr(crc, message[0]);
      ChecksumIsLfsr(Update(crc, message[0]), message[1..]);
      LfsrConcat(crc, ByteBits(message[0]), MessageBits(message[1..]));
    }
  }

  // --------------------------------------------------------------------------
  // Acceptance is a zero residue

  lemma {:induction false} LowBitsSplit(c: bv16, m: nat, n: nat)
    ensures LowBits(c, m + n) == LowBits(c, m) + LowBits(Drop(c, m), n)
    decreases m
  {
    hide Odd, Half;
    if m > 0 {
      LowBitsSplit(Half(c), m - 1, n);
    }
  }

  lemma {:induction false} LowBitsIgnoreUpper(low: bv16, up: bv16, m: bv16, n: nat)
    requires Covers(m, n) && Disjoint(up, m)
    ensures LowBits(Xor(low, up), n) == LowBits(low, n)
    decreases n
  {
    hide Odd, Half, Disjoint, Xor;
    if n > 0 {
      XorStep(low, up);
      DisjointStep(up, m);
      LowBitsIgnoreUpper(Half(low), Half(up), Half(m), n - 1);
    }
  }

  lemma WordBits(c: bv16)
    ensures LowBits(c, 16) == LowBits(LowByte(c), 8) + LowBits(HighByte(c), 8)
  {
    hide LowBits, Drop, LowByte, HighByte, Upper, Xor, Disjoint;
    Halves(c);
    ByteMask();
    LowBitsIgnoreUpper(LowByte(c), Upper(c), 0x00FF, 8);
    LowBitsSplit(c, 8, 8);
    DropByte(c);
  }

  // A word above the low n bits and the low n bits determine the word.
  lemma {:induction false} LowBitsInjective(c: bv16, d: bv16, n: nat)
    requires LowBits(c, n) == LowBits(d, n) && Drop(c, n) == Drop(d, n)
    ensures c == d
    decreases n
  {
    if n > 0 {
      hide Odd, Half;
      assert LowBits(c, n)[0] == LowBits(d, n)[0];
      assert LowBits(c, n)[1..] == LowBits(d, n)[1..];
      LowBitsInjective(Half(c), Half(d), n - 1);
      HalfAndOdd(c, d);
    }
  }

  lemma HalfAndOdd(c: bv16, d: bv16)
    requires Odd(c) == Odd(d) && Half(c) == Half(d)
    ensures c == d
  {}

  lemma ByteBitsInjective(x: bv8, c: bv16)
    requires ByteBits(x) == LowBits(c, 8) && c < 256
    ensures x as bv16 == c
  {
    var d := x as bv16;
    assert d < 256;
    hide LowBits, Drop;
    DropAll(c);
    DropAll(d);
    LowBitsInjective(d, c, 8);
  }

  lemma TrailerBits(crc: bv16, x: bv8, y: bv8)
    ensures IsTrailer(crc, x, y) <==> ByteBits(x) + ByteBits(y) == LowBits(crc, 16)
  {
    assert HighByte(crc) < 256;
    hide LowBits, LowByte, HighByte;
    WordBits(crc);
    var bits := ByteBits(x) + ByteBits(y);
    if bits == LowBits(crc, 16) {
      assert ByteBits(x) == bits[..8] == LowBits(LowByte(crc), 8);
      assert ByteBits(y) == bits[8..] == LowBits(HighByte(crc), 8);
      ByteBitsInjective(x, LowByte(crc));
      ByteBitsInjective(y, HighByte(crc));
    }
  }

  // Two bytes drain a register exactly when they are its low and its high byte.
  lemma TrailerDrains(crc: bv16, x: bv8, y: bv8)
    ensures Checksum(crc, [x, y]) == 0 <==> IsTrailer(crc, x, y)
  {
    hide LowBits, Lfsr, ByteBits, Update, Drop, IsTrailer;
    var bits := ByteBits(x) + ByteBits(y);
    assert MessageBits([x, y]) == bits by {
      assert [x, y][1..] == [y];
      assert [y][1..] == [];
    }
    ChecksumIsLfsr(crc, [x, y]);
    OwnBitsDrain(crc, 16);
    DropAll(crc);
    TrailerBits(crc, x, y);
    if Checksum(crc, [x, y]) == 0 {
      ShortStringsAreSeparated(crc, bits, LowBits(crc, 16));
    }
  }

  lemma {:induction false} ChecksumConcat(crc: bv16, a: seq<bv8>, b: seq<bv8>)
    ensures Checksum(crc, a + b) == Checksum(Checksum(crc, a), b)
    decreases |a|
  {
    hide Update;
    if a == [] {
      assert a + b == b;
    } else {
      assert (a + b)[1..] == a[1..] + b;
      ChecksumConcat(Update(crc, a[0]), a[1..], b);
    }
  }

  // The receiver's comparison of two bytes is the same test as a zero checksum over everything, trailer included.
  lemma AcceptsIffZeroResidue(message: seq<bv8>)
    ensures Accepts(message) <==> |message| > 2 && Checksum(0xFFFF, message) == 0
  {
    if |message| > 2 {
      hide IsTrailer, Checksum;
      var n := |message| - 2;
      assert message == message[..n] + [message[n], message[n + 1]];
      ChecksumConcat(CRC16_INIT, message[..n], [message[n], message[n + 1]]);
      TrailerDrains(Checksum(CRC16_INIT, message[..n]), message[n], message[n + 1]);
    }
  }

  // --------------------------------------------------------------------------
  // A known packet

  lemma ThreeBytes(crc: bv16, a: bv8, b: bv8, c: bv8)
    ensures Checksum(crc, [a, b, c]) == Update(Update(Update(crc, a), b), c)
  {
    assert [a, b, c][1..] == [b, c] && [b, c][1..] == [c] && [c][1..] == [];
    hide Update;
    assert Checksum(Update(crc, a), [b, c]) == Checksum(Update(Update(crc, a), b), [c]);
    assert Checksum(Update(Update(Update(crc, a), b), c), []) == Update(Update(Update(crc, a), b), c);
  }

  // The checksum of the nine digits from 1 to 9 in ASCII is the published check value of this code, 0x6F91.
  lemma CheckValue()
    ensures var digits: seq<bv8> := [0x31, 0x32, 0x33, 0x34, 0x35, 0x36, 0x37, 0x38, 0x39];
      Checksum(CRC16_INIT, digits) == 0x6F91 && Accepts(digits + [0x91, 0x6F])
  {
    var a: seq<bv8>, b: seq<bv8>, c: seq<bv8> := [0x31, 0x32, 0x33], [0x34, 0x35, 0x36], [0x37, 0x38, 0x39];
    var digits: seq<bv8> := [0x31, 0x32, 0x33, 0x34, 0x35, 0x36, 0x37, 0x38, 0x39];
    assert digits == a + (b + c);
    assert (digits + [0x91, 0x6F])[..9] == digits;
    Steps();
    hide Update, Checksum;
    ChecksumConcat(0xFFFF, a, b + c);
    ThreeBytes(0xFFFF, 0x31, 0x32, 0x33);
    ChecksumConcat(Checksum(0xFFFF, a), b, c);
    ThreeBytes(Checksum(0xFFFF, a), 0x34, 0x35, 0x36);
    ThreeBytes(Checksum(Checksum(0xFFFF, a), b), 0x37, 0x38, 0x39);
  }

  lemma Steps()
    ensures Update(0xFFFF, 0x31) == 0x2F8D
    ensures Update(0x2F8D, 0x32) == 0x4D53
    ensures Update(0x4D53, 0x33) == 0x634B
    ensures Update(0x634B, 0x34) == 0x8B13
    ensures Update(0x8B13, 0x35) == 0x44BF
    ensures Update(0x44BF, 0x36) == 0x198D
    ensures Update(0x198D, 0x37) == 0x1AC8
    ensures Update(0x1AC8, 0x38) == 0xF795
    ensures Update(0xF795, 0x39) == 0x6F91
  {}

  // --------------------------------------------------------------------------
  // Error detection

  // The messages agree outside sixteen consecutive bits, the first of which is bit k in transmission order.
  predicate DifferWithinBurst(a: seq<bv8>, b: seq<bv8>, k: nat)
    requires |a| == |b|
  {
    forall j :: 0 <= j < 8 * |a| && !(k <= j < k + 16) ==> MessageBits(a)[j] == MessageBits(b)[j]
  }

  lemma {:induction false} MessageBitsInjective(a: seq<bv8>, b: seq<bv8>)
    requires |a| == |b| && MessageBits(a) == MessageBits(b)
    ensures a == b
    decreases |a|
  {
    if a != [] {
      var d := b[0] as bv16;
      assert d < 256;
      hide LowBits;
      assert ByteBits(a[0]) == MessageBits(a)[..8] == MessageBits(b)[..8] == ByteBits(b[0]);
      assert MessageBits(a[1..]) == MessageBits(a)[8..] == MessageBits(b)[8..] == MessageBits(b[1..]);
      ByteBitsInjective(a[0], d);
      MessageBitsInjective(a[1..], b[1..]);
    }
  }

  lemma SameEndsWithinBurst(c: bv16, a: seq<bool>, b: seq<bool>, lo: nat, hi: nat)
    requires |a| == |b| && lo <= hi <= |a| && hi - lo <= 16
    requires a[..lo] == b[..lo] && a[hi..] == b[hi..]
    requires Lfsr(c, a) == Lfsr(c, b)
    ensures a == b
  {
    hide Lfsr;
    var d := Lfsr(c, a[..lo]);
    assert a == a[..lo] + (a[lo..hi] + a[hi..]);
    assert b == b[..lo] + (b[lo..hi] + b[hi..]);
    LfsrConcat(c, a[..lo], a[lo..hi] + a[hi..]);
    LfsrConcat(c, b[..lo], b[lo..hi] + b[hi..]);
    LfsrConcat(d, a[lo..hi], a[hi..]);
    LfsrConcat(d, b[lo..hi], b[hi..]);
    LfsrIsInjective(Lfsr(d, a[lo..hi]), Lfsr(d, b[lo..hi]), a[hi..]);
    ShortStringsAreSeparated(d, a[lo..hi], b[lo..hi]);
  }

  // Of two different messages of one length whose difference is confined to sixteen consecutive bits, at most
  // one is accepted.
  lemma BurstIsDetected(a: seq<bv8>, b: seq<bv8>, k: nat)
    requires |a| == |b| && a != b && DifferWithinBurst(a, b, k)
    ensures !(Accepts(a) && Accepts(b))
  {
    hide Lfsr, Checksum, MessageBits, Accepts;
    if Accepts(a) && Accepts(b) {
      AcceptsIffZeroResidue(a);
      AcceptsIffZeroResidue(b);
      ChecksumIsLfsr(CRC16_INIT, a);
      ChecksumIsLfsr(CRC16_INIT, b);
      var n := 8 * |a|;
      var lo, hi := if k < n then k else n, if k + 16 < n then k + 16 else n;
      SameEndsWithinBurst(CRC16_INIT, MessageBits(a), MessageBits(b), lo, hi);
      MessageBitsInjective(a, b);
    }
  }

  function Difference(a: seq<bool>, b: seq<bool>): seq<bool>
    requires |a| == |b|
  {
    seq(|a|, j requires 0 <= j < |a| => a[j] != b[j])
  }

  lemma {:induction false} DifferenceParity(a: seq<bool>, b: seq<bool>)
    requires |a| == |b|
    ensures OddOnes(Difference(a, b)) == (OddOnes(a) != OddOnes(b))
    decreases |a|
  {
    if a != [] {
      assert Difference(a, b)[1..] == Difference(a[1..], b[1..]);
      DifferenceParity(a[1..], b[1..]);
    }
  }

  // Of two messages of one length that differ in an odd number of bits, at most one is accepted.
  lemma OddErrorsAreDetected(a: seq<bv8>, b: seq<bv8>)
    requires |a| == |b|
    requires OddOnes(Difference(MessageBits(a), MessageBits(b)))
    ensures !(Accepts(a) && Accepts(b))
  {
    hide Lfsr, Checksum, MessageBits, Accepts, Parity;
    if Accepts(a) && Accepts(b) {
      AcceptsIffZeroResidue(a);
      AcceptsIffZeroResidue(b);
      ChecksumIsLfsr(CRC16_INIT, a);
      ChecksumIsLfsr(CRC16_INIT, b);
      LfsrParity(CRC16_INIT, MessageBits(a));
      LfsrParity(CRC16_INIT, MessageBits(b));
      DifferenceParity(MessageBits(a), MessageBits(b));
    }
  }

  // --------------------------------------------------------------------------
  // The code

  method GetCheckSum(message: array?<bv8>, length: nat, init: bv16) returns (crc: bv16)
    requires message != null ==> length <= message.Length
    ensures message == null ==> crc == 0xFFFF
    ensures message != null ==> crc == Lfsr(init, MessageBits(message[..length]))
  {
    if message == null {
      return 0xFFFF;
    }
    hide Update, Lfsr, MessageBits;
    crc := init;
    var i := 0;
    while i < length
      invariant i <= length
      invariant Checksum(crc, message[i..length]) == Checksum(init, message[..length])
    {
      assert message[i..length][1..] == message[i + 1..length];
      crc := Update(crc, message[i]);
      i := i + 1;
    }
    ChecksumIsLfsr(init, message[..length]);
  }

  method VerifyCheckSum(message: array?<bv8>, length: nat) returns (ok: bool)
    requires message != null ==> length <= message.Length
    ensures ok <==> message != null && length > 2 && Lfsr(0xFFFF, MessageBits(message[..length])) == 0
  {
    if message == null || length <= 2 {
      return false;
    }
    hide Lfsr, MessageBits, Checksum, LowByte, HighByte;
    var expected := GetCheckSum(message, length - 2, CRC16_INIT);
    ok := message[length - 2] as bv16 == LowByte(expected) && message[length - 1] as bv16 == HighByte(expected);
    assert ok == IsTrailer(expected, message[length - 2], message[length - 1]);
    assert message[..length][..length - 2] == message[..length - 2];
    ChecksumIsLfsr(CRC16_INIT, message[..length - 2]);
    AcceptsIffZeroResidue(message[..length]);
    ChecksumIsLfsr(CRC16_INIT, message[..length]);
  }

  lemma LowAndHigh(crc: bv16)
    ensures IsTrailer(crc, Low(crc), High(crc)) && Word(Low(crc), High(crc)) == crc
  {}

  // The word that is sent as two bytes, the low one first.
  function Word(low: bv8, high: bv8): bv16 { (low as bv16) | ((high as bv16) << 8) }

  // Fills in the trailer, low byte first, after which the receiver accepts the buffer.
  method AppendCheckSum(message: array?<bv8>, length: nat)
    requires message != null ==> length <= message.Length
    modifies message
    ensures message != null && length > 2 ==>
      && Accepts(message[..length])
      && Word(message[length - 2], message[length - 1]) == Lfsr(0xFFFF, MessageBits(old(message[..length - 2])))
      && message[..length - 2] == old(message[..length - 2])
      && message[length..] == old(message[length..])
    ensures message != null && length <= 2 ==> message[..] == old(message[..])
  {
    if message == null || length <= 2 {
      return;
    }
    hide Lfsr, MessageBits, Checksum, Low, High, IsTrailer, Word, Accepts;
    ghost var others := message[..length - 2];
    var crc := GetCheckSum(message, length - 2, CRC16_INIT);
    message[length - 2] := Low(crc);
    message[length - 1] := High(crc);
    assert message[..length] == others + [Low(crc), High(crc)];
    TrailerIsAccepted(others, crc);
  }

  lemma TrailerIsAccepted(others: seq<bv8>, crc: bv16)
    requires others != [] && crc == Lfsr(0xFFFF, MessageBits(others))
    ensures Accepts(others + [Low(crc), High(crc)]) && Word(Low(crc), High(crc)) == crc
  {
    hide Lfsr, MessageBits, Checksum, Low, High, IsTrailer, Word;
    ChecksumIsLfsr(CRC16_INIT, others);
    LowAndHigh(crc);
    assert (others + [Low(crc), High(crc)])[..|others|] == others;
  }
}
