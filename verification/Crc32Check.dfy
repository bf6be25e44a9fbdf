/** The check value of crc32: what it makes of the digits 1 to 9. */
module Crc32Check {
  import opened Registers
  import opened Crc32

  lemma Digit(s: seq<bv8>, c: bv8, before: bv32, after: bv32)
    requires Register(0xffff_ffff, s) == before && Entry(Xor(before, Wide(c))) == after
    ensures Register(0xffff_ffff, s + [c]) == after
  {
    hide Entry, Xor, Wide;
    assert (s + [c])[..|s|] == s;
    EntryShifts(Xor(before, Wide(c)));
  }

  lemma Steps()
    ensures Entry(Xor(0xffff_ffff, Wide(0x31))) == 0x7c23_1048
    ensures Entry(Xor(0x7c23_1048, Wide(0x32))) == 0xb0ac_bb32
    ensures Entry(Xor(0xb0ac_bb32, Wide(0x33))) == 0x77b7_9c2d
    ensures Entry(Xor(0x77b7_9c2d, Wide(0x34))) == 0x641c_1f5c
    ensures Entry(Xor(0x641c_1f5c, Wide(0x35))) == 0x340a_c5e3
    ensures Entry(Xor(0x340a_c5e3, Wide(0x36))) == 0xf68d_2c9e
    ensures Entry(Xor(0xf68d_2c9e, Wide(0x37))) == 0xaffc_9660
    ensures Entry(Xor(0xaffc_9660, Wide(0x38))) == 0x651f_2550
    ensures Entry(Xor(0x651f_2550, Wide(0x39))) == 0x340b_c6d9
  {
  }

  lemma DigitsChecked()
    ensures Crc(0, [0x31, 0x32, 0x33, 0x34, 0x35, 0x36, 0x37, 0x38, 0x39]) == 0xcbf4_3926
  {
    hide Register, Entry, Xor, Wide, Not;
    Steps();
    RegisterNone(0xffff_ffff);
    var s: seq<bv8> := [];
    Digit(s, 0x31, 0xffff_ffff, 0x7c23_1048);
    s := s + [0x31];
    Digit(s, 0x32, 0x7c23_1048, 0xb0ac_bb32);
    s := s + [0x32];
    Digit(s, 0x33, 0xb0ac_bb32, 0x77b7_9c2d);
    s := s + [0x33];
    Digit(s, 0x34, 0x77b7_9c2d, 0x641c_1f5c);
    s := s + [0x34];
    Digit(s, 0x35, 0x641c_1f5c, 0x340a_c5e3);
    s := s + [0x35];
    Digit(s, 0x36, 0x340a_c5e3, 0xf68d_2c9e);
    s := s + [0x36];
    Digit(s, 0x37, 0xf68d_2c9e, 0xaffc_9660);
    s := s + [0x37];
    Digit(s, 0x38, 0xaffc_9660, 0x651f_2550);
    s := s + [0x38];
    Digit(s, 0x39, 0x651f_2550, 0x340b_c6d9);
    s := s + [0x39];
    assert s == [0x31, 0x32, 0x33, 0x34, 0x35, 0x36, 0x37, 0x38, 0x39];
    NotEnds();
  }

  lemma NotEnds()
    ensures Not(0) == 0xffff_ffff && Not(0x340b_c6d9) == 0xcbf4_3926
  {
  }
}
