/** The 256 constants of BZ2_crc32Table are what the shift register makes of each top byte. */
module BzCrcTable {
  import opened BzCrc

  lemma Entries00To1f()
    ensures TableEntry(0x0000_0000) == 0x0000_0000 && TableEntry(0x0100_0000) == 0x04c1_1db7
    ensures TableEntry(0x0200_0000) == 0x0982_3b6e && TableEntry(0x0300_0000) == 0x0d43_26d9
    ensures TableEntry(0x0400_0000) == 0x1304_76dc && TableEntry(0x0500_0000) == 0x17c5_6b6b
    ensures TableEntry(0x0600_0000) == 0x1a86_4db2 && TableEntry(0x0700_0000) == 0x1e47_5005
    ensures TableEntry(0x0800_0000) == 0x2608_edb8 && TableEntry(0x0900_0000) == 0x22c9_f00f
    ensures TableEntry(0x0a00_0000) == 0x2f8a_d6d6 && TableEntry(0x0b00_0000) == 0x2b4b_cb61
    ensures TableEntry(0x0c00_0000) == 0x350c_9b64 && TableEntry(0x0d00_0000) == 0x31cd_86d3
    ensures TableEntry(0x0e00_0000) == 0x3c8e_a00a && TableEntry(0x0f00_0000) == 0x384f_bdbd
    ensures TableEntry(0x1000_0000) == 0x4c11_db70 && TableEntry(0x1100_0000) == 0x48d0_c6c7
    ensures TableEntry(0x1200_0000) == 0x4593_e01e && TableEntry(0x1300_0000) == 0x4152_fda9
    ensures TableEntry(0x1400_0000) == 0x5f15_adac && TableEntry(0x1500_0000) == 0x5bd4_b01b
    ensures TableEntry(0x1600_0000) == 0x5697_96c2 && TableEntry(0x1700_0000) == 0x5256_8b75
    ensures TableEntry(0x1800_0000) == 0x6a19_36c8 && TableEntry(0x1900_0000) == 0x6ed8_2b7f
    ensures TableEntry(0x1a00_0000) == 0x639b_0da6 && TableEntry(0x1b00_0000) == 0x675a_1011
    ensures TableEntry(0x1c00_0000) == 0x791d_4014 && TableEntry(0x1d00_0000) == 0x7ddc_5da3
    ensures TableEntry(0x1e00_0000) == 0x709f_7b7a && TableEntry(0x1f00_0000) == 0x745e_66cd
  {
  }

  lemma Entries20To3f()
    ensures TableEntry(0x2000_0000) == 0x9823_b6e0 && TableEntry(0x2100_0000) == 0x9ce2_ab57
    ensures TableEntry(0x2200_0000) == 0x91a1_8d8e && TableEntry(0x2300_0000) == 0x9560_9039
    ensures TableEntry(0x2400_0000) == 0x8b27_c03c && TableEntry(0x2500_0000) == 0x8fe6_dd8b
    ensures TableEntry(0x2600_0000) == 0x82a5_fb52 && TableEntry(0x2700_0000) == 0x8664_e6e5
    ensures TableEntry(0x2800_0000) == 0xbe2b_5b58 && TableEntry(0x2900_0000) == 0xbaea_46ef
    ensures TableEntry(0x2a00_0000) == 0xb7a9_6036 && TableEntry(0x2b00_0000) == 0xb368_7d81
    ensures TableEntry(0x2c00_0000) == 0xad2f_2d84 && TableEntry(0x2d00_0000) == 0xa9ee_3033
    ensures TableEntry(0x2e00_0000) == 0xa4ad_16ea && TableEntry(0x2f00_0000) == 0xa06c_0b5d
    ensures TableEntry(0x3000_0000) == 0xd432_6d90 && TableEntry(0x3100_0000) == 0xd0f3_7027
    ensures TableEntry(0x3200_0000) == 0xddb0_56fe && TableEntry(0x3300_0000) == 0xd971_4b49
    ensures TableEntry(0x3400_0000) == 0xc736_1b4c && TableEntry(0x3500_0000) == 0xc3f7_06fb
    ensures TableEntry(0x3600_0000) == 0xceb4_2022 && TableEntry(0x3700_0000) == 0xca75_3d95
    ensures TableEntry(0x3800_0000) == 0xf23a_8028 && TableEntry(0x3900_0000) == 0xf6fb_9d9f
    ensures TableEntry(0x3a00_0000) == 0xfbb8_bb46 && TableEntry(0x3b00_0000) == 0xff79_a6f1
    ensures TableEntry(0x3c00_0000) == 0xe13e_f6f4 && TableEntry(0x3d00_0000) == 0xe5ff_eb43
    ensures TableEntry(0x3e00_0000) == 0xe8bc_cd9a && TableEntry(0x3f00_0000) == 0xec7d_d02d
  {
  }

  lemma Entries40To5f()
    ensures TableEntry(0x4000_0000) == 0x3486_7077 && TableEntry(0x4100_0000) == 0x3047_6dc0
    ensures TableEntry(0x4200_0000) == 0x3d04_4b19 && TableEntry(0x4300_0000) == 0x39c5_56ae
    ensures TableEntry(0x4400_0000) == 0x2782_06ab && TableEntry(0x4500_0000) == 0x2343_1b1c
    ensures TableEntry(0x4600_0000) == 0x2e00_3dc5 && TableEntry(0x4700_0000) == 0x2ac1_2072
    ensures TableEntry(0x4800_0000) == 0x128e_9dcf && TableEntry(0x4900_0000) == 0x164f_8078
    ensures TableEntry(0x4a00_0000) == 0x1b0c_a6a1 && TableEntry(0x4b00_0000) == 0x1fcd_bb16
    ensures TableEntry(0x4c00_0000) == 0x018a_eb13 && TableEntry(0x4d00_0000) == 0x054b_f6a4
    ensures TableEntry(0x4e00_0000) == 0x0808_d07d && TableEntry(0x4f00_0000) == 0x0cc9_cdca
    ensures TableEntry(0x5000_0000) == 0x7897_ab07 && TableEntry(0x5100_0000) == 0x7c56_b6b0
    ensures TableEntry(0x5200_0000) == 0x7115_9069 && TableEntry(0x5300_0000) == 0x75d4_8dde
    ensures TableEntry(0x5400_0000) == 0x6b93_dddb && TableEntry(0x5500_0000) == 0x6f52_c06c
    ensures TableEntry(0x5600_0000) == 0x6211_e6b5 && TableEntry(0x5700_0000) == 0x66d0_fb02
    ensures TableEntry(0x5800_0000) == 0x5e9f_46bf && TableEntry(0x5900_0000) == 0x5a5e_5b08
    ensures TableEntry(0x5a00_0000) == 0x571d_7dd1 && TableEntry(0x5b00_0000) == 0x53dc_6066
    ensures TableEntry(0x5c00_0000) == 0x4d9b_3063 && TableEntry(0x5d00_0000) == 0x495a_2dd4
    ensures TableEntry(0x5e00_0000) == 0x4419_0b0d && TableEntry(0x5f00_0000) == 0x40d8_16ba
  {
  }

  lemma Entries60To7f()
    ensures TableEntry(0x6000_0000) == 0xaca5_c697 && TableEntry(0x6100_0000) == 0xa864_db20
    ensures TableEntry(0x6200_0000) == 0xa527_fdf9 && TableEntry(0x6300_0000) == 0xa1e6_e04e
    ensures TableEntry(0x6400_0000) == 0xbfa1_b04b && TableEntry(0x6500_0000) == 0xbb60_adfc
    ensures TableEntry(0x6600_0000) == 0xb623_8b25 && TableEntry(0x6700_0000) == 0xb2e2_9692
    ensures TableEntry(0x6800_0000) == 0x8aad_2b2f && TableEntry(0x6900_0000) == 0x8e6c_3698
    ensures TableEntry(0x6a00_0000) == 0x832f_1041 && TableEntry(0x6b00_0000) == 0x87ee_0df6
    ensures TableEntry(0x6c00_0000) == 0x99a9_5df3 && TableEntry(0x6d00_0000) == 0x9d68_4044
    ensures TableEntry(0x6e00_0000) == 0x902b_669d && TableEntry(0x6f00_0000) == 0x94ea_7b2a
    ensures TableEntry(0x7000_0000) == 0xe0b4_1de7 && TableEntry(0x7100_0000) == 0xe475_0050
    ensures TableEntry(0x7200_0000) == 0xe936_2689 && TableEntry(0x7300_0000) == 0xedf7_3b3e
    ensures TableEntry(0x7400_0000) == 0xf3b0_6b3b && TableEntry(0x7500_0000) == 0xf771_768c
    ensures TableEntry(0x7600_0000) == 0xfa32_5055 && TableEntry(0x7700_0000) == 0xfef3_4de2
    ensures TableEntry(0x7800_0000) == 0xc6bc_f05f && TableEntry(0x7900_0000) == 0xc27d_ede8
    ensures TableEntry(0x7a00_0000) == 0xcf3e_cb31 && TableEntry(0x7b00_0000) == 0xcbff_d686
    ensures TableEntry(0x7c00_0000) == 0xd5b8_8683 && TableEntry(0x7d00_0000) == 0xd179_9b34
    ensures TableEntry(0x7e00_0000) == 0xdc3a_bded && TableEntry(0x7f00_0000) == 0xd8fb_a05a
  {
  }

  lemma Entries80To9f()
    ensures TableEntry(0x8000_0000) == 0x690c_e0ee && TableEntry(0x8100_0000) == 0x6dcd_fd59
    ensures TableEntry(0x8200_0000) == 0x608e_db80 && TableEntry(0x8300_0000) == 0x644f_c637
    ensures TableEntry(0x8400_0000) == 0x7a08_9632 && TableEntry(0x8500_0000) == 0x7ec9_8b85
    ensures TableEntry(0x8600_0000) == 0x738a_ad5c && TableEntry(0x8700_0000) == 0x774b_b0eb
    ensures TableEntry(0x8800_0000) == 0x4f04_0d56 && TableEntry(0x8900_0000) == 0x4bc5_10e1
    ensures TableEntry(0x8a00_0000) == 0x4686_3638 && TableEntry(0x8b00_0000) == 0x4247_2b8f
    ensures TableEntry(0x8c00_0000) == 0x5c00_7b8a && TableEntry(0x8d00_0000) == 0x58c1_663d
    ensures TableEntry(0x8e00_0000) == 0x5582_40e4 && TableEntry(0x8f00_0000) == 0x5143_5d53
    ensures TableEntry(0x9000_0000) == 0x251d_3b9e && TableEntry(0x9100_0000) == 0x21dc_2629
    ensures TableEntry(0x9200_0000) == 0x2c9f_00f0 && TableEntry(0x9300_0000) == 0x285e_1d47
    ensures TableEntry(0x9400_0000) == 0x3619_4d42 && TableEntry(0x9500_0000) == 0x32d8_50f5
    ensures TableEntry(0x9600_0000) == 0x3f9b_762c && TableEntry(0x9700_0000) == 0x3b5a_6b9b
    ensures TableEntry(0x9800_0000) == 0x0315_d626 && TableEntry(0x9900_0000) == 0x07d4_cb91
    ensures TableEntry(0x9a00_0000) == 0x0a97_ed48 && TableEntry(0x9b00_0000) == 0x0e56_f0ff
    ensures TableEntry(0x9c00_0000) == 0x1011_a0fa && TableEntry(0x9d00_0000) == 0x14d0_bd4d
    ensures TableEntry(0x9e00_0000) == 0x1993_9b94 && TableEntry(0x9f00_0000) == 0x1d52_8623
  {
  }

  lemma Entriesa0Tobf()
    ensures TableEntry(0xa000_0000) == 0xf12f_560e && TableEntry(0xa100_0000) == 0xf5ee_4bb9
    ensures TableEntry(0xa200_0000) == 0xf8ad_6d60 && TableEntry(0xa300_0000) == 0xfc6c_70d7
    ensures TableEntry(0xa400_0000) == 0xe22b_20d2 && TableEntry(0xa500_0000) == 0xe6ea_3d65
    ensures TableEntry(0xa600_0000) == 0xeba9_1bbc && TableEntry(0xa700_0000) == 0xef68_060b
    ensures TableEntry(0xa800_0000) == 0xd727_bbb6 && TableEntry(0xa900_0000) == 0xd3e6_a601
    ensures TableEntry(0xaa00_0000) == 0xdea5_80d8 && TableEntry(0xab00_0000) == 0xda64_9d6f
    ensures TableEntry(0xac00_0000) == 0xc423_cd6a && TableEntry(0xad00_0000) == 0xc0e2_d0dd
    ensures TableEntry(0xae00_0000) == 0xcda1_f604 && TableEntry(0xaf00_0000) == 0xc960_ebb3
    ensures TableEntry(0xb000_0000) == 0xbd3e_8d7e && TableEntry(0xb100_0000) == 0xb9ff_90c9
    ensures TableEntry(0xb200_0000) == 0xb4bc_b610 && TableEntry(0xb300_0000) == 0xb07d_aba7
    ensures TableEntry(0xb400_0000) == 0xae3a_fba2 && TableEntry(0xb500_0000) == 0xaafb_e615
    ensures TableEntry(0xb600_0000) == 0xa7b8_c0cc && TableEntry(0xb700_0000) == 0xa379_dd7b
    ensures TableEntry(0xb800_0000) == 0x9b36_60c6 && TableEntry(0xb900_0000) == 0x9ff7_7d71
    ensures TableEntry(0xba00_0000) == 0x92b4_5ba8 && TableEntry(0xbb00_0000) == 0x9675_461f
    ensures TableEntry(0xbc00_0000) == 0x8832_161a && TableEntry(0xbd00_0000) == 0x8cf3_0bad
    ensures TableEntry(0xbe00_0000) == 0x81b0_2d74 && TableEntry(0xbf00_0000) == 0x8571_30c3
  {
  }

  lemma Entriesc0Todf()
    ensures TableEntry(0xc000_0000) == 0x5d8a_9099 && TableEntry(0xc100_0000) == 0x594b_8d2e
    ensures TableEntry(0xc200_0000) == 0x5408_abf7 && TableEntry(0xc300_0000) == 0x50c9_b640
    ensures TableEntry(0xc400_0000) == 0x4e8e_e645 && TableEntry(0xc500_0000) == 0x4a4f_fbf2
    ensures TableEntry(0xc600_0000) == 0x470c_dd2b && TableEntry(0xc700_0000) == 0x43cd_c09c
    ensures TableEntry(0xc800_0000) == 0x7b82_7d21 && TableEntry(0xc900_0000) == 0x7f43_6096
    ensures TableEntry(0xca00_0000) == 0x7200_464f && TableEntry(0xcb00_0000) == 0x76c1_5bf8
    ensures TableEntry(0xcc00_0000) == 0x6886_0bfd && TableEntry(0xcd00_0000) == 0x6c47_164a
    ensures TableEntry(0xce00_0000) == 0x6104_3093 && TableEntry(0xcf00_0000) == 0x65c5_2d24
    ensures TableEntry(0xd000_0000) == 0x119b_4be9 && TableEntry(0xd100_0000) == 0x155a_565e
    ensures TableEntry(0xd200_0000) == 0x1819_7087 && TableEntry(0xd300_0000) == 0x1cd8_6d30
    ensures TableEntry(0xd400_0000) == 0x029f_3d35 && TableEntry(0xd500_0000) == 0x065e_2082
    ensures TableEntry(0xd600_0000) == 0x0b1d_065b && TableEntry(0xd700_0000) == 0x0fdc_1bec
    ensures TableEntry(0xd800_0000) == 0x3793_a651 && TableEntry(0xd900_0000) == 0x3352_bbe6
    ensures TableEntry(0xda00_0000) == 0x3e11_9d3f && TableEntry(0xdb00_0000) == 0x3ad0_8088
    ensures TableEntry(0xdc00_0000) == 0x2497_d08d && TableEntry(0xdd00_0000) == 0x2056_cd3a
    ensures TableEntry(0xde00_0000) == 0x2d15_ebe3 && TableEntry(0xdf00_0000) == 0x29d4_f654
  {
  }

  lemma Entriese0Toff()
    ensures TableEntry(0xe000_0000) == 0xc5a9_2679 && TableEntry(0xe100_0000) == 0xc168_3bce
    ensures TableEntry(0xe200_0000) == 0xcc2b_1d17 && TableEntry(0xe300_0000) == 0xc8ea_00a0
    ensures TableEntry(0xe400_0000) == 0xd6ad_50a5 && TableEntry(0xe500_0000) == 0xd26c_4d12
    ensures TableEntry(0xe600_0000) == 0xdf2f_6bcb && TableEntry(0xe700_0000) == 0xdbee_767c
    ensures TableEntry(0xe800_0000) == 0xe3a1_cbc1 && TableEntry(0xe900_0000) == 0xe760_d676
    ensures TableEntry(0xea00_0000) == 0xea23_f0af && TableEntry(0xeb00_0000) == 0xeee2_ed18
    ensures TableEntry(0xec00_0000) == 0xf0a5_bd1d && TableEntry(0xed00_0000) == 0xf464_a0aa
    ensures TableEntry(0xee00_0000) == 0xf927_8673 && TableEntry(0xef00_0000) == 0xfde6_9bc4
    ensures TableEntry(0xf000_0000) == 0x89b8_fd09 && TableEntry(0xf100_0000) == 0x8d79_e0be
    ensures TableEntry(0xf200_0000) == 0x803a_c667 && TableEntry(0xf300_0000) == 0x84fb_dbd0
    ensures TableEntry(0xf400_0000) == 0x9abc_8bd5 && TableEntry(0xf500_0000) == 0x9e7d_9662
    ensures TableEntry(0xf600_0000) == 0x933e_b0bb && TableEntry(0xf700_0000) == 0x97ff_ad0c
    ensures TableEntry(0xf800_0000) == 0xafb0_10b1 && TableEntry(0xf900_0000) == 0xab71_0d06
    ensures TableEntry(0xfa00_0000) == 0xa632_2bdf && TableEntry(0xfb00_0000) == 0xa2f3_3668
    ensures TableEntry(0xfc00_0000) == 0xbcb4_666d && TableEntry(0xfd00_0000) == 0xb875_7bda
    ensures TableEntry(0xfe00_0000) == 0xb536_5d03 && TableEntry(0xff00_0000) == 0xb1f7_40b4
  {
  }
}
