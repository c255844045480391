/** The S-box of `aes.cpp` (lines 131-265): a straight-line circuit of XOR,
    AND and NOT gates over the eight bits of a byte, and the proof that it
    computes the table of FIPS 197. */
module AesSBox {
  import opened AesSpec

  /** `SBox(V)`: bit `k` of the byte is wire `V[k]`; the inputs `U0..U7` are
      `V[7]..V[0]` and the outputs `S0..S7` go back to `V[7]..V[0]`. */
  function SBoxCircuit(v: Byte): Byte
  {
    var U0 := v & 0x80 != 0;
    var U1 := v & 0x40 != 0;
    var U2 := v & 0x20 != 0;
    var U3 := v & 0x10 != 0;
    var U4 := v & 0x08 != 0;
    var U5 := v & 0x04 != 0;
    var U6 := v & 0x02 != 0;
    var U7 := v & 0x01 != 0;
    var y14 := U3 != U5;
    var y13 := U0 != U6;
    var y9 := U0 != U3;
    var y8 := U0 != U5;
    var t0 := U1 != U2;
    var y1 := t0 != U7;
    var y4 := y1 != U3;
    var y12 := y13 != y14;
    var y2 := y1 != U0;
    var y5 := y1 != U6;
    var y3 := y5 != y8;
    var t1 := U4 != y12;
    var y15 := t1 != U5;
    var y20 := t1 != U1;
    var y6 := y15 != U7;
    var y10 := y15 != t0;
    var y11 := y20 != y9;
    var y7 := U7 != y11;
    var y17 := y10 != y11;
    var y19 := y10 != y8;
    var y16 := t0 != y11;
    var y21 := y13 != y16;
    var y18 := U0 != y16;
    var t2 := y12 && y15;
    var t3 := y3 && y6;
    var t4 := t3 != t2;
    var t5 := y4 && U7;
    var t6 := t5 != t2;
    var t7 := y13 && y16;
    var t8 := y5 && y1;
    var t9 := t8 != t7;
    var t10 := y2 && y7;
    var t11 := t10 != t7;
    var t12 := y9 && y11;
    var t13 := y14 && y17;
    var t14 := t13 != t12;
    var t15 := y8 && y10;
    var t16 := t15 != t12;
    var t17 := t4 != y20;
    var t18 := t6 != t16;
    var t19 := t9 != t14;
    var t20 := t11 != t16;
    var t21 := t17 != t14;
    var t22 := t18 != y19;
    var t23 := t19 != y21;
    var t24 := t20 != y18;
    var t25 := t21 != t22;
    var t26 := t21 && t23;
    var t27 := t24 != t26;
    var t28 := t25 && t27;
    var t29 := t28 != t22;
    var t30 := t23 != t24;
    var t31 := t22 != t26;
    var t32 := t31 && t30;
    var t33 := t32 != t24;
    var t34 := t23 != t33;
    var t35 := t27 != t33;
    var t36 := t24 && t35;
    var t37 := t36 != t34;
    var t38 := t27 != t36;
    var t39 := t29 && t38;
    var t40 := t25 != t39;
    var t41 := t40 != t37;
    var t42 := t29 != t33;
    var t43 := t29 != t40;
    var t44 := t33 != t37;
    var t45 := t42 != t41;
    var z0 := t44 && y15;
    var z1 := t37 && y6;
    var z2 := t33 && U7;
    var z3 := t43 && y16;
    var z4 := t40 && y1;
    var z5 := t29 && y7;
    var z6 := t42 && y11;
    var z7 := t45 && y17;
    var z8 := t41 && y10;
    var z9 := t44 && y12;
    var z10 := t37 && y3;
    var z11 := t33 && y4;
    var z12 := t43 && y13;
    var z13 := t40 && y5;
    var z14 := t29 && y2;
    var z15 := t42 && y9;
    var z16 := t45 && y14;
    var z17 := t41 && y8;
    var tc1 := z15 != z16;
    var tc2 := z10 != tc1;
    var tc3 := z9 != tc2;
    var tc4 := z0 != z2;
    var tc5 := z1 != z0;
    var tc6 := z3 != z4;
    var tc7 := z12 != tc4;
    var tc8 := z7 != tc6;
    var tc9 := z8 != tc7;
    var tc10 := tc8 != tc9;
    var tc11 := tc6 != tc5;
    var tc12 := z3 != z5;
    var tc13 := z13 != tc1;
    var tc14 := tc4 != tc12;
    var S3 := tc3 != tc11;
    var tc16 := z6 != tc8;
    var tc17 := z14 != tc10;
    var tc18 := !tc13 != tc14;
    var S7 := z12 != tc18;
    var tc20 := z15 != tc16;
    var tc21 := tc2 != z11;
    var S0 := tc3 != tc16;
    var S6 := tc10 != tc18;
    var S4 := tc14 != S3;
    var S1 := !(S3 != tc16);
    var tc26 := tc17 != tc20;
    var S2 := !(tc26 != z17);
    var S5 := tc21 != tc17;
    (if S7 then 0x01 else 0) | (if S6 then 0x02 else 0) | (if S5 then 0x04 else 0) | (if S4 then 0x08 else 0)
    | (if S3 then 0x10 else 0) | (if S2 then 0x20 else 0) | (if S1 then 0x40 else 0) | (if S0 then 0x80 else 0)
  }
}

/** The S-box circuit computes the table of FIPS 197: checked byte by byte. */
module AesSBoxProof {
  import opened AesSpec
  import opened AesSBox

  /** The circuit agrees with the S-box table on all 256 bytes. */
  lemma SBoxAgrees(v: Byte)
    ensures SBoxCircuit(v) == SubByte(v)
  {
    if v < 0x80 {
      if v < 0x40 {
        if v < 0x20 {
          if v < 0x10 {
            if v < 0x08 {
              if v < 0x04 {
                if v < 0x02 {
                  if v < 0x01 {
                    SBoxAt00(v);
                  } else {
                    SBoxAt01(v);
                  }
                } else {
                  if v < 0x03 {
                    SBoxAt02(v);
                  } else {
                    SBoxAt03(v);
                  }
                }
              } else {
                if v < 0x06 {
                  if v < 0x05 {
                    SBoxAt04(v);
                  } else {
                    SBoxAt05(v);
                  }
                } else {
                  if v < 0x07 {
                    SBoxAt06(v);
                  } else {
                    SBoxAt07(v);
                  }
                }
              }
            } else {
              if v < 0x0c {
                if v < 0x0a {
                  if v < 0x09 {
                    SBoxAt08(v);
                  } else {
                    SBoxAt09(v);
                  }
                } else {
                  if v < 0x0b {
                    SBoxAt0A(v);
                  } else {
                    SBoxAt0B(v);
                  }
                }
              } else {
                if v < 0x0e {
                  if v < 0x0d {
                    SBoxAt0C(v);
                  } else {
                    SBoxAt0D(v);
                  }
                } else {
                  if v < 0x0f {
                    SBoxAt0E(v);
                  } else {
                    SBoxAt0F(v);
                  }
                }
              }
            }
          } else {
            if v < 0x18 {
              if v < 0x14 {
                if v < 0x12 {
                  if v < 0x11 {
                    SBoxAt10(v);
                  } else {
                    SBoxAt11(v);
                  }
                } else {
                  if v < 0x13 {
                    SBoxAt12(v);
                  } else {
                    SBoxAt13(v);
                  }
                }
              } else {
                if v < 0x16 {
                  if v < 0x15 {
                    SBoxAt14(v);
                  } else {
                    SBoxAt15(v);
                  }
                } else {
                  if v < 0x17 {
                    SBoxAt16(v);
                  } else {
                    SBoxAt17(v);
                  }
                }
              }
            } else {
              if v < 0x1c {
                if v < 0x1a {
                  if v < 0x19 {
                    SBoxAt18(v);
                  } else {
                    SBoxAt19(v);
                  }
                } else {
                  if v < 0x1b {
                    SBoxAt1A(v);
                  } else {
                    SBoxAt1B(v);
                  }
                }
              } else {
                if v < 0x1e {
                  if v < 0x1d {
                    SBoxAt1C(v);
                  } else {
                    SBoxAt1D(v);
                  }
                } else {
                  if v < 0x1f {
                    SBoxAt1E(v);
                  } else {
                    SBoxAt1F(v);
                  }
                }
              }
            }
          }
        } else {
          if v < 0x30 {
            if v < 0x28 {
              if v < 0x24 {
                if v < 0x22 {
                  if v < 0x21 {
                    SBoxAt20(v);
                  } else {
                    SBoxAt21(v);
                  }
                } else {
                  if v < 0x23 {
                    SBoxAt22(v);
                  } else {
                    SBoxAt23(v);
                  }
                }
              } else {
                if v < 0x26 {
                  if v < 0x25 {
                    SBoxAt24(v);
                  } else {
                    SBoxAt25(v);
                  }
                } else {
                  if v < 0x27 {
                    SBoxAt26(v);
                  } else {
                    SBoxAt27(v);
                  }
                }
              }
            } else {
              if v < 0x2c {
                if v < 0x2a {
                  if v < 0x29 {
                    SBoxAt28(v);
                  } else {
                    SBoxAt29(v);
                  }
                } else {
                  if v < 0x2b {
                    SBoxAt2A(v);
                  } else {
                    SBoxAt2B(v);
                  }
                }
              } else {
                if v < 0x2e {
                  if v < 0x2d {
                    SBoxAt2C(v);
                  } else {
                    SBoxAt2D(v);
                  }
                } else {
                  if v < 0x2f {
                    SBoxAt2E(v);
                  } else {
                    SBoxAt2F(v);
                  }
                }
              }
            }
          } else {
            if v < 0x38 {
              if v < 0x34 {
                if v < 0x32 {
                  if v < 0x31 {
                    SBoxAt30(v);
                  } else {
                    SBoxAt31(v);
                  }
                } else {
                  if v < 0x33 {
                    SBoxAt32(v);
                  } else {
                    SBoxAt33(v);
                  }
                }
              } else {
                if v < 0x36 {
                  if v < 0x35 {
                    SBoxAt34(v);
                  } else {
                    SBoxAt35(v);
                  }
                } else {
                  if v < 0x37 {
                    SBoxAt36(v);
                  } else {
                    SBoxAt37(v);
                  }
                }
              }
            } else {
              if v < 0x3c {
                if v < 0x3a {
                  if v < 0x39 {
                    SBoxAt38(v);
                  } else {
                    SBoxAt39(v);
                  }
                } else {
                  if v < 0x3b {
                    SBoxAt3A(v);
                  } else {
                    SBoxAt3B(v);
                  }
                }
              } else {
                if v < 0x3e {
                  if v < 0x3d {
                    SBoxAt3C(v);
                  } else {
                    SBoxAt3D(v);
                  }
                } else {
                  if v < 0x3f {
                    SBoxAt3E(v);
                  } else {
                    SBoxAt3F(v);
                  }
                }
              }
            }
          }
        }
      } else {
        if v < 0x60 {
          if v < 0x50 {
            if v < 0x48 {
              if v < 0x44 {
                if v < 0x42 {
                  if v < 0x41 {
                    SBoxAt40(v);
                  } else {
                    SBoxAt41(v);
                  }
                } else {
                  if v < 0x43 {
                    SBoxAt42(v);
                  } else {
                    SBoxAt43(v);
                  }
                }
              } else {
                if v < 0x46 {
                  if v < 0x45 {
                    SBoxAt44(v);
                  } else {
                    SBoxAt45(v);
                  }
                } else {
                  if v < 0x47 {
                    SBoxAt46(v);
                  } else {
                    SBoxAt47(v);
                  }
                }
              }
            } else {
              if v < 0x4c {
                if v < 0x4a {
                  if v < 0x49 {
                    SBoxAt48(v);
                  } else {
                    SBoxAt49(v);
                  }
                } else {
                  if v < 0x4b {
                    SBoxAt4A(v);
                  } else {
                    SBoxAt4B(v);
                  }
                }
              } else {
                if v < 0x4e {
                  if v < 0x4d {
                    SBoxAt4C(v);
                  } else {
                    SBoxAt4D(v);
                  }
                } else {
                  if v < 0x4f {
                    SBoxAt4E(v);
                  } else {
                    SBoxAt4F(v);
                  }
                }
              }
            }
          } else {
            if v < 0x58 {
              if v < 0x54 {
                if v < 0x52 {
                  if v < 0x51 {
                    SBoxAt50(v);
                  } else {
                    SBoxAt51(v);
                  }
                } else {
                  if v < 0x53 {
                    SBoxAt52(v);
                  } else {
                    SBoxAt53(v);
                  }
                }
              } else {
                if v < 0x56 {
                  if v < 0x55 {
                    SBoxAt54(v);
                  } else {
                    SBoxAt55(v);
                  }
                } else {
                  if v < 0x57 {
                    SBoxAt56(v);
                  } else {
                    SBoxAt57(v);
                  }
                }
              }
            } else {
              if v < 0x5c {
                if v < 0x5a {
                  if v < 0x59 {
                    SBoxAt58(v);
                  } else {
                    SBoxAt59(v);
                  }
                } else {
                  if v < 0x5b {
                    SBoxAt5A(v);
                  } else {
                    SBoxAt5B(v);
                  }
                }
              } else {
                if v < 0x5e {
                  if v < 0x5d {
                    SBoxAt5C(v);
                  } else {
                    SBoxAt5D(v);
                  }
                } else {
                  if v < 0x5f {
                    SBoxAt5E(v);
                  } else {
                    SBoxAt5F(v);
                  }
                }
              }
            }
          }
        } else {
          if v < 0x70 {
            if v < 0x68 {
              if v < 0x64 {
                if v < 0x62 {
                  if v < 0x61 {
                    SBoxAt60(v);
                  } else {
                    SBoxAt61(v);
                  }
                } else {
                  if v < 0x63 {
                    SBoxAt62(v);
                  } else {
                    SBoxAt63(v);
                  }
                }
              } else {
                if v < 0x66 {
                  if v < 0x65 {
                    SBoxAt64(v);
                  } else {
                    SBoxAt65(v);
                  }
                } else {
                  if v < 0x67 {
                    SBoxAt66(v);
                  } else {
                    SBoxAt67(v);
                  }
                }
              }
            } else {
              if v < 0x6c {
                if v < 0x6a {
                  if v < 0x69 {
                    SBoxAt68(v);
                  } else {
                    SBoxAt69(v);
                  }
                } else {
                  if v < 0x6b {
                    SBoxAt6A(v);
                  } else {
                    SBoxAt6B(v);
                  }
                }
              } else {
                if v < 0x6e {
                  if v < 0x6d {
                    SBoxAt6C(v);
                  } else {
                    SBoxAt6D(v);
                  }
                } else {
                  if v < 0x6f {
                    SBoxAt6E(v);
                  } else {
                    SBoxAt6F(v);
                  }
                }
              }
            }
          } else {
            if v < 0x78 {
              if v < 0x74 {
                if v < 0x72 {
                  if v < 0x71 {
                    SBoxAt70(v);
                  } else {
                    SBoxAt71(v);
                  }
                } else {
                  if v < 0x73 {
                    SBoxAt72(v);
                  } else {
                    SBoxAt73(v);
                  }
                }
              } else {
                if v < 0x76 {
                  if v < 0x75 {
                    SBoxAt74(v);
                  } else {
                    SBoxAt75(v);
                  }
                } else {
                  if v < 0x77 {
                    SBoxAt76(v);
                  } else {
                    SBoxAt77(v);
                  }
                }
              }
            } else {
              if v < 0x7c {
                if v < 0x7a {
                  if v < 0x79 {
                    SBoxAt78(v);
                  } else {
                    SBoxAt79(v);
                  }
                } else {
                  if v < 0x7b {
                    SBoxAt7A(v);
                  } else {
                    SBoxAt7B(v);
                  }
                }
              } else {
                if v < 0x7e {
                  if v < 0x7d {
                    SBoxAt7C(v);
                  } else {
                    SBoxAt7D(v);
                  }
                } else {
                  if v < 0x7f {
                    SBoxAt7E(v);
                  } else {
                    SBoxAt7F(v);
                  }
                }
              }
            }
          }
        }
      }
    } else {
      if v < 0xc0 {
        if v < 0xa0 {
          if v < 0x90 {
            if v < 0x88 {
              if v < 0x84 {
                if v < 0x82 {
                  if v < 0x81 {
                    SBoxAt80(v);
                  } else {
                    SBoxAt81(v);
                  }
                } else {
                  if v < 0x83 {
                    SBoxAt82(v);
                  } else {
                    SBoxAt83(v);
                  }
                }
              } else {
                if v < 0x86 {
                  if v < 0x85 {
                    SBoxAt84(v);
                  } else {
                    SBoxAt85(v);
                  }
                } else {
                  if v < 0x87 {
                    SBoxAt86(v);
                  } else {
                    SBoxAt87(v);
                  }
                }
              }
            } else {
              if v < 0x8c {
                if v < 0x8a {
                  if v < 0x89 {
                    SBoxAt88(v);
                  } else {
                    SBoxAt89(v);
                  }
                } else {
                  if v < 0x8b {
                    SBoxAt8A(v);
                  } else {
                    SBoxAt8B(v);
                  }
                }
              } else {
                if v < 0x8e {
                  if v < 0x8d {
                    SBoxAt8C(v);
                  } else {
                    SBoxAt8D(v);
                  }
                } else {
                  if v < 0x8f {
                    SBoxAt8E(v);
                  } else {
                    SBoxAt8F(v);
                  }
                }
              }
            }
          } else {
            if v < 0x98 {
              if v < 0x94 {
                if v < 0x92 {
                  if v < 0x91 {
                    SBoxAt90(v);
                  } else {
                    SBoxAt91(v);
                  }
                } else {
                  if v < 0x93 {
                    SBoxAt92(v);
                  } else {
                    SBoxAt93(v);
                  }
                }
              } else {
                if v < 0x96 {
                  if v < 0x95 {
                    SBoxAt94(v);
                  } else {
                    SBoxAt95(v);
                  }
                } else {
                  if v < 0x97 {
                    SBoxAt96(v);
                  } else {
                    SBoxAt97(v);
                  }
                }
              }
            } else {
              if v < 0x9c {
                if v < 0x9a {
                  if v < 0x99 {
                    SBoxAt98(v);
                  } else {
                    SBoxAt99(v);
                  }
                } else {
                  if v < 0x9b {
                    SBoxAt9A(v);
                  } else {
                    SBoxAt9B(v);
                  }
                }
              } else {
                if v < 0x9e {
                  if v < 0x9d {
                    SBoxAt9C(v);
                  } else {
                    SBoxAt9D(v);
                  }
                } else {
                  if v < 0x9f {
                    SBoxAt9E(v);
                  } else {
                    SBoxAt9F(v);
                  }
                }
              }
            }
          }
        } else {
          if v < 0xb0 {
            if v < 0xa8 {
              if v < 0xa4 {
                if v < 0xa2 {
                  if v < 0xa1 {
                    SBoxAtA0(v);
                  } else {
                    SBoxAtA1(v);
                  }
                } else {
                  if v < 0xa3 {
                    SBoxAtA2(v);
                  } else {
                    SBoxAtA3(v);
                  }
                }
              } else {
                if v < 0xa6 {
                  if v < 0xa5 {
                    SBoxAtA4(v);
                  } else {
                    SBoxAtA5(v);
                  }
                } else {
                  if v < 0xa7 {
                    SBoxAtA6(v);
                  } else {
                    SBoxAtA7(v);
                  }
                }
              }
            } else {
              if v < 0xac {
                if v < 0xaa {
                  if v < 0xa9 {
                    SBoxAtA8(v);
                  } else {
                    SBoxAtA9(v);
                  }
                } else {
                  if v < 0xab {
                    SBoxAtAA(v);
                  } else {
                    SBoxAtAB(v);
                  }
                }
              } else {
                if v < 0xae {
                  if v < 0xad {
                    SBoxAtAC(v);
                  } else {
                    SBoxAtAD(v);
                  }
                } else {
                  if v < 0xaf {
                    SBoxAtAE(v);
                  } else {
                    SBoxAtAF(v);
                  }
                }
              }
            }
          } else {
            if v < 0xb8 {
              if v < 0xb4 {
                if v < 0xb2 {
                  if v < 0xb1 {
                    SBoxAtB0(v);
                  } else {
                    SBoxAtB1(v);
                  }
                } else {
                  if v < 0xb3 {
                    SBoxAtB2(v);
                  } else {
                    SBoxAtB3(v);
                  }
                }
              } else {
                if v < 0xb6 {
                  if v < 0xb5 {
                    SBoxAtB4(v);
                  } else {
                    SBoxAtB5(v);
                  }
                } else {
                  if v < 0xb7 {
                    SBoxAtB6(v);
                  } else {
                    SBoxAtB7(v);
                  }
                }
              }
            } else {
              if v < 0xbc {
                if v < 0xba {
                  if v < 0xb9 {
                    SBoxAtB8(v);
                  } else {
                    SBoxAtB9(v);
                  }
                } else {
                  if v < 0xbb {
                    SBoxAtBA(v);
                  } else {
                    SBoxAtBB(v);
                  }
                }
              } else {
                if v < 0xbe {
                  if v < 0xbd {
                    SBoxAtBC(v);
                  } else {
                    SBoxAtBD(v);
                  }
                } else {
                  if v < 0xbf {
                    SBoxAtBE(v);
                  } else {
                    SBoxAtBF(v);
                  }
                }
              }
            }
          }
        }
      } else {
        if v < 0xe0 {
          if v < 0xd0 {
            if v < 0xc8 {
              if v < 0xc4 {
                if v < 0xc2 {
                  if v < 0xc1 {
                    SBoxAtC0(v);
                  } else {
                    SBoxAtC1(v);
                  }
                } else {
                  if v < 0xc3 {
                    SBoxAtC2(v);
                  } else {
                    SBoxAtC3(v);
                  }
                }
              } else {
                if v < 0xc6 {
                  if v < 0xc5 {
                    SBoxAtC4(v);
                  } else {
                    SBoxAtC5(v);
                  }
                } else {
                  if v < 0xc7 {
                    SBoxAtC6(v);
                  } else {
                    SBoxAtC7(v);
                  }
                }
              }
            } else {
              if v < 0xcc {
                if v < 0xca {
                  if v < 0xc9 {
                    SBoxAtC8(v);
                  } else {
                    SBoxAtC9(v);
                  }
                } else {
                  if v < 0xcb {
                    SBoxAtCA(v);
                  } else {
                    SBoxAtCB(v);
                  }
                }
              } else {
                if v < 0xce {
                  if v < 0xcd {
                    SBoxAtCC(v);
                  } else {
                    SBoxAtCD(v);
                  }
                } else {
                  if v < 0xcf {
                    SBoxAtCE(v);
                  } else {
                    SBoxAtCF(v);
                  }
                }
              }
            }
          } else {
            if v < 0xd8 {
              if v < 0xd4 {
                if v < 0xd2 {
                  if v < 0xd1 {
                    SBoxAtD0(v);
                  } else {
                    SBoxAtD1(v);
                  }
                } else {
                  if v < 0xd3 {
                    SBoxAtD2(v);
                  } else {
                    SBoxAtD3(v);
                  }
                }
              } else {
                if v < 0xd6 {
                  if v < 0xd5 {
                    SBoxAtD4(v);
                  } else {
                    SBoxAtD5(v);
                  }
                } else {
                  if v < 0xd7 {
                    SBoxAtD6(v);
                  } else {
                    SBoxAtD7(v);
                  }
                }
              }
            } else {
              if v < 0xdc {
                if v < 0xda {
                  if v < 0xd9 {
                    SBoxAtD8(v);
                  } else {
                    SBoxAtD9(v);
                  }
                } else {
                  if v < 0xdb {
                    SBoxAtDA(v);
                  } else {
                    SBoxAtDB(v);
                  }
                }
              } else {
                if v < 0xde {
                  if v < 0xdd {
                    SBoxAtDC(v);
                  } else {
                    SBoxAtDD(v);
                  }
                } else {
                  if v < 0xdf {
                    SBoxAtDE(v);
                  } else {
                    SBoxAtDF(v);
                  }
                }
              }
            }
          }
        } else {
          if v < 0xf0 {
            if v < 0xe8 {
              if v < 0xe4 {
                if v < 0xe2 {
                  if v < 0xe1 {
                    SBoxAtE0(v);
                  } else {
                    SBoxAtE1(v);
                  }
                } else {
                  if v < 0xe3 {
                    SBoxAtE2(v);
                  } else {
                    SBoxAtE3(v);
                  }
                }
              } else {
                if v < 0xe6 {
                  if v < 0xe5 {
                    SBoxAtE4(v);
                  } else {
                    SBoxAtE5(v);
                  }
                } else {
                  if v < 0xe7 {
                    SBoxAtE6(v);
                  } else {
                    SBoxAtE7(v);
                  }
                }
              }
            } else {
              if v < 0xec {
                if v < 0xea {
                  if v < 0xe9 {
                    SBoxAtE8(v);
                  } else {
                    SBoxAtE9(v);
                  }
                } else {
                  if v < 0xeb {
                    SBoxAtEA(v);
                  } else {
                    SBoxAtEB(v);
                  }
                }
              } else {
                if v < 0xee {
                  if v < 0xed {
                    SBoxAtEC(v);
                  } else {
                    SBoxAtED(v);
                  }
                } else {
                  if v < 0xef {
                    SBoxAtEE(v);
                  } else {
                    SBoxAtEF(v);
                  }
                }
              }
            }
          } else {
            if v < 0xf8 {
              if v < 0xf4 {
                if v < 0xf2 {
                  if v < 0xf1 {
                    SBoxAtF0(v);
                  } else {
                    SBoxAtF1(v);
                  }
                } else {
                  if v < 0xf3 {
                    SBoxAtF2(v);
                  } else {
                    SBoxAtF3(v);
                  }
                }
              } else {
                if v < 0xf6 {
                  if v < 0xf5 {
                    SBoxAtF4(v);
                  } else {
                    SBoxAtF5(v);
                  }
                } else {
                  if v < 0xf7 {
                    SBoxAtF6(v);
                  } else {
                    SBoxAtF7(v);
                  }
                }
              }
            } else {
              if v < 0xfc {
                if v < 0xfa {
                  if v < 0xf9 {
                    SBoxAtF8(v);
                  } else {
                    SBoxAtF9(v);
                  }
                } else {
                  if v < 0xfb {
                    SBoxAtFA(v);
                  } else {
                    SBoxAtFB(v);
                  }
                }
              } else {
                if v < 0xfe {
                  if v < 0xfd {
                    SBoxAtFC(v);
                  } else {
                    SBoxAtFD(v);
                  }
                } else {
                  if v < 0xff {
                    SBoxAtFE(v);
                  } else {
                    SBoxAtFF(v);
                  }
                }
              }
            }
          }
        }
      }
    }
  }

  lemma SBoxAt00(v: Byte)
    requires v == 0x00
    ensures SBoxCircuit(v) == SubByte(v)
  {
    assert SubByte(0x00) == 0x63;
    assert SBoxCircuit(0x00) == 0x63;
  }

  lemma SBoxAt01(v: Byte)
    requires v == 0x01
    ensures SBoxCircuit(v) == SubByte(v)
  {
    assert SubByte(0x01) == 0x7c;
    assert SBoxCircuit(0x01) == 0x7c;
  }

  lemma SBoxAt02(v: Byte)
    requires v == 0x02
    ensures SBoxCircuit(v) == SubByte(v)
  {
    assert SubByte(0x02) == 0x77;
    assert SBoxCircuit(0x02) == 0x77;
  }

  lemma SBoxAt03(v: Byte)
    requires v == 0x03
    ensures SBoxCircuit(v) == SubByte(v)
  {
    assert SubByte(0x03) == 0x7b;
    assert SBoxCircuit(0x03) == 0x7b;
  }

  lemma SBoxAt04(v: Byte)
    requires v == 0x04
    ensures SBoxCircuit(v) == SubByte(v)
  {
    assert SubByte(0x04) == 0xf2;
    assert SBoxCircuit(0x04) == 0xf2;
  }

  lemma SBoxAt05(v: Byte)
    requires v == 0x05
    ensures SBoxCircuit(v) == SubByte(v)
  {
    assert SubByte(0x05) == 0x6b;
    assert SBoxCircuit(0x05) == 0x6b;
  }

  lemma SBoxAt06(v: Byte)
    requires v == 0x06
    ensures SBoxCircuit(v) == SubByte(v)
  {
    assert SubByte(0x06) == 0x6f;
    assert SBoxCircuit(0x06) == 0x6f;
  }

  lemma SBoxAt07(v: Byte)
    requires v == 0x07
    ensures SBoxCircuit(v) == SubByte(v)
  {
    assert SubByte(0x07) == 0xc5;
    assert SBoxCircuit(0x07) == 0xc5;
  }

  lemma SBoxAt08(v: Byte)
    requires v == 0x08
    ensures SBoxCircuit(v) == SubByte(v)
  {
    assert SubByte(0x08) == 0x30;
    assert SBoxCircuit(0x08) == 0x30;
  }

  lemma SBoxAt09(v: Byte)
    requires v == 0x09
    ensures SBoxCircuit(v) == SubByte(v)
  {
    assert SubByte(0x09) == 0x01;
    assert SBoxCircuit(0x09) == 0x01;
  }

  lemma SBoxAt0A(v: Byte)
    requires v == 0x0a
    ensures SBoxCircuit(v) == SubByte(v)
  {
    assert SubByte(0x0a) == 0x67;
    assert SBoxCircuit(0x0a) == 0x67;
  }

  lemma SBoxAt0B(v: Byte)
    requires v == 0x0b
    ensures SBoxCircuit(v) == SubByte(v)
  {
    assert SubByte(0x0b) == 0x2b;
    assert SBoxCircuit(0x0b) == 0x2b;
  }

  lemma SBoxAt0C(v: Byte)
    requires v == 0x0c
    ensures SBoxCircuit(v) == SubByte(v)
  {
    assert SubByte(0x0c) == 0xfe;
    assert SBoxCircuit(0x0c) == 0xfe;
  }

  lemma SBoxAt0D(v: Byte)
    requires v == 0x0d
    ensures SBoxCircuit(v) == SubByte(v)
  {
    assert SubByte(0x0d) == 0xd7;
    assert SBoxCircuit(0x0d) == 0xd7;
  }

  lemma SBoxAt0E(v: Byte)
    requires v == 0x0e
    ensures SBoxCircuit(v) == SubByte(v)
  {
    assert SubByte(0x0e) == 0xab;
    assert SBoxCircuit(0x0e) == 0xab;
  }

  lemma SBoxAt0F(v: Byte)
    requires v == 0x0f
    ensures SBoxCircuit(v) == SubByte(v)
  {
    assert SubByte(0x0f) == 0x76;
    assert SBoxCircuit(0x0f) == 0x76;
  }

  lemma SBoxAt10(v: Byte)
    requires v == 0x10
    ensures SBoxCircuit(v) == SubByte(v)
  {
    assert SubByte(0x10) == 0xca;
    assert SBoxCircuit(0x10) == 0xca;
  }

  lemma SBoxAt11(v: Byte)
    requires v == 0x11
    ensures SBoxCircuit(v) == SubByte(v)
  {
    assert SubByte(0x11) == 0x82;
    assert SBoxCircuit(0x11) == 0x82;
  }

  lemma SBoxAt12(v: Byte)
    requires v == 0x12
    ensures SBoxCircuit(v) == SubByte(v)
  {
    assert SubByte(0x12) == 0xc9;
    assert SBoxCircuit(0x12) == 0xc9;
  }

  lemma SBoxAt13(v: Byte)
    requires v == 0x13
    ensures SBoxCircuit(v) == SubByte(v)
  {
    assert SubByte(0x13) == 0x7d;
    assert SBoxCircuit(0x13) == 0x7d;
  }

  lemma SBoxAt14(v: Byte)
    requires v == 0x14
    ensures SBoxCircuit(v) == SubByte(v)
  {
    assert SubByte(0x14) == 0xfa;
    assert SBoxCircuit(0x14) == 0xfa;
  }

  lemma SBoxAt15(v: Byte)
    requires v == 0x15
    ensures SBoxCircuit(v) == SubByte(v)
  {
    assert SubByte(0x15) == 0x59;
    assert SBoxCircuit(0x15) == 0x59;
  }

  lemma SBoxAt16(v: Byte)
    requires v == 0x16
    ensures SBoxCircuit(v) == SubByte(v)
  {
    assert SubByte(0x16) == 0x47;
    assert SBoxCircuit(0x16) == 0x47;
  }

  lemma SBoxAt17(v: Byte)
    requires v == 0x17
    ensures SBoxCircuit(v) == SubByte(v)
  {
    assert SubByte(0x17) == 0xf0;
    assert SBoxCircuit(0x17) == 0xf0;
  }

  lemma SBoxAt18(v: Byte)
    requires v == 0x18
    ensures SBoxCircuit(v) == SubByte(v)
  {
    assert SubByte(0x18) == 0xad;
    assert SBoxCircuit(0x18) == 0xad;
  }

  lemma SBoxAt19(v: Byte)
    requires v == 0x19
    ensures SBoxCircuit(v) == SubByte(v)
  {
    assert SubByte(0x19) == 0xd4;
    assert SBoxCircuit(0x19) == 0xd4;
  }

  lemma SBoxAt1A(v: Byte)
    requires v == 0x1a
    ensures SBoxCircuit(v) == SubByte(v)
  {
    assert SubByte(0x1a) == 0xa2;
    assert SBoxCircuit(0x1a) == 0xa2;
  }

  lemma SBoxAt1B(v: Byte)
    requires v == 0x1b
    ensures SBoxCircuit(v) == SubByte(v)
  {
    assert SubByte(0x1b) == 0xaf;
    assert SBoxCircuit(0x1b) == 0xaf;
  }

  lemma SBoxAt1C(v: Byte)
    requires v == 0x1c
    ensures SBoxCircuit(v) == SubByte(v)
  {
    assert SubByte(0x1c) == 0x9c;
    assert SBoxCircuit(0x1c) == 0x9c;
  }

  lemma SBoxAt1D(v: Byte)
    requires v == 0x1d
    ensures SBoxCircuit(v) == SubByte(v)
  {
    assert SubByte(0x1d) == 0xa4;
    assert SBoxCircuit(0x1d) == 0xa4;
  }

  lemma SBoxAt1E(v: Byte)
    requires v == 0x1e
    ensures SBoxCircuit(v) == SubByte(v)
  {
    assert SubByte(0x1e) == 0x72;
    assert SBoxCircuit(0x1e) == 0x72;
  }

  lemma SBoxAt1F(v: Byte)
    requires v == 0x1f
    ensures SBoxCircuit(v) == SubByte(v)
  {
    assert SubByte(0x1f) == 0xc0;
    assert SBoxCircuit(0x1f) == 0xc0;
  }

  lemma SBoxAt20(v: Byte)
    requires v == 0x20
    ensures SBoxCircuit(v) == SubByte(v)
  {
    assert SubByte(0x20) == 0xb7;
    assert SBoxCircuit(0x20) == 0xb7;
  }

  lemma SBoxAt21(v: Byte)
    requires v == 0x21
    ensures SBoxCircuit(v) == SubByte(v)
  {
    assert SubByte(0x21) == 0xfd;
    assert SBoxCircuit(0x21) == 0xfd;
  }

  lemma SBoxAt22(v: Byte)
    requires v == 0x22
    ensures SBoxCircuit(v) == SubByte(v)
  {
    assert SubByte(0x22) == 0x93;
    assert SBoxCircuit(0x22) == 0x93;
  }

  lemma SBoxAt23(v: Byte)
    requires v == 0x23
    ensures SBoxCircuit(v) == SubByte(v)
  {
    assert SubByte(0x23) == 0x26;
    assert SBoxCircuit(0x23) == 0x26;
  }

  lemma SBoxAt24(v: Byte)
    requires v == 0x24
    ensures SBoxCircuit(v) == SubByte(v)
  {
    assert SubByte(0x24) == 0x36;
    assert SBoxCircuit(0x24) == 0x36;
  }

  lemma SBoxAt25(v: Byte)
    requires v == 0x25
    ensures SBoxCircuit(v) == SubByte(v)
  {
    assert SubByte(0x25) == 0x3f;
    assert SBoxCircuit(0x25) == 0x3f;
  }

  lemma SBoxAt26(v: Byte)
    requires v == 0x26
    ensures SBoxCircuit(v) == SubByte(v)
  {
    assert SubByte(0x26) == 0xf7;
    assert SBoxCircuit(0x26) == 0xf7;
  }

  lemma SBoxAt27(v: Byte)
    requires v == 0x27
    ensures SBoxCircuit(v) == SubByte(v)
  {
    assert SubByte(0x27) == 0xcc;
    assert SBoxCircuit(0x27) == 0xcc;
  }

  lemma SBoxAt28(v: Byte)
    requires v == 0x28
    ensures SBoxCircuit(v) == SubByte(v)
  {
    assert SubByte(0x28) == 0x34;
    assert SBoxCircuit(0x28) == 0x34;
  }

  lemma SBoxAt29(v: Byte)
    requires v == 0x29
    ensures SBoxCircuit(v) == SubByte(v)
  {
    assert SubByte(0x29) == 0xa5;
    assert SBoxCircuit(0x29) == 0xa5;
  }

  lemma SBoxAt2A(v: Byte)
    requires v == 0x2a
    ensures SBoxCircuit(v) == SubByte(v)
  {
    assert SubByte(0x2a) == 0xe5;
    assert SBoxCircuit(0x2a) == 0xe5;
  }

  lemma SBoxAt2B(v: Byte)
    requires v == 0x2b
    ensures SBoxCircuit(v) == SubByte(v)
  {
    assert SubByte(0x2b) == 0xf1;
    assert SBoxCircuit(0x2b) == 0xf1;
  }

  lemma SBoxAt2C(v: Byte)
    requires v == 0x2c
    ensures SBoxCircuit(v) == SubByte(v)
  {
    assert SubByte(0x2c) == 0x71;
    assert SBoxCircuit(0x2c) == 0x71;
  }

  lemma SBoxAt2D(v: Byte)
    requires v == 0x2d
    ensures SBoxCircuit(v) == SubByte(v)
  {
    assert SubByte(0x2d) == 0xd8;
    assert SBoxCircuit(0x2d) == 0xd8;
  }

  lemma SBoxAt2E(v: Byte)
    requires v == 0x2e
    ensures SBoxCircuit(v) == SubByte(v)
  {
    assert SubByte(0x2e) == 0x31;
    assert SBoxCircuit(0x2e) == 0x31;
  }

  lemma SBoxAt2F(v: Byte)
    requires v == 0x2f
    ensures SBoxCircuit(v) == SubByte(v)
  {
    assert SubByte(0x2f) == 0x15;
    assert SBoxCircuit(0x2f) == 0x15;
  }

  lemma SBoxAt30(v: Byte)
    requires v == 0x30
    ensures SBoxCircuit(v) == SubByte(v)
  {
    assert SubByte(0x30) == 0x04;
    assert SBoxCircuit(0x30) == 0x04;
  }

  lemma SBoxAt31(v: Byte)
    requires v == 0x31
    ensures SBoxCircuit(v) == SubByte(v)
  {
    assert SubByte(0x31) == 0xc7;
    assert SBoxCircuit(0x31) == 0xc7;
  }

  lemma SBoxAt32(v: Byte)
    requires v == 0x32
    ensures SBoxCircuit(v) == SubByte(v)
  {
    assert SubByte(0x32) == 0x23;
    assert SBoxCircuit(0x32) == 0x23;
  }

  lemma SBoxAt33(v: Byte)
    requires v == 0x33
    ensures SBoxCircuit(v) == SubByte(v)
  {
    assert SubByte(0x33) == 0xc3;
    assert SBoxCircuit(0x33) == 0xc3;
  }

  lemma SBoxAt34(v: Byte)
    requires v == 0x34
    ensures SBoxCircuit(v) == SubByte(v)
  {
    assert SubByte(0x34) == 0x18;
    assert SBoxCircuit(0x34) == 0x18;
  }

  lemma SBoxAt35(v: Byte)
    requires v == 0x35
    ensures SBoxCircuit(v) == SubByte(v)
  {
    assert SubByte(0x35) == 0x96;
    assert SBoxCircuit(0x35) == 0x96;
  }

  lemma SBoxAt36(v: Byte)
    requires v == 0x36
    ensures SBoxCircuit(v) == SubByte(v)
  {
    assert SubByte(0x36) == 0x05;
    assert SBoxCircuit(0x36) == 0x05;
  }

  lemma SBoxAt37(v: Byte)
    requires v == 0x37
    ensures SBoxCircuit(v) == SubByte(v)
  {
    assert SubByte(0x37) == 0x9a;
    assert SBoxCircuit(0x37) == 0x9a;
  }

  lemma SBoxAt38(v: Byte)
    requires v == 0x38
    ensures SBoxCircuit(v) == SubByte(v)
  {
    assert SubByte(0x38) == 0x07;
    assert SBoxCircuit(0x38) == 0x07;
  }

  lemma SBoxAt39(v: Byte)
    requires v == 0x39
    ensures SBoxCircuit(v) == SubByte(v)
  {
    assert SubByte(0x39) == 0x12;
    assert SBoxCircuit(0x39) == 0x12;
  }

  lemma SBoxAt3A(v: Byte)
    requires v == 0x3a
    ensures SBoxCircuit(v) == SubByte(v)
  {
    assert SubByte(0x3a) == 0x80;
    assert SBoxCircuit(0x3a) == 0x80;
  }

  lemma SBoxAt3B(v: Byte)
    requires v == 0x3b
    ensures SBoxCircuit(v) == SubByte(v)
  {
    assert SubByte(0x3b) == 0xe2;
    assert SBoxCircuit(0x3b) == 0xe2;
  }

  lemma SBoxAt3C(v: Byte)
    requires v == 0x3c
    ensures SBoxCircuit(v) == SubByte(v)
  {
    assert SubByte(0x3c) == 0xeb;
    assert SBoxCircuit(0x3c) == 0xeb;
  }

  lemma SBoxAt3D(v: Byte)
    requires v == 0x3d
    ensures SBoxCircuit(v) == SubByte(v)
  {
    assert SubByte(0x3d) == 0x27;
    assert SBoxCircuit(0x3d) == 0x27;
  }

  lemma SBoxAt3E(v: Byte)
    requires v == 0x3e
    ensures SBoxCircuit(v) == SubByte(v)
  {
    assert SubByte(0x3e) == 0xb2;
    assert SBoxCircuit(0x3e) == 0xb2;
  }

  lemma SBoxAt3F(v: Byte)
    requires v == 0x3f
    ensures SBoxCircuit(v) == SubByte(v)
  {
    assert SubByte(0x3f) == 0x75;
    assert SBoxCircuit(0x3f) == 0x75;
  }

  lemma SBoxAt40(v: Byte)
    requires v == 0x40
    ensures SBoxCircuit(v) == SubByte(v)
  {
    assert SubByte(0x40) == 0x09;
    assert SBoxCircuit(0x40) == 0x09;
  }

  lemma SBoxAt41(v: Byte)
    requires v == 0x41
    ensures SBoxCircuit(v) == SubByte(v)
  {
    assert SubByte(0x41) == 0x83;
    assert SBoxCircuit(0x41) == 0x83;
  }

  lemma SBoxAt42(v: Byte)
    requires v == 0x42
    ensures SBoxCircuit(v) == SubByte(v)
  {
    assert SubByte(0x42) == 0x2c;
    assert SBoxCircuit(0x42) == 0x2c;
  }

  lemma SBoxAt43(v: Byte)
    requires v == 0x43
    ensures SBoxCircuit(v) == SubByte(v)
  {
    assert SubByte(0x43) == 0x1a;
    assert SBoxCircuit(0x43) == 0x1a;
  }

  lemma SBoxAt44(v: Byte)
    requires v == 0x44
    ensures SBoxCircuit(v) == SubByte(v)
  {
    assert SubByte(0x44) == 0x1b;
    assert SBoxCircuit(0x44) == 0x1b;
  }

  lemma SBoxAt45(v: Byte)
    requires v == 0x45
    ensures SBoxCircuit(v) == SubByte(v)
  {
    assert SubByte(0x45) == 0x6e;
    assert SBoxCircuit(0x45) == 0x6e;
  }

  lemma SBoxAt46(v: Byte)
    requires v == 0x46
    ensures SBoxCircuit(v) == SubByte(v)
  {
    assert SubByte(0x46) == 0x5a;
    assert SBoxCircuit(0x46) == 0x5a;
  }

  lemma SBoxAt47(v: Byte)
    requires v == 0x47
    ensures SBoxCircuit(v) == SubByte(v)
  {
    assert SubByte(0x47) == 0xa0;
    assert SBoxCircuit(0x47) == 0xa0;
  }

  lemma SBoxAt48(v: Byte)
    requires v == 0x48
    ensures SBoxCircuit(v) == SubByte(v)
  {
    assert SubByte(0x48) == 0x52;
    assert SBoxCircuit(0x48) == 0x52;
  }

  lemma SBoxAt49(v: Byte)
    requires v == 0x49
    ensures SBoxCircuit(v) == SubByte(v)
  {
    assert SubByte(0x49) == 0x3b;
    assert SBoxCircuit(0x49) == 0x3b;
  }

  lemma SBoxAt4A(v: Byte)
    requires v == 0x4a
    ensures SBoxCircuit(v) == SubByte(v)
  {
    assert SubByte(0x4a) == 0xd6;
    assert SBoxCircuit(0x4a) == 0xd6;
  }

  lemma SBoxAt4B(v: Byte)
    requires v == 0x4b
    ensures SBoxCircuit(v) == SubByte(v)
  {
    assert SubByte(0x4b) == 0xb3;
    assert SBoxCircuit(0x4b) == 0xb3;
  }

  lemma SBoxAt4C(v: Byte)
    requires v == 0x4c
    ensures SBoxCircuit(v) == SubByte(v)
  {
    assert SubByte(0x4c) == 0x29;
    assert SBoxCircuit(0x4c) == 0x29;
  }

  lemma SBoxAt4D(v: Byte)
    requires v == 0x4d
    ensures SBoxCircuit(v) == SubByte(v)
  {
    assert SubByte(0x4d) == 0xe3;
    assert SBoxCircuit(0x4d) == 0xe3;
  }

  lemma SBoxAt4E(v: Byte)
    requires v == 0x4e
    ensures SBoxCircuit(v) == SubByte(v)
  {
    assert SubByte(0x4e) == 0x2f;
    assert SBoxCircuit(0x4e) == 0x2f;
  }

  lemma SBoxAt4F(v: Byte)
    requires v == 0x4f
    ensures SBoxCircuit(v) == SubByte(v)
  {
    assert SubByte(0x4f) == 0x84;
    assert SBoxCircuit(0x4f) == 0x84;
  }

  lemma SBoxAt50(v: Byte)
    requires v == 0x50
    ensures SBoxCircuit(v) == SubByte(v)
  {
    assert SubByte(0x50) == 0x53;
    assert SBoxCircuit(0x50) == 0x53;
  }

  lemma SBoxAt51(v: Byte)
    requires v == 0x51
    ensures SBoxCircuit(v) == SubByte(v)
  {
    assert SubByte(0x51) == 0xd1;
    assert SBoxCircuit(0x51) == 0xd1;
  }

  lemma SBoxAt52(v: Byte)
    requires v == 0x52
    ensures SBoxCircuit(v) == SubByte(v)
  {
    assert SubByte(0x52) == 0x00;
    assert SBoxCircuit(0x52) == 0x00;
  }

  lemma SBoxAt53(v: Byte)
    requires v == 0x53
    ensures SBoxCircuit(v) == SubByte(v)
  {
    assert SubByte(0x53) == 0xed;
    assert SBoxCircuit(0x53) == 0xed;
  }

  lemma SBoxAt54(v: Byte)
    requires v == 0x54
    ensures SBoxCircuit(v) == SubByte(v)
  {
    assert SubByte(0x54) == 0x20;
    assert SBoxCircuit(0x54) == 0x20;
  }

  lemma SBoxAt55(v: Byte)
    requires v == 0x55
    ensures SBoxCircuit(v) == SubByte(v)
  {
    assert SubByte(0x55) == 0xfc;
    assert SBoxCircuit(0x55) == 0xfc;
  }

  lemma SBoxAt56(v: Byte)
    requires v == 0x56
    ensures SBoxCircuit(v) == SubByte(v)
  {
    assert SubByte(0x56) == 0xb1;
    assert SBoxCircuit(0x56) == 0xb1;
  }

  lemma SBoxAt57(v: Byte)
    requires v == 0x57
    ensures SBoxCircuit(v) == SubByte(v)
  {
    assert SubByte(0x57) == 0x5b;
    assert SBoxCircuit(0x57) == 0x5b;
  }

  lemma SBoxAt58(v: Byte)
    requires v == 0x58
    ensures SBoxCircuit(v) == SubByte(v)
  {
    assert SubByte(0x58) == 0x6a;
    assert SBoxCircuit(0x58) == 0x6a;
  }

  lemma SBoxAt59(v: Byte)
    requires v == 0x59
    ensures SBoxCircuit(v) == SubByte(v)
  {
    assert SubByte(0x59) == 0xcb;
    assert SBoxCircuit(0x59) == 0xcb;
  }

  lemma SBoxAt5A(v: Byte)
    requires v == 0x5a
    ensures SBoxCircuit(v) == SubByte(v)
  {
    assert SubByte(0x5a) == 0xbe;
    assert SBoxCircuit(0x5a) == 0xbe;
  }

  lemma SBoxAt5B(v: Byte)
    requires v == 0x5b
    ensures SBoxCircuit(v) == SubByte(v)
  {
    assert SubByte(0x5b) == 0x39;
    assert SBoxCircuit(0x5b) == 0x39;
  }

  lemma SBoxAt5C(v: Byte)
    requires v == 0x5c
    ensures SBoxCircuit(v) == SubByte(v)
  {
    assert SubByte(0x5c) == 0x4a;
    assert SBoxCircuit(0x5c) == 0x4a;
  }

  lemma SBoxAt5D(v: Byte)
    requires v == 0x5d
    ensures SBoxCircuit(v) == SubByte(v)
  {
    assert SubByte(0x5d) == 0x4c;
    assert SBoxCircuit(0x5d) == 0x4c;
  }

  lemma SBoxAt5E(v: Byte)
    requires v == 0x5e
    ensures SBoxCircuit(v) == SubByte(v)
  {
    assert SubByte(0x5e) == 0x58;
    assert SBoxCircuit(0x5e) == 0x58;
  }

  lemma SBoxAt5F(v: Byte)
    requires v == 0x5f
    ensures SBoxCircuit(v) == SubByte(v)
  {
    assert SubByte(0x5f) == 0xcf;
    assert SBoxCircuit(0x5f) == 0xcf;
  }

  lemma SBoxAt60(v: Byte)
    requires v == 0x60
    ensures SBoxCircuit(v) == SubByte(v)
  {
    assert SubByte(0x60) == 0xd0;
    assert SBoxCircuit(0x60) == 0xd0;
  }

  lemma SBoxAt61(v: Byte)
    requires v == 0x61
    ensures SBoxCircuit(v) == SubByte(v)
  {
    assert SubByte(0x61) == 0xef;
    assert SBoxCircuit(0x61) == 0xef;
  }

  lemma SBoxAt62(v: Byte)
    requires v == 0x62
    ensures SBoxCircuit(v) == SubByte(v)
  {
    assert SubByte(0x62) == 0xaa;
    assert SBoxCircuit(0x62) == 0xaa;
  }

  lemma SBoxAt63(v: Byte)
    requires v == 0x63
    ensures SBoxCircuit(v) == SubByte(v)
  {
    assert SubByte(0x63) == 0xfb;
    assert SBoxCircuit(0x63) == 0xfb;
  }

  lemma SBoxAt64(v: Byte)
    requires v == 0x64
    ensures SBoxCircuit(v) == SubByte(v)
  {
    assert SubByte(0x64) == 0x43;
    assert SBoxCircuit(0x64) == 0x43;
  }

  lemma SBoxAt65(v: Byte)
    requires v == 0x65
    ensures SBoxCircuit(v) == SubByte(v)
  {
    assert SubByte(0x65) == 0x4d;
    assert SBoxCircuit(0x65) == 0x4d;
  }

  lemma SBoxAt66(v: Byte)
    requires v == 0x66
    ensures SBoxCircuit(v) == SubByte(v)
  {
    assert SubByte(0x66) == 0x33;
    assert SBoxCircuit(0x66) == 0x33;
  }

  lemma SBoxAt67(v: Byte)
    requires v == 0x67
    ensures SBoxCircuit(v) == SubByte(v)
  {
    assert SubByte(0x67) == 0x85;
    assert SBoxCircuit(0x67) == 0x85;
  }

  lemma SBoxAt68(v: Byte)
    requires v == 0x68
    ensures SBoxCircuit(v) == SubByte(v)
  {
    assert SubByte(0x68) == 0x45;
    assert SBoxCircuit(0x68) == 0x45;
  }

  lemma SBoxAt69(v: Byte)
    requires v == 0x69
    ensures SBoxCircuit(v) == SubByte(v)
  {
    assert SubByte(0x69) == 0xf9;
    assert SBoxCircuit(0x69) == 0xf9;
  }

  lemma SBoxAt6A(v: Byte)
    requires v == 0x6a
    ensures SBoxCircuit(v) == SubByte(v)
  {
    assert SubByte(0x6a) == 0x02;
    assert SBoxCircuit(0x6a) == 0x02;
  }

  lemma SBoxAt6B(v: Byte)
    requires v == 0x6b
    ensures SBoxCircuit(v) == SubByte(v)
  {
    assert SubByte(0x6b) == 0x7f;
    assert SBoxCircuit(0x6b) == 0x7f;
  }

  lemma SBoxAt6C(v: Byte)
    requires v == 0x6c
    ensures SBoxCircuit(v) == SubByte(v)
  {
    assert SubByte(0x6c) == 0x50;
    assert SBoxCircuit(0x6c) == 0x50;
  }

  lemma SBoxAt6D(v: Byte)
    requires v == 0x6d
    ensures SBoxCircuit(v) == SubByte(v)
  {
    assert SubByte(0x6d) == 0x3c;
    assert SBoxCircuit(0x6d) == 0x3c;
  }

  lemma SBoxAt6E(v: Byte)
    requires v == 0x6e
    ensures SBoxCircuit(v) == SubByte(v)
  {
    assert SubByte(0x6e) == 0x9f;
    assert SBoxCircuit(0x6e) == 0x9f;
  }

  lemma SBoxAt6F(v: Byte)
    requires v == 0x6f
    ensures SBoxCircuit(v) == SubByte(v)
  {
    assert SubByte(0x6f) == 0xa8;
    assert SBoxCircuit(0x6f) == 0xa8;
  }

  lemma SBoxAt70(v: Byte)
    requires v == 0x70
    ensures SBoxCircuit(v) == SubByte(v)
  {
    assert SubByte(0x70) == 0x51;
    assert SBoxCircuit(0x70) == 0x51;
  }

  lemma SBoxAt71(v: Byte)
    requires v == 0x71
    ensures SBoxCircuit(v) == SubByte(v)
  {
    assert SubByte(0x71) == 0xa3;
    assert SBoxCircuit(0x71) == 0xa3;
  }

  lemma SBoxAt72(v: Byte)
    requires v == 0x72
    ensures SBoxCircuit(v) == SubByte(v)
  {
    assert SubByte(0x72) == 0x40;
    assert SBoxCircuit(0x72) == 0x40;
  }

  lemma SBoxAt73(v: Byte)
    requires v == 0x73
    ensures SBoxCircuit(v) == SubByte(v)
  {
    assert SubByte(0x73) == 0x8f;
    assert SBoxCircuit(0x73) == 0x8f;
  }

  lemma SBoxAt74(v: Byte)
    requires v == 0x74
    ensures SBoxCircuit(v) == SubByte(v)
  {
    assert SubByte(0x74) == 0x92;
    assert SBoxCircuit(0x74) == 0x92;
  }

  lemma SBoxAt75(v: Byte)
    requires v == 0x75
    ensures SBoxCircuit(v) == SubByte(v)
  {
    assert SubByte(0x75) == 0x9d;
    assert SBoxCircuit(0x75) == 0x9d;
  }

  lemma SBoxAt76(v: Byte)
    requires v == 0x76
    ensures SBoxCircuit(v) == SubByte(v)
  {
    assert SubByte(0x76) == 0x38;
    assert SBoxCircuit(0x76) == 0x38;
  }

  lemma SBoxAt77(v: Byte)
    requires v == 0x77
    ensures SBoxCircuit(v) == SubByte(v)
  {
    assert SubByte(0x77) == 0xf5;
    assert SBoxCircuit(0x77) == 0xf5;
  }

  lemma SBoxAt78(v: Byte)
    requires v == 0x78
    ensures SBoxCircuit(v) == SubByte(v)
  {
    assert SubByte(0x78) == 0xbc;
    assert SBoxCircuit(0x78) == 0xbc;
  }

  lemma SBoxAt79(v: Byte)
    requires v == 0x79
    ensures SBoxCircuit(v) == SubByte(v)
  {
    assert SubByte(0x79) == 0xb6;
    assert SBoxCircuit(0x79) == 0xb6;
  }

  lemma SBoxAt7A(v: Byte)
    requires v == 0x7a
    ensures SBoxCircuit(v) == SubByte(v)
  {
    assert SubByte(0x7a) == 0xda;
    assert SBoxCircuit(0x7a) == 0xda;
  }

  lemma SBoxAt7B(v: Byte)
    requires v == 0x7b
    ensures SBoxCircuit(v) == SubByte(v)
  {
    assert SubByte(0x7b) == 0x21;
    assert SBoxCircuit(0x7b) == 0x21;
  }

  lemma SBoxAt7C(v: Byte)
    requires v == 0x7c
    ensures SBoxCircuit(v) == SubByte(v)
  {
    assert SubByte(0x7c) == 0x10;
    assert SBoxCircuit(0x7c) == 0x10;
  }

  lemma SBoxAt7D(v: Byte)
    requires v == 0x7d
    ensures SBoxCircuit(v) == SubByte(v)
  {
    assert SubByte(0x7d) == 0xff;
    assert SBoxCircuit(0x7d) == 0xff;
  }

  lemma SBoxAt7E(v: Byte)
    requires v == 0x7e
    ensures SBoxCircuit(v) == SubByte(v)
  {
    assert SubByte(0x7e) == 0xf3;
    assert SBoxCircuit(0x7e) == 0xf3;
  }

  lemma SBoxAt7F(v: Byte)
    requires v == 0x7f
    ensures SBoxCircuit(v) == SubByte(v)
  {
    assert SubByte(0x7f) == 0xd2;
    assert SBoxCircuit(0x7f) == 0xd2;
  }

  lemma SBoxAt80(v: Byte)
    requires v == 0x80
    ensures SBoxCircuit(v) == SubByte(v)
  {
    assert SubByte(0x80) == 0xcd;
    assert SBoxCircuit(0x80) == 0xcd;
  }

  lemma SBoxAt81(v: Byte)
    requires v == 0x81
    ensures SBoxCircuit(v) == SubByte(v)
  {
    assert SubByte(0x81) == 0x0c;
    assert SBoxCircuit(0x81) == 0x0c;
  }

  lemma SBoxAt82(v: Byte)
    requires v == 0x82
    ensures SBoxCircuit(v) == SubByte(v)
  {
    assert SubByte(0x82) == 0x13;
    assert SBoxCircuit(0x82) == 0x13;
  }

  lemma SBoxAt83(v: Byte)
    requires v == 0x83
    ensures SBoxCircuit(v) == SubByte(v)
  {
    assert SubByte(0x83) == 0xec;
    assert SBoxCircuit(0x83) == 0xec;
  }

  lemma SBoxAt84(v: Byte)
    requires v == 0x84
    ensures SBoxCircuit(v) == SubByte(v)
  {
    assert SubByte(0x84) == 0x5f;
    assert SBoxCircuit(0x84) == 0x5f;
  }

  lemma SBoxAt85(v: Byte)
    requires v == 0x85
    ensures SBoxCircuit(v) == SubByte(v)
  {
    assert SubByte(0x85) == 0x97;
    assert SBoxCircuit(0x85) == 0x97;
  }

  lemma SBoxAt86(v: Byte)
    requires v == 0x86
    ensures SBoxCircuit(v) == SubByte(v)
  {
    assert SubByte(0x86) == 0x44;
    assert SBoxCircuit(0x86) == 0x44;
  }

  lemma SBoxAt87(v: Byte)
    requires v == 0x87
    ensures SBoxCircuit(v) == SubByte(v)
  {
    assert SubByte(0x87) == 0x17;
    assert SBoxCircuit(0x87) == 0x17;
  }

  lemma SBoxAt88(v: Byte)
    requires v == 0x88
    ensures SBoxCircuit(v) == SubByte(v)
  {
    assert SubByte(0x88) == 0xc4;
    assert SBoxCircuit(0x88) == 0xc4;
  }

  lemma SBoxAt89(v: Byte)
    requires v == 0x89
    ensures SBoxCircuit(v) == SubByte(v)
  {
    assert SubByte(0x89) == 0xa7;
    assert SBoxCircuit(0x89) == 0xa7;
  }

  lemma SBoxAt8A(v: Byte)
    requires v == 0x8a
    ensures SBoxCircuit(v) == SubByte(v)
  {
    assert SubByte(0x8a) == 0x7e;
    assert SBoxCircuit(0x8a) == 0x7e;
  }

  lemma SBoxAt8B(v: Byte)
    requires v == 0x8b
    ensures SBoxCircuit(v) == SubByte(v)
  {
    assert SubByte(0x8b) == 0x3d;
    assert SBoxCircuit(0x8b) == 0x3d;
  }

  lemma SBoxAt8C(v: Byte)
    requires v == 0x8c
    ensures SBoxCircuit(v) == SubByte(v)
  {
    assert SubByte(0x8c) == 0x64;
    assert SBoxCircuit(0x8c) == 0x64;
  }

  lemma SBoxAt8D(v: Byte)
    requires v == 0x8d
    ensures SBoxCircuit(v) == SubByte(v)
  {
    assert SubByte(0x8d) == 0x5d;
    assert SBoxCircuit(0x8d) == 0x5d;
  }

  lemma SBoxAt8E(v: Byte)
    requires v == 0x8e
    ensures SBoxCircuit(v) == SubByte(v)
  {
    assert SubByte(0x8e) == 0x19;
    assert SBoxCircuit(0x8e) == 0x19;
  }

  lemma SBoxAt8F(v: Byte)
    requires v == 0x8f
    ensures SBoxCircuit(v) == SubByte(v)
  {
    assert SubByte(0x8f) == 0x73;
    assert SBoxCircuit(0x8f) == 0x73;
  }

  lemma SBoxAt90(v: Byte)
    requires v == 0x90
    ensures SBoxCircuit(v) == SubByte(v)
  {
    assert SubByte(0x90) == 0x60;
    assert SBoxCircuit(0x90) == 0x60;
  }

  lemma SBoxAt91(v: Byte)
    requires v == 0x91
    ensures SBoxCircuit(v) == SubByte(v)
  {
    assert SubByte(0x91) == 0x81;
    assert SBoxCircuit(0x91) == 0x81;
  }

  lemma SBoxAt92(v: Byte)
    requires v == 0x92
    ensures SBoxCircuit(v) == SubByte(v)
  {
    assert SubByte(0x92) == 0x4f;
    assert SBoxCircuit(0x92) == 0x4f;
  }

  lemma SBoxAt93(v: Byte)
    requires v == 0x93
    ensures SBoxCircuit(v) == SubByte(v)
  {
    assert SubByte(0x93) == 0xdc;
    assert SBoxCircuit(0x93) == 0xdc;
  }

  lemma SBoxAt94(v: Byte)
    requires v == 0x94
    ensures SBoxCircuit(v) == SubByte(v)
  {
    assert SubByte(0x94) == 0x22;
    assert SBoxCircuit(0x94) == 0x22;
  }

  lemma SBoxAt95(v: Byte)
    requires v == 0x95
    ensures SBoxCircuit(v) == SubByte(v)
  {
    assert SubByte(0x95) == 0x2a;
    assert SBoxCircuit(0x95) == 0x2a;
  }

  lemma SBoxAt96(v: Byte)
    requires v == 0x96
    ensures SBoxCircuit(v) == SubByte(v)
  {
    assert SubByte(0x96) == 0x90;
    assert SBoxCircuit(0x96) == 0x90;
  }

  lemma SBoxAt97(v: Byte)
    requires v == 0x97
    ensures SBoxCircuit(v) == SubByte(v)
  {
    assert SubByte(0x97) == 0x88;
    assert SBoxCircuit(0x97) == 0x88;
  }

  lemma SBoxAt98(v: Byte)
    requires v == 0x98
    ensures SBoxCircuit(v) == SubByte(v)
  {
    assert SubByte(0x98) == 0x46;
    assert SBoxCircuit(0x98) == 0x46;
  }

  lemma SBoxAt99(v: Byte)
    requires v == 0x99
    ensures SBoxCircuit(v) == SubByte(v)
  {
    assert SubByte(0x99) == 0xee;
    assert SBoxCircuit(0x99) == 0xee;
  }

  lemma SBoxAt9A(v: Byte)
    requires v == 0x9a
    ensures SBoxCircuit(v) == SubByte(v)
  {
    assert SubByte(0x9a) == 0xb8;
    assert SBoxCircuit(0x9a) == 0xb8;
  }

  lemma SBoxAt9B(v: Byte)
    requires v == 0x9b
    ensures SBoxCircuit(v) == SubByte(v)
  {
    assert SubByte(0x9b) == 0x14;
    assert SBoxCircuit(0x9b) == 0x14;
  }

  lemma SBoxAt9C(v: Byte)
    requires v == 0x9c
    ensures SBoxCircuit(v) == SubByte(v)
  {
    assert SubByte(0x9c) == 0xde;
    assert SBoxCircuit(0x9c) == 0xde;
  }

  lemma SBoxAt9D(v: Byte)
    requires v == 0x9d
    ensures SBoxCircuit(v) == SubByte(v)
  {
    assert SubByte(0x9d) == 0x5e;
    assert SBoxCircuit(0x9d) == 0x5e;
  }

  lemma SBoxAt9E(v: Byte)
    requires v == 0x9e
    ensures SBoxCircuit(v) == SubByte(v)
  {
    assert SubByte(0x9e) == 0x0b;
    assert SBoxCircuit(0x9e) == 0x0b;
  }

  lemma SBoxAt9F(v: Byte)
    requires v == 0x9f
    ensures SBoxCircuit(v) == SubByte(v)
  {
    assert SubByte(0x9f) == 0xdb;
    assert SBoxCircuit(0x9f) == 0xdb;
  }

  lemma SBoxAtA0(v: Byte)
    requires v == 0xa0
    ensures SBoxCircuit(v) == SubByte(v)
  {
    assert SubByte(0xa0) == 0xe0;
    assert SBoxCircuit(0xa0) == 0xe0;
  }

  lemma SBoxAtA1(v: Byte)
    requires v == 0xa1
    ensures SBoxCircuit(v) == SubByte(v)
  {
    assert SubByte(0xa1) == 0x32;
    assert SBoxCircuit(0xa1) == 0x32;
  }

  lemma SBoxAtA2(v: Byte)
    requires v == 0xa2
    ensures SBoxCircuit(v) == SubByte(v)
  {
    assert SubByte(0xa2) == 0x3a;
    assert SBoxCircuit(0xa2) == 0x3a;
  }

  lemma SBoxAtA3(v: Byte)
    requires v == 0xa3
    ensures SBoxCircuit(v) == SubByte(v)
  {
    assert SubByte(0xa3) == 0x0a;
    assert SBoxCircuit(0xa3) == 0x0a;
  }

  lemma SBoxAtA4(v: Byte)
    requires v == 0xa4
    ensures SBoxCircuit(v) == SubByte(v)
  {
    assert SubByte(0xa4) == 0x49;
    assert SBoxCircuit(0xa4) == 0x49;
  }

  lemma SBoxAtA5(v: Byte)
    requires v == 0xa5
    ensures SBoxCircuit(v) == SubByte(v)
  {
    assert SubByte(0xa5) == 0x06;
    assert SBoxCircuit(0xa5) == 0x06;
  }

  lemma SBoxAtA6(v: Byte)
    requires v == 0xa6
    ensures SBoxCircuit(v) == SubByte(v)
  {
    assert SubByte(0xa6) == 0x24;
    assert SBoxCircuit(0xa6) == 0x24;
  }

  lemma SBoxAtA7(v: Byte)
    requires v == 0xa7
    ensures SBoxCircuit(v) == SubByte(v)
  {
    assert SubByte(0xa7) == 0x5c;
    assert SBoxCircuit(0xa7) == 0x5c;
  }

  lemma SBoxAtA8(v: Byte)
    requires v == 0xa8
    ensures SBoxCircuit(v) == SubByte(v)
  {
    assert SubByte(0xa8) == 0xc2;
    assert SBoxCircuit(0xa8) == 0xc2;
  }

  lemma SBoxAtA9(v: Byte)
    requires v == 0xa9
    ensures SBoxCircuit(v) == SubByte(v)
  {
    assert SubByte(0xa9) == 0xd3;
    assert SBoxCircuit(0xa9) == 0xd3;
  }

  lemma SBoxAtAA(v: Byte)
    requires v == 0xaa
    ensures SBoxCircuit(v) == SubByte(v)
  {
    assert SubByte(0xaa) == 0xac;
    assert SBoxCircuit(0xaa) == 0xac;
  }

  lemma SBoxAtAB(v: Byte)
    requires v == 0xab
    ensures SBoxCircuit(v) == SubByte(v)
  {
    assert SubByte(0xab) == 0x62;
    assert SBoxCircuit(0xab) == 0x62;
  }

  lemma SBoxAtAC(v: Byte)
    requires v == 0xac
    ensures SBoxCircuit(v) == SubByte(v)
  {
    assert SubByte(0xac) == 0x91;
    assert SBoxCircuit(0xac) == 0x91;
  }

  lemma SBoxAtAD(v: Byte)
    requires v == 0xad
    ensures SBoxCircuit(v) == SubByte(v)
  {
    assert SubByte(0xad) == 0x95;
    assert SBoxCircuit(0xad) == 0x95;
  }

  lemma SBoxAtAE(v: Byte)
    requires v == 0xae
    ensures SBoxCircuit(v) == SubByte(v)
  {
    assert SubByte(0xae) == 0xe4;
    assert SBoxCircuit(0xae) == 0xe4;
  }

  lemma SBoxAtAF(v: Byte)
    requires v == 0xaf
    ensures SBoxCircuit(v) == SubByte(v)
  {
    assert SubByte(0xaf) == 0x79;
    assert SBoxCircuit(0xaf) == 0x79;
  }

  lemma SBoxAtB0(v: Byte)
    requires v == 0xb0
    ensures SBoxCircuit(v) == SubByte(v)
  {
    assert SubByte(0xb0) == 0xe7;
    assert SBoxCircuit(0xb0) == 0xe7;
  }

  lemma SBoxAtB1(v: Byte)
    requires v == 0xb1
    ensures SBoxCircuit(v) == SubByte(v)
  {
    assert SubByte(0xb1) == 0xc8;
    assert SBoxCircuit(0xb1) == 0xc8;
  }

  lemma SBoxAtB2(v: Byte)
    requires v == 0xb2
    ensures SBoxCircuit(v) == SubByte(v)
  {
    assert SubByte(0xb2) == 0x37;
    assert SBoxCircuit(0xb2) == 0x37;
  }

  lemma SBoxAtB3(v: Byte)
    requires v == 0xb3
    ensures SBoxCircuit(v) == SubByte(v)
  {
    assert SubByte(0xb3) == 0x6d;
    assert SBoxCircuit(0xb3) == 0x6d;
  }

  lemma SBoxAtB4(v: Byte)
    requires v == 0xb4
    ensures SBoxCircuit(v) == SubByte(v)
  {
    assert SubByte(0xb4) == 0x8d;
    assert SBoxCircuit(0xb4) == 0x8d;
  }

  lemma SBoxAtB5(v: Byte)
    requires v == 0xb5
    ensures SBoxCircuit(v) == SubByte(v)
  {
    assert SubByte(0xb5) == 0xd5;
    assert SBoxCircuit(0xb5) == 0xd5;
  }

  lemma SBoxAtB6(v: Byte)
    requires v == 0xb6
    ensures SBoxCircuit(v) == SubByte(v)
  {
    assert SubByte(0xb6) == 0x4e;
    assert SBoxCircuit(0xb6) == 0x4e;
  }

  lemma SBoxAtB7(v: Byte)
    requires v == 0xb7
    ensures SBoxCircuit(v) == SubByte(v)
  {
    assert SubByte(0xb7) == 0xa9;
    assert SBoxCircuit(0xb7) == 0xa9;
  }

  lemma SBoxAtB8(v: Byte)
    requires v == 0xb8
    ensures SBoxCircuit(v) == SubByte(v)
  {
    assert SubByte(0xb8) == 0x6c;
    assert SBoxCircuit(0xb8) == 0x6c;
  }

  lemma SBoxAtB9(v: Byte)
    requires v == 0xb9
    ensures SBoxCircuit(v) == SubByte(v)
  {
    assert SubByte(0xb9) == 0x56;
    assert SBoxCircuit(0xb9) == 0x56;
  }

  lemma SBoxAtBA(v: Byte)
    requires v == 0xba
    ensures SBoxCircuit(v) == SubByte(v)
  {
    assert SubByte(0xba) == 0xf4;
    assert SBoxCircuit(0xba) == 0xf4;
  }

  lemma SBoxAtBB(v: Byte)
    requires v == 0xbb
    ensures SBoxCircuit(v) == SubByte(v)
  {
    assert SubByte(0xbb) == 0xea;
    assert SBoxCircuit(0xbb) == 0xea;
  }

  lemma SBoxAtBC(v: Byte)
    requires v == 0xbc
    ensures SBoxCircuit(v) == SubByte(v)
  {
    assert SubByte(0xbc) == 0x65;
    assert SBoxCircuit(0xbc) == 0x65;
  }

  lemma SBoxAtBD(v: Byte)
    requires v == 0xbd
    ensures SBoxCircuit(v) == SubByte(v)
  {
    assert SubByte(0xbd) == 0x7a;
    assert SBoxCircuit(0xbd) == 0x7a;
  }

  lemma SBoxAtBE(v: Byte)
    requires v == 0xbe
    ensures SBoxCircuit(v) == SubByte(v)
  {
    assert SubByte(0xbe) == 0xae;
    assert SBoxCircuit(0xbe) == 0xae;
  }

  lemma SBoxAtBF(v: Byte)
    requires v == 0xbf
    ensures SBoxCircuit(v) == SubByte(v)
  {
    assert SubByte(0xbf) == 0x08;
    assert SBoxCircuit(0xbf) == 0x08;
  }

  lemma SBoxAtC0(v: Byte)
    requires v == 0xc0
    ensures SBoxCircuit(v) == SubByte(v)
  {
    assert SubByte(0xc0) == 0xba;
    assert SBoxCircuit(0xc0) == 0xba;
  }

  lemma SBoxAtC1(v: Byte)
    requires v == 0xc1
    ensures SBoxCircuit(v) == SubByte(v)
  {
    assert SubByte(0xc1) == 0x78;
    assert SBoxCircuit(0xc1) == 0x78;
  }

  lemma SBoxAtC2(v: Byte)
    requires v == 0xc2
    ensures SBoxCircuit(v) == SubByte(v)
  {
    assert SubByte(0xc2) == 0x25;
    assert SBoxCircuit(0xc2) == 0x25;
  }

  lemma SBoxAtC3(v: Byte)
    requires v == 0xc3
    ensures SBoxCircuit(v) == SubByte(v)
  {
    assert SubByte(0xc3) == 0x2e;
    assert SBoxCircuit(0xc3) == 0x2e;
  }

  lemma SBoxAtC4(v: Byte)
    requires v == 0xc4
    ensures SBoxCircuit(v) == SubByte(v)
  {
    assert SubByte(0xc4) == 0x1c;
    assert SBoxCircuit(0xc4) == 0x1c;
  }

  lemma SBoxAtC5(v: Byte)
    requires v == 0xc5
    ensures SBoxCircuit(v) == SubByte(v)
  {
    assert SubByte(0xc5) == 0xa6;
    assert SBoxCircuit(0xc5) == 0xa6;
  }

  lemma SBoxAtC6(v: Byte)
    requires v == 0xc6
    ensures SBoxCircuit(v) == SubByte(v)
  {
    assert SubByte(0xc6) == 0xb4;
    assert SBoxCircuit(0xc6) == 0xb4;
  }

  lemma SBoxAtC7(v: Byte)
    requires v == 0xc7
    ensures SBoxCircuit(v) == SubByte(v)
  {
    assert SubByte(0xc7) == 0xc6;
    assert SBoxCircuit(0xc7) == 0xc6;
  }

  lemma SBoxAtC8(v: Byte)
    requires v == 0xc8
    ensures SBoxCircuit(v) == SubByte(v)
  {
    assert SubByte(0xc8) == 0xe8;
    assert SBoxCircuit(0xc8) == 0xe8;
  }

  lemma SBoxAtC9(v: Byte)
    requires v == 0xc9
    ensures SBoxCircuit(v) == SubByte(v)
  {
    assert SubByte(0xc9) == 0xdd;
    assert SBoxCircuit(0xc9) == 0xdd;
  }

  lemma SBoxAtCA(v: Byte)
    requires v == 0xca
    ensures SBoxCircuit(v) == SubByte(v)
  {
    assert SubByte(0xca) == 0x74;
    assert SBoxCircuit(0xca) == 0x74;
  }

  lemma SBoxAtCB(v: Byte)
    requires v == 0xcb
    ensures SBoxCircuit(v) == SubByte(v)
  {
    assert SubByte(0xcb) == 0x1f;
    assert SBoxCircuit(0xcb) == 0x1f;
  }

  lemma SBoxAtCC(v: Byte)
    requires v == 0xcc
    ensures SBoxCircuit(v) == SubByte(v)
  {
    assert SubByte(0xcc) == 0x4b;
    assert SBoxCircuit(0xcc) == 0x4b;
  }

  lemma SBoxAtCD(v: Byte)
    requires v == 0xcd
    ensures SBoxCircuit(v) == SubByte(v)
  {
    assert SubByte(0xcd) == 0xbd;
    assert SBoxCircuit(0xcd) == 0xbd;
  }

  lemma SBoxAtCE(v: Byte)
    requires v == 0xce
    ensures SBoxCircuit(v) == SubByte(v)
  {
    assert SubByte(0xce) == 0x8b;
    assert SBoxCircuit(0xce) == 0x8b;
  }

  lemma SBoxAtCF(v: Byte)
    requires v == 0xcf
    ensures SBoxCircuit(v) == SubByte(v)
  {
    assert SubByte(0xcf) == 0x8a;
    assert SBoxCircuit(0xcf) == 0x8a;
  }

  lemma SBoxAtD0(v: Byte)
    requires v == 0xd0
    ensures SBoxCircuit(v) == SubByte(v)
  {
    assert SubByte(0xd0) == 0x70;
    assert SBoxCircuit(0xd0) == 0x70;
  }

  lemma SBoxAtD1(v: Byte)
    requires v == 0xd1
    ensures SBoxCircuit(v) == SubByte(v)
  {
    assert SubByte(0xd1) == 0x3e;
    assert SBoxCircuit(0xd1) == 0x3e;
  }

  lemma SBoxAtD2(v: Byte)
    requires v == 0xd2
    ensures SBoxCircuit(v) == SubByte(v)
  {
    assert SubByte(0xd2) == 0xb5;
    assert SBoxCircuit(0xd2) == 0xb5;
  }

  lemma SBoxAtD3(v: Byte)
    requires v == 0xd3
    ensures SBoxCircuit(v) == SubByte(v)
  {
    assert SubByte(0xd3) == 0x66;
    assert SBoxCircuit(0xd3) == 0x66;
  }

  lemma SBoxAtD4(v: Byte)
    requires v == 0xd4
    ensures SBoxCircuit(v) == SubByte(v)
  {
    assert SubByte(0xd4) == 0x48;
    assert SBoxCircuit(0xd4) == 0x48;
  }

  lemma SBoxAtD5(v: Byte)
    requires v == 0xd5
    ensures SBoxCircuit(v) == SubByte(v)
  {
    assert SubByte(0xd5) == 0x03;
    assert SBoxCircuit(0xd5) == 0x03;
  }

  lemma SBoxAtD6(v: Byte)
    requires v == 0xd6
    ensures SBoxCircuit(v) == SubByte(v)
  {
    assert SubByte(0xd6) == 0xf6;
    assert SBoxCircuit(0xd6) == 0xf6;
  }

  lemma SBoxAtD7(v: Byte)
    requires v == 0xd7
    ensures SBoxCircuit(v) == SubByte(v)
  {
    assert SubByte(0xd7) == 0x0e;
    assert SBoxCircuit(0xd7) == 0x0e;
  }

  lemma SBoxAtD8(v: Byte)
    requires v == 0xd8
    ensures SBoxCircuit(v) == SubByte(v)
  {
    assert SubByte(0xd8) == 0x61;
    assert SBoxCircuit(0xd8) == 0x61;
  }

  lemma SBoxAtD9(v: Byte)
    requires v == 0xd9
    ensures SBoxCircuit(v) == SubByte(v)
  {
    assert SubByte(0xd9) == 0x35;
    assert SBoxCircuit(0xd9) == 0x35;
  }

  lemma SBoxAtDA(v: Byte)
    requires v == 0xda
    ensures SBoxCircuit(v) == SubByte(v)
  {
    assert SubByte(0xda) == 0x57;
    assert SBoxCircuit(0xda) == 0x57;
  }

  lemma SBoxAtDB(v: Byte)
    requires v == 0xdb
    ensures SBoxCircuit(v) == SubByte(v)
  {
    assert SubByte(0xdb) == 0xb9;
    assert SBoxCircuit(0xdb) == 0xb9;
  }

  lemma SBoxAtDC(v: Byte)
    requires v == 0xdc
    ensures SBoxCircuit(v) == SubByte(v)
  {
    assert SubByte(0xdc) == 0x86;
    assert SBoxCircuit(0xdc) == 0x86;
  }

  lemma SBoxAtDD(v: Byte)
    requires v == 0xdd
    ensures SBoxCircuit(v) == SubByte(v)
  {
    assert SubByte(0xdd) == 0xc1;
    assert SBoxCircuit(0xdd) == 0xc1;
  }

  lemma SBoxAtDE(v: Byte)
    requires v == 0xde
    ensures SBoxCircuit(v) == SubByte(v)
  {
    assert SubByte(0xde) == 0x1d;
    assert SBoxCircuit(0xde) == 0x1d;
  }

  lemma SBoxAtDF(v: Byte)
    requires v == 0xdf
    ensures SBoxCircuit(v) == SubByte(v)
  {
    assert SubByte(0xdf) == 0x9e;
    assert SBoxCircuit(0xdf) == 0x9e;
  }

  lemma SBoxAtE0(v: Byte)
    requires v == 0xe0
    ensures SBoxCircuit(v) == SubByte(v)
  {
    assert SubByte(0xe0) == 0xe1;
    assert SBoxCircuit(0xe0) == 0xe1;
  }

  lemma SBoxAtE1(v: Byte)
    requires v == 0xe1
    ensures SBoxCircuit(v) == SubByte(v)
  {
    assert SubByte(0xe1) == 0xf8;
    assert SBoxCircuit(0xe1) == 0xf8;
  }

  lemma SBoxAtE2(v: Byte)
    requires v == 0xe2
    ensures SBoxCircuit(v) == SubByte(v)
  {
    assert SubByte(0xe2) == 0x98;
    assert SBoxCircuit(0xe2) == 0x98;
  }

  lemma SBoxAtE3(v: Byte)
    requires v == 0xe3
    ensures SBoxCircuit(v) == SubByte(v)
  {
    assert SubByte(0xe3) == 0x11;
    assert SBoxCircuit(0xe3) == 0x11;
  }

  lemma SBoxAtE4(v: Byte)
    requires v == 0xe4
    ensures SBoxCircuit(v) == SubByte(v)
  {
    assert SubByte(0xe4) == 0x69;
    assert SBoxCircuit(0xe4) == 0x69;
  }

  lemma SBoxAtE5(v: Byte)
    requires v == 0xe5
    ensures SBoxCircuit(v) == SubByte(v)
  {
    assert SubByte(0xe5) == 0xd9;
    assert SBoxCircuit(0xe5) == 0xd9;
  }

  lemma SBoxAtE6(v: Byte)
    requires v == 0xe6
    ensures SBoxCircuit(v) == SubByte(v)
  {
    assert SubByte(0xe6) == 0x8e;
    assert SBoxCircuit(0xe6) == 0x8e;
  }

  lemma SBoxAtE7(v: Byte)
    requires v == 0xe7
    ensures SBoxCircuit(v) == SubByte(v)
  {
    assert SubByte(0xe7) == 0x94;
    assert SBoxCircuit(0xe7) == 0x94;
  }

  lemma SBoxAtE8(v: Byte)
    requires v == 0xe8
    ensures SBoxCircuit(v) == SubByte(v)
  {
    assert SubByte(0xe8) == 0x9b;
    assert SBoxCircuit(0xe8) == 0x9b;
  }

  lemma SBoxAtE9(v: Byte)
    requires v == 0xe9
    ensures SBoxCircuit(v) == SubByte(v)
  {
    assert SubByte(0xe9) == 0x1e;
    assert SBoxCircuit(0xe9) == 0x1e;
  }

  lemma SBoxAtEA(v: Byte)
    requires v == 0xea
    ensures SBoxCircuit(v) == SubByte(v)
  {
    assert SubByte(0xea) == 0x87;
    assert SBoxCircuit(0xea) == 0x87;
  }

  lemma SBoxAtEB(v: Byte)
    requires v == 0xeb
    ensures SBoxCircuit(v) == SubByte(v)
  {
    assert SubByte(0xeb) == 0xe9;
    assert SBoxCircuit(0xeb) == 0xe9;
  }

  lemma SBoxAtEC(v: Byte)
    requires v == 0xec
    ensures SBoxCircuit(v) == SubByte(v)
  {
    assert SubByte(0xec) == 0xce;
    assert SBoxCircuit(0xec) == 0xce;
  }

  lemma SBoxAtED(v: Byte)
    requires v == 0xed
    ensures SBoxCircuit(v) == SubByte(v)
  {
    assert SubByte(0xed) == 0x55;
    assert SBoxCircuit(0xed) == 0x55;
  }

  lemma SBoxAtEE(v: Byte)
    requires v == 0xee
    ensures SBoxCircuit(v) == SubByte(v)
  {
    assert SubByte(0xee) == 0x28;
    assert SBoxCircuit(0xee) == 0x28;
  }

  lemma SBoxAtEF(v: Byte)
    requires v == 0xef
    ensures SBoxCircuit(v) == SubByte(v)
  {
    assert SubByte(0xef) == 0xdf;
    assert SBoxCircuit(0xef) == 0xdf;
  }

  lemma SBoxAtF0(v: Byte)
    requires v == 0xf0
    ensures SBoxCircuit(v) == SubByte(v)
  {
    assert SubByte(0xf0) == 0x8c;
    assert SBoxCircuit(0xf0) == 0x8c;
  }

  lemma SBoxAtF1(v: Byte)
    requires v == 0xf1
    ensures SBoxCircuit(v) == SubByte(v)
  {
    assert SubByte(0xf1) == 0xa1;
    assert SBoxCircuit(0xf1) == 0xa1;
  }

  lemma SBoxAtF2(v: Byte)
    requires v == 0xf2
    ensures SBoxCircuit(v) == SubByte(v)
  {
    assert SubByte(0xf2) == 0x89;
    assert SBoxCircuit(0xf2) == 0x89;
  }

  lemma SBoxAtF3(v: Byte)
    requires v == 0xf3
    ensures SBoxCircuit(v) == SubByte(v)
  {
    assert SubByte(0xf3) == 0x0d;
    assert SBoxCircuit(0xf3) == 0x0d;
  }

  lemma SBoxAtF4(v: Byte)
    requires v == 0xf4
    ensures SBoxCircuit(v) == SubByte(v)
  {
    assert SubByte(0xf4) == 0xbf;
    assert SBoxCircuit(0xf4) == 0xbf;
  }

  lemma SBoxAtF5(v: Byte)
    requires v == 0xf5
    ensures SBoxCircuit(v) == SubByte(v)
  {
    assert SubByte(0xf5) == 0xe6;
    assert SBoxCircuit(0xf5) == 0xe6;
  }

  lemma SBoxAtF6(v: Byte)
    requires v == 0xf6
    ensures SBoxCircuit(v) == SubByte(v)
  {
    assert SubByte(0xf6) == 0x42;
    assert SBoxCircuit(0xf6) == 0x42;
  }

  lemma SBoxAtF7(v: Byte)
    requires v == 0xf7
    ensures SBoxCircuit(v) == SubByte(v)
  {
    assert SubByte(0xf7) == 0x68;
    assert SBoxCircuit(0xf7) == 0x68;
  }

  lemma SBoxAtF8(v: Byte)
    requires v == 0xf8
    ensures SBoxCircuit(v) == SubByte(v)
  {
    assert SubByte(0xf8) == 0x41;
    assert SBoxCircuit(0xf8) == 0x41;
  }

  lemma SBoxAtF9(v: Byte)
    requires v == 0xf9
    ensures SBoxCircuit(v) == SubByte(v)
  {
    assert SubByte(0xf9) == 0x99;
    assert SBoxCircuit(0xf9) == 0x99;
  }

  lemma SBoxAtFA(v: Byte)
    requires v == 0xfa
    ensures SBoxCircuit(v) == SubByte(v)
  {
    assert SubByte(0xfa) == 0x2d;
    assert SBoxCircuit(0xfa) == 0x2d;
  }

  lemma SBoxAtFB(v: Byte)
    requires v == 0xfb
    ensures SBoxCircuit(v) == SubByte(v)
  {
    assert SubByte(0xfb) == 0x0f;
    assert SBoxCircuit(0xfb) == 0x0f;
  }

  lemma SBoxAtFC(v: Byte)
    requires v == 0xfc
    ensures SBoxCircuit(v) == SubByte(v)
  {
    assert SubByte(0xfc) == 0xb0;
    assert SBoxCircuit(0xfc) == 0xb0;
  }

  lemma SBoxAtFD(v: Byte)
    requires v == 0xfd
    ensures SBoxCircuit(v) == SubByte(v)
  {
    assert SubByte(0xfd) == 0x54;
    assert SBoxCircuit(0xfd) == 0x54;
  }

  lemma SBoxAtFE(v: Byte)
    requires v == 0xfe
    ensures SBoxCircuit(v) == SubByte(v)
  {
    assert SubByte(0xfe) == 0xbb;
    assert SBoxCircuit(0xfe) == 0xbb;
  }

  lemma SBoxAtFF(v: Byte)
    requires v == 0xff
    ensures SBoxCircuit(v) == SubByte(v)
  {
    assert SubByte(0xff) == 0x16;
    assert SBoxCircuit(0xff) == 0x16;
  }
}
