/** The AES substitution table and the table that undoes it. */
module AesSbox {
  import opened Bytes

  // ---- The table, one row of sixteen entries at a time -----------------------------------

  function SubRow0(b: byte): byte {
    if b == 0x00 then 0x63 else if b == 0x01 then 0x7C else if b == 0x02 then 0x77 else if b == 0x03 then 0x7B else
    if b == 0x04 then 0xF2 else if b == 0x05 then 0x6B else if b == 0x06 then 0x6F else if b == 0x07 then 0xC5 else
    if b == 0x08 then 0x30 else if b == 0x09 then 0x01 else if b == 0x0A then 0x67 else if b == 0x0B then 0x2B else
    if b == 0x0C then 0xFE else if b == 0x0D then 0xD7 else if b == 0x0E then 0xAB else 0x76
  }

  function SubRow1(b: byte): byte {
    if b == 0x10 then 0xCA else if b == 0x11 then 0x82 else if b == 0x12 then 0xC9 else if b == 0x13 then 0x7D else
    if b == 0x14 then 0xFA else if b == 0x15 then 0x59 else if b == 0x16 then 0x47 else if b == 0x17 then 0xF0 else
    if b == 0x18 then 0xAD else if b == 0x19 then 0xD4 else if b == 0x1A then 0xA2 else if b == 0x1B then 0xAF else
    if b == 0x1C then 0x9C else if b == 0x1D then 0xA4 else if b == 0x1E then 0x72 else 0xC0
  }

  function SubRow2(b: byte): byte {
    if b == 0x20 then 0xB7 else if b == 0x21 then 0xFD else if b == 0x22 then 0x93 else if b == 0x23 then 0x26 else
    if b == 0x24 then 0x36 else if b == 0x25 then 0x3F else if b == 0x26 then 0xF7 else if b == 0x27 then 0xCC else
    if b == 0x28 then 0x34 else if b == 0x29 then 0xA5 else if b == 0x2A then 0xE5 else if b == 0x2B then 0xF1 else
    if b == 0x2C then 0x71 else if b == 0x2D then 0xD8 else if b == 0x2E then 0x31 else 0x15
  }

  function SubRow3(b: byte): byte {
    if b == 0x30 then 0x04 else if b == 0x31 then 0xC7 else if b == 0x32 then 0x23 else if b == 0x33 then 0xC3 else
    if b == 0x34 then 0x18 else if b == 0x35 then 0x96 else if b == 0x36 then 0x05 else if b == 0x37 then 0x9A else
    if b == 0x38 then 0x07 else if b == 0x39 then 0x12 else if b == 0x3A then 0x80 else if b == 0x3B then 0xE2 else
    if b == 0x3C then 0xEB else if b == 0x3D then 0x27 else if b == 0x3E then 0xB2 else 0x75
  }

  function SubRow4(b: byte): byte {
    if b == 0x40 then 0x09 else if b == 0x41 then 0x83 else if b == 0x42 then 0x2C else if b == 0x43 then 0x1A else
    if b == 0x44 then 0x1B else if b == 0x45 then 0x6E else if b == 0x46 then 0x5A else if b == 0x47 then 0xA0 else
    if b == 0x48 then 0x52 else if b == 0x49 then 0x3B else if b == 0x4A then 0xD6 else if b == 0x4B then 0xB3 else
    if b == 0x4C then 0x29 else if b == 0x4D then 0xE3 else if b == 0x4E then 0x2F else 0x84
  }

  function SubRow5(b: byte): byte {
    if b == 0x50 then 0x53 else if b == 0x51 then 0xD1 else if b == 0x52 then 0x00 else if b == 0x53 then 0xED else
    if b == 0x54 then 0x20 else if b == 0x55 then 0xFC else if b == 0x56 then 0xB1 else if b == 0x57 then 0x5B else
    if b == 0x58 then 0x6A else if b == 0x59 then 0xCB else if b == 0x5A then 0xBE else if b == 0x5B then 0x39 else
    if b == 0x5C then 0x4A else if b == 0x5D then 0x4C else if b == 0x5E then 0x58 else 0xCF
  }

  function SubRow6(b: byte): byte {
    if b == 0x60 then 0xD0 else if b == 0x61 then 0xEF else if b == 0x62 then 0xAA else if b == 0x63 then 0xFB else
    if b == 0x64 then 0x43 else if b == 0x65 then 0x4D else if b == 0x66 then 0x33 else if b == 0x67 then 0x85 else
    if b == 0x68 then 0x45 else if b == 0x69 then 0xF9 else if b == 0x6A then 0x02 else if b == 0x6B then 0x7F else
    if b == 0x6C then 0x50 else if b == 0x6D then 0x3C else if b == 0x6E then 0x9F else 0xA8
  }

  function SubRow7(b: byte): byte {
    if b == 0x70 then 0x51 else if b == 0x71 then 0xA3 else if b == 0x72 then 0x40 else if b == 0x73 then 0x8F else
    if b == 0x74 then 0x92 else if b == 0x75 then 0x9D else if b == 0x76 then 0x38 else if b == 0x77 then 0xF5 else
    if b == 0x78 then 0xBC else if b == 0x79 then 0xB6 else if b == 0x7A then 0xDA else if b == 0x7B then 0x21 else
    if b == 0x7C then 0x10 else if b == 0x7D then 0xFF else if b == 0x7E then 0xF3 else 0xD2
  }

  function SubRow8(b: byte): byte {
    if b == 0x80 then 0xCD else if b == 0x81 then 0x0C else if b == 0x82 then 0x13 else if b == 0x83 then 0xEC else
    if b == 0x84 then 0x5F else if b == 0x85 then 0x97 else if b == 0x86 then 0x44 else if b == 0x87 then 0x17 else
    if b == 0x88 then 0xC4 else if b == 0x89 then 0xA7 else if b == 0x8A then 0x7E else if b == 0x8B then 0x3D else
    if b == 0x8C then 0x64 else if b == 0x8D then 0x5D else if b == 0x8E then 0x19 else 0x73
  }

  function SubRow9(b: byte): byte {
    if b == 0x90 then 0x60 else if b == 0x91 then 0x81 else if b == 0x92 then 0x4F else if b == 0x93 then 0xDC else
    if b == 0x94 then 0x22 else if b == 0x95 then 0x2A else if b == 0x96 then 0x90 else if b == 0x97 then 0x88 else
    if b == 0x98 then 0x46 else if b == 0x99 then 0xEE else if b == 0x9A then 0xB8 else if b == 0x9B then 0x14 else
    if b == 0x9C then 0xDE else if b == 0x9D then 0x5E else if b == 0x9E then 0x0B else 0xDB
  }

  function SubRowA(b: byte): byte {
    if b == 0xA0 then 0xE0 else if b == 0xA1 then 0x32 else if b == 0xA2 then 0x3A else if b == 0xA3 then 0x0A else
    if b == 0xA4 then 0x49 else if b == 0xA5 then 0x06 else if b == 0xA6 then 0x24 else if b == 0xA7 then 0x5C else
    if b == 0xA8 then 0xC2 else if b == 0xA9 then 0xD3 else if b == 0xAA then 0xAC else if b == 0xAB then 0x62 else
    if b == 0xAC then 0x91 else if b == 0xAD then 0x95 else if b == 0xAE then 0xE4 else 0x79
  }

  function SubRowB(b: byte): byte {
    if b == 0xB0 then 0xE7 else if b == 0xB1 then 0xC8 else if b == 0xB2 then 0x37 else if b == 0xB3 then 0x6D else
    if b == 0xB4 then 0x8D else if b == 0xB5 then 0xD5 else if b == 0xB6 then 0x4E else if b == 0xB7 then 0xA9 else
    if b == 0xB8 then 0x6C else if b == 0xB9 then 0x56 else if b == 0xBA then 0xF4 else if b == 0xBB then 0xEA else
    if b == 0xBC then 0x65 else if b == 0xBD then 0x7A else if b == 0xBE then 0xAE else 0x08
  }

  function SubRowC(b: byte): byte {
    if b == 0xC0 then 0xBA else if b == 0xC1 then 0x78 else if b == 0xC2 then 0x25 else if b == 0xC3 then 0x2E else
    if b == 0xC4 then 0x1C else if b == 0xC5 then 0xA6 else if b == 0xC6 then 0xB4 else if b == 0xC7 then 0xC6 else
    if b == 0xC8 then 0xE8 else if b == 0xC9 then 0xDD else if b == 0xCA then 0x74 else if b == 0xCB then 0x1F else
    if b == 0xCC then 0x4B else if b == 0xCD then 0xBD else if b == 0xCE then 0x8B else 0x8A
  }

  function SubRowD(b: byte): byte {
    if b == 0xD0 then 0x70 else if b == 0xD1 then 0x3E else if b == 0xD2 then 0xB5 else if b == 0xD3 then 0x66 else
    if b == 0xD4 then 0x48 else if b == 0xD5 then 0x03 else if b == 0xD6 then 0xF6 else if b == 0xD7 then 0x0E else
    if b == 0xD8 then 0x61 else if b == 0xD9 then 0x35 else if b == 0xDA then 0x57 else if b == 0xDB then 0xB9 else
    if b == 0xDC then 0x86 else if b == 0xDD then 0xC1 else if b == 0xDE then 0x1D else 0x9E
  }

  function SubRowE(b: byte): byte {
    if b == 0xE0 then 0xE1 else if b == 0xE1 then 0xF8 else if b == 0xE2 then 0x98 else if b == 0xE3 then 0x11 else
    if b == 0xE4 then 0x69 else if b == 0xE5 then 0xD9 else if b == 0xE6 then 0x8E else if b == 0xE7 then 0x94 else
    if b == 0xE8 then 0x9B else if b == 0xE9 then 0x1E else if b == 0xEA then 0x87 else if b == 0xEB then 0xE9 else
    if b == 0xEC then 0xCE else if b == 0xED then 0x55 else if b == 0xEE then 0x28 else 0xDF
  }

  function SubRowF(b: byte): byte {
    if b == 0xF0 then 0x8C else if b == 0xF1 then 0xA1 else if b == 0xF2 then 0x89 else if b == 0xF3 then 0x0D else
    if b == 0xF4 then 0xBF else if b == 0xF5 then 0xE6 else if b == 0xF6 then 0x42 else if b == 0xF7 then 0x68 else
    if b == 0xF8 then 0x41 else if b == 0xF9 then 0x99 else if b == 0xFA then 0x2D else if b == 0xFB then 0x0F else
    if b == 0xFC then 0xB0 else if b == 0xFD then 0x54 else if b == 0xFE then 0xBB else 0x16
  }

  /** The forward table. */
  function Sub(b: byte): byte {
    if b < 0x10 then SubRow0(b) else
    if b < 0x20 then SubRow1(b) else
    if b < 0x30 then SubRow2(b) else
    if b < 0x40 then SubRow3(b) else
    if b < 0x50 then SubRow4(b) else
    if b < 0x60 then SubRow5(b) else
    if b < 0x70 then SubRow6(b) else
    if b < 0x80 then SubRow7(b) else
    if b < 0x90 then SubRow8(b) else
    if b < 0xA0 then SubRow9(b) else
    if b < 0xB0 then SubRowA(b) else
    if b < 0xC0 then SubRowB(b) else
    if b < 0xD0 then SubRowC(b) else
    if b < 0xE0 then SubRowD(b) else
    if b < 0xF0 then SubRowE(b) else SubRowF(b)
  }

  // ---- The inverse table -----------------------------------------------------------------

  function InvRow0(b: byte): byte {
    if b == 0x00 then 0x52 else if b == 0x01 then 0x09 else if b == 0x02 then 0x6A else if b == 0x03 then 0xD5 else
    if b == 0x04 then 0x30 else if b == 0x05 then 0x36 else if b == 0x06 then 0xA5 else if b == 0x07 then 0x38 else
    if b == 0x08 then 0xBF else if b == 0x09 then 0x40 else if b == 0x0A then 0xA3 else if b == 0x0B then 0x9E else
    if b == 0x0C then 0x81 else if b == 0x0D then 0xF3 else if b == 0x0E then 0xD7 else 0xFB
  }

  function InvRow1(b: byte): byte {
    if b == 0x10 then 0x7C else if b == 0x11 then 0xE3 else if b == 0x12 then 0x39 else if b == 0x13 then 0x82 else
    if b == 0x14 then 0x9B else if b == 0x15 then 0x2F else if b == 0x16 then 0xFF else if b == 0x17 then 0x87 else
    if b == 0x18 then 0x34 else if b == 0x19 then 0x8E else if b == 0x1A then 0x43 else if b == 0x1B then 0x44 else
    if b == 0x1C then 0xC4 else if b == 0x1D then 0xDE else if b == 0x1E then 0xE9 else 0xCB
  }

  function InvRow2(b: byte): byte {
    if b == 0x20 then 0x54 else if b == 0x21 then 0x7B else if b == 0x22 then 0x94 else if b == 0x23 then 0x32 else
    if b == 0x24 then 0xA6 else if b == 0x25 then 0xC2 else if b == 0x26 then 0x23 else if b == 0x27 then 0x3D else
    if b == 0x28 then 0xEE else if b == 0x29 then 0x4C else if b == 0x2A then 0x95 else if b == 0x2B then 0x0B else
    if b == 0x2C then 0x42 else if b == 0x2D then 0xFA else if b == 0x2E then 0xC3 else 0x4E
  }

  function InvRow3(b: byte): byte {
    if b == 0x30 then 0x08 else if b == 0x31 then 0x2E else if b == 0x32 then 0xA1 else if b == 0x33 then 0x66 else
    if b == 0x34 then 0x28 else if b == 0x35 then 0xD9 else if b == 0x36 then 0x24 else if b == 0x37 then 0xB2 else
    if b == 0x38 then 0x76 else if b == 0x39 then 0x5B else if b == 0x3A then 0xA2 else if b == 0x3B then 0x49 else
    if b == 0x3C then 0x6D else if b == 0x3D then 0x8B else if b == 0x3E then 0xD1 else 0x25
  }

  function InvRow4(b: byte): byte {
    if b == 0x40 then 0x72 else if b == 0x41 then 0xF8 else if b == 0x42 then 0xF6 else if b == 0x43 then 0x64 else
    if b == 0x44 then 0x86 else if b == 0x45 then 0x68 else if b == 0x46 then 0x98 else if b == 0x47 then 0x16 else
    if b == 0x48 then 0xD4 else if b == 0x49 then 0xA4 else if b == 0x4A then 0x5C else if b == 0x4B then 0xCC else
    if b == 0x4C then 0x5D else if b == 0x4D then 0x65 else if b == 0x4E then 0xB6 else 0x92
  }

  function InvRow5(b: byte): byte {
    if b == 0x50 then 0x6C else if b == 0x51 then 0x70 else if b == 0x52 then 0x48 else if b == 0x53 then 0x50 else
    if b == 0x54 then 0xFD else if b == 0x55 then 0xED else if b == 0x56 then 0xB9 else if b == 0x57 then 0xDA else
    if b == 0x58 then 0x5E else if b == 0x59 then 0x15 else if b == 0x5A then 0x46 else if b == 0x5B then 0x57 else
    if b == 0x5C then 0xA7 else if b == 0x5D then 0x8D else if b == 0x5E then 0x9D else 0x84
  }

  function InvRow6(b: byte): byte {
    if b == 0x60 then 0x90 else if b == 0x61 then 0xD8 else if b == 0x62 then 0xAB else if b == 0x63 then 0x00 else
    if b == 0x64 then 0x8C else if b == 0x65 then 0xBC else if b == 0x66 then 0xD3 else if b == 0x67 then 0x0A else
    if b == 0x68 then 0xF7 else if b == 0x69 then 0xE4 else if b == 0x6A then 0x58 else if b == 0x6B then 0x05 else
    if b == 0x6C then 0xB8 else if b == 0x6D then 0xB3 else if b == 0x6E then 0x45 else 0x06
  }

  function InvRow7(b: byte): byte {
    if b == 0x70 then 0xD0 else if b == 0x71 then 0x2C else if b == 0x72 then 0x1E else if b == 0x73 then 0x8F else
    if b == 0x74 then 0xCA else if b == 0x75 then 0x3F else if b == 0x76 then 0x0F else if b == 0x77 then 0x02 else
    if b == 0x78 then 0xC1 else if b == 0x79 then 0xAF else if b == 0x7A then 0xBD else if b == 0x7B then 0x03 else
    if b == 0x7C then 0x01 else if b == 0x7D then 0x13 else if b == 0x7E then 0x8A else 0x6B
  }

  function InvRow8(b: byte): byte {
    if b == 0x80 then 0x3A else if b == 0x81 then 0x91 else if b == 0x82 then 0x11 else if b == 0x83 then 0x41 else
    if b == 0x84 then 0x4F else if b == 0x85 then 0x67 else if b == 0x86 then 0xDC else if b == 0x87 then 0xEA else
    if b == 0x88 then 0x97 else if b == 0x89 then 0xF2 else if b == 0x8A then 0xCF else if b == 0x8B then 0xCE else
    if b == 0x8C then 0xF0 else if b == 0x8D then 0xB4 else if b == 0x8E then 0xE6 else 0x73
  }

  function InvRow9(b: byte): byte {
    if b == 0x90 then 0x96 else if b == 0x91 then 0xAC else if b == 0x92 then 0x74 else if b == 0x93 then 0x22 else
    if b == 0x94 then 0xE7 else if b == 0x95 then 0xAD else if b == 0x96 then 0x35 else if b == 0x97 then 0x85 else
    if b == 0x98 then 0xE2 else if b == 0x99 then 0xF9 else if b == 0x9A then 0x37 else if b == 0x9B then 0xE8 else
    if b == 0x9C then 0x1C else if b == 0x9D then 0x75 else if b == 0x9E then 0xDF else 0x6E
  }

  function InvRowA(b: byte): byte {
    if b == 0xA0 then 0x47 else if b == 0xA1 then 0xF1 else if b == 0xA2 then 0x1A else if b == 0xA3 then 0x71 else
    if b == 0xA4 then 0x1D else if b == 0xA5 then 0x29 else if b == 0xA6 then 0xC5 else if b == 0xA7 then 0x89 else
    if b == 0xA8 then 0x6F else if b == 0xA9 then 0xB7 else if b == 0xAA then 0x62 else if b == 0xAB then 0x0E else
    if b == 0xAC then 0xAA else if b == 0xAD then 0x18 else if b == 0xAE then 0xBE else 0x1B
  }

  function InvRowB(b: byte): byte {
    if b == 0xB0 then 0xFC else if b == 0xB1 then 0x56 else if b == 0xB2 then 0x3E else if b == 0xB3 then 0x4B else
    if b == 0xB4 then 0xC6 else if b == 0xB5 then 0xD2 else if b == 0xB6 then 0x79 else if b == 0xB7 then 0x20 else
    if b == 0xB8 then 0x9A else if b == 0xB9 then 0xDB else if b == 0xBA then 0xC0 else if b == 0xBB then 0xFE else
    if b == 0xBC then 0x78 else if b == 0xBD then 0xCD else if b == 0xBE then 0x5A else 0xF4
  }

  function InvRowC(b: byte): byte {
    if b == 0xC0 then 0x1F else if b == 0xC1 then 0xDD else if b == 0xC2 then 0xA8 else if b == 0xC3 then 0x33 else
    if b == 0xC4 then 0x88 else if b == 0xC5 then 0x07 else if b == 0xC6 then 0xC7 else if b == 0xC7 then 0x31 else
    if b == 0xC8 then 0xB1 else if b == 0xC9 then 0x12 else if b == 0xCA then 0x10 else if b == 0xCB then 0x59 else
    if b == 0xCC then 0x27 else if b == 0xCD then 0x80 else if b == 0xCE then 0xEC else 0x5F
  }

  function InvRowD(b: byte): byte {
    if b == 0xD0 then 0x60 else if b == 0xD1 then 0x51 else if b == 0xD2 then 0x7F else if b == 0xD3 then 0xA9 else
    if b == 0xD4 then 0x19 else if b == 0xD5 then 0xB5 else if b == 0xD6 then 0x4A else if b == 0xD7 then 0x0D else
    if b == 0xD8 then 0x2D else if b == 0xD9 then 0xE5 else if b == 0xDA then 0x7A else if b == 0xDB then 0x9F else
    if b == 0xDC then 0x93 else if b == 0xDD then 0xC9 else if b == 0xDE then 0x9C else 0xEF
  }

  function InvRowE(b: byte): byte {
    if b == 0xE0 then 0xA0 else if b == 0xE1 then 0xE0 else if b == 0xE2 then 0x3B else if b == 0xE3 then 0x4D else
    if b == 0xE4 then 0xAE else if b == 0xE5 then 0x2A else if b == 0xE6 then 0xF5 else if b == 0xE7 then 0xB0 else
    if b == 0xE8 then 0xC8 else if b == 0xE9 then 0xEB else if b == 0xEA then 0xBB else if b == 0xEB then 0x3C else
    if b == 0xEC then 0x83 else if b == 0xED then 0x53 else if b == 0xEE then 0x99 else 0x61
  }

  function InvRowF(b: byte): byte {
    if b == 0xF0 then 0x17 else if b == 0xF1 then 0x2B else if b == 0xF2 then 0x04 else if b == 0xF3 then 0x7E else
    if b == 0xF4 then 0xBA else if b == 0xF5 then 0x77 else if b == 0xF6 then 0xD6 else if b == 0xF7 then 0x26 else
    if b == 0xF8 then 0xE1 else if b == 0xF9 then 0x69 else if b == 0xFA then 0x14 else if b == 0xFB then 0x63 else
    if b == 0xFC then 0x55 else if b == 0xFD then 0x21 else if b == 0xFE then 0x0C else 0x7D
  }

  /** The inverse table. */
  function InvSub(b: byte): byte {
    if b < 0x10 then InvRow0(b) else
    if b < 0x20 then InvRow1(b) else
    if b < 0x30 then InvRow2(b) else
    if b < 0x40 then InvRow3(b) else
    if b < 0x50 then InvRow4(b) else
    if b < 0x60 then InvRow5(b) else
    if b < 0x70 then InvRow6(b) else
    if b < 0x80 then InvRow7(b) else
    if b < 0x90 then InvRow8(b) else
    if b < 0xA0 then InvRow9(b) else
    if b < 0xB0 then InvRowA(b) else
    if b < 0xC0 then InvRowB(b) else
    if b < 0xD0 then InvRowC(b) else
    if b < 0xE0 then InvRowD(b) else
    if b < 0xF0 then InvRowE(b) else InvRowF(b)
  }

  // ---- Each undoes the other -------------------------------------------------------------

  lemma UndoRow0(b: byte)
    requires b < 0x10
    ensures InvSub(SubRow0(b)) == b
  {
  }

  lemma UndoRow1(b: byte)
    requires 0x10 <= b < 0x20
    ensures InvSub(SubRow1(b)) == b
  {
  }

  lemma UndoRow2(b: byte)
    requires 0x20 <= b < 0x30
    ensures InvSub(SubRow2(b)) == b
  {
  }

  lemma UndoRow3(b: byte)
    requires 0x30 <= b < 0x40
    ensures InvSub(SubRow3(b)) == b
  {
  }

  lemma UndoRow4(b: byte)
    requires 0x40 <= b < 0x50
    ensures InvSub(SubRow4(b)) == b
  {
  }

  lemma UndoRow5(b: byte)
    requires 0x50 <= b < 0x60
    ensures InvSub(SubRow5(b)) == b
  {
  }

  lemma UndoRow6(b: byte)
    requires 0x60 <= b < 0x70
    ensures InvSub(SubRow6(b)) == b
  {
  }

  lemma UndoRow7(b: byte)
    requires 0x70 <= b < 0x80
    ensures InvSub(SubRow7(b)) == b
  {
  }

  lemma UndoRow8(b: byte)
    requires 0x80 <= b < 0x90
    ensures InvSub(SubRow8(b)) == b
  {
  }

  lemma UndoRow9(b: byte)
    requires 0x90 <= b < 0xA0
    ensures InvSub(SubRow9(b)) == b
  {
  }

  lemma UndoRowA(b: byte)
    requires 0xA0 <= b < 0xB0
    ensures InvSub(SubRowA(b)) == b
  {
  }

  lemma UndoRowB(b: byte)
    requires 0xB0 <= b < 0xC0
    ensures InvSub(SubRowB(b)) == b
  {
  }

  lemma UndoRowC(b: byte)
    requires 0xC0 <= b < 0xD0
    ensures InvSub(SubRowC(b)) == b
  {
  }

  lemma UndoRowD(b: byte)
    requires 0xD0 <= b < 0xE0
    ensures InvSub(SubRowD(b)) == b
  {
  }

  lemma UndoRowE(b: byte)
    requires 0xE0 <= b < 0xF0
    ensures InvSub(SubRowE(b)) == b
  {
  }

  lemma UndoRowF(b: byte)
    requires 0xF0 <= b
    ensures InvSub(SubRowF(b)) == b
  {
  }

  lemma InvSubSub(b: byte)
    ensures InvSub(Sub(b)) == b
  {
    hide SubRow0, SubRow1, SubRow2, SubRow3, SubRow4, SubRow5, SubRow6, SubRow7, SubRow8, SubRow9, SubRowA, SubRowB,
         SubRowC, SubRowD, SubRowE, SubRowF, InvSub;
    if b < 0x10 {
      UndoRow0(b);
    } else if b < 0x20 {
      UndoRow1(b);
    } else if b < 0x30 {
      UndoRow2(b);
    } else if b < 0x40 {
      UndoRow3(b);
    } else if b < 0x50 {
      UndoRow4(b);
    } else if b < 0x60 {
      UndoRow5(b);
    } else if b < 0x70 {
      UndoRow6(b);
    } else if b < 0x80 {
      UndoRow7(b);
    } else if b < 0x90 {
      UndoRow8(b);
    } else if b < 0xA0 {
      UndoRow9(b);
    } else if b < 0xB0 {
      UndoRowA(b);
    } else if b < 0xC0 {
      UndoRowB(b);
    } else if b < 0xD0 {
      UndoRowC(b);
    } else if b < 0xE0 {
      UndoRowD(b);
    } else if b < 0xF0 {
      UndoRowE(b);
    } else {
      UndoRowF(b);
    }
  }

  lemma RedoRow0(b: byte)
    requires b < 0x10
    ensures Sub(InvRow0(b)) == b
  {
  }

  lemma RedoRow1(b: byte)
    requires 0x10 <= b < 0x20
    ensures Sub(InvRow1(b)) == b
  {
  }

  lemma RedoRow2(b: byte)
    requires 0x20 <= b < 0x30
    ensures Sub(InvRow2(b)) == b
  {
  }

  lemma RedoRow3(b: byte)
    requires 0x30 <= b < 0x40
    ensures Sub(InvRow3(b)) == b
  {
  }

  lemma RedoRow4(b: byte)
    requires 0x40 <= b < 0x50
    ensures Sub(InvRow4(b)) == b
  {
  }

  lemma RedoRow5(b: byte)
    requires 0x50 <= b < 0x60
    ensures Sub(InvRow5(b)) == b
  {
  }

  lemma RedoRow6(b: byte)
    requires 0x60 <= b < 0x70
    ensures Sub(InvRow6(b)) == b
  {
  }

  lemma RedoRow7(b: byte)
    requires 0x70 <= b < 0x80
    ensures Sub(InvRow7(b)) == b
  {
  }

  lemma RedoRow8(b: byte)
    requires 0x80 <= b < 0x90
    ensures Sub(InvRow8(b)) == b
  {
  }

  lemma RedoRow9(b: byte)
    requires 0x90 <= b < 0xA0
    ensures Sub(InvRow9(b)) == b
  {
  }

  lemma RedoRowA(b: byte)
    requires 0xA0 <= b < 0xB0
    ensures Sub(InvRowA(b)) == b
  {
  }

  lemma RedoRowB(b: byte)
    requires 0xB0 <= b < 0xC0
    ensures Sub(InvRowB(b)) == b
  {
  }

  lemma RedoRowC(b: byte)
    requires 0xC0 <= b < 0xD0
    ensures Sub(InvRowC(b)) == b
  {
  }

  lemma RedoRowD(b: byte)
    requires 0xD0 <= b < 0xE0
    ensures Sub(InvRowD(b)) == b
  {
  }

  lemma RedoRowE(b: byte)
    requires 0xE0 <= b < 0xF0
    ensures Sub(InvRowE(b)) == b
  {
  }

  lemma RedoRowF(b: byte)
    requires 0xF0 <= b
    ensures Sub(InvRowF(b)) == b
  {
  }

  lemma SubInvSub(b: byte)
    ensures Sub(InvSub(b)) == b
  {
    hide InvRow0, InvRow1, InvRow2, InvRow3, InvRow4, InvRow5, InvRow6, InvRow7, InvRow8, InvRow9, InvRowA, InvRowB,
         InvRowC, InvRowD, InvRowE, InvRowF, Sub;
    if b < 0x10 {
      RedoRow0(b);
    } else if b < 0x20 {
      RedoRow1(b);
    } else if b < 0x30 {
      RedoRow2(b);
    } else if b < 0x40 {
      RedoRow3(b);
    } else if b < 0x50 {
      RedoRow4(b);
    } else if b < 0x60 {
      RedoRow5(b);
    } else if b < 0x70 {
      RedoRow6(b);
    } else if b < 0x80 {
      RedoRow7(b);
    } else if b < 0x90 {
      RedoRow8(b);
    } else if b < 0xA0 {
      RedoRow9(b);
    } else if b < 0xB0 {
      RedoRowA(b);
    } else if b < 0xC0 {
      RedoRowB(b);
    } else if b < 0xD0 {
      RedoRowC(b);
    } else if b < 0xE0 {
      RedoRowD(b);
    } else if b < 0xF0 {
      RedoRowE(b);
    } else {
      RedoRowF(b);
    }
  }

  lemma SubInjective(a: byte, b: byte)
    requires Sub(a) == Sub(b)
    ensures a == b
  {
    hide Sub, InvSub;
    InvSubSub(a);
    InvSubSub(b);
  }

  // ---- How the inverse table is built ----------------------------------------------------

  /** Entry Sub(i) is set to i, for i from 0 up; every entry is set, and none twice. */
  method BuildInverse() returns (table: array<byte>)
    ensures fresh(table) && table.Length == 256
    ensures forall b: byte :: table[Index(b)] == InvSub(b)
  {
    hide Sub, InvSub, ByteAt, Index;
    table := new byte[256];
    for i := 0 to 256
      invariant forall j :: 0 <= j < i ==> table[Index(Sub(ByteAt(j)))] == ByteAt(j)
    {
      table[Index(Sub(ByteAt(i)))] := ByteAt(i);
      forall j | 0 <= j < i ensures Index(Sub(ByteAt(j))) != Index(Sub(ByteAt(i))) {
        DistinctEntries(i, j);
      }
    }
    forall b: byte ensures table[Index(b)] == InvSub(b) {
      ByteAtIndex(InvSub(b));
      SubInvSub(b);
    }
  }

  lemma DistinctEntries(i: int, j: int)
    requires 0 <= j < i < 256
    ensures Index(Sub(ByteAt(j))) != Index(Sub(ByteAt(i)))
  {
    hide Sub, InvSub, ByteAt, Index;
    if Index(Sub(ByteAt(j))) == Index(Sub(ByteAt(i))) {
      ByteAtIndex(Sub(ByteAt(i)));
      ByteAtIndex(Sub(ByteAt(j)));
      SubInjective(ByteAt(i), ByteAt(j));
      IndexByteAt(i);
      IndexByteAt(j);
    }
  }
}
