/** The two S-boxes, one row per high nibble, and their inverse tables. */
module Sboxes {
  import opened Words

  function S0(x: u8): u8 {
    var lo := x % 0x10;
    match x / 0x10
    case 0x0 => (match lo
      case 0x0 => 0x3e case 0x1 => 0x72 case 0x2 => 0x5b case 0x3 => 0x47 case 0x4 => 0xca case 0x5 => 0xe0 case 0x6 => 0x00 case 0x7 => 0x33
      case 0x8 => 0x04 case 0x9 => 0xd1 case 0xa => 0x54 case 0xb => 0x98 case 0xc => 0x09 case 0xd => 0xb9 case 0xe => 0x6d case _ => 0xcb)
    case 0x1 => (match lo
      case 0x0 => 0x7b case 0x1 => 0x1b case 0x2 => 0xf9 case 0x3 => 0x32 case 0x4 => 0xaf case 0x5 => 0x9d case 0x6 => 0x6a case 0x7 => 0xa5
      case 0x8 => 0xb8 case 0x9 => 0x2d case 0xa => 0xfc case 0xb => 0x1d case 0xc => 0x08 case 0xd => 0x53 case 0xe => 0x03 case _ => 0x90)
    case 0x2 => (match lo
      case 0x0 => 0x4d case 0x1 => 0x4e case 0x2 => 0x84 case 0x3 => 0x99 case 0x4 => 0xe4 case 0x5 => 0xce case 0x6 => 0xd9 case 0x7 => 0x91
      case 0x8 => 0xdd case 0x9 => 0xb6 case 0xa => 0x85 case 0xb => 0x48 case 0xc => 0x8b case 0xd => 0x29 case 0xe => 0x6e case _ => 0xac)
    case 0x3 => (match lo
      case 0x0 => 0xcd case 0x1 => 0xc1 case 0x2 => 0xf8 case 0x3 => 0x1e case 0x4 => 0x73 case 0x5 => 0x43 case 0x6 => 0x69 case 0x7 => 0xc6
      case 0x8 => 0xb5 case 0x9 => 0xbd case 0xa => 0xfd case 0xb => 0x39 case 0xc => 0x63 case 0xd => 0x20 case 0xe => 0xd4 case _ => 0x38)
    case 0x4 => (match lo
      case 0x0 => 0x76 case 0x1 => 0x7d case 0x2 => 0xb2 case 0x3 => 0xa7 case 0x4 => 0xcf case 0x5 => 0xed case 0x6 => 0x57 case 0x7 => 0xc5
      case 0x8 => 0xf3 case 0x9 => 0x2c case 0xa => 0xbb case 0xb => 0x14 case 0xc => 0x21 case 0xd => 0x06 case 0xe => 0x55 case _ => 0x9b)
    case 0x5 => (match lo
      case 0x0 => 0xe3 case 0x1 => 0xef case 0x2 => 0x5e case 0x3 => 0x31 case 0x4 => 0x4f case 0x5 => 0x7f case 0x6 => 0x5a case 0x7 => 0xa4
      case 0x8 => 0x0d case 0x9 => 0x82 case 0xa => 0x51 case 0xb => 0x49 case 0xc => 0x5f case 0xd => 0xba case 0xe => 0x58 case _ => 0x1c)
    case 0x6 => (match lo
      case 0x0 => 0x4a case 0x1 => 0x16 case 0x2 => 0xd5 case 0x3 => 0x17 case 0x4 => 0xa8 case 0x5 => 0x92 case 0x6 => 0x24 case 0x7 => 0x1f
      case 0x8 => 0x8c case 0x9 => 0xff case 0xa => 0xd8 case 0xb => 0xae case 0xc => 0x2e case 0xd => 0x01 case 0xe => 0xd3 case _ => 0xad)
    case 0x7 => (match lo
      case 0x0 => 0x3b case 0x1 => 0x4b case 0x2 => 0xda case 0x3 => 0x46 case 0x4 => 0xeb case 0x5 => 0xc9 case 0x6 => 0xde case 0x7 => 0x9a
      case 0x8 => 0x8f case 0x9 => 0x87 case 0xa => 0xd7 case 0xb => 0x3a case 0xc => 0x80 case 0xd => 0x6f case 0xe => 0x2f case _ => 0xc8)
    case 0x8 => (match lo
      case 0x0 => 0xb1 case 0x1 => 0xb4 case 0x2 => 0x37 case 0x3 => 0xf7 case 0x4 => 0x0a case 0x5 => 0x22 case 0x6 => 0x13 case 0x7 => 0x28
      case 0x8 => 0x7c case 0x9 => 0xcc case 0xa => 0x3c case 0xb => 0x89 case 0xc => 0xc7 case 0xd => 0xc3 case 0xe => 0x96 case _ => 0x56)
    case 0x9 => (match lo
      case 0x0 => 0x07 case 0x1 => 0xbf case 0x2 => 0x7e case 0x3 => 0xf0 case 0x4 => 0x0b case 0x5 => 0x2b case 0x6 => 0x97 case 0x7 => 0x52
      case 0x8 => 0x35 case 0x9 => 0x41 case 0xa => 0x79 case 0xb => 0x61 case 0xc => 0xa6 case 0xd => 0x4c case 0xe => 0x10 case _ => 0xfe)
    case 0xa => (match lo
      case 0x0 => 0xbc case 0x1 => 0x26 case 0x2 => 0x95 case 0x3 => 0x88 case 0x4 => 0x8a case 0x5 => 0xb0 case 0x6 => 0xa3 case 0x7 => 0xfb
      case 0x8 => 0xc0 case 0x9 => 0x18 case 0xa => 0x94 case 0xb => 0xf2 case 0xc => 0xe1 case 0xd => 0xe5 case 0xe => 0xe9 case _ => 0x5d)
    case 0xb => (match lo
      case 0x0 => 0xd0 case 0x1 => 0xdc case 0x2 => 0x11 case 0x3 => 0x66 case 0x4 => 0x64 case 0x5 => 0x5c case 0x6 => 0xec case 0x7 => 0x59
      case 0x8 => 0x42 case 0x9 => 0x75 case 0xa => 0x12 case 0xb => 0xf5 case 0xc => 0x74 case 0xd => 0x9c case 0xe => 0xaa case _ => 0x23)
    case 0xc => (match lo
      case 0x0 => 0x0e case 0x1 => 0x86 case 0x2 => 0xab case 0x3 => 0xbe case 0x4 => 0x2a case 0x5 => 0x02 case 0x6 => 0xe7 case 0x7 => 0x67
      case 0x8 => 0xe6 case 0x9 => 0x44 case 0xa => 0xa2 case 0xb => 0x6c case 0xc => 0xc2 case 0xd => 0x93 case 0xe => 0x9f case _ => 0xf1)
    case 0xd => (match lo
      case 0x0 => 0xf6 case 0x1 => 0xfa case 0x2 => 0x36 case 0x3 => 0xd2 case 0x4 => 0x50 case 0x5 => 0x68 case 0x6 => 0x9e case 0x7 => 0x62
      case 0x8 => 0x71 case 0x9 => 0x15 case 0xa => 0x3d case 0xb => 0xd6 case 0xc => 0x40 case 0xd => 0xc4 case 0xe => 0xe2 case _ => 0x0f)
    case 0xe => (match lo
      case 0x0 => 0x8e case 0x1 => 0x83 case 0x2 => 0x77 case 0x3 => 0x6b case 0x4 => 0x25 case 0x5 => 0x05 case 0x6 => 0x3f case 0x7 => 0x0c
      case 0x8 => 0x30 case 0x9 => 0xea case 0xa => 0x70 case 0xb => 0xb7 case 0xc => 0xa1 case 0xd => 0xe8 case 0xe => 0xa9 case _ => 0x65)
    case _ => (match lo
      case 0x0 => 0x8d case 0x1 => 0x27 case 0x2 => 0x1a case 0x3 => 0xdb case 0x4 => 0x81 case 0x5 => 0xb3 case 0x6 => 0xa0 case 0x7 => 0xf4
      case 0x8 => 0x45 case 0x9 => 0x7a case 0xa => 0x19 case 0xb => 0xdf case 0xc => 0xee case 0xd => 0x78 case 0xe => 0x34 case _ => 0x60)
  }

  function S1(x: u8): u8 {
    var lo := x % 0x10;
    match x / 0x10
    case 0x0 => (match lo
      case 0x0 => 0x55 case 0x1 => 0xc2 case 0x2 => 0x63 case 0x3 => 0x71 case 0x4 => 0x3b case 0x5 => 0xc8 case 0x6 => 0x47 case 0x7 => 0x86
      case 0x8 => 0x9f case 0x9 => 0x3c case 0xa => 0xda case 0xb => 0x5b case 0xc => 0x29 case 0xd => 0xaa case 0xe => 0xfd case _ => 0x77)
    case 0x1 => (match lo
      case 0x0 => 0x8c case 0x1 => 0xc5 case 0x2 => 0x94 case 0x3 => 0x0c case 0x4 => 0xa6 case 0x5 => 0x1a case 0x6 => 0x13 case 0x7 => 0x00
      case 0x8 => 0xe3 case 0x9 => 0xa8 case 0xa => 0x16 case 0xb => 0x72 case 0xc => 0x40 case 0xd => 0xf9 case 0xe => 0xf8 case _ => 0x42)
    case 0x2 => (match lo
      case 0x0 => 0x44 case 0x1 => 0x26 case 0x2 => 0x68 case 0x3 => 0x96 case 0x4 => 0x81 case 0x5 => 0xd9 case 0x6 => 0x45 case 0x7 => 0x3e
      case 0x8 => 0x10 case 0x9 => 0x76 case 0xa => 0xc6 case 0xb => 0xa7 case 0xc => 0x8b case 0xd => 0x39 case 0xe => 0x43 case _ => 0xe1)
    case 0x3 => (match lo
      case 0x0 => 0x3a case 0x1 => 0xb5 case 0x2 => 0x56 case 0x3 => 0x2a case 0x4 => 0xc0 case 0x5 => 0x6d case 0x6 => 0xb3 case 0x7 => 0x05
      case 0x8 => 0x22 case 0x9 => 0x66 case 0xa => 0xbf case 0xb => 0xdc case 0xc => 0x0b case 0xd => 0xfa case 0xe => 0x62 case _ => 0x48)
    case 0x4 => (match lo
      case 0x0 => 0xdd case 0x1 => 0x20 case 0x2 => 0x11 case 0x3 => 0x06 case 0x4 => 0x36 case 0x5 => 0xc9 case 0x6 => 0xc1 case 0x7 => 0xcf
      case 0x8 => 0xf6 case 0x9 => 0x27 case 0xa => 0x52 case 0xb => 0xbb case 0xc => 0x69 case 0xd => 0xf5 case 0xe => 0xd4 case _ => 0x87)
    case 0x5 => (match lo
      case 0x0 => 0x7f case 0x1 => 0x84 case 0x2 => 0x4c case 0x3 => 0xd2 case 0x4 => 0x9c case 0x5 => 0x57 case 0x6 => 0xa4 case 0x7 => 0xbc
      case 0x8 => 0x4f case 0x9 => 0x9a case 0xa => 0xdf case 0xb => 0xfe case 0xc => 0xd6 case 0xd => 0x8d case 0xe => 0x7a case _ => 0xeb)
    case 0x6 => (match lo
      case 0x0 => 0x2b case 0x1 => 0x53 case 0x2 => 0xd8 case 0x3 => 0x5c case 0x4 => 0xa1 case 0x5 => 0x14 case 0x6 => 0x17 case 0x7 => 0xfb
      case 0x8 => 0x23 case 0x9 => 0xd5 case 0xa => 0x7d case 0xb => 0x30 case 0xc => 0x67 case 0xd => 0x73 case 0xe => 0x08 case _ => 0x09)
    case 0x7 => (match lo
      case 0x0 => 0xee case 0x1 => 0xb7 case 0x2 => 0x70 case 0x3 => 0x3f case 0x4 => 0x61 case 0x5 => 0xb2 case 0x6 => 0x19 case 0x7 => 0x8e
      case 0x8 => 0x4e case 0x9 => 0xe5 case 0xa => 0x4b case 0xb => 0x93 case 0xc => 0x8f case 0xd => 0x5d case 0xe => 0xdb case _ => 0xa9)
    case 0x8 => (match lo
      case 0x0 => 0xad case 0x1 => 0xf1 case 0x2 => 0xae case 0x3 => 0x2e case 0x4 => 0xcb case 0x5 => 0x0d case 0x6 => 0xfc case 0x7 => 0xf4
      case 0x8 => 0x2d case 0x9 => 0x46 case 0xa => 0x6e case 0xb => 0x1d case 0xc => 0x97 case 0xd => 0xe8 case 0xe => 0xd1 case _ => 0xe9)
    case 0x9 => (match lo
      case 0x0 => 0x4d case 0x1 => 0x37 case 0x2 => 0xa5 case 0x3 => 0x75 case 0x4 => 0x5e case 0x5 => 0x83 case 0x6 => 0x9e case 0x7 => 0xab
      case 0x8 => 0x82 case 0x9 => 0x9d case 0xa => 0xb9 case 0xb => 0x1c case 0xc => 0xe0 case 0xd => 0xcd case 0xe => 0x49 case _ => 0x89)
    case 0xa => (match lo
      case 0x0 => 0x01 case 0x1 => 0xb6 case 0x2 => 0xbd case 0x3 => 0x58 case 0x4 => 0x24 case 0x5 => 0xa2 case 0x6 => 0x5f case 0x7 => 0x38
      case 0x8 => 0x78 case 0x9 => 0x99 case 0xa => 0x15 case 0xb => 0x90 case 0xc => 0x50 case 0xd => 0xb8 case 0xe => 0x95 case _ => 0xe4)
    case 0xb => (match lo
      case 0x0 => 0xd0 case 0x1 => 0x91 case 0x2 => 0xc7 case 0x3 => 0xce case 0x4 => 0xed case 0x5 => 0x0f case 0x6 => 0xb4 case 0x7 => 0x6f
      case 0x8 => 0xa0 case 0x9 => 0xcc case 0xa => 0xf0 case 0xb => 0x02 case 0xc => 0x4a case 0xd => 0x79 case 0xe => 0xc3 case _ => 0xde)
    case 0xc => (match lo
      case 0x0 => 0xa3 case 0x1 => 0xef case 0x2 => 0xea case 0x3 => 0x51 case 0x4 => 0xe6 case 0x5 => 0x6b case 0x6 => 0x18 case 0x7 => 0xec
      case 0x8 => 0x1b case 0x9 => 0x2c case 0xa => 0x80 case 0xb => 0xf7 case 0xc => 0x74 case 0xd => 0xe7 case 0xe => 0xff case _ => 0x21)
    case 0xd => (match lo
      case 0x0 => 0x5a case 0x1 => 0x6a case 0x2 => 0x54 case 0x3 => 0x1e case 0x4 => 0x41 case 0x5 => 0x31 case 0x6 => 0x92 case 0x7 => 0x35
      case 0x8 => 0xc4 case 0x9 => 0x33 case 0xa => 0x07 case 0xb => 0x0a case 0xc => 0xba case 0xd => 0x7e case 0xe => 0x0e case _ => 0x34)
    case 0xe => (match lo
      case 0x0 => 0x88 case 0x1 => 0xb1 case 0x2 => 0x98 case 0x3 => 0x7c case 0x4 => 0xf3 case 0x5 => 0x3d case 0x6 => 0x60 case 0x7 => 0x6c
      case 0x8 => 0x7b case 0x9 => 0xca case 0xa => 0xd3 case 0xb => 0x1f case 0xc => 0x32 case 0xd => 0x65 case 0xe => 0x04 case _ => 0x28)
    case _ => (match lo
      case 0x0 => 0x64 case 0x1 => 0xbe case 0x2 => 0x85 case 0x3 => 0x9b case 0x4 => 0x2f case 0x5 => 0x59 case 0x6 => 0x8a case 0x7 => 0xd7
      case 0x8 => 0xb0 case 0x9 => 0x25 case 0xa => 0xac case 0xb => 0xaf case 0xc => 0x12 case 0xd => 0x03 case 0xe => 0xe2 case _ => 0xf2)
  }

  function S0Inverse(x: u8): u8 {
    var lo := x % 0x10;
    match x / 0x10
    case 0x0 => (match lo
      case 0x0 => 0x06 case 0x1 => 0x6d case 0x2 => 0xc5 case 0x3 => 0x1e case 0x4 => 0x08 case 0x5 => 0xe5 case 0x6 => 0x4d case 0x7 => 0x90
      case 0x8 => 0x1c case 0x9 => 0x0c case 0xa => 0x84 case 0xb => 0x94 case 0xc => 0xe7 case 0xd => 0x58 case 0xe => 0xc0 case _ => 0xdf)
    case 0x1 => (match lo
      case 0x0 => 0x9e case 0x1 => 0xb2 case 0x2 => 0xba case 0x3 => 0x86 case 0x4 => 0x4b case 0x5 => 0xd9 case 0x6 => 0x61 case 0x7 => 0x63
      case 0x8 => 0xa9 case 0x9 => 0xfa case 0xa => 0xf2 case 0xb => 0x11 case 0xc => 0x5f case 0xd => 0x1b case 0xe => 0x33 case _ => 0x67)
    case 0x2 => (match lo
      case 0x0 => 0x3d case 0x1 => 0x4c case 0x2 => 0x85 case 0x3 => 0xbf case 0x4 => 0x66 case 0x5 => 0xe4 case 0x6 => 0xa1 case 0x7 => 0xf1
      case 0x8 => 0x87 case 0x9 => 0x2d case 0xa => 0xc4 case 0xb => 0x95 case 0xc => 0x49 case 0xd => 0x19 case 0xe => 0x6c case _ => 0x7e)
    case 0x3 => (match lo
      case 0x0 => 0xe8 case 0x1 => 0x53 case 0x2 => 0x13 case 0x3 => 0x07 case 0x4 => 0xfe case 0x5 => 0x98 case 0x6 => 0xd2 case 0x7 => 0x82
      case 0x8 => 0x3f case 0x9 => 0x3b case 0xa => 0x7b case 0xb => 0x70 case 0xc => 0x8a case 0xd => 0xda case 0xe => 0x00 case _ => 0xe6)
    case 0x4 => (match lo
      case 0x0 => 0xdc case 0x1 => 0x99 case 0x2 => 0xb8 case 0x3 => 0x35 case 0x4 => 0xc9 case 0x5 => 0xf8 case 0x6 => 0x73 case 0x7 => 0x03
      case 0x8 => 0x2b case 0x9 => 0x5b case 0xa => 0x60 case 0xb => 0x71 case 0xc => 0x9d case 0xd => 0x20 case 0xe => 0x21 case _ => 0x54)
    case 0x5 => (match lo
      case 0x0 => 0xd4 case 0x1 => 0x5a case 0x2 => 0x97 case 0x3 => 0x1d case 0x4 => 0x0a case 0x5 => 0x4e case 0x6 => 0x8f case 0x7 => 0x46
      case 0x8 => 0x5e case 0x9 => 0xb7 case 0xa => 0x56 case 0xb => 0x02 case 0xc => 0xb5 case 0xd => 0xaf case 0xe => 0x52 case _ => 0x5c)
    case 0x6 => (match lo
      case 0x0 => 0xff case 0x1 => 0x9b case 0x2 => 0xd7 case 0x3 => 0x3c case 0x4 => 0xb4 case 0x5 => 0xef case 0x6 => 0xb3 case 0x7 => 0xc7
      case 0x8 => 0xd5 case 0x9 => 0x36 case 0xa => 0x16 case 0xb => 0xe3 case 0xc => 0xcb case 0xd => 0x0e case 0xe => 0x2e case _ => 0x7d)
    case 0x7 => (match lo
      case 0x0 => 0xea case 0x1 => 0xd8 case 0x2 => 0x01 case 0x3 => 0x34 case 0x4 => 0xbc case 0x5 => 0xb9 case 0x6 => 0x40 case 0x7 => 0xe2
      case 0x8 => 0xfd case 0x9 => 0x9a case 0xa => 0xf9 case 0xb => 0x10 case 0xc => 0x88 case 0xd => 0x41 case 0xe => 0x92 case _ => 0x55)
    case 0x8 => (match lo
      case 0x0 => 0x7c case 0x1 => 0xf4 case 0x2 => 0x59 case 0x3 => 0xe1 case 0x4 => 0x22 case 0x5 => 0x2a case 0x6 => 0xc1 case 0x7 => 0x79
      case 0x8 => 0xa3 case 0x9 => 0x8b case 0xa => 0xa4 case 0xb => 0x2c case 0xc => 0x68 case 0xd => 0xf0 case 0xe => 0xe0 case _ => 0x78)
    case 0x9 => (match lo
      case 0x0 => 0x1f case 0x1 => 0x27 case 0x2 => 0x65 case 0x3 => 0xcd case 0x4 => 0xaa case 0x5 => 0xa2 case 0x6 => 0x8e case 0x7 => 0x96
      case 0x8 => 0x0b case 0x9 => 0x23 case 0xa => 0x77 case 0xb => 0x4f case 0xc => 0xbd case 0xd => 0x15 case 0xe => 0xd6 case _ => 0xce)
    case 0xa => (match lo
      case 0x0 => 0xf6 case 0x1 => 0xec case 0x2 => 0xca case 0x3 => 0xa6 case 0x4 => 0x57 case 0x5 => 0x17 case 0x6 => 0x9c case 0x7 => 0x43
      case 0x8 => 0x64 case 0x9 => 0xee case 0xa => 0xbe case 0xb => 0xc2 case 0xc => 0x2f case 0xd => 0x6f case 0xe => 0x6b case _ => 0x14)
    case 0xb => (match lo
      case 0x0 => 0xa5 case 0x1 => 0x80 case 0x2 => 0x42 case 0x3 => 0xf5 case 0x4 => 0x81 case 0x5 => 0x38 case 0x6 => 0x29 case 0x7 => 0xeb
      case 0x8 => 0x18 case 0x9 => 0x0d case 0xa => 0x5d case 0xb => 0x4a case 0xc => 0xa0 case 0xd => 0x39 case 0xe => 0xc3 case _ => 0x91)
    case 0xc => (match lo
      case 0x0 => 0xa8 case 0x1 => 0x31 case 0x2 => 0xcc case 0x3 => 0x8d case 0x4 => 0xdd case 0x5 => 0x47 case 0x6 => 0x37 case 0x7 => 0x8c
      case 0x8 => 0x7f case 0x9 => 0x75 case 0xa => 0x04 case 0xb => 0x0f case 0xc => 0x89 case 0xd => 0x30 case 0xe => 0x25 case _ => 0x44)
    case 0xd => (match lo
      case 0x0 => 0xb0 case 0x1 => 0x09 case 0x2 => 0xd3 case 0x3 => 0x6e case 0x4 => 0x3e case 0x5 => 0x62 case 0x6 => 0xdb case 0x7 => 0x7a
      case 0x8 => 0x6a case 0x9 => 0x26 case 0xa => 0x72 case 0xb => 0xf3 case 0xc => 0xb1 case 0xd => 0x28 case 0xe => 0x76 case _ => 0xfb)
    case 0xe => (match lo
      case 0x0 => 0x05 case 0x1 => 0xac case 0x2 => 0xde case 0x3 => 0x50 case 0x4 => 0x24 case 0x5 => 0xad case 0x6 => 0xc8 case 0x7 => 0xc6
      case 0x8 => 0xed case 0x9 => 0xae case 0xa => 0xe9 case 0xb => 0x74 case 0xc => 0xb6 case 0xd => 0x45 case 0xe => 0xfc case _ => 0x51)
    case _ => (match lo
      case 0x0 => 0x93 case 0x1 => 0xcf case 0x2 => 0xab case 0x3 => 0x48 case 0x4 => 0xf7 case 0x5 => 0xbb case 0x6 => 0xd0 case 0x7 => 0x83
      case 0x8 => 0x32 case 0x9 => 0x12 case 0xa => 0xd1 case 0xb => 0xa7 case 0xc => 0x1a case 0xd => 0x3a case 0xe => 0x9f case _ => 0x69)
  }

  function S1Inverse(x: u8): u8 {
    var lo := x % 0x10;
    match x / 0x10
    case 0x0 => (match lo
      case 0x0 => 0x17 case 0x1 => 0xa0 case 0x2 => 0xbb case 0x3 => 0xfd case 0x4 => 0xee case 0x5 => 0x37 case 0x6 => 0x43 case 0x7 => 0xda
      case 0x8 => 0x6e case 0x9 => 0x6f case 0xa => 0xdb case 0xb => 0x3c case 0xc => 0x13 case 0xd => 0x85 case 0xe => 0xde case _ => 0xb5)
    case 0x1 => (match lo
      case 0x0 => 0x28 case 0x1 => 0x42 case 0x2 => 0xfc case 0x3 => 0x16 case 0x4 => 0x65 case 0x5 => 0xaa case 0x6 => 0x1a case 0x7 => 0x66
      case 0x8 => 0xc6 case 0x9 => 0x76 case 0xa => 0x15 case 0xb => 0xc8 case 0xc => 0x9b case 0xd => 0x8b case 0xe => 0xd3 case _ => 0xeb)
    case 0x2 => (match lo
      case 0x0 => 0x41 case 0x1 => 0xcf case 0x2 => 0x38 case 0x3 => 0x68 case 0x4 => 0xa4 case 0x5 => 0xf9 case 0x6 => 0x21 case 0x7 => 0x49
      case 0x8 => 0xef case 0x9 => 0x0c case 0xa => 0x33 case 0xb => 0x60 case 0xc => 0xc9 case 0xd => 0x88 case 0xe => 0x83 case _ => 0xf4)
    case 0x3 => (match lo
      case 0x0 => 0x6b case 0x1 => 0xd5 case 0x2 => 0xec case 0x3 => 0xd9 case 0x4 => 0xdf case 0x5 => 0xd7 case 0x6 => 0x44 case 0x7 => 0x91
      case 0x8 => 0xa7 case 0x9 => 0x2d case 0xa => 0x30 case 0xb => 0x04 case 0xc => 0x09 case 0xd => 0xe5 case 0xe => 0x27 case _ => 0x73)
    case 0x4 => (match lo
      case 0x0 => 0x1c case 0x1 => 0xd4 case 0x2 => 0x1f case 0x3 => 0x2e case 0x4 => 0x20 case 0x5 => 0x26 case 0x6 => 0x89 case 0x7 => 0x06
      case 0x8 => 0x3f case 0x9 => 0x9e case 0xa => 0xbc case 0xb => 0x7a case 0xc => 0x52 case 0xd => 0x90 case 0xe => 0x78 case _ => 0x58)
    case 0x5 => (match lo
      case 0x0 => 0xac case 0x1 => 0xc3 case 0x2 => 0x4a case 0x3 => 0x61 case 0x4 => 0xd2 case 0x5 => 0x00 case 0x6 => 0x32 case 0x7 => 0x55
      case 0x8 => 0xa3 case 0x9 => 0xf5 case 0xa => 0xd0 case 0xb => 0x0b case 0xc => 0x63 case 0xd => 0x7d case 0xe => 0x94 case _ => 0xa6)
    case 0x6 => (match lo
      case 0x0 => 0xe6 case 0x1 => 0x74 case 0x2 => 0x3e case 0x3 => 0x02 case 0x4 => 0xf0 case 0x5 => 0xed case 0x6 => 0x39 case 0x7 => 0x6c
      case 0x8 => 0x22 case 0x9 => 0x4c case 0xa => 0xd1 case 0xb => 0xc5 case 0xc => 0xe7 case 0xd => 0x35 case 0xe => 0x8a case _ => 0xb7)
    case 0x7 => (match lo
      case 0x0 => 0x72 case 0x1 => 0x03 case 0x2 => 0x1b case 0x3 => 0x6d case 0x4 => 0xcc case 0x5 => 0x93 case 0x6 => 0x29 case 0x7 => 0x0f
      case 0x8 => 0xa8 case 0x9 => 0xbd case 0xa => 0x5e case 0xb => 0xe8 case 0xc => 0xe3 case 0xd => 0x6a case 0xe => 0xdd case _ => 0x50)
    case 0x8 => (match lo
      case 0x0 => 0xca case 0x1 => 0x24 case 0x2 => 0x98 case 0x3 => 0x95 case 0x4 => 0x51 case 0x5 => 0xf2 case 0x6 => 0x07 case 0x7 => 0x4f
      case 0x8 => 0xe0 case 0x9 => 0x9f case 0xa => 0xf6 case 0xb => 0x2c case 0xc => 0x10 case 0xd => 0x5d case 0xe => 0x77 case _ => 0x7c)
    case 0x9 => (match lo
      case 0x0 => 0xab case 0x1 => 0xb1 case 0x2 => 0xd6 case 0x3 => 0x7b case 0x4 => 0x12 case 0x5 => 0xae case 0x6 => 0x23 case 0x7 => 0x8c
      case 0x8 => 0xe2 case 0x9 => 0xa9 case 0xa => 0x59 case 0xb => 0xf3 case 0xc => 0x54 case 0xd => 0x99 case 0xe => 0x96 case _ => 0x08)
    case 0xa => (match lo
      case 0x0 => 0xb8 case 0x1 => 0x64 case 0x2 => 0xa5 case 0x3 => 0xc0 case 0x4 => 0x56 case 0x5 => 0x92 case 0x6 => 0x14 case 0x7 => 0x2b
      case 0x8 => 0x19 case 0x9 => 0x7f case 0xa => 0x0d case 0xb => 0x97 case 0xc => 0xfa case 0xd => 0x80 case 0xe => 0x82 case _ => 0xfb)
    case 0xb => (match lo
      case 0x0 => 0xf8 case 0x1 => 0xe1 case 0x2 => 0x75 case 0x3 => 0x36 case 0x4 => 0xb6 case 0x5 => 0x31 case 0x6 => 0xa1 case 0x7 => 0x71
      case 0x8 => 0xad case 0x9 => 0x9a case 0xa => 0xdc case 0xb => 0x4b case 0xc => 0x57 case 0xd => 0xa2 case 0xe => 0xf1 case _ => 0x3a)
    case 0xc => (match lo
      case 0x0 => 0x34 case 0x1 => 0x46 case 0x2 => 0x01 case 0x3 => 0xbe case 0x4 => 0xd8 case 0x5 => 0x11 case 0x6 => 0x2a case 0x7 => 0xb2
      case 0x8 => 0x05 case 0x9 => 0x45 case 0xa => 0xe9 case 0xb => 0x84 case 0xc => 0xb9 case 0xd => 0x9d case 0xe => 0xb3 case _ => 0x47)
    case 0xd => (match lo
      case 0x0 => 0xb0 case 0x1 => 0x8e case 0x2 => 0x53 case 0x3 => 0xea case 0x4 => 0x4e case 0x5 => 0x69 case 0x6 => 0x5c case 0x7 => 0xf7
      case 0x8 => 0x62 case 0x9 => 0x25 case 0xa => 0x0a case 0xb => 0x7e case 0xc => 0x3b case 0xd => 0x40 case 0xe => 0xbf case _ => 0x5a)
    case 0xe => (match lo
      case 0x0 => 0x9c case 0x1 => 0x2f case 0x2 => 0xfe case 0x3 => 0x18 case 0x4 => 0xaf case 0x5 => 0x79 case 0x6 => 0xc4 case 0x7 => 0xcd
      case 0x8 => 0x8d case 0x9 => 0x8f case 0xa => 0xc2 case 0xb => 0x5f case 0xc => 0xc7 case 0xd => 0xb4 case 0xe => 0x70 case _ => 0xc1)
    case _ => (match lo
      case 0x0 => 0xba case 0x1 => 0x81 case 0x2 => 0xff case 0x3 => 0xe4 case 0x4 => 0x87 case 0x5 => 0x4d case 0x6 => 0x48 case 0x7 => 0xcb
      case 0x8 => 0x1e case 0x9 => 0x1d case 0xa => 0x3d case 0xb => 0x67 case 0xc => 0x86 case 0xd => 0x0e case 0xe => 0x5b case _ => 0xce)
  }

  lemma S0Undone0(x: u8)
    requires x < 0x40
    ensures S0Inverse(S0(x)) == x
  {
  }

  lemma S0Undone1(x: u8)
    requires 0x40 <= x < 0x80
    ensures S0Inverse(S0(x)) == x
  {
  }

  lemma S0Undone2(x: u8)
    requires 0x80 <= x < 0xC0
    ensures S0Inverse(S0(x)) == x
  {
  }

  lemma S0Undone3(x: u8)
    requires 0xC0 <= x
    ensures S0Inverse(S0(x)) == x
  {
  }

  lemma S0Reached0(x: u8)
    requires x < 0x40
    ensures S0(S0Inverse(x)) == x
  {
  }

  lemma S0Reached1(x: u8)
    requires 0x40 <= x < 0x80
    ensures S0(S0Inverse(x)) == x
  {
  }

  lemma S0Reached2(x: u8)
    requires 0x80 <= x < 0xC0
    ensures S0(S0Inverse(x)) == x
  {
  }

  lemma S0Reached3(x: u8)
    requires 0xC0 <= x
    ensures S0(S0Inverse(x)) == x
  {
  }

  lemma S0Bijective(x: u8)
    ensures S0Inverse(S0(x)) == x
    ensures S0(S0Inverse(x)) == x
  {
    hide S0, S0Inverse;
    if x < 0x40 {
      S0Undone0(x);
      S0Reached0(x);
    } else if x < 0x80 {
      S0Undone1(x);
      S0Reached1(x);
    } else if x < 0xC0 {
      S0Undone2(x);
      S0Reached2(x);
    } else {
      S0Undone3(x);
      S0Reached3(x);
    }
  }

  lemma S1Undone0(x: u8)
    requires x < 0x40
    ensures S1Inverse(S1(x)) == x
  {
  }

  lemma S1Undone1(x: u8)
    requires 0x40 <= x < 0x80
    ensures S1Inverse(S1(x)) == x
  {
  }

  lemma S1Undone2(x: u8)
    requires 0x80 <= x < 0xC0
    ensures S1Inverse(S1(x)) == x
  {
  }

  lemma S1Undone3(x: u8)
    requires 0xC0 <= x
    ensures S1Inverse(S1(x)) == x
  {
  }

  lemma S1Reached0(x: u8)
    requires x < 0x40
    ensures S1(S1Inverse(x)) == x
  {
  }

  lemma S1Reached1(x: u8)
    requires 0x40 <= x < 0x80
    ensures S1(S1Inverse(x)) == x
  {
  }

  lemma S1Reached2(x: u8)
    requires 0x80 <= x < 0xC0
    ensures S1(S1Inverse(x)) == x
  {
  }

  lemma S1Reached3(x: u8)
    requires 0xC0 <= x
    ensures S1(S1Inverse(x)) == x
  {
  }

  lemma S1Bijective(x: u8)
    ensures S1Inverse(S1(x)) == x
    ensures S1(S1Inverse(x)) == x
  {
    hide S1, S1Inverse;
    if x < 0x40 {
      S1Undone0(x);
      S1Reached0(x);
    } else if x < 0x80 {
      S1Undone1(x);
      S1Reached1(x);
    } else if x < 0xC0 {
      S1Undone2(x);
      S1Reached2(x);
    } else {
      S1Undone3(x);
      S1Reached3(x);
    }
  }
}
