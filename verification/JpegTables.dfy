/** The Huffman tables of Annex K.3 of ITU-T T.81. */
module JpegTables {
  import opened Bits
  import opened JpegHuffman

  const DC_LUMA_BITS: seq<nat> := [0, 1, 5, 1, 1, 1, 1, 1, 1, 0, 0, 0, 0, 0, 0, 0]
  const DC_CHROMA_BITS: seq<nat> := [0, 3, 1, 1, 1, 1, 1, 1, 1, 1, 1, 0, 0, 0, 0, 0]
  const AC_LUMA_BITS: seq<nat> := [0, 2, 1, 3, 3, 2, 4, 3, 5, 5, 4, 4, 0, 0, 1, 125]
  const AC_CHROMA_BITS: seq<nat> := [0, 2, 1, 2, 4, 4, 3, 4, 7, 5, 4, 4, 0, 1, 2, 119]

  function DcVals(): seq<byte> {
    seq(12, k requires 0 <= k < 12 => k)
  }

  /** The AC symbols, sixteen to a row. */
  function AcLumaSymbol(row: nat, column: nat): byte {
    match row
    case 0 => (match column
      case 0 => 0x01 case 1 => 0x02 case 2 => 0x03 case 3 => 0x00
      case 4 => 0x04 case 5 => 0x11 case 6 => 0x05 case 7 => 0x12
      case 8 => 0x21 case 9 => 0x31 case 10 => 0x41 case 11 => 0x06
      case 12 => 0x13 case 13 => 0x51 case 14 => 0x61 case 15 => 0x07
      case _ => 0)
    case 1 => (match column
      case 0 => 0x22 case 1 => 0x71 case 2 => 0x14 case 3 => 0x32
      case 4 => 0x81 case 5 => 0x91 case 6 => 0xa1 case 7 => 0x08
      case 8 => 0x23 case 9 => 0x42 case 10 => 0xb1 case 11 => 0xc1
      case 12 => 0x15 case 13 => 0x52 case 14 => 0xd1 case 15 => 0xf0
      case _ => 0)
    case 2 => (match column
      case 0 => 0x24 case 1 => 0x33 case 2 => 0x62 case 3 => 0x72
      case 4 => 0x82 case 5 => 0x09 case 6 => 0x0a case 7 => 0x16
      case 8 => 0x17 case 9 => 0x18 case 10 => 0x19 case 11 => 0x1a
      case 12 => 0x25 case 13 => 0x26 case 14 => 0x27 case 15 => 0x28
      case _ => 0)
    case 3 => (match column
      case 0 => 0x29 case 1 => 0x2a case 2 => 0x34 case 3 => 0x35
      case 4 => 0x36 case 5 => 0x37 case 6 => 0x38 case 7 => 0x39
      case 8 => 0x3a case 9 => 0x43 case 10 => 0x44 case 11 => 0x45
      case 12 => 0x46 case 13 => 0x47 case 14 => 0x48 case 15 => 0x49
      case _ => 0)
    case 4 => (match column
      case 0 => 0x4a case 1 => 0x53 case 2 => 0x54 case 3 => 0x55
      case 4 => 0x56 case 5 => 0x57 case 6 => 0x58 case 7 => 0x59
      case 8 => 0x5a case 9 => 0x63 case 10 => 0x64 case 11 => 0x65
      case 12 => 0x66 case 13 => 0x67 case 14 => 0x68 case 15 => 0x69
      case _ => 0)
    case 5 => (match column
      case 0 => 0x6a case 1 => 0x73 case 2 => 0x74 case 3 => 0x75
      case 4 => 0x76 case 5 => 0x77 case 6 => 0x78 case 7 => 0x79
      case 8 => 0x7a case 9 => 0x83 case 10 => 0x84 case 11 => 0x85
      case 12 => 0x86 case 13 => 0x87 case 14 => 0x88 case 15 => 0x89
      case _ => 0)
    case 6 => (match column
      case 0 => 0x8a case 1 => 0x92 case 2 => 0x93 case 3 => 0x94
      case 4 => 0x95 case 5 => 0x96 case 6 => 0x97 case 7 => 0x98
      case 8 => 0x99 case 9 => 0x9a case 10 => 0xa2 case 11 => 0xa3
      case 12 => 0xa4 case 13 => 0xa5 case 14 => 0xa6 case 15 => 0xa7
      case _ => 0)
    case 7 => (match column
      case 0 => 0xa8 case 1 => 0xa9 case 2 => 0xaa case 3 => 0xb2
      case 4 => 0xb3 case 5 => 0xb4 case 6 => 0xb5 case 7 => 0xb6
      case 8 => 0xb7 case 9 => 0xb8 case 10 => 0xb9 case 11 => 0xba
      case 12 => 0xc2 case 13 => 0xc3 case 14 => 0xc4 case 15 => 0xc5
      case _ => 0)
    case 8 => (match column
      case 0 => 0xc6 case 1 => 0xc7 case 2 => 0xc8 case 3 => 0xc9
      case 4 => 0xca case 5 => 0xd2 case 6 => 0xd3 case 7 => 0xd4
      case 8 => 0xd5 case 9 => 0xd6 case 10 => 0xd7 case 11 => 0xd8
      case 12 => 0xd9 case 13 => 0xda case 14 => 0xe1 case 15 => 0xe2
      case _ => 0)
    case 9 => (match column
      case 0 => 0xe3 case 1 => 0xe4 case 2 => 0xe5 case 3 => 0xe6
      case 4 => 0xe7 case 5 => 0xe8 case 6 => 0xe9 case 7 => 0xea
      case 8 => 0xf1 case 9 => 0xf2 case 10 => 0xf3 case 11 => 0xf4
      case 12 => 0xf5 case 13 => 0xf6 case 14 => 0xf7 case 15 => 0xf8
      case _ => 0)
    case 10 => (match column
      case 0 => 0xf9 case 1 => 0xfa
      case _ => 0)
    case _ => 0
  }

  /** The position of a symbol, by its run and size. */
  function AcLumaIndex(run: nat, size: nat): nat {
    match run
    case 0 => (match size
      case 0 => 3 case 1 => 0 case 2 => 1 case 3 => 2 case 4 => 4 case 5 => 6
      case 6 => 11 case 7 => 15 case 8 => 23 case 9 => 37 case 10 => 38
      case _ => 162)
    case 1 => (match size
      case 1 => 5 case 2 => 7 case 3 => 12 case 4 => 18 case 5 => 28
      case 6 => 39 case 7 => 40 case 8 => 41 case 9 => 42 case 10 => 43
      case _ => 162)
    case 2 => (match size
      case 1 => 8 case 2 => 16 case 3 => 24 case 4 => 32 case 5 => 44
      case 6 => 45 case 7 => 46 case 8 => 47 case 9 => 48 case 10 => 49
      case _ => 162)
    case 3 => (match size
      case 1 => 9 case 2 => 19 case 3 => 33 case 4 => 50 case 5 => 51
      case 6 => 52 case 7 => 53 case 8 => 54 case 9 => 55 case 10 => 56
      case _ => 162)
    case 4 => (match size
      case 1 => 10 case 2 => 25 case 3 => 57 case 4 => 58 case 5 => 59
      case 6 => 60 case 7 => 61 case 8 => 62 case 9 => 63 case 10 => 64
      case _ => 162)
    case 5 => (match size
      case 1 => 13 case 2 => 29 case 3 => 65 case 4 => 66 case 5 => 67
      case 6 => 68 case 7 => 69 case 8 => 70 case 9 => 71 case 10 => 72
      case _ => 162)
    case 6 => (match size
      case 1 => 14 case 2 => 34 case 3 => 73 case 4 => 74 case 5 => 75
      case 6 => 76 case 7 => 77 case 8 => 78 case 9 => 79 case 10 => 80
      case _ => 162)
    case 7 => (match size
      case 1 => 17 case 2 => 35 case 3 => 81 case 4 => 82 case 5 => 83
      case 6 => 84 case 7 => 85 case 8 => 86 case 9 => 87 case 10 => 88
      case _ => 162)
    case 8 => (match size
      case 1 => 20 case 2 => 36 case 3 => 89 case 4 => 90 case 5 => 91
      case 6 => 92 case 7 => 93 case 8 => 94 case 9 => 95 case 10 => 96
      case _ => 162)
    case 9 => (match size
      case 1 => 21 case 2 => 97 case 3 => 98 case 4 => 99 case 5 => 100
      case 6 => 101 case 7 => 102 case 8 => 103 case 9 => 104 case 10 => 105
      case _ => 162)
    case 10 => (match size
      case 1 => 22 case 2 => 106 case 3 => 107 case 4 => 108 case 5 => 109
      case 6 => 110 case 7 => 111 case 8 => 112 case 9 => 113 case 10 => 114
      case _ => 162)
    case 11 => (match size
      case 1 => 26 case 2 => 115 case 3 => 116 case 4 => 117 case 5 => 118
      case 6 => 119 case 7 => 120 case 8 => 121 case 9 => 122 case 10 => 123
      case _ => 162)
    case 12 => (match size
      case 1 => 27 case 2 => 124 case 3 => 125 case 4 => 126 case 5 => 127
      case 6 => 128 case 7 => 129 case 8 => 130 case 9 => 131 case 10 => 132
      case _ => 162)
    case 13 => (match size
      case 1 => 30 case 2 => 133 case 3 => 134 case 4 => 135 case 5 => 136
      case 6 => 137 case 7 => 138 case 8 => 139 case 9 => 140 case 10 => 141
      case _ => 162)
    case 14 => (match size
      case 1 => 142 case 2 => 143 case 3 => 144 case 4 => 145 case 5 => 146
      case 6 => 147 case 7 => 148 case 8 => 149 case 9 => 150 case 10 => 151
      case _ => 162)
    case 15 => (match size
      case 0 => 31 case 1 => 152 case 2 => 153 case 3 => 154 case 4 => 155 case 5 => 156
      case 6 => 157 case 7 => 158 case 8 => 159 case 9 => 160 case 10 => 161
      case _ => 162)
    case _ => 162
  }

  function AcLumaVals(): seq<byte> {
    seq(162, k requires 0 <= k < 162 => AcLumaSymbol(k / 16, k % 16))
  }

  /** The AC symbols, sixteen to a row. */
  function AcChromaSymbol(row: nat, column: nat): byte {
    match row
    case 0 => (match column
      case 0 => 0x00 case 1 => 0x01 case 2 => 0x02 case 3 => 0x03
      case 4 => 0x11 case 5 => 0x04 case 6 => 0x05 case 7 => 0x21
      case 8 => 0x31 case 9 => 0x06 case 10 => 0x12 case 11 => 0x41
      case 12 => 0x51 case 13 => 0x07 case 14 => 0x61 case 15 => 0x71
      case _ => 0)
    case 1 => (match column
      case 0 => 0x13 case 1 => 0x22 case 2 => 0x32 case 3 => 0x81
      case 4 => 0x08 case 5 => 0x14 case 6 => 0x42 case 7 => 0x91
      case 8 => 0xa1 case 9 => 0xb1 case 10 => 0xc1 case 11 => 0x09
      case 12 => 0x23 case 13 => 0x33 case 14 => 0x52 case 15 => 0xf0
      case _ => 0)
    case 2 => (match column
      case 0 => 0x15 case 1 => 0x62 case 2 => 0x72 case 3 => 0xd1
      case 4 => 0x0a case 5 => 0x16 case 6 => 0x24 case 7 => 0x34
      case 8 => 0xe1 case 9 => 0x25 case 10 => 0xf1 case 11 => 0x17
      case 12 => 0x18 case 13 => 0x19 case 14 => 0x1a case 15 => 0x26
      case _ => 0)
    case 3 => (match column
      case 0 => 0x27 case 1 => 0x28 case 2 => 0x29 case 3 => 0x2a
      case 4 => 0x35 case 5 => 0x36 case 6 => 0x37 case 7 => 0x38
      case 8 => 0x39 case 9 => 0x3a case 10 => 0x43 case 11 => 0x44
      case 12 => 0x45 case 13 => 0x46 case 14 => 0x47 case 15 => 0x48
      case _ => 0)
    case 4 => (match column
      case 0 => 0x49 case 1 => 0x4a case 2 => 0x53 case 3 => 0x54
      case 4 => 0x55 case 5 => 0x56 case 6 => 0x57 case 7 => 0x58
      case 8 => 0x59 case 9 => 0x5a case 10 => 0x63 case 11 => 0x64
      case 12 => 0x65 case 13 => 0x66 case 14 => 0x67 case 15 => 0x68
      case _ => 0)
    case 5 => (match column
      case 0 => 0x69 case 1 => 0x6a case 2 => 0x73 case 3 => 0x74
      case 4 => 0x75 case 5 => 0x76 case 6 => 0x77 case 7 => 0x78
      case 8 => 0x79 case 9 => 0x7a case 10 => 0x82 case 11 => 0x83
      case 12 => 0x84 case 13 => 0x85 case 14 => 0x86 case 15 => 0x87
      case _ => 0)
    case 6 => (match column
      case 0 => 0x88 case 1 => 0x89 case 2 => 0x8a case 3 => 0x92
      case 4 => 0x93 case 5 => 0x94 case 6 => 0x95 case 7 => 0x96
      case 8 => 0x97 case 9 => 0x98 case 10 => 0x99 case 11 => 0x9a
      case 12 => 0xa2 case 13 => 0xa3 case 14 => 0xa4 case 15 => 0xa5
      case _ => 0)
    case 7 => (match column
      case 0 => 0xa6 case 1 => 0xa7 case 2 => 0xa8 case 3 => 0xa9
      case 4 => 0xaa case 5 => 0xb2 case 6 => 0xb3 case 7 => 0xb4
      case 8 => 0xb5 case 9 => 0xb6 case 10 => 0xb7 case 11 => 0xb8
      case 12 => 0xb9 case 13 => 0xba case 14 => 0xc2 case 15 => 0xc3
      case _ => 0)
    case 8 => (match column
      case 0 => 0xc4 case 1 => 0xc5 case 2 => 0xc6 case 3 => 0xc7
      case 4 => 0xc8 case 5 => 0xc9 case 6 => 0xca case 7 => 0xd2
      case 8 => 0xd3 case 9 => 0xd4 case 10 => 0xd5 case 11 => 0xd6
      case 12 => 0xd7 case 13 => 0xd8 case 14 => 0xd9 case 15 => 0xda
      case _ => 0)
    case 9 => (match column
      case 0 => 0xe2 case 1 => 0xe3 case 2 => 0xe4 case 3 => 0xe5
      case 4 => 0xe6 case 5 => 0xe7 case 6 => 0xe8 case 7 => 0xe9
      case 8 => 0xea case 9 => 0xf2 case 10 => 0xf3 case 11 => 0xf4
      case 12 => 0xf5 case 13 => 0xf6 case 14 => 0xf7 case 15 => 0xf8
      case _ => 0)
    case 10 => (match column
      case 0 => 0xf9 case 1 => 0xfa
      case _ => 0)
    case _ => 0
  }

  /** The position of a symbol, by its run and size. */
  function AcChromaIndex(run: nat, size: nat): nat {
    match run
    case 0 => (match size
      case 0 => 0 case 1 => 1 case 2 => 2 case 3 => 3 case 4 => 5 case 5 => 6
      case 6 => 9 case 7 => 13 case 8 => 20 case 9 => 27 case 10 => 36
      case _ => 162)
    case 1 => (match size
      case 1 => 4 case 2 => 10 case 3 => 16 case 4 => 21 case 5 => 32
      case 6 => 37 case 7 => 43 case 8 => 44 case 9 => 45 case 10 => 46
      case _ => 162)
    case 2 => (match size
      case 1 => 7 case 2 => 17 case 3 => 28 case 4 => 38 case 5 => 41
      case 6 => 47 case 7 => 48 case 8 => 49 case 9 => 50 case 10 => 51
      case _ => 162)
    case 3 => (match size
      case 1 => 8 case 2 => 18 case 3 => 29 case 4 => 39 case 5 => 52
      case 6 => 53 case 7 => 54 case 8 => 55 case 9 => 56 case 10 => 57
      case _ => 162)
    case 4 => (match size
      case 1 => 11 case 2 => 22 case 3 => 58 case 4 => 59 case 5 => 60
      case 6 => 61 case 7 => 62 case 8 => 63 case 9 => 64 case 10 => 65
      case _ => 162)
    case 5 => (match size
      case 1 => 12 case 2 => 30 case 3 => 66 case 4 => 67 case 5 => 68
      case 6 => 69 case 7 => 70 case 8 => 71 case 9 => 72 case 10 => 73
      case _ => 162)
    case 6 => (match size
      case 1 => 14 case 2 => 33 case 3 => 74 case 4 => 75 case 5 => 76
      case 6 => 77 case 7 => 78 case 8 => 79 case 9 => 80 case 10 => 81
      case _ => 162)
    case 7 => (match size
      case 1 => 15 case 2 => 34 case 3 => 82 case 4 => 83 case 5 => 84
      case 6 => 85 case 7 => 86 case 8 => 87 case 9 => 88 case 10 => 89
      case _ => 162)
    case 8 => (match size
      case 1 => 19 case 2 => 90 case 3 => 91 case 4 => 92 case 5 => 93
      case 6 => 94 case 7 => 95 case 8 => 96 case 9 => 97 case 10 => 98
      case _ => 162)
    case 9 => (match size
      case 1 => 23 case 2 => 99 case 3 => 100 case 4 => 101 case 5 => 102
      case 6 => 103 case 7 => 104 case 8 => 105 case 9 => 106 case 10 => 107
      case _ => 162)
    case 10 => (match size
      case 1 => 24 case 2 => 108 case 3 => 109 case 4 => 110 case 5 => 111
      case 6 => 112 case 7 => 113 case 8 => 114 case 9 => 115 case 10 => 116
      case _ => 162)
    case 11 => (match size
      case 1 => 25 case 2 => 117 case 3 => 118 case 4 => 119 case 5 => 120
      case 6 => 121 case 7 => 122 case 8 => 123 case 9 => 124 case 10 => 125
      case _ => 162)
    case 12 => (match size
      case 1 => 26 case 2 => 126 case 3 => 127 case 4 => 128 case 5 => 129
      case 6 => 130 case 7 => 131 case 8 => 132 case 9 => 133 case 10 => 134
      case _ => 162)
    case 13 => (match size
      case 1 => 35 case 2 => 135 case 3 => 136 case 4 => 137 case 5 => 138
      case 6 => 139 case 7 => 140 case 8 => 141 case 9 => 142 case 10 => 143
      case _ => 162)
    case 14 => (match size
      case 1 => 40 case 2 => 144 case 3 => 145 case 4 => 146 case 5 => 147
      case 6 => 148 case 7 => 149 case 8 => 150 case 9 => 151 case 10 => 152
      case _ => 162)
    case 15 => (match size
      case 0 => 31 case 1 => 42 case 2 => 153 case 3 => 154 case 4 => 155 case 5 => 156
      case 6 => 157 case 7 => 158 case 8 => 159 case 9 => 160 case 10 => 161
      case _ => 162)
    case _ => 162
  }

  function AcChromaVals(): seq<byte> {
    seq(162, k requires 0 <= k < 162 => AcChromaSymbol(k / 16, k % 16))
  }

  // ---------------------------------------------------------------- totals and Kraft sums

  lemma TotalIsSum(bits: seq<nat>)
    requires |bits| == 16
    ensures Total(bits) == bits[0] + bits[1] + bits[2] + bits[3] + bits[4] + bits[5] + bits[6] + bits[7]
                         + bits[8] + bits[9] + bits[10] + bits[11] + bits[12] + bits[13] + bits[14] + bits[15]
  {
    assert Before(bits, 2) == bits[0];
    assert Before(bits, 3) == Before(bits, 2) + bits[1];
    assert Before(bits, 4) == Before(bits, 3) + bits[2];
    assert Before(bits, 5) == Before(bits, 4) + bits[3];
    assert Before(bits, 6) == Before(bits, 5) + bits[4];
    assert Before(bits, 7) == Before(bits, 6) + bits[5];
    assert Before(bits, 8) == Before(bits, 7) + bits[6];
    assert Before(bits, 9) == Before(bits, 8) + bits[7];
    assert Before(bits, 10) == Before(bits, 9) + bits[8];
    assert Before(bits, 11) == Before(bits, 10) + bits[9];
    assert Before(bits, 12) == Before(bits, 11) + bits[10];
    assert Before(bits, 13) == Before(bits, 12) + bits[11];
    assert Before(bits, 14) == Before(bits, 13) + bits[12];
    assert Before(bits, 15) == Before(bits, 14) + bits[13];
    assert Before(bits, 16) == Before(bits, 15) + bits[14];
    assert Before(bits, 17) == Before(bits, 16) + bits[15];
  }

  lemma ShlAll(x: nat)
    ensures Shl(x, 0) == 1 * x
    ensures Shl(x, 1) == 2 * x
    ensures Shl(x, 2) == 4 * x
    ensures Shl(x, 3) == 8 * x
    ensures Shl(x, 4) == 16 * x
    ensures Shl(x, 5) == 32 * x
    ensures Shl(x, 6) == 64 * x
    ensures Shl(x, 7) == 128 * x
    ensures Shl(x, 8) == 256 * x
    ensures Shl(x, 9) == 512 * x
    ensures Shl(x, 10) == 1024 * x
    ensures Shl(x, 11) == 2048 * x
    ensures Shl(x, 12) == 4096 * x
    ensures Shl(x, 13) == 8192 * x
    ensures Shl(x, 14) == 16384 * x
    ensures Shl(x, 15) == 32768 * x
  {
    assert Shl(x, 1) == 2 * Shl(x, 0);
    assert Shl(x, 2) == 2 * Shl(x, 1);
    assert Shl(x, 3) == 2 * Shl(x, 2);
    assert Shl(x, 4) == 2 * Shl(x, 3);
    assert Shl(x, 5) == 2 * Shl(x, 4);
    assert Shl(x, 6) == 2 * Shl(x, 5);
    assert Shl(x, 7) == 2 * Shl(x, 6);
    assert Shl(x, 8) == 2 * Shl(x, 7);
    assert Shl(x, 9) == 2 * Shl(x, 8);
    assert Shl(x, 10) == 2 * Shl(x, 9);
    assert Shl(x, 11) == 2 * Shl(x, 10);
    assert Shl(x, 12) == 2 * Shl(x, 11);
    assert Shl(x, 13) == 2 * Shl(x, 12);
    assert Shl(x, 14) == 2 * Shl(x, 13);
    assert Shl(x, 15) == 2 * Shl(x, 14);
  }

  lemma Pow2Sixteen()
    ensures Pow2(16) == 65536
  {
    assert Pow2(4) == 16;
    assert Pow2(8) == 16 * Pow2(4);
    assert Pow2(12) == 16 * Pow2(8);
    assert Pow2(16) == 16 * Pow2(12);
  }

  lemma KraftIsSum(bits: seq<nat>)
    requires |bits| == 16
    ensures KraftBefore(bits, 17) ==
              32768 * bits[0] + 16384 * bits[1] + 8192 * bits[2] + 4096 * bits[3] + 2048 * bits[4] + 1024 * bits[5]
              + 512 * bits[6] + 256 * bits[7] + 128 * bits[8] + 64 * bits[9] + 32 * bits[10] + 16 * bits[11]
              + 8 * bits[12] + 4 * bits[13] + 2 * bits[14] + bits[15]
  {
    assert KraftBefore(bits, 2) == 32768 * bits[0] by { ShlAll(bits[0]); }
    assert KraftBefore(bits, 3) == KraftBefore(bits, 2) + 16384 * bits[1] by { ShlAll(bits[1]); }
    assert KraftBefore(bits, 4) == KraftBefore(bits, 3) + 8192 * bits[2] by { ShlAll(bits[2]); }
    assert KraftBefore(bits, 5) == KraftBefore(bits, 4) + 4096 * bits[3] by { ShlAll(bits[3]); }
    assert KraftBefore(bits, 6) == KraftBefore(bits, 5) + 2048 * bits[4] by { ShlAll(bits[4]); }
    assert KraftBefore(bits, 7) == KraftBefore(bits, 6) + 1024 * bits[5] by { ShlAll(bits[5]); }
    assert KraftBefore(bits, 8) == KraftBefore(bits, 7) + 512 * bits[6] by { ShlAll(bits[6]); }
    assert KraftBefore(bits, 9) == KraftBefore(bits, 8) + 256 * bits[7] by { ShlAll(bits[7]); }
    assert KraftBefore(bits, 10) == KraftBefore(bits, 9) + 128 * bits[8] by { ShlAll(bits[8]); }
    assert KraftBefore(bits, 11) == KraftBefore(bits, 10) + 64 * bits[9] by { ShlAll(bits[9]); }
    assert KraftBefore(bits, 12) == KraftBefore(bits, 11) + 32 * bits[10] by { ShlAll(bits[10]); }
    assert KraftBefore(bits, 13) == KraftBefore(bits, 12) + 16 * bits[11] by { ShlAll(bits[11]); }
    assert KraftBefore(bits, 14) == KraftBefore(bits, 13) + 8 * bits[12] by { ShlAll(bits[12]); }
    assert KraftBefore(bits, 15) == KraftBefore(bits, 14) + 4 * bits[13] by { ShlAll(bits[13]); }
    assert KraftBefore(bits, 16) == KraftBefore(bits, 15) + 2 * bits[14] by { ShlAll(bits[14]); }
    assert KraftBefore(bits, 17) == KraftBefore(bits, 16) + 1 * bits[15] by { ShlAll(bits[15]); }
  }

  // ---------------------------------------------------------------- the AC symbols

  lemma AcLumaIndexed(row: nat, column: nat)
    requires column < 16 && 16 * row + column < 162
    ensures var symbol := AcLumaSymbol(row, column); AcLumaIndex(symbol / 16, symbol % 16) == 16 * row + column
  {
    assert row <= 10;
    if row == 0 { } else if row == 1 { } else if row == 2 { } else if row == 3 { } else if row == 4 { }
    else {
      if row == 5 { } else if row == 6 { } else if row == 7 { }
      else if row == 8 { } else if row == 9 { } else if row == 10 { }
    }
  }

  /** Every symbol has a size of at most ten. */
  lemma AcLumaSizes(row: nat, column: nat)
    requires column < 16 && 16 * row + column < 162
    ensures AcLumaSymbol(row, column) % 16 <= 10
  {
  }

  lemma AcLumaHasLow(run: nat, size: nat)
    requires run <= 7 && 1 <= size <= 10
    ensures var k := AcLumaIndex(run, size); k < 162 && AcLumaSymbol(k / 16, k % 16) == 16 * run + size
  {
    if run == 0 { } else if run == 1 { } else if run == 2 { } else if run == 3 { }
    else if run == 4 { } else if run == 5 { } else if run == 6 { } else if run == 7 { }
  }

  lemma AcLumaHasHigh(run: nat, size: nat)
    requires 8 <= run <= 15 && 1 <= size <= 10
    ensures var k := AcLumaIndex(run, size); k < 162 && AcLumaSymbol(k / 16, k % 16) == 16 * run + size
  {
    if run == 8 { } else if run == 9 { } else if run == 10 { } else if run == 11 { }
    else if run == 12 { } else if run == 13 { } else if run == 14 { } else if run == 15 { }
  }

  /** Every run of up to fifteen zeroes with a size from one to ten has a code. */
  lemma AcLumaHas(run: nat, size: nat)
    requires run <= 15 && 1 <= size <= 10
    ensures var k := AcLumaIndex(run, size); k < 162 && AcLumaSymbol(k / 16, k % 16) == 16 * run + size
  {
    if run <= 7 { AcLumaHasLow(run, size); } else { AcLumaHasHigh(run, size); }
  }

  lemma AcChromaIndexed(row: nat, column: nat)
    requires column < 16 && 16 * row + column < 162
    ensures var symbol := AcChromaSymbol(row, column); AcChromaIndex(symbol / 16, symbol % 16) == 16 * row + column
  {
    assert row <= 10;
    if row == 0 { } else if row == 1 { } else if row == 2 { } else if row == 3 { } else if row == 4 { }
    else {
      if row == 5 { } else if row == 6 { } else if row == 7 { }
      else if row == 8 { } else if row == 9 { } else if row == 10 { }
    }
  }

  /** Every symbol has a size of at most ten. */
  lemma AcChromaSizes(row: nat, column: nat)
    requires column < 16 && 16 * row + column < 162
    ensures AcChromaSymbol(row, column) % 16 <= 10
  {
  }

  lemma AcChromaHasLow(run: nat, size: nat)
    requires run <= 7 && 1 <= size <= 10
    ensures var k := AcChromaIndex(run, size); k < 162 && AcChromaSymbol(k / 16, k % 16) == 16 * run + size
  {
    if run == 0 { } else if run == 1 { } else if run == 2 { } else if run == 3 { }
    else if run == 4 { } else if run == 5 { } else if run == 6 { } else if run == 7 { }
  }

  lemma AcChromaHasHigh(run: nat, size: nat)
    requires 8 <= run <= 15 && 1 <= size <= 10
    ensures var k := AcChromaIndex(run, size); k < 162 && AcChromaSymbol(k / 16, k % 16) == 16 * run + size
  {
    if run == 8 { } else if run == 9 { } else if run == 10 { } else if run == 11 { }
    else if run == 12 { } else if run == 13 { } else if run == 14 { } else if run == 15 { }
  }

  /** Every run of up to fifteen zeroes with a size from one to ten has a code. */
  lemma AcChromaHas(run: nat, size: nat)
    requires run <= 15 && 1 <= size <= 10
    ensures var k := AcChromaIndex(run, size); k < 162 && AcChromaSymbol(k / 16, k % 16) == 16 * run + size
  {
    if run <= 7 { AcChromaHasLow(run, size); } else { AcChromaHasHigh(run, size); }
  }
}
