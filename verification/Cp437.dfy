/** The codepoints of the 256 CP437 slots, and the slot of a codepoint. */
module Cp437 {

  /** The codepoint of a slot, by its row and column in a sheet of sixteen by sixteen. */
  function Cell(row: nat, column: nat): nat {
    match row
    case 0 => (match column
      case 0 => 0x0000 case 1 => 0x263A case 2 => 0x263B case 3 => 0x2665
      case 4 => 0x2666 case 5 => 0x2663 case 6 => 0x2660 case 7 => 0x2022
      case 8 => 0x25D8 case 9 => 0x25CB case 10 => 0x25D9 case 11 => 0x2642
      case 12 => 0x2640 case 13 => 0x266A case 14 => 0x266B case 15 => 0x263C
      case _ => 0)
    case 1 => (match column
      case 0 => 0x25BA case 1 => 0x25C4 case 2 => 0x2195 case 3 => 0x203C
      case 4 => 0x00B6 case 5 => 0x00A7 case 6 => 0x25AC case 7 => 0x21A8
      case 8 => 0x2191 case 9 => 0x2193 case 10 => 0x2192 case 11 => 0x2190
      case 12 => 0x221F case 13 => 0x2194 case 14 => 0x25B2 case 15 => 0x25BC
      case _ => 0)
    case 2 => (match column
      case 0 => 0x0020 case 1 => 0x0021 case 2 => 0x0022 case 3 => 0x0023
      case 4 => 0x0024 case 5 => 0x0025 case 6 => 0x0026 case 7 => 0x0027
      case 8 => 0x0028 case 9 => 0x0029 case 10 => 0x002A case 11 => 0x002B
      case 12 => 0x002C case 13 => 0x002D case 14 => 0x002E case 15 => 0x002F
      case _ => 0)
    case 3 => (match column
      case 0 => 0x0030 case 1 => 0x0031 case 2 => 0x0032 case 3 => 0x0033
      case 4 => 0x0034 case 5 => 0x0035 case 6 => 0x0036 case 7 => 0x0037
      case 8 => 0x0038 case 9 => 0x0039 case 10 => 0x003A case 11 => 0x003B
      case 12 => 0x003C case 13 => 0x003D case 14 => 0x003E case 15 => 0x003F
      case _ => 0)
    case 4 => (match column
      case 0 => 0x0040 case 1 => 0x0041 case 2 => 0x0042 case 3 => 0x0043
      case 4 => 0x0044 case 5 => 0x0045 case 6 => 0x0046 case 7 => 0x0047
      case 8 => 0x0048 case 9 => 0x0049 case 10 => 0x004A case 11 => 0x004B
      case 12 => 0x004C case 13 => 0x004D case 14 => 0x004E case 15 => 0x004F
      case _ => 0)
    case 5 => (match column
      case 0 => 0x0050 case 1 => 0x0051 case 2 => 0x0052 case 3 => 0x0053
      case 4 => 0x0054 case 5 => 0x0055 case 6 => 0x0056 case 7 => 0x0057
      case 8 => 0x0058 case 9 => 0x0059 case 10 => 0x005A case 11 => 0x005B
      case 12 => 0x005C case 13 => 0x005D case 14 => 0x005E case 15 => 0x005F
      case _ => 0)
    case 6 => (match column
      case 0 => 0x0060 case 1 => 0x0061 case 2 => 0x0062 case 3 => 0x0063
      case 4 => 0x0064 case 5 => 0x0065 case 6 => 0x0066 case 7 => 0x0067
      case 8 => 0x0068 case 9 => 0x0069 case 10 => 0x006A case 11 => 0x006B
      case 12 => 0x006C case 13 => 0x006D case 14 => 0x006E case 15 => 0x006F
      case _ => 0)
    case 7 => (match column
      case 0 => 0x0070 case 1 => 0x0071 case 2 => 0x0072 case 3 => 0x0073
      case 4 => 0x0074 case 5 => 0x0075 case 6 => 0x0076 case 7 => 0x0077
      case 8 => 0x0078 case 9 => 0x0079 case 10 => 0x007A case 11 => 0x007B
      case 12 => 0x007C case 13 => 0x007D case 14 => 0x007E case 15 => 0x2302
      case _ => 0)
    case 8 => (match column
      case 0 => 0x00C7 case 1 => 0x00FC case 2 => 0x00E9 case 3 => 0x00E2
      case 4 => 0x00E4 case 5 => 0x00E0 case 6 => 0x00E5 case 7 => 0x00E7
      case 8 => 0x00EA case 9 => 0x00EB case 10 => 0x00E8 case 11 => 0x00EF
      case 12 => 0x00EE case 13 => 0x00EC case 14 => 0x00C4 case 15 => 0x00C5
      case _ => 0)
    case 9 => (match column
      case 0 => 0x00C9 case 1 => 0x00E6 case 2 => 0x00C6 case 3 => 0x00F4
      case 4 => 0x00F6 case 5 => 0x00F2 case 6 => 0x00FB case 7 => 0x00F9
      case 8 => 0x00FF case 9 => 0x00D6 case 10 => 0x00DC case 11 => 0x00A2
      case 12 => 0x00A3 case 13 => 0x00A5 case 14 => 0x20A7 case 15 => 0x0192
      case _ => 0)
    case 10 => (match column
      case 0 => 0x00E1 case 1 => 0x00ED case 2 => 0x00F3 case 3 => 0x00FA
      case 4 => 0x00F1 case 5 => 0x00D1 case 6 => 0x00AA case 7 => 0x00BA
      case 8 => 0x00BF case 9 => 0x2310 case 10 => 0x00AC case 11 => 0x00BD
      case 12 => 0x00BC case 13 => 0x00A1 case 14 => 0x00AB case 15 => 0x00BB
      case _ => 0)
    case 11 => (match column
      case 0 => 0x2591 case 1 => 0x2592 case 2 => 0x2593 case 3 => 0x2502
      case 4 => 0x2524 case 5 => 0x2561 case 6 => 0x2562 case 7 => 0x2556
      case 8 => 0x2555 case 9 => 0x2563 case 10 => 0x2551 case 11 => 0x2557
      case 12 => 0x255D case 13 => 0x255C case 14 => 0x255B case 15 => 0x2510
      case _ => 0)
    case 12 => (match column
      case 0 => 0x2514 case 1 => 0x2534 case 2 => 0x252C case 3 => 0x251C
      case 4 => 0x2500 case 5 => 0x253C case 6 => 0x255E case 7 => 0x255F
      case 8 => 0x255A case 9 => 0x2554 case 10 => 0x2569 case 11 => 0x2566
      case 12 => 0x2560 case 13 => 0x2550 case 14 => 0x256C case 15 => 0x2567
      case _ => 0)
    case 13 => (match column
      case 0 => 0x2568 case 1 => 0x2564 case 2 => 0x2565 case 3 => 0x2559
      case 4 => 0x2558 case 5 => 0x2552 case 6 => 0x2553 case 7 => 0x256B
      case 8 => 0x256A case 9 => 0x2518 case 10 => 0x250C case 11 => 0x2588
      case 12 => 0x2584 case 13 => 0x258C case 14 => 0x2590 case 15 => 0x2580
      case _ => 0)
    case 14 => (match column
      case 0 => 0x03B1 case 1 => 0x00DF case 2 => 0x0393 case 3 => 0x03C0
      case 4 => 0x03A3 case 5 => 0x03C3 case 6 => 0x00B5 case 7 => 0x03C4
      case 8 => 0x03A6 case 9 => 0x0398 case 10 => 0x03A9 case 11 => 0x03B4
      case 12 => 0x221E case 13 => 0x03C6 case 14 => 0x03B5 case 15 => 0x2229
      case _ => 0)
    case 15 => (match column
      case 0 => 0x2261 case 1 => 0x00B1 case 2 => 0x2265 case 3 => 0x2264
      case 4 => 0x2320 case 5 => 0x2321 case 6 => 0x00F7 case 7 => 0x2248
      case 8 => 0x00B0 case 9 => 0x2219 case 10 => 0x00B7 case 11 => 0x221A
      case 12 => 0x207F case 13 => 0x00B2 case 14 => 0x25A0 case 15 => 0x00A0
      case _ => 0)
    case _ => 0
  }

  function Codepoint(slot: nat): nat {
    Cell(slot / 16, slot % 16)
  }

  /** The slot of a codepoint, by the page of 256 and the place on it; 256 when there is none. */
  function PageSlot(page: nat, place: nat): nat {
    match page
    case 0 => if 32 <= place < 127 then place else (match place
      case 0x00 => 0 case 0xA0 => 255 case 0xA1 => 173 case 0xA2 => 155
      case 0xA3 => 156 case 0xA5 => 157 case 0xA7 => 21 case 0xAA => 166
      case 0xAB => 174 case 0xAC => 170 case 0xB0 => 248 case 0xB1 => 241
      case 0xB2 => 253 case 0xB5 => 230 case 0xB6 => 20 case 0xB7 => 250
      case 0xBA => 167 case 0xBB => 175 case 0xBC => 172 case 0xBD => 171
      case 0xBF => 168 case 0xC4 => 142 case 0xC5 => 143 case 0xC6 => 146
      case 0xC7 => 128 case 0xC9 => 144 case 0xD1 => 165 case 0xD6 => 153
      case 0xDC => 154 case 0xDF => 225 case 0xE0 => 133 case 0xE1 => 160
      case 0xE2 => 131 case 0xE4 => 132 case 0xE5 => 134 case 0xE6 => 145
      case 0xE7 => 135 case 0xE8 => 138 case 0xE9 => 130 case 0xEA => 136
      case 0xEB => 137 case 0xEC => 141 case 0xED => 161 case 0xEE => 140
      case 0xEF => 139 case 0xF1 => 164 case 0xF2 => 149 case 0xF3 => 162
      case 0xF4 => 147 case 0xF6 => 148 case 0xF7 => 246 case 0xF9 => 151
      case 0xFA => 163 case 0xFB => 150 case 0xFC => 129 case 0xFF => 152
      case _ => 256)
    case 1 => (match place
      case 0x92 => 159
      case _ => 256)
    case 3 => (match place
      case 0x93 => 226 case 0x98 => 233 case 0xA3 => 228 case 0xA6 => 232
      case 0xA9 => 234 case 0xB1 => 224 case 0xB4 => 235 case 0xB5 => 238
      case 0xC0 => 227 case 0xC3 => 229 case 0xC4 => 231 case 0xC6 => 237
      case _ => 256)
    case 32 => (match place
      case 0x22 => 7 case 0x3C => 19 case 0x7F => 252 case 0xA7 => 158
      case _ => 256)
    case 33 => (match place
      case 0x90 => 27 case 0x91 => 24 case 0x92 => 26 case 0x93 => 25 case 0x94 => 29 case 0x95 => 18 case 0xA8 => 23
      case _ => 256)
    case 34 => (match place
      case 0x19 => 249 case 0x1A => 251 case 0x1E => 236 case 0x1F => 28
      case 0x29 => 239 case 0x48 => 247 case 0x61 => 240 case 0x64 => 243
      case 0x65 => 242
      case _ => 256)
    case 35 => (match place
      case 0x02 => 127 case 0x10 => 169 case 0x20 => 244 case 0x21 => 245
      case _ => 256)
    case 37 => (match place
      case 0x00 => 196 case 0x02 => 179 case 0x0C => 218 case 0x10 => 191
      case 0x14 => 192 case 0x18 => 217 case 0x1C => 195 case 0x24 => 180
      case 0x2C => 194 case 0x34 => 193 case 0x3C => 197 case 0x50 => 205
      case 0x51 => 186 case 0x52 => 213 case 0x53 => 214 case 0x54 => 201
      case 0x55 => 184 case 0x56 => 183 case 0x57 => 187 case 0x58 => 212
      case 0x59 => 211 case 0x5A => 200 case 0x5B => 190 case 0x5C => 189
      case 0x5D => 188 case 0x5E => 198 case 0x5F => 199 case 0x60 => 204
      case 0x61 => 181 case 0x62 => 182 case 0x63 => 185 case 0x64 => 209
      case 0x65 => 210 case 0x66 => 203 case 0x67 => 207 case 0x68 => 208
      case 0x69 => 202 case 0x6A => 216 case 0x6B => 215 case 0x6C => 206
      case 0x80 => 223 case 0x84 => 220 case 0x88 => 219 case 0x8C => 221
      case 0x90 => 222 case 0x91 => 176 case 0x92 => 177 case 0x93 => 178
      case 0xA0 => 254 case 0xAC => 22 case 0xB2 => 30 case 0xBA => 16
      case 0xBC => 31 case 0xC4 => 17 case 0xCB => 9 case 0xD8 => 8
      case 0xD9 => 10
      case _ => 256)
    case 38 => (match place
      case 0x3A => 1 case 0x3B => 2 case 0x3C => 15 case 0x40 => 12
      case 0x42 => 11 case 0x60 => 6 case 0x63 => 5 case 0x65 => 3
      case 0x66 => 4 case 0x6A => 13 case 0x6B => 14
      case _ => 256)
    case _ => 256
  }

  function Slot(codepoint: nat): nat {
    PageSlot(codepoint / 256, codepoint % 256)
  }

  lemma SlotsOf0(row: nat, column: nat)
    requires 0 <= row < 2 && column < 16
    ensures Slot(Cell(row, column)) == 16 * row + column
  {
    if row == 0 { } else if row == 1 { }
  }

  lemma SlotsOf1(row: nat, column: nat)
    requires 2 <= row < 4 && column < 16
    ensures Slot(Cell(row, column)) == 16 * row + column
  {
    if row == 2 { } else if row == 3 { }
  }

  lemma SlotsOf2(row: nat, column: nat)
    requires 4 <= row < 6 && column < 16
    ensures Slot(Cell(row, column)) == 16 * row + column
  {
    if row == 4 { } else if row == 5 { }
  }

  lemma SlotsOf3(row: nat, column: nat)
    requires 6 <= row < 8 && column < 16
    ensures Slot(Cell(row, column)) == 16 * row + column
  {
    if row == 6 { } else if row == 7 { }
  }

  lemma SlotsOf4(row: nat, column: nat)
    requires 8 <= row < 10 && column < 16
    ensures Slot(Cell(row, column)) == 16 * row + column
  {
    if row == 8 { } else if row == 9 { }
  }

  lemma SlotsOf5(row: nat, column: nat)
    requires 10 <= row < 12 && column < 16
    ensures Slot(Cell(row, column)) == 16 * row + column
  {
    if row == 10 { } else if row == 11 { }
  }

  lemma SlotsOf6(row: nat, column: nat)
    requires 12 <= row < 14 && column < 16
    ensures Slot(Cell(row, column)) == 16 * row + column
  {
    if row == 12 { } else if row == 13 { }
  }

  lemma SlotsOf7(row: nat, column: nat)
    requires 14 <= row < 16 && column < 16
    ensures Slot(Cell(row, column)) == 16 * row + column
  {
    if row == 14 { } else if row == 15 { }
  }

  /** No codepoint stands for two slots. */
  lemma SlotOfCodepoint(slot: nat)
    requires slot < 256
    ensures Slot(Codepoint(slot)) == slot
  {
    var row, column := slot / 16, slot % 16;
    if row < 2 { SlotsOf0(row, column); }
    else if row < 4 { SlotsOf1(row, column); }
    else if row < 6 { SlotsOf2(row, column); }
    else if row < 8 { SlotsOf3(row, column); }
    else if row < 10 { SlotsOf4(row, column); }
    else if row < 12 { SlotsOf5(row, column); }
    else if row < 14 { SlotsOf6(row, column); }
    else { SlotsOf7(row, column); }
  }

  lemma AsciiIsItself(slot: nat)
    requires 32 <= slot < 127
    ensures Codepoint(slot) == slot
  {
  }

  lemma CodepointSmall(slot: nat)
    requires slot < 256
    ensures Codepoint(slot) < 0x10000
  {
  }
}
