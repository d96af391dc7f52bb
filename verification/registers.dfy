/** The register tables of the assembler: the special-function register names
    with their direct addresses, and the names `REG.n` of the addressable bits
    with their bit addresses. The tables are kept as written, including the
    entry `IE` (0xA2) and the missing bits IE.5, IE.6 and IP.5-IP.7.
 */
module Registers {
  import opened Failures

  /** Special-function register name to direct address (main.py lines 9-32). */
  const Sfrs: map<string, int> := map[
    "A" := 0xE0,
    "ACC" := 0xE0,
    "B" := 0xF0,
    "PSW" := 0xD0,
    "IP" := 0xB8,
    "P3" := 0xB0,
    "IE" := 0xA2,
    "P2" := 0xA0,
    "SBUF" := 0x99,
    "SCON" := 0x98,
    "P1" := 0x90,
    "TH1" := 0x8D,
    "TH0" := 0x8C,
    "TL1" := 0x8B,
    "TL0" := 0x8A,
    "TMOD" := 0x89,
    "TCON" := 0x88,
    "PCON" := 0x87,
    "DPH" := 0x83,
    "DPL" := 0x82,
    "SP" := 0x81,
    "P0" := 0x80
  ]

  /** Bit name to bit address (main.py lines 34-126). Every name of the
      table has the form `REG.d`, so the table is written here grouped by
      `REG`, then by the digit `d`; it holds the same 91 name/address pairs in
      the same order. */
  const SfrBits: map<string, map<char, int>> := map[
    "P0" := map['0' := 0x80, '1' := 0x81, '2' := 0x82, '3' := 0x83, '4' := 0x84, '5' := 0x85, '6' := 0x86, '7' := 0x87],
    "P1" := map['0' := 0x90, '1' := 0x91, '2' := 0x92, '3' := 0x93, '4' := 0x94, '5' := 0x95, '6' := 0x96, '7' := 0x97],
    "P2" := map['0' := 0xA0, '1' := 0xA1, '2' := 0xA2, '3' := 0xA3, '4' := 0xA4, '5' := 0xA5, '6' := 0xA6, '7' := 0xA7],
    "P3" := map['0' := 0xB0, '1' := 0xB1, '2' := 0xB2, '3' := 0xB3, '4' := 0xB4, '5' := 0xB5, '6' := 0xB6, '7' := 0xB7],
    "TCON" := map['0' := 0x88, '1' := 0x89, '2' := 0x8A, '3' := 0x8B, '4' := 0x8C, '5' := 0x8D, '6' := 0x8E, '7' := 0x8F],
    "SCON" := map['0' := 0x98, '1' := 0x99, '2' := 0x9A, '3' := 0x9B, '4' := 0x9C, '5' := 0x9D, '6' := 0x9E, '7' := 0x9F],
    "IE" := map['0' := 0xA8, '1' := 0xA9, '2' := 0xAA, '3' := 0xAB, '4' := 0xAC, '7' := 0xAF],
    "IP" := map['0' := 0xB8, '1' := 0xB9, '2' := 0xBA, '3' := 0xBB, '4' := 0xBC],
    "PSW" := map['0' := 0xD0, '1' := 0xD1, '2' := 0xD2, '3' := 0xD3, '4' := 0xD4, '5' := 0xD5, '6' := 0xD6, '7' := 0xD7],
    "ACC" := map['0' := 0xE0, '1' := 0xE1, '2' := 0xE2, '3' := 0xE3, '4' := 0xE4, '5' := 0xE5, '6' := 0xE6, '7' := 0xE7],
    "A" := map['0' := 0xE0, '1' := 0xE1, '2' := 0xE2, '3' := 0xE3, '4' := 0xE4, '5' := 0xE5, '6' := 0xE6, '7' := 0xE7],
    "B" := map['0' := 0xF0, '1' := 0xF1, '2' := 0xF2, '3' := 0xF3, '4' := 0xF4, '5' := 0xF5, '6' := 0xF6, '7' := 0xF7]
  ]

  /** `sym.sfr(x)`: the direct address of the register named `x`, if any. */
  function Sfr(x: string): (r: Option<int>)
    ensures r.Some? <==> x in Sfrs
    ensures r.Some? ==> r.value == Sfrs[x] && 0x80 <= r.value <= 0xFF
  {
    SfrAddressesAreBytes();
    if x in Sfrs then Some(Sfrs[x]) else None
  }

  /** `sym.sfr_bit(x)`: the bit address of the bit named `x`, if any. */
  function SfrBit(x: string): (r: Option<int>)
    ensures r.Some? ==> |x| >= 2 && x[..|x| - 2] in SfrBits && x[|x| - 1] in SfrBits[x[..|x| - 2]]
    ensures r.Some? <==> exists reg, d :: x == reg + "." + [d] && reg in SfrBits && d in SfrBits[reg]
    ensures r.Some? ==> 0x80 <= r.value <= 0xFF
    ensures r.Some? && x[..|x| - 2] != "IE" ==>
      x[..|x| - 2] in Sfrs && r.value == Sfrs[x[..|x| - 2]] + (x[|x| - 1] as int - '0' as int)
    ensures r.Some? && x[..|x| - 2] == "IE" ==> r.value == 0xA8 + (x[|x| - 1] as int - '0' as int)
  {
    BitNameParts(x);
    if |x| >= 2 && x[|x| - 2] == '.' && x[..|x| - 2] in SfrBits && x[|x| - 1] in SfrBits[x[..|x| - 2]] then
      var reg, d := x[..|x| - 2], x[|x| - 1];
      BitOf(reg, d);
      Some(SfrBits[reg][d])
    else
      None
  }

  /** `REG.d` splits back into `REG` and `d`. */
  lemma BitNameParts(x: string)
    ensures |x| >= 2 && x[|x| - 2] == '.' ==> x == x[..|x| - 2] + "." + [x[|x| - 1]]
    ensures forall reg, d :: x == reg + "." + [d] ==> |x| >= 2 && x[|x| - 2] == '.' && x[..|x| - 2] == reg && x[|x| - 1] == d
  {
    if |x| >= 2 && x[|x| - 2] == '.' {
      assert x == x[..|x| - 2] + "." + [x[|x| - 1]];
    }
  }

  /** The address of bit `d` of `reg`, read off the two tables. */
  lemma BitOf(reg: string, d: char)
    requires reg in SfrBits && d in SfrBits[reg]
    ensures 0x80 <= SfrBits[reg][d] <= 0xFF
    ensures reg != "IE" ==> reg in Sfrs && SfrBits[reg][d] == Sfrs[reg] + (d as int - '0' as int)
    ensures reg == "IE" ==> SfrBits[reg][d] == 0xA8 + (d as int - '0' as int)
  {
    SfrBitAddressesAreBytes();
    if reg == "IE" {
      InterruptEnableMismatch();
    } else {
      BitsFollowRegisters();
    }
  }

  /** Every register of the table lies in the special-function area 0x80-0xFF,
      so its address fits the one operand byte it is written to. */
  lemma SfrAddressesAreBytes()
    ensures forall k :: k in Sfrs ==> 0x80 <= Sfrs[k] <= 0xFF
  {
  }

  /** Every bit of the table has a bit address in the upper half, 0x80-0xFF. */
  lemma SfrBitAddressesAreBytes()
    ensures forall reg, d :: reg in SfrBits && d in SfrBits[reg] ==> 0x80 <= SfrBits[reg][d] <= 0xFF
  {
  }

  /** For every bit-addressable register except `IE`, bit `d` of the table is
      at the register's direct address plus `d`; the bit table and the
      register table agree. */
  lemma BitsFollowRegisters()
    ensures forall reg, d :: reg in SfrBits && d in SfrBits[reg] && reg != "IE" ==>
      reg in Sfrs && '0' <= d <= '7' && SfrBits[reg][d] == Sfrs[reg] + (d as int - '0' as int)
  {
  }

  /** `IE` breaks that rule: its table address 0xA2 is the bit address of
      P2.2, while its bits IE.0-IE.4 and IE.7 sit at 0xA8 upwards. */
  lemma InterruptEnableMismatch()
    ensures Sfrs["IE"] == 0xA2 == SfrBits["P2"]['2']
    ensures forall d :: d in SfrBits["IE"] ==> SfrBits["IE"][d] == 0xA8 + (d as int - '0' as int)
  {
  }
}
