/** The relocatable-object model shared by the ELF passes. */
module Elf {
  import opened Wrappers
  import opened Bytes

  const STB_LOCAL: nat := 0
  const STB_GLOBAL: nat := 1
  const STB_WEAK: nat := 2
  const STV_DEFAULT: nat := 0
  const SHN_UNDEF: nat := 0
  const SHN_COMMON: nat := 0xfff2
  const R_X86_64_PC32: nat := 2

  const LINKER_SYMS: set<string> := {
    "__preinit_array_start", "__preinit_array_end", "__init_array_start", "__init_array_end",
    "__fini_array_start", "__fini_array_end", "__rela_iplt_start", "__rela_iplt_end", "__ehdr_start",
    "_GLOBAL_OFFSET_TABLE_", "__bss_start", "_edata", "_end"}

  datatype Rela = Rela(offset: nat, sym: nat, rType: nat, addend: int)

  /** `retain` is SHF_GNU_RETAIN, `exec` SHF_EXECINSTR. */
  datatype Section = Section(name: string, shType: nat, retain: bool, exec: bool, data: seq<byte>, relas: seq<Rela>)

  datatype Symbol = Symbol(name: string, bind: nat, visibility: nat, shndx: nat, section: Option<nat>,
                           value: nat, size: nat)

  datatype Object = Object(name: string, sections: seq<Section>, symbols: seq<Symbol>)

  /** Bytes an input relocation writes; `None` for a type the linker does not know. */
  function RelocationWidth(rType: nat): Option<nat> {
    if rType in {1, 17} then Some(8)
    else if rType in {2, 4, 9, 10, 11, 19, 20, 21, 22, 23, 41, 42} then Some(4)
    else None
  }

  function Ru32(data: seq<byte>, at: nat): nat
    requires at + 4 <= |data|
  {
    var b0: nat, b1: nat, b2: nat, b3: nat := data[at], data[at + 1], data[at + 2], data[at + 3];
    b0 + 0x100 * b1 + 0x1_0000 * b2 + 0x100_0000 * b3
  }

  function Le32(x: nat): (bytes: seq<byte>)
    ensures |bytes| == 4
  {
    [x % 0x100, x / 0x100 % 0x100, x / 0x1_0000 % 0x100, x / 0x100_0000 % 0x100]
  }

  lemma DigitsSum(x: nat)
    requires x < 0x1_0000_0000
    ensures x == x % 0x100 + 0x100 * (x / 0x100 % 0x100)
                 + 0x1_0000 * (x / 0x1_0000 % 0x100) + 0x100_0000 * (x / 0x100_0000 % 0x100)
  {
    var a, b, c := x / 0x100, x / 0x1_0000, x / 0x100_0000;
    assert b == a / 0x100 && c == b / 0x100 && c < 0x100;
    assert x == 0x100 * a + x % 0x100;
    assert a == 0x100 * b + a % 0x100;
    assert b == 0x100 * c + b % 0x100;
  }

  lemma Le32RoundTrip(x: nat, data: seq<byte>, at: nat)
    requires x < 0x1_0000_0000 && at + 4 <= |data| && data[at..at + 4] == Le32(x)
    ensures Ru32(data, at) == x
  {
    DigitsSum(x);
    var bytes := data[at..at + 4];
    assert data[at] == bytes[0] && data[at + 1] == bytes[1] && data[at + 2] == bytes[2] && data[at + 3] == bytes[3];
  }
}
