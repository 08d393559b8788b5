/** Object files in memory: sections, symbols, relocations. */
module Objects {
  import opened Words

  const SEC_CNST: byte := 0
  const SEC_DATA: byte := 1
  const SEC_CODE: byte := 2
  const SEC_NONE: byte := 0xFF

  const SYM_LOCAL: byte := 0
  const SYM_GLOBAL: byte := 1
  const SYM_EXTERN: byte := 2

  const REL_DATA: byte := 0
  const REL_CODE: byte := 1

  const MAX_SYMS: nat := 1024
  const MAX_RELS: nat := 2048
  const NAME_MAX: nat := 63

  datatype Sym = Sym(name: Name, flags: byte, section: byte, offset: u32)

  /** `at` is an offset in the code section, `sym` an index in the symbol table. */
  datatype Rel = Rel(at: u32, sym: u32, kind: byte)

  datatype Prog = Prog(
    cnst: seq<byte>, data: seq<byte>, code: seq<byte>,
    syms: seq<Sym>, rels: seq<Rel>, entry: u32, hasEntry: bool)

  /** Bytes a relocation overwrites: a 4-byte code offset, otherwise an 8-byte pointer. */
  function RelWidth(kind: byte): nat { if kind == REL_CODE then 4 else 8 }

  /** Sites lie inside the code and in increasing order without overlap. */
  ghost predicate SitesOrdered(rels: seq<Rel>, codeLen: nat) {
    && (forall k :: 0 <= k < |rels| ==> rels[k].at + RelWidth(rels[k].kind) <= codeLen)
    && (forall j, k :: 0 <= j < k < |rels| ==> rels[j].at + RelWidth(rels[j].kind) <= rels[k].at)
  }
}
