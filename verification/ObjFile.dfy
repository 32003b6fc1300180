/** The relocatable object file as data (pytools/objfmt.py:17-91): what the assembler emits,
    the text format stores and the linker reads. */
module ObjFile {

  datatype Option<+T> = None | Some(value: T)

  datatype Result<+T, +E> = Ok(value: T) | Err(error: E)

  datatype Linkage = Local | Global | Extern | Weak

  datatype RelocKind = Imm12 | LiImm12 | JmpTarget12 | CallTarget12 | Imm6Pc

  datatype BranchKind = BT | BF

  /** One record of a section.  A symbol without an offset stands where it is written. */
  datatype Record =
    | RecWord(w: int)
    | RecZero(n: int)
    | RecSym(name: string, linkage: Linkage, offset: Option<int>)
    | RecLoc(path: string, lineno: int)
    | RecReloc(kind: RelocKind, symbol: string, addend: int)
    | RecBrel(branch: BranchKind, symbol: string, addend: int)

  datatype Section = Section(name: string, records: seq<Record>)

  datatype ObjectFile = ObjectFile(version: int, sources: seq<string>, sections: seq<Section>)

  /** `reloc_placeholder_words`. */
  function RelocSpan(kind: RelocKind): nat {
    match kind
    case Imm12 => 1
    case LiImm12 => 2
    case JmpTarget12 => 3
    case CallTarget12 => 3
    case Imm6Pc => 1
  }
}
