// The records of an indexed file (src/indexer.hh, src/position.hh).
module Index {

  type U8 = x: int | 0 <= x < 0x100
  type U16 = x: int | 0 <= x < 0x1_0000
  type U64 = x: int | 0 <= x < 0x1_0000_0000_0000_0000
  type I16 = x: int | -0x8000 <= x < 0x8000
  type I32 = x: int | -0x8000_0000 <= x < 0x8000_0000
  type I64 = x: int | -0x8000_0000_0000_0000 <= x < 0x8000_0000_0000_0000

  type Usr = U64

  datatype Option<+T> = None | Some(value: T)

  // Conversion to a signed 16-bit integer.
  function ToI16(x: int): I16 { (x + 0x8000) % 0x1_0000 - 0x8000 }

  datatype Pos = Pos(line: U16, column: I16)
  datatype Range = Range(start: Pos, end: Pos) {
    predicate Valid() { start.column >= 0 }
  }
  const NO_RANGE := Range(Pos(0, -1), Pos(0, -1))

  datatype Use = Use(range: Range, role: U16, fileId: I32)
  datatype DeclRef = DeclRef(use: Use, extent: Range)
  datatype SymbolRef = SymbolRef(range: Range, usr: Usr, kind: U8, role: U16)
  const NO_DECL := DeclRef(Use(NO_RANGE, 0, -1), NO_RANGE)

  datatype FuncDef = FuncDef(detailedName: string, hover: string, comments: string, spell: DeclRef,
                             bases: seq<Usr>, vars: seq<Usr>, callees: seq<SymbolRef>,
                             qualNameOffset: I16, shortNameOffset: I16, shortNameSize: I16,
                             kind: U8, parentKind: U8, storage: U8)

  datatype TypeDef = TypeDef(detailedName: string, hover: string, comments: string, spell: DeclRef,
                             bases: seq<Usr>, funcs: seq<Usr>, types: seq<Usr>, vars: seq<(Usr, I64)>, aliasOf: Usr,
                             qualNameOffset: I16, shortNameOffset: I16, shortNameSize: I16,
                             kind: U8, parentKind: U8)

  datatype VarDef = VarDef(detailedName: string, hover: string, comments: string, spell: DeclRef, typ: Usr,
                           qualNameOffset: I16, shortNameOffset: I16, shortNameSize: I16,
                           kind: U8, parentKind: U8, storage: U8)

  datatype IndexFunc = IndexFunc(usr: Usr, def: FuncDef, declarations: seq<DeclRef>, derived: seq<Usr>, uses: seq<Use>)
  datatype IndexType = IndexType(usr: Usr, def: TypeDef, declarations: seq<DeclRef>, derived: seq<Usr>, instances: seq<Usr>, uses: seq<Use>)
  datatype IndexVar = IndexVar(usr: Usr, def: VarDef, declarations: seq<DeclRef>, uses: seq<Use>)
  datatype IndexInclude = IndexInclude(line: I32, resolvedPath: string)

  datatype IndexFile = IndexFile(path: string, args: seq<string>, mtime: I64, language: I32, noLinkage: bool,
                                 lid2path: seq<(I32, string)>, importFile: string, skippedRanges: seq<Range>,
                                 includes: seq<IndexInclude>, dependencies: map<string, I64>,
                                 usr2func: map<Usr, IndexFunc>, usr2type: map<Usr, IndexType>, usr2var: map<Usr, IndexVar>)

  // The file as constructed, before anything is indexed.
  function EmptyFile(path: string): IndexFile {
    IndexFile(path, [], 0, 0, false, [], "", [], [], map[], map[], map[], map[])
  }
}
