/** COFF object files: what the writer lays down, and a reader written from the Microsoft PE
    and COFF specification (COFF File Header, Section Table, COFF Relocations, COFF Symbol
    Table, COFF String Table). The reader has its numbers and offsets from there, not from the writer. */
module Coff {
  import opened ByteCodec
  import opened ByteFields
  import opened ObjectModel
  import opened Wrappers

  // ----- records -----

  function FileWidths(): (w: seq<nat>)
    ensures |w| == 7
  {
    [2, 2, 4, 4, 4, 2, 2]
  }

  /** The first field is the 8-byte name. */
  function SectionWidths(): (w: seq<nat>)
    ensures |w| == 10
  {
    [8, 4, 4, 4, 4, 4, 4, 2, 2, 4]
  }

  function RelocWidths(): (w: seq<nat>)
    ensures |w| == 3
  {
    [4, 4, 2]
  }

  function SymbolWidths(): (w: seq<nat>)
    ensures |w| == 6
  {
    [8, 4, 2, 2, 1, 1]
  }

  /** Auxiliary format 5, section definitions. */
  function AuxWidths(): (w: seq<nat>)
    ensures |w| == 6
  {
    [4, 2, 2, 4, 2, 4]
  }

  lemma ShortWidths()
    ensures Width([2, 2, 4]) == 8 && Width([4, 4, 2, 2]) == 12 && Width([8, 4, 4]) == 16 && Width([4, 4, 4]) == 12
    ensures Width([4, 2, 2, 4]) == 12 && Width([4, 4, 2]) == 10 && Width([8, 4, 2]) == 14 && Width([2, 1, 1]) == 4
    ensures Width([4, 2, 2]) == 8 && Width([4, 2, 4]) == 10
  {
    assert Width([2, 2]) == 4 && Width([1, 1]) == 2 && Width([2, 4]) == 6 && Width([4, 2]) == 6 && Width([4, 4]) == 8;
    assert Width([2, 2, 4]) == 8;
  }

  lemma Widths()
    ensures Width(FileWidths()) == 20 && Width(SectionWidths()) == 40 && Width(RelocWidths()) == 10
    ensures Width(SymbolWidths()) == 18 && Width(AuxWidths()) == 18 && Width(SymbolWidths() + AuxWidths()) == 36
  {
    ShortWidths();
    hide Width;
    WidthAppend([2, 2, 4], [4, 4, 2, 2]);
    assert FileWidths() == [2, 2, 4] + [4, 4, 2, 2];
    WidthAppend([8, 4, 4], [4, 4, 4]);
    WidthAppend([8, 4, 4] + [4, 4, 4], [4, 2, 2, 4]);
    assert SectionWidths() == [8, 4, 4] + [4, 4, 4] + [4, 2, 2, 4];
    WidthAppend([8, 4, 2], [2, 1, 1]);
    assert SymbolWidths() == [8, 4, 2] + [2, 1, 1];
    WidthAppend([4, 2, 2], [4, 2, 4]);
    assert AuxWidths() == [4, 2, 2] + [4, 2, 4];
    WidthAppend(SymbolWidths(), AuxWidths());
  }

  // ----- names -----

  function Pad8(b: Bytes): (f: Bytes)
    requires |b| <= 8
    ensures |f| == 8
  {
    b + Zeros(8 - |b|)
  }

  /** Names of more than 8 bytes, in string table order; the others leave no trace there. */
  function LongNames(o: Object): (names: seq<Bytes>)
    ensures |names| == |o.sections| + |o.symbols|
  {
    seq(|o.sections| + |o.symbols|, k requires 0 <= k < |o.sections| + |o.symbols| =>
      var name := if k < |o.sections| then o.sections[k].name else o.symbols[k - |o.sections|].name;
      if |name| > 8 then name else [])
  }

  /** The size, counting itself, then the names. */
  function Strings(o: Object): Bytes {
    var body := StrTab(LongNames(o))[1..];
    Le(4, 4 + |body|) + body
  }

  /** Offset of long name k; the size field takes the place of three bytes and the NUL. */
  function StringOffset(o: Object, k: nat): nat
    requires k < |o.sections| + |o.symbols|
  {
    if LongNames(o)[k] == [] then 0 else NameOffset(LongNames(o), k) + 3
  }

  /** "/" and the offset in decimal, for a section whose name is too long. */
  function SectionNameField(o: Object, i: nat): Option<Bytes>
    requires i < |o.sections|
  {
    if |o.sections[i].name| <= 8 then Some(Pad8(o.sections[i].name))
    else
      var text := [0x2f] + Decimal(StringOffset(o, i));
      if |text| >= 8 then None else Some(Pad8(text))
  }

  /** Four zero bytes and the offset, for a symbol whose name is too long. */
  function SymbolNameField(o: Object, k: nat, name: Bytes): (f: Bytes)
    requires k < |o.sections| + |o.symbols|
    ensures |f| == 8
  {
    if |name| <= 8 then Pad8(name) else Zeros(4) + Le(4, StringOffset(o, k))
  }

  // ----- the writer -----

  function Characteristics(c: Section): nat {
    if c.characteristics != 0 then c.characteristics
    else
      match c.kind
      case Text => 0x60000020
      case Rdata => 0x40000040
      case Data => 0xC0000040
      case Bss => 0xC0000080
  }

  function MapReloc(k: RelocKind): nat {
    match k
    case Addr64 => 1
    case Addr32Nb => 3
    case SectionRel32 => 11
    case Rel32 => 4
  }

  function Raw(c: Section): Bytes { if c.kind.Bss? then [] else c.data }

  function PieceCount(o: Object): nat { 2 * |o.sections| + 5 }

  /** Sizes in file order: header, section table, payloads, relocations, symbols, section
      symbols, strings. */
  function SlotAt(o: Object, k: nat): Slot
    requires k < PieceCount(o)
  {
    var n := |o.sections|;
    Slot(1, if k == 0 then 20
            else if k == 1 then 40 * n
            else if k < n + 2 then |Raw(o.sections[k - 2])|
            else if k < 2 * n + 2 then 10 * |RelocsOf(o.relocs, k - n - 2)|
            else if k == 2 * n + 2 then 18 * |o.symbols|
            else if k == 2 * n + 3 then 36 * n
            else |Strings(o)|)
  }

  function Slots(o: Object): (s: seq<Slot>)
    ensures |s| == PieceCount(o)
  {
    seq(PieceCount(o), k requires 0 <= k < PieceCount(o) => SlotAt(o, k))
  }

  function SymbolTableAt(o: Object): nat { Begin(Slots(o), 2 * |o.sections| + 2) }

  function RecordCount(o: Object): nat { |o.symbols| + 2 * |o.sections| }

  function FileRow(o: Object): (v: seq<nat>)
    ensures |v| == |FileWidths()|
  {
    [0x8664, |o.sections|, 0, SymbolTableAt(o), RecordCount(o), 0, 0]
  }

  function SectionRow(o: Object, i: nat): (v: seq<nat>)
    requires i < |o.sections|
    ensures |v| == |SectionWidths()|
  {
    var c, count := o.sections[i], |RelocsOf(o.relocs, i)|;
    var field := SectionNameField(o, i);
    [Num(if field.Some? then field.value else Zeros(8)), 0, 0, |Raw(c)|,
     if Raw(c) == [] then 0 else Begin(Slots(o), 2 + i),
     if count == 0 then 0 else Begin(Slots(o), 2 + |o.sections| + i),
     0, count, 0, Characteristics(c)]
  }

  function SectionRows(o: Object): (rows: seq<seq<nat>>)
    ensures |rows| == |o.sections| && forall r :: r in rows ==> |r| == |SectionWidths()|
  {
    seq(|o.sections|, i requires 0 <= i < |o.sections| => SectionRow(o, i))
  }

  function RelocRow(o: Object, r: Reloc): (v: seq<nat>)
    ensures |v| == |RelocWidths()|
  {
    var s := Find(o.symbols, r.symbol);
    [r.offset, if s.Some? then s.value else 0, MapReloc(r.kind)]
  }

  function RelocRowsOf(o: Object, rs: seq<Reloc>): (rows: seq<seq<nat>>)
    ensures |rows| == |rs| && forall r :: r in rows ==> |r| == |RelocWidths()|
  {
    seq(|rs|, k requires 0 <= k < |rs| => RelocRow(o, rs[k]))
  }

  function SectionNumber(s: Symbol): nat { if s.section.None? then 0 else s.section.value + 1 }

  function SymbolType(o: Object, s: Symbol): nat {
    if s.section.Some? && s.section.value < |o.sections| && o.sections[s.section.value].kind.Text? then 0x20 else 0
  }

  /** Static for locals, external for the rest. */
  function StorageClass(s: Symbol): nat { if s.binding.Local? then 3 else 2 }

  function SymbolRow(o: Object, i: nat): (v: seq<nat>)
    requires i < |o.symbols|
    ensures |v| == |SymbolWidths()|
  {
    var s := o.symbols[i];
    [Num(SymbolNameField(o, |o.sections| + i, s.name)), s.value, SectionNumber(s), SymbolType(o, s), StorageClass(s), 0]
  }

  function SymbolRows(o: Object): (rows: seq<seq<nat>>)
    ensures |rows| == |o.symbols| && forall r :: r in rows ==> |r| == |SymbolWidths()|
  {
    seq(|o.symbols|, i requires 0 <= i < |o.symbols| => SymbolRow(o, i))
  }

  /** A section's own symbol and its auxiliary record. */
  function SectionSymbolRow(o: Object, i: nat): (v: seq<nat>)
    requires i < |o.sections|
    ensures |v| == |SymbolWidths() + AuxWidths()|
  {
    var c := o.sections[i];
    [Num(SymbolNameField(o, i, c.name)), 0, i + 1, 0, 3, 1] + [c.Extent(), |RelocsOf(o.relocs, i)|, 0, 0, 0, 0]
  }

  function SectionSymbolRows(o: Object): (rows: seq<seq<nat>>)
    ensures |rows| == |o.sections| && forall r :: r in rows ==> |r| == |SymbolWidths() + AuxWidths()|
  {
    seq(|o.sections|, i requires 0 <= i < |o.sections| => SectionSymbolRow(o, i))
  }

  function PieceAt(o: Object, k: nat): Piece
    requires k < PieceCount(o)
  {
    var n := |o.sections|;
    Piece(1, if k == 0 then Enc(FileWidths(), FileRow(o))
             else if k == 1 then EncTable(SectionWidths(), SectionRows(o))
             else if k < n + 2 then Raw(o.sections[k - 2])
             else if k < 2 * n + 2 then EncTable(RelocWidths(), RelocRowsOf(o, RelocsOf(o.relocs, k - n - 2)))
             else if k == 2 * n + 2 then EncTable(SymbolWidths(), SymbolRows(o))
             else if k == 2 * n + 3 then EncTable(SymbolWidths() + AuxWidths(), SectionSymbolRows(o))
             else Strings(o))
  }

  function Pieces(o: Object): (p: seq<Piece>)
    ensures |p| == PieceCount(o)
  {
    seq(PieceCount(o), k requires 0 <= k < PieceCount(o) => PieceAt(o, k))
  }

  function File(o: Object): Bytes { Place(Pieces(o)) }

  /** What the writer accepts. */
  ghost predicate Writable(o: Object) {
    && SmallTables(o)
    && (forall r :: r in o.relocs ==> r.section < |o.sections| && Find(o.symbols, r.symbol).Some?)
    && (forall i :: 0 <= i < |o.sections| ==> |RelocsOf(o.relocs, i)| <= 0xFFFF && SectionNameField(o, i).Some?)
    && (forall s :: s in o.symbols && s.section.Some? ==> s.section.value < |o.sections|)
  }

  predicate SmallTables(o: Object) {
    && |o.sections| <= 0xFFFF && |o.relocs| <= 0xFFFF_FFFF && |o.symbols| <= 0xFFFF_FFFF
    && |o.sections| <= (0xFFFF_FFFF - |o.symbols|) / 2
  }

  // ----- the reader -----

  datatype RelocView = RelocView(offset: nat, symbol: nat, kind: nat)

  datatype SectionView = SectionView(name: Bytes, data: Bytes, relocs: seq<RelocView>, characteristics: nat)

  datatype SymbolView = SymbolView(name: Bytes, value: nat, section: int, kind: nat, storage: nat, aux: nat)

  /** What a section definition says: the section's length and its numbers of relocations and of lines, and for a COMDAT
      section checksum, number and selection. */
  datatype Definition = Definition(length: nat, relocations: nat, lines: nat, checksum: nat, number: nat, selection: nat)

  /** Symbols by record index, section definitions by that of the symbol they belong to. */
  datatype View = View(sections: seq<SectionView>, records: map<nat, SymbolView>, definitions: map<nat, Definition>)

  function ReadSymbolName(strings: Bytes, field: Bytes): Bytes
    requires |field| == 8
  {
    if field[..4] == Zeros(4) then ReadStr(strings, Num(field[4..])) else ReadStr(field, 0)
  }

  function ReadSectionName(strings: Bytes, field: Bytes): Bytes
    requires |field| == 8
  {
    if field[0] == 0x2f then ReadStr(strings, ParseDecimal(ReadStr(field, 1))) else ReadStr(field, 0)
  }

  function ReadReloc(b: Bytes): RelocView
    requires |b| == 10
  {
    RelocView(NumAt(b, 0, 4), NumAt(b, 4, 4), NumAt(b, 8, 2))
  }

  function ReadRelocs(file: Bytes, at: nat, count: nat): Option<seq<RelocView>> {
    if count == 0 then Some([])
    else if !Inside(file, at, 10 * count) then None
    else Some(seq(count, k requires 0 <= k < count => ReadReloc(file[at + 10 * k..at + 10 * k + 10])))
  }

  function ReadSectionFields(b: Bytes): (v: seq<nat>)
    requires |b| == 40
    ensures |v| == 10
  {
    [NumAt(b, 0, 8), NumAt(b, 8, 4), NumAt(b, 12, 4), NumAt(b, 16, 4), NumAt(b, 20, 4), NumAt(b, 24, 4), NumAt(b, 28, 4),
     NumAt(b, 32, 2), NumAt(b, 34, 2), NumAt(b, 36, 4)]
  }

  function ReadSection(file: Bytes, strings: Bytes, at: nat): Option<SectionView> {
    if !Inside(file, at, 40) then None
    else
      var v := ReadSectionFields(file[at..at + 40]);
      if v[1] != 0 || v[2] != 0 || v[6] != 0 || v[8] != 0 || (v[3] != 0 && !Inside(file, v[4], v[3])) then None
      else
        var relocs :- ReadRelocs(file, v[5], v[7]);
        Some(SectionView(ReadSectionName(strings, Le(8, v[0])), if v[3] == 0 then [] else file[v[4]..v[4] + v[3]], relocs, v[9]))
  }

  function ReadSections(file: Bytes, strings: Bytes, n: nat): Option<seq<SectionView>> {
    if n == 0 then Some([])
    else
      var front :- ReadSections(file, strings, n - 1);
      var last :- ReadSection(file, strings, 20 + 40 * (n - 1));
      Some(front + [last])
  }

  function ReadSymbol(strings: Bytes, b: Bytes): SymbolView
    requires |b| == 18
  {
    SymbolView(ReadSymbolName(strings, Le(8, NumAt(b, 0, 8))), NumAt(b, 8, 4), Signed(2, NumAt(b, 12, 2)), NumAt(b, 14, 2), NumAt(b, 16, 1),
               NumAt(b, 17, 1))
  }

  function ReadAux(b: Bytes): Definition
    requires |b| == 18
  {
    Definition(NumAt(b, 0, 4), NumAt(b, 4, 2), NumAt(b, 6, 2), NumAt(b, 8, 4), NumAt(b, 12, 2), NumAt(b, 14, 4))
  }

  /** Records from k on, skipping auxiliary ones, given the table's bytes. */
  function ReadRecords(table: Bytes, strings: Bytes, k: nat): (r: (map<nat, SymbolView>, map<nat, Definition>))
    decreases |table| - 18 * k
  {
    if 18 * k + 18 > |table| then (map[], map[])
    else
      var s := ReadSymbol(strings, table[18 * k..18 * k + 18]);
      var rest := ReadRecords(table, strings, k + 1 + s.aux);
      (rest.0[k := s],
       if s.aux == 1 && 18 * k + 36 <= |table| then rest.1[k := ReadAux(table[18 * k + 18..18 * k + 36])] else rest.1)
  }

  function ReadFileRow(b: Bytes): (v: seq<nat>)
    requires |b| == 20
    ensures |v| == 7
  {
    [NumAt(b, 0, 2), NumAt(b, 2, 2), NumAt(b, 4, 4), NumAt(b, 8, 4), NumAt(b, 12, 4), NumAt(b, 16, 2), NumAt(b, 18, 2)]
  }

  function Read(file: Bytes): Option<View> {
    if |file| < 20 then None
    else
      var v := ReadFileRow(file[..20]);
      var end := v[3] + 18 * v[4];
      if v[0] != 0x8664 || v[5] != 0 || v[6] != 0 || !Inside(file, end, 4) || !Inside(file, end, Num(file[end..end + 4])) then None
      else
        var strings := file[end..end + Num(file[end..end + 4])];
        var sections :- ReadSections(file, strings, v[1]);
        var records := ReadRecords(file[v[3]..end], strings, 0);
        Some(View(sections, records.0, records.1))
  }
}
