/** ELF64 relocatable files: what the writer lays down, and a reader written from the System V
    gABI, chapter 4. The reader has its numbers and offsets from there, not from the writer. */
module Elf {
  import opened ByteCodec
  import opened ByteFields
  import opened ObjectModel
  import opened Wrappers

  // ----- records, as the gABI tabulates them -----

  function EhdrWidths(): (w: seq<nat>)
    ensures |w| == 13
  {
    [2, 2, 4, 8, 8, 8, 4, 2, 2, 2, 2, 2, 2]
  }

  function ShdrWidths(): (w: seq<nat>)
    ensures |w| == 10
  {
    [4, 4, 8, 8, 8, 8, 4, 4, 8, 8]
  }

  function SymWidths(): (w: seq<nat>)
    ensures |w| == 6
  {
    [4, 1, 1, 2, 8, 8]
  }

  function RelaWidths(): (w: seq<nat>)
    ensures |w| == 3
  {
    [8, 8, 8]
  }

  function Ident(): (b: Bytes)
    ensures |b| == 16
  {
    [0x7f, 0x45, 0x4c, 0x46, 2, 1, 1, 0, 0, 0, 0, 0, 0, 0, 0, 0]
  }

  const SHT_PROGBITS: nat := 1
  const SHT_SYMTAB: nat := 2
  const SHT_STRTAB: nat := 3
  const SHT_RELA: nat := 4
  const SHT_NOBITS: nat := 8

  lemma ShortWidths()
    ensures Width([2, 2, 4]) == 8 && Width([8, 8, 8]) == 24 && Width([4, 2, 2]) == 8 && Width([2, 2, 2, 2]) == 8
    ensures Width([4, 4, 8]) == 16 && Width([8, 8]) == 16 && Width([4, 4]) == 8 && Width([4, 1, 1, 2]) == 8
  {
    assert Width([2, 2]) == 4 && Width([1, 2]) == 3;
  }

  lemma Widths()
    ensures Width(EhdrWidths()) == 48 && Width(ShdrWidths()) == 64 && Width(SymWidths()) == 24 && Width(RelaWidths()) == 24
  {
    ShortWidths();
    hide Width;
    WidthAppend([2, 2, 4], [8, 8, 8]);
    WidthAppend([4, 2, 2], [2, 2, 2, 2]);
    WidthAppend([2, 2, 4] + [8, 8, 8], [4, 2, 2] + [2, 2, 2, 2]);
    assert EhdrWidths() == [2, 2, 4] + [8, 8, 8] + ([4, 2, 2] + [2, 2, 2, 2]);
    WidthAppend([4, 4, 8], [8, 8, 8]);
    WidthAppend([4, 4], [8, 8]);
    WidthAppend([4, 4, 8] + [8, 8, 8], [4, 4] + [8, 8]);
    assert ShdrWidths() == [4, 4, 8] + [8, 8, 8] + ([4, 4] + [8, 8]);
    WidthAppend([4, 1, 1, 2], [8, 8]);
    assert SymWidths() == [4, 1, 1, 2] + [8, 8];
  }

  datatype Shdr = Shdr(name: nat, kind: nat, flags: nat, offset: nat, size: nat, link: nat, info: nat,
                       align: nat, entsize: nat) {
    function Fields(): (v: seq<nat>)
      ensures |v| == |ShdrWidths()|
    {
      [name, kind, flags, 0, offset, size, link, info, align, entsize]
    }
  }

  // ----- the writer -----

  function SectionType(k: SectionKind): nat { if k.Bss? then SHT_NOBITS else SHT_PROGBITS }

  /** SHF_ALLOC, with SHF_EXECINSTR or SHF_WRITE. */
  function SectionFlags(k: SectionKind): nat {
    match k
    case Text => 6
    case Rdata => 2
    case Data | Bss => 3
  }

  /** R_X86_64_PC32 with the bias of a field measured from its end, or R_X86_64_64. */
  function MapReloc(k: RelocKind): Option<(nat, int)> {
    match k
    case Rel32 => Some((2, -4))
    case Addr64 => Some((1, 0))
    case _ => None
  }

  /** Sections below n that have relocations. */
  function RelocatedBelow(o: Object, n: nat): (r: seq<nat>)
    ensures forall k :: 0 <= k < |r| ==> r[k] < n && RelocsOf(o.relocs, r[k]) != []
    ensures |r| <= n
  {
    if n == 0 then [] else RelocatedBelow(o, n - 1) + if RelocsOf(o.relocs, n - 1) != [] then [n - 1] else []
  }

  function Relocated(o: Object): (r: seq<nat>)
    ensures forall k :: 0 <= k < |r| ==> r[k] < |o.sections|
  {
    RelocatedBelow(o, |o.sections|)
  }

  /** ".rela" and the section's name, cut to what a 64-byte buffer holds. */
  function RelaName(name: Bytes): Bytes {
    var full := Ascii(".rela") + name;
    if |full| > 63 then full[..63] else full
  }

  /** The name of section header k + 1. */
  function NameAt(o: Object, k: nat): Bytes
    requires k < HeaderCount(o) - 1
  {
    var n, rel := |o.sections|, Relocated(o);
    if k < n then o.sections[k].name
    else if k == n then Ascii(".note.GNU-stack")
    else if k <= n + |rel| then RelaName(o.sections[rel[k - n - 1]].name)
    else if k == n + |rel| + 1 then Ascii(".symtab")
    else if k == n + |rel| + 2 then Ascii(".strtab")
    else Ascii(".shstrtab")
  }

  function Names(o: Object): (names: seq<Bytes>)
    ensures |names| == HeaderCount(o) - 1
  {
    seq(HeaderCount(o) - 1, k requires 0 <= k < HeaderCount(o) - 1 => NameAt(o, k))
  }

  /** Indices below n of the symbols that are local, or that are not. */
  function Pick(symbols: seq<Symbol>, local: bool, n: nat): (r: seq<nat>)
    requires n <= |symbols|
    ensures forall p :: 0 <= p < |r| ==> r[p] < n && symbols[r[p]].binding.Local? == local
  {
    if n == 0 then []
    else Pick(symbols, local, n - 1) + if symbols[n - 1].binding.Local? == local then [n - 1] else []
  }

  lemma {:induction false} PickSizes(symbols: seq<Symbol>, n: nat)
    requires n <= |symbols|
    ensures |Pick(symbols, true, n)| + |Pick(symbols, false, n)| == n
  {
    if n != 0 { PickSizes(symbols, n - 1); }
  }

  /** Symbols in table order: locals, then the rest. */
  function Order(o: Object): (r: seq<nat>)
    ensures |r| == |o.symbols| && forall p :: 0 <= p < |r| ==> r[p] < |o.symbols|
  {
    PickSizes(o.symbols, |o.symbols|);
    Pick(o.symbols, true, |o.symbols|) + Pick(o.symbols, false, |o.symbols|)
  }

  function FirstGlobal(o: Object): nat { 1 + |Pick(o.symbols, true, |o.symbols|)| }

  function PositionIn(order: seq<nat>, i: nat): nat {
    if order == [] || order[0] == i then 0 else 1 + PositionIn(order[1..], i)
  }

  /** The table entry of symbol i. */
  function EntryOf(o: Object, i: nat): nat { 1 + PositionIn(Order(o), i) }

  function SymbolNames(o: Object): (names: seq<Bytes>)
    ensures |names| == |o.symbols|
  {
    seq(|o.symbols|, p requires 0 <= p < |o.symbols| => o.symbols[Order(o)[p]].name)
  }

  function SymbolShndx(s: Symbol): nat { if s.section.None? then 0 else s.section.value + 1 }

  function SymbolBind(s: Symbol): nat { if s.section.Some? && s.binding.Local? then 0 else 1 }

  /** STT_FUNC for whatever is defined in a text section. */
  function SymbolType(o: Object, s: Symbol): nat {
    if s.section.Some? && s.section.value < |o.sections| && o.sections[s.section.value].kind.Text? then 2 else 0
  }

  function SymRecord(o: Object, s: Symbol, name: nat): (v: seq<nat>)
    ensures |v| == |SymWidths()|
  {
    [name, SymbolBind(s) * 16 + SymbolType(o, s), 0, SymbolShndx(s), s.value, s.size]
  }

  function SymRow(o: Object, p: nat): (v: seq<nat>)
    requires p < |o.symbols|
    ensures |v| == |SymWidths()|
  {
    SymRecord(o, o.symbols[Order(o)[p]], NameOffset(SymbolNames(o), p))
  }

  function SymRows(o: Object): (rows: seq<seq<nat>>)
    ensures |rows| == |o.symbols| + 1 && forall r :: r in rows ==> |r| == |SymWidths()|
  {
    [[0, 0, 0, 0, 0, 0]] + seq(|o.symbols|, p requires 0 <= p < |o.symbols| => SymRow(o, p))
  }

  /** Every section index is in range, every kind has an ELF form, every target is defined. */
  ghost predicate Writable(o: Object) {
    && (forall r :: r in o.relocs ==> r.section < |o.sections| && (r.kind.Rel32? || r.kind.Addr64?) && Find(o.symbols, r.symbol).Some?)
    && (forall s :: s in o.symbols && s.section.Some? ==> s.section.value < |o.sections|)
  }

  function RelaRecord(r: Reloc, entry: nat): (v: seq<nat>)
    ensures |v| == |RelaWidths()|
  {
    var m := if MapReloc(r.kind).Some? then MapReloc(r.kind).value else (0, 0);
    [r.offset, entry * 0x1_0000_0000 + m.0, Twos(8, m.1 + r.addend)]
  }

  function RelaRow(o: Object, r: Reloc): (v: seq<nat>)
    ensures |v| == |RelaWidths()|
  {
    var s := Find(o.symbols, r.symbol);
    RelaRecord(r, if s.Some? then EntryOf(o, s.value) else 0)
  }

  function RelaRowsOf(o: Object, rs: seq<Reloc>): (rows: seq<seq<nat>>)
    ensures |rows| == |rs| && forall r :: r in rows ==> |r| == |RelaWidths()|
  {
    seq(|rs|, k requires 0 <= k < |rs| => RelaRow(o, rs[k]))
  }

  function RelaRows(o: Object, i: nat): (rows: seq<seq<nat>>)
    ensures |rows| == |RelocsOf(o.relocs, i)| && forall r :: r in rows ==> |r| == |RelaWidths()|
  {
    RelaRowsOf(o, RelocsOf(o.relocs, i))
  }

  /** Null, contents, .note.GNU-stack, .rela sections, .symtab, .strtab, .shstrtab. */
  function HeaderCount(o: Object): (n: nat)
    ensures n == |o.sections| + |Relocated(o)| + 5
  {
    |o.sections| + |Relocated(o)| + 5
  }

  function SymtabIndex(o: Object): nat { |o.sections| + |Relocated(o)| + 2 }

  /** Size and alignment of what is written k-th: the file header, contents, .rela tables,
      .symtab, .strtab, .shstrtab, section headers. */
  function SlotAt(o: Object, k: nat): Slot
    requires k < HeaderCount(o)
  {
    var n, rel := |o.sections|, Relocated(o);
    if k == 0 then Slot(1, 64)
    else if k <= n then
      var c := o.sections[k - 1];
      if c.kind.Bss? then Slot(1, 0) else Slot(c.Align(), |c.data|)
    else if k <= n + |rel| then Slot(8, 24 * |RelocsOf(o.relocs, rel[k - n - 1])|)
    else if k == n + |rel| + 1 then Slot(8, 24 * (|o.symbols| + 1))
    else if k == n + |rel| + 2 then Slot(1, |StrTab(SymbolNames(o))|)
    else if k == n + |rel| + 3 then Slot(1, |StrTab(Names(o))|)
    else Slot(8, 64 * HeaderCount(o))
  }

  function Slots(o: Object): (s: seq<Slot>)
    ensures |s| == HeaderCount(o)
  {
    seq(HeaderCount(o), k requires 0 <= k < HeaderCount(o) => SlotAt(o, k))
  }

  function HeaderAt(o: Object, k: nat): Shdr
    requires k < HeaderCount(o)
  {
    var n, rel := |o.sections|, Relocated(o);
    if k == 0 then Shdr(0, 0, 0, 0, 0, 0, 0, 0, 0)
    else
      var name := NameOffset(Names(o), k - 1);
      if k <= n then
        var c := o.sections[k - 1];
        Shdr(name, SectionType(c.kind), SectionFlags(c.kind), Begin(Slots(o), k),
             if c.kind.Bss? then c.Extent() else |c.data|, 0, 0, c.Align(), 0)
      else if k == n + 1 then Shdr(name, SHT_PROGBITS, 0, 0, 0, 0, 0, 1, 0)
      else
        var at, size := Begin(Slots(o), k - 1), SlotAt(o, k - 1).size;
        if k <= n + 1 + |rel| then Shdr(name, SHT_RELA, 0, at, size, SymtabIndex(o), 1 + rel[k - n - 2], 8, 24)
        else if k == SymtabIndex(o) then Shdr(name, SHT_SYMTAB, 0, at, size, k + 1, FirstGlobal(o), 8, 24)
        else Shdr(name, SHT_STRTAB, 0, at, size, 0, 0, 1, 0)
  }

  function HeaderRows(o: Object): (rows: seq<seq<nat>>)
    ensures |rows| == HeaderCount(o) && forall r :: r in rows ==> |r| == |ShdrWidths()|
  {
    seq(HeaderCount(o), k requires 0 <= k < HeaderCount(o) => HeaderAt(o, k).Fields())
  }

  function HeaderOffset(o: Object): nat { Begin(Slots(o), HeaderCount(o) - 1) }

  function EhdrFields(o: Object): (v: seq<nat>)
    ensures |v| == |EhdrWidths()|
  {
    [1, 62, 1, 0, 0, HeaderOffset(o), 0, 64, 0, 0, 64, HeaderCount(o), HeaderCount(o) - 1]
  }

  function PieceAt(o: Object, k: nat): Piece
    requires k < HeaderCount(o)
  {
    var n, rel := |o.sections|, Relocated(o);
    if k == 0 then Piece(1, Ident() + Enc(EhdrWidths(), EhdrFields(o)))
    else if k <= n then
      var c := o.sections[k - 1];
      if c.kind.Bss? then Piece(1, []) else Piece(c.Align(), c.data)
    else if k <= n + |rel| then Piece(8, EncTable(RelaWidths(), RelaRows(o, rel[k - n - 1])))
    else if k == n + |rel| + 1 then Piece(8, EncTable(SymWidths(), SymRows(o)))
    else if k == n + |rel| + 2 then Piece(1, StrTab(SymbolNames(o)))
    else if k == n + |rel| + 3 then Piece(1, StrTab(Names(o)))
    else Piece(8, EncTable(ShdrWidths(), HeaderRows(o)))
  }

  function Pieces(o: Object): (p: seq<Piece>)
    ensures |p| == HeaderCount(o)
  {
    seq(HeaderCount(o), k requires 0 <= k < HeaderCount(o) => PieceAt(o, k))
  }

  /** The bytes written for an object. */
  function File(o: Object): Bytes {
    Place(Pieces(o))
  }

  // ----- the reader -----

  datatype SectionView = SectionView(name: Bytes, kind: nat, flags: nat, size: nat, link: nat, info: nat, align: nat, entsize: nat,
                                     data: Bytes)

  datatype SymbolView = SymbolView(name: Bytes, bind: nat, kind: nat, other: nat, shndx: nat, value: nat, size: nat)

  datatype RelaView = RelaView(offset: nat, symbol: nat, kind: nat, addend: int)

  /** Relocations with the section they apply to. */
  datatype RelaTable = RelaTable(target: nat, entries: seq<RelaView>)

  datatype View = View(sections: seq<SectionView>, symbols: seq<SymbolView>, relas: seq<RelaTable>)

  /** What a section header says its section holds in the file. */
  function Payload(file: Bytes, h: Shdr): Option<Bytes> {
    if h.kind == 0 || h.kind == 8 then Some([])
    else if Inside(file, h.offset, h.size) then Some(file[h.offset..h.offset + h.size])
    else None
  }

  function ReadShdr(b: Bytes): Shdr
    requires |b| == 64
  {
    Shdr(NumAt(b, 0, 4), NumAt(b, 4, 4), NumAt(b, 8, 8), NumAt(b, 24, 8), NumAt(b, 32, 8), NumAt(b, 40, 4), NumAt(b, 44, 4), NumAt(b, 48, 8),
         NumAt(b, 56, 8))
  }

  /** What the file header says: where the section headers are, how many there are, and which one has their names. */
  datatype Ehdr = Ehdr(kind: nat, machine: nat, version: nat, flags: nat, shoff: nat, ehsize: nat, phnum: nat, shentsize: nat, shnum: nat,
                       shstrndx: nat)

  function ReadEhdr(file: Bytes): Ehdr
    requires |file| >= 64
  {
    Ehdr(NumAt(file, 16, 2), NumAt(file, 18, 2), NumAt(file, 20, 4), NumAt(file, 48, 4), NumAt(file, 40, 8), NumAt(file, 52, 2),
         NumAt(file, 56, 2), NumAt(file, 58, 2), NumAt(file, 60, 2), NumAt(file, 62, 2))
  }

  /** A relocatable file for x86-64, version 1, least significant byte first, without program headers. */
  predicate Known(file: Bytes) {
    && |file| >= 64
    && file[..16] == [0x7f, 0x45, 0x4c, 0x46, 2, 1, 1, 0, 0, 0, 0, 0, 0, 0, 0, 0]
    && var e := ReadEhdr(file);
       e.kind == 1 && e.machine == 62 && e.version == 1 && e.flags == 0 && e.ehsize == 64 && e.phnum == 0 && e.shentsize == 64
  }

  function ReadHeaders(file: Bytes, at: nat, count: nat): (h: Option<seq<Shdr>>)
    ensures h.Some? ==> |h.value| == count
  {
    if !Inside(file, at, 64 * count) then None
    else Some(seq(count, k requires 0 <= k < count => ReadShdr(file[at + 64 * k..at + 64 * k + 64])))
  }

  function ReadSection(file: Bytes, names: Bytes, h: Shdr): Option<SectionView> {
    var data :- Payload(file, h);
    Some(SectionView(ReadStr(names, h.name), h.kind, h.flags, h.size, h.link, h.info, h.align, h.entsize, data))
  }

  /** Reads every section, or none if one lies outside the file. */
  function ReadSections(file: Bytes, names: Bytes, h: seq<Shdr>): Option<seq<SectionView>> {
    if h == [] then Some([])
    else
      var front :- ReadSections(file, names, h[..|h| - 1]);
      var last :- ReadSection(file, names, h[|h| - 1]);
      Some(front + [last])
  }

  function ReadSymbol(names: Bytes, b: Bytes): SymbolView
    requires |b| == 24
  {
    SymbolView(ReadStr(names, NumAt(b, 0, 4)), NumAt(b, 4, 1) / 16, NumAt(b, 4, 1) % 16, NumAt(b, 5, 1), NumAt(b, 6, 2), NumAt(b, 8, 8),
               NumAt(b, 16, 8))
  }

  function ReadSymbols(names: Bytes, table: Bytes): (s: seq<SymbolView>)
    ensures |s| == |table| / 24
  {
    seq(|table| / 24, k requires 0 <= k < |table| / 24 => ReadSymbol(names, table[24 * k..24 * k + 24]))
  }

  function ReadRela(b: Bytes): RelaView
    requires |b| == 24
  {
    RelaView(NumAt(b, 0, 8), NumAt(b, 12, 4), NumAt(b, 8, 4), Signed(8, NumAt(b, 16, 8)))
  }

  function ReadRelas(table: Bytes): seq<RelaView> {
    seq(|table| / 24, k requires 0 <= k < |table| / 24 => ReadRela(table[24 * k..24 * k + 24]))
  }

  /** The relocation tables, in section order. */
  function RelaTables(s: seq<SectionView>): seq<RelaTable> {
    if s == [] then []
    else
      var last := s[|s| - 1];
      RelaTables(s[..|s| - 1]) + if last.kind == 4 then [RelaTable(last.info, ReadRelas(last.data))] else []
  }

  /** Index of the first symbol table at or after k. */
  function FindSymtab(s: seq<SectionView>, k: nat): (i: Option<nat>)
    requires k <= |s|
    ensures i.Some? ==> i.value < |s|
    decreases |s| - k
  {
    if k == |s| then None else if s[k].kind == 2 then Some(k) else FindSymtab(s, k + 1)
  }

  function Read(file: Bytes): Option<View> {
    if !Known(file) then None
    else
      var e := ReadEhdr(file);
      var h :- ReadHeaders(file, e.shoff, e.shnum);
      if e.shstrndx >= |h| then None
      else
        var names :- Payload(file, h[e.shstrndx]);
        var sections :- ReadSections(file, names, h);
        var t :- FindSymtab(sections, 0);
        if sections[t].link >= |sections| then None
        else Some(View(sections, ReadSymbols(sections[sections[t].link].data, sections[t].data), RelaTables(sections)))
  }
}
