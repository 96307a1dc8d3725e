/** Reading an ELF file back by the gABI recovers the object it was written from. */
module ElfRoundTrip {
  import opened ByteCodec
  import opened ByteFields
  import opened ObjectModel
  import opened Wrappers
  import opened Elf

  /** What the format's fields can hold. */
  ghost predicate WithinLimits(o: Object) {
    && HeaderCount(o) < 0xff00
    && End(Slots(o)) < 0x1_0000_0000_0000_0000
    && |o.symbols| + 1 < 0x1_0000_0000
    && |StrTab(SymbolNames(o))| < 0x1_0000_0000 && |StrTab(Names(o))| < 0x1_0000_0000
    && (forall c :: c in o.sections ==>
          NulFree(c.name) && c.Align() < 0x1_0000_0000_0000_0000 && c.Extent() < 0x1_0000_0000_0000_0000)
    && (forall s :: s in o.symbols ==>
          NulFree(s.name) && s.value < 0x1_0000_0000_0000_0000 && s.size < 0x1_0000_0000_0000_0000)
    && (forall r :: r in o.relocs ==> r.offset < 0x1_0000_0000_0000_0000 && -0x8000_0000 <= r.addend < 0x8000_0000)
  }

  // ----- the pieces are where the headers say -----

  lemma SlotOfPiece(o: Object, k: nat)
    requires k < HeaderCount(o)
    ensures PieceAt(o, k).Shape() == SlotAt(o, k)
  {
    Widths();
    hide Enc, EncTable, Width, StrTab, SymRows, HeaderRows, RelaRows, EhdrFields, RelocsOf, Names, SymbolNames;
    var n, rel := |o.sections|, Relocated(o);
    if n < k <= n + |rel| {
      TableSize(RelaWidths(), RelaRows(o, rel[k - n - 1]), 24);
    } else if k == n + |rel| + 1 {
      TableSize(SymWidths(), SymRows(o), 24);
    } else if k == n + |rel| + 4 {
      TableSize(ShdrWidths(), HeaderRows(o), 64);
    }
  }

  lemma ShapesAreSlots(o: Object)
    ensures Shapes(Pieces(o)) == Slots(o)
  {
    hide PieceAt, SlotAt;
    forall k | 0 <= k < HeaderCount(o) ensures Shapes(Pieces(o))[k] == Slots(o)[k] { SlotOfPiece(o, k); }
  }

  /** Piece k of the file, found by the offset its header promises. */
  lemma PieceInFile(o: Object, k: nat)
    requires k < HeaderCount(o)
    ensures var from, data := Begin(Slots(o), k), PieceAt(o, k).data;
            from + |data| <= |File(o)| && File(o)[from..from + |data|] == data && |data| == SlotAt(o, k).size
    ensures |File(o)| == End(Slots(o))
  {
    hide SlotAt, PieceAt, Writable;
    ShapesAreSlots(o);
    SlotOfPiece(o, k);
    assert Pieces(o)[k] == PieceAt(o, k);
    hide Pieces, Slots, Shapes, Place, Begin, End;
    PlacedAt(Pieces(o), k);
  }

  lemma FirstSlot(o: Object)
    ensures Begin(Slots(o), 0) == 0
  {
    assert Slots(o)[..0] == [];
  }

  /** The pieces tile the file: in order, without overlap. */
  lemma PiecesApart(o: Object, j: nat, k: nat)
    requires j < k < HeaderCount(o)
    ensures Begin(Slots(o), j) + SlotAt(o, j).size <= Begin(Slots(o), k)
  {
    BeginAfter(Slots(o), j, k);
  }

  lemma SlotFits(o: Object, k: nat)
    requires k < HeaderCount(o)
    ensures Begin(Slots(o), k) + SlotAt(o, k).size <= End(Slots(o))
  {
    hide SlotAt;
    var s := Slots(o);
    EndMonotone(s, k + 1);
    assert s[..k + 1][..k] == s[..k];
  }

  // ----- records -----

  lemma SplitHeader(file: Bytes, a: Bytes, b: Bytes)
    requires |a| == 16 && |b| == 48 && |file| >= 64 && file[0..64] == a + b
    ensures file[..16] == a && file[16..64] == b
  {
    assert file[..16] == file[0..64][..16];
    assert file[16..64] == file[0..64][16..];
  }

  predicate EhdrIs(h: Ehdr, e: seq<nat>)
    requires |e| == 13
  {
    && h.kind == e[0] && h.machine == e[1] && h.version == e[2] && h.shoff == e[5] && h.flags == e[6] && h.ehsize == e[7]
    && h.phnum == e[9] && h.shentsize == e[10] && h.shnum == e[11] && h.shstrndx == e[12]
  }

  lemma EhdrFieldPlaces()
    ensures var w := EhdrWidths();
            && FieldAt(w, 0) == 0 && FieldAt(w, 1) == 2 && FieldAt(w, 2) == 4 && FieldAt(w, 5) == 24 && FieldAt(w, 6) == 32
            && FieldAt(w, 7) == 36 && FieldAt(w, 9) == 40 && FieldAt(w, 10) == 42 && FieldAt(w, 11) == 44 && FieldAt(w, 12) == 46
    ensures var w := EhdrWidths();
            && w[0] == 2 && w[1] == 2 && w[2] == 4 && w[5] == 8 && w[6] == 4 && w[7] == 2 && w[9] == 2 && w[10] == 2 && w[11] == 2 && w[12] == 2
  {
    var w := EhdrWidths();
    assert FieldAt(w, 3) == 8 by { assert FieldAt(w, 2) == 4 by { assert FieldAt(w, 1) == 2 by { assert FieldAt(w, 0) == 0; } } }
    assert FieldAt(w, 5) == 24 by { assert FieldAt(w, 4) == 16; }
    assert FieldAt(w, 7) == 36 by { assert FieldAt(w, 6) == 32; }
    assert FieldAt(w, 9) == 40 by { assert FieldAt(w, 8) == 38; }
    assert FieldAt(w, 11) == 44 by { assert FieldAt(w, 10) == 42; }
  }

  /** Field k of the file header in the file. */
  lemma EhdrField(file: Bytes, v: seq<nat>, k: nat, p: nat, n: nat)
    requires Fits(EhdrWidths(), v) && |file| >= 64 && Width(EhdrWidths()) == 48 && file[16..64] == Enc(EhdrWidths(), v)
    requires k < 13 && FieldAt(EhdrWidths(), k) == p && EhdrWidths()[k] == n
    ensures 16 + p + n <= 64 && NumAt(file, 16 + p, n) == v[k]
  {
    hide Enc, Width, EhdrWidths, NumAt;
    FieldReadBack(EhdrWidths(), v, k);
    NumInPart(file, 16, 48, p, n);
  }

  /** The file starts as an ELF64 file should, with these header fields. */
  predicate Opens(file: Bytes, e: seq<nat>) {
    |file| >= 64 && file[..16] == Ident() && |e| == 13 && EhdrIs(ReadEhdr(file), e)
  }

  lemma LeadingFields(file: Bytes, v: seq<nat>)
    requires Fits(EhdrWidths(), v) && |v| == 13 && |file| >= 64 && Width(EhdrWidths()) == 48 && file[16..64] == Enc(EhdrWidths(), v)
    ensures NumAt(file, 16, 2) == v[0] && NumAt(file, 18, 2) == v[1] && NumAt(file, 20, 4) == v[2]
    ensures NumAt(file, 40, 8) == v[5] && NumAt(file, 48, 4) == v[6]
  {
    hide *;
    EhdrFieldPlaces();
    EhdrField(file, v, 0, 0, 2);
    EhdrField(file, v, 1, 2, 2);
    EhdrField(file, v, 2, 4, 4);
    EhdrField(file, v, 5, 24, 8);
    EhdrField(file, v, 6, 32, 4);
  }

  lemma TrailingFields(file: Bytes, v: seq<nat>)
    requires Fits(EhdrWidths(), v) && |v| == 13 && |file| >= 64 && Width(EhdrWidths()) == 48 && file[16..64] == Enc(EhdrWidths(), v)
    ensures NumAt(file, 52, 2) == v[7] && NumAt(file, 56, 2) == v[9] && NumAt(file, 58, 2) == v[10]
    ensures NumAt(file, 60, 2) == v[11] && NumAt(file, 62, 2) == v[12]
  {
    hide *;
    EhdrFieldPlaces();
    EhdrField(file, v, 7, 36, 2);
    EhdrField(file, v, 9, 40, 2);
    EhdrField(file, v, 10, 42, 2);
    EhdrField(file, v, 11, 44, 2);
    EhdrField(file, v, 12, 46, 2);
  }

  lemma HeaderOpens(file: Bytes, v: seq<nat>)
    requires Fits(EhdrWidths(), v) && |file| >= 64 && Width(EhdrWidths()) == 48
    requires file[0..64] == Ident() + Enc(EhdrWidths(), v)
    ensures Opens(file, v)
  {
    assert |v| == 13;
    hide Enc, Width, EhdrWidths, Ident, Fits, NumAt;
    SplitHeader(file, Ident(), Enc(EhdrWidths(), v));
    LeadingFields(file, v);
    TrailingFields(file, v);
  }

  lemma FirstPiece(o: Object)
    ensures 0 < HeaderCount(o) && PieceAt(o, 0).data == Ident() + Enc(EhdrWidths(), EhdrFields(o))
    ensures SlotAt(o, 0).size == 64 && HeaderOffset(o) == Begin(Slots(o), HeaderCount(o) - 1)
  {}

  lemma SomeLimits(o: Object)
    requires WithinLimits(o)
    ensures HeaderCount(o) < 0xff00 && End(Slots(o)) < 0x1_0000_0000_0000_0000
    ensures |o.symbols| + 1 < 0x1_0000_0000
    ensures |StrTab(SymbolNames(o))| < 0x1_0000_0000 && |StrTab(Names(o))| < 0x1_0000_0000
  {}

  lemma EhdrRead(o: Object)
    requires Writable(o) && WithinLimits(o)
    ensures Opens(File(o), EhdrFields(o))
  {
    hide *;
    FirstPiece(o);
    SomeLimits(o);
    Widths();
    PieceInFile(o, 0);
    FirstSlot(o);
    SlotFits(o, HeaderCount(o) - 1);
    EhdrFits(o);
    HeaderOpens(File(o), EhdrFields(o));
  }

  lemma EhdrFits(o: Object)
    requires HeaderCount(o) < 0xff00 && HeaderOffset(o) < 0x1_0000_0000_0000_0000
    ensures Fits(EhdrWidths(), EhdrFields(o))
  {
    Pow256Values();
    var w, v := EhdrWidths(), EhdrFields(o);
    hide Pow256, HeaderCount, HeaderOffset;
    forall i | 0 <= i < |w| ensures v[i] < Pow256(w[i]) {
      assert w[i] == 2 || w[i] == 4 || w[i] == 8;
    }
  }

  // ----- names -----

  lemma AsciiNulFree(s: string)
    requires forall i :: 0 <= i < |s| ==> 0 < s[i] as int < 256
    ensures NulFree(Ascii(s))
  {}

  lemma SectionNamesNulFree(o: Object, c: Section)
    requires WithinLimits(o) && c in o.sections
    ensures NulFree(c.name) && NulFree(RelaName(c.name))
  {
    assert NulFree(c.name);
    hide WithinLimits;
    RelaNameNulFree(c.name);
  }

  /** A header's name is one of four fixed ones, a section's, or that of a section's relocations. */
  lemma NameCases(o: Object, k: nat) returns (c: Option<Section>)
    requires k < HeaderCount(o) - 1
    ensures c.None? ==> NameAt(o, k) == Ascii(".note.GNU-stack") || NameAt(o, k) == Ascii(".symtab") ||
                        NameAt(o, k) == Ascii(".strtab") || NameAt(o, k) == Ascii(".shstrtab")
    ensures c.Some? ==> c.value in o.sections && (NameAt(o, k) == c.value.name || NameAt(o, k) == RelaName(c.value.name))
  {
    hide Ascii, RelaName, Relocated;
    var n, rel := |o.sections|, Relocated(o);
    c := if k < n then Some(o.sections[k]) else if n < k <= n + |rel| then Some(o.sections[rel[k - n - 1]]) else None;
  }

  lemma FixedNames()
    ensures NulFree(Ascii(".note.GNU-stack")) && NulFree(Ascii(".symtab")) && NulFree(Ascii(".strtab")) && NulFree(Ascii(".shstrtab"))
  {
    hide NulFree, Ascii;
    AsciiNulFree(".note.GNU-stack");
    AsciiNulFree(".symtab");
    AsciiNulFree(".strtab");
    AsciiNulFree(".shstrtab");
  }

  lemma NamesNulFree(o: Object, k: nat)
    requires WithinLimits(o) && k < HeaderCount(o) - 1
    ensures NulFree(NameAt(o, k))
  {
    hide *;
    FixedNames();
    var c := NameCases(o, k);
    if c.Some? { SectionNamesNulFree(o, c.value); }
  }

  lemma RelaNameNulFree(name: Bytes)
    requires NulFree(name)
    ensures NulFree(RelaName(name))
  {
    AsciiNulFree(".rela");
    hide Ascii;
  }

  /** The name offset of every header leads to its name. */
  lemma HeaderName(o: Object, k: nat)
    requires WithinLimits(o) && 0 < k < HeaderCount(o)
    ensures ReadStr(StrTab(Names(o)), HeaderAt(o, k).name) == NameAt(o, k - 1)
    ensures HeaderAt(o, k).name < |StrTab(Names(o))|
  {
    hide NameAt, StrTab, WithinLimits, ReadStr, Slots, Begin, NameOffset, SlotAt;
    NamesNulFree(o, k - 1);
    NameReadBack(Names(o), k - 1);
  }

  // ----- section headers -----

  lemma PickLength(symbols: seq<Symbol>, n: nat)
    requires n <= |symbols|
    ensures |Pick(symbols, true, n)| <= n
  {
    PickSizes(symbols, n);
  }

  /** Every field of a section header fits its width. */
  predicate SmallHeader(h: Shdr) {
    && h.name < 0x1_0000_0000 && h.kind < 0x1_0000_0000 && h.flags < 0x1_0000_0000_0000_0000
    && h.offset < 0x1_0000_0000_0000_0000 && h.size < 0x1_0000_0000_0000_0000
    && h.link < 0x1_0000_0000 && h.info < 0x1_0000_0000
    && h.align < 0x1_0000_0000_0000_0000 && h.entsize < 0x1_0000_0000_0000_0000
  }

  lemma ContentLimits(o: Object, i: nat)
    requires WithinLimits(o) && i < |o.sections|
    ensures o.sections[i].Align() < 0x1_0000_0000_0000_0000 && o.sections[i].Extent() < 0x1_0000_0000_0000_0000
  {
    hide End, Slots, HeaderCount, StrTab;
    assert o.sections[i] in o.sections;
  }

  lemma HeaderIsSmall(o: Object, k: nat)
    requires WithinLimits(o) && k < HeaderCount(o)
    ensures SmallHeader(HeaderAt(o, k))
  {
    hide WithinLimits, SlotAt, Begin, End, Slots, StrTab, NameOffset, Pick, Names, RelocsOf, ReadStr, NameAt;
    if k == 0 { return; }
    HeaderName(o, k);
    SomeLimits(o);
    PickLength(o.symbols, |o.symbols|);
    SlotFits(o, k);
    SlotFits(o, k - 1);
    if k <= |o.sections| { ContentLimits(o, k - 1); }
  }

  lemma SmallFits(h: Shdr)
    requires SmallHeader(h)
    ensures Fits(ShdrWidths(), h.Fields())
  {
    Pow256Values();
    var w, v := ShdrWidths(), h.Fields();
    hide Pow256;
    forall i | 0 <= i < |w| ensures v[i] < Pow256(w[i]) {
      assert w[i] == 4 || w[i] == 8;
    }
  }

  lemma ReadShdrBack(h: Shdr)
    requires SmallHeader(h)
    ensures |Enc(ShdrWidths(), h.Fields())| == 64 && ReadShdr(Enc(ShdrWidths(), h.Fields())) == h
  {
    Widths();
    SmallFits(h);
    ShdrFieldPlaces();
    var w, v := ShdrWidths(), h.Fields();
    assert w[0] == 4 && w[1] == 4 && w[2] == 8 && w[4] == 8 && w[5] == 8 && w[6] == 4 && w[7] == 4 && w[8] == 8 && w[9] == 8;
    hide Enc, Width, ShdrWidths, Fits, FieldAt, NumAt;
    FieldReadBack(w, v, 0);
    FieldReadBack(w, v, 1);
    FieldReadBack(w, v, 2);
    FieldReadBack(w, v, 4);
    FieldReadBack(w, v, 5);
    FieldReadBack(w, v, 6);
    FieldReadBack(w, v, 7);
    FieldReadBack(w, v, 8);
    FieldReadBack(w, v, 9);
  }

  lemma ShdrFieldPlaces()
    ensures var w := ShdrWidths();
            && FieldAt(w, 0) == 0 && FieldAt(w, 1) == 4 && FieldAt(w, 2) == 8 && FieldAt(w, 4) == 24 && FieldAt(w, 5) == 32
            && FieldAt(w, 6) == 40 && FieldAt(w, 7) == 44 && FieldAt(w, 8) == 48 && FieldAt(w, 9) == 56
  {
    var w := ShdrWidths();
    assert FieldAt(w, 2) == 8 by { assert FieldAt(w, 1) == 4 by { assert FieldAt(w, 0) == 0; } }
    assert FieldAt(w, 4) == 24 by { assert FieldAt(w, 3) == 16; }
    assert FieldAt(w, 6) == 40 by { assert FieldAt(w, 5) == 32; }
    assert FieldAt(w, 8) == 48 by { assert FieldAt(w, 7) == 44; }
  }

  function AllHeaders(o: Object): (h: seq<Shdr>)
    ensures |h| == HeaderCount(o)
  {
    seq(HeaderCount(o), k requires 0 <= k < HeaderCount(o) => HeaderAt(o, k))
  }

  lemma LastPiece(o: Object)
    ensures PieceAt(o, HeaderCount(o) - 1).data == EncTable(ShdrWidths(), HeaderRows(o))
    ensures SlotAt(o, HeaderCount(o) - 1).size == 64 * HeaderCount(o)
    ensures HeaderOffset(o) == Begin(Slots(o), HeaderCount(o) - 1)
    ensures forall k :: 0 <= k < HeaderCount(o) ==> HeaderRows(o)[k] == HeaderAt(o, k).Fields()
  {
    hide Enc, EncTable, StrTab, Begin, Slots, RelocsOf, Names, SymbolNames, SymRows, RelaRows, EhdrFields, Ident, Relocated, HeaderAt,
         ShdrWidths, SymWidths, RelaWidths, EhdrWidths, Shdr.Fields;
  }

  predicate HeaderIn(file: Bytes, at: nat, k: nat, h: Shdr) {
    at + 64 * k + 64 <= |file| && ReadShdr(file[at + 64 * k..at + 64 * k + 64]) == h
  }

  lemma GatherHeaders(file: Bytes, at: nat, h: seq<Shdr>)
    requires h != [] && forall k :: 0 <= k < |h| ==> HeaderIn(file, at, k, h[k])
    ensures ReadHeaders(file, at, |h|) == Some(h)
  {
    hide ReadShdr;
    assert HeaderIn(file, at, |h| - 1, h[|h| - 1]);
    var r := ReadHeaders(file, at, |h|).value;
    forall k | 0 <= k < |h| ensures r[k] == h[k] { assert HeaderIn(file, at, k, h[k]); }
    assert r == h;
  }

  lemma HeaderReadAt(o: Object, k: nat)
    requires Writable(o) && WithinLimits(o) && k < HeaderCount(o)
    ensures HeaderIn(File(o), HeaderOffset(o), k, HeaderAt(o, k))
  {
    hide PieceAt, SlotAt, File, Slots, Begin, HeaderAt, HeaderRows, WithinLimits, Writable, End, HeaderOffset, Width, EncTable,
         ShdrWidths, HeaderCount, Enc, ReadShdr;
    Widths();
    LastPiece(o);
    PieceInFile(o, HeaderCount(o) - 1);
    RowInFile(File(o), HeaderOffset(o), ShdrWidths(), HeaderRows(o), k);
    HeaderIsSmall(o, k);
    ReadShdrBack(HeaderAt(o, k));
  }

  /** The reader gets the section headers the writer meant. */
  lemma HeadersRead(o: Object)
    requires Writable(o) && WithinLimits(o)
    ensures ReadHeaders(File(o), HeaderOffset(o), HeaderCount(o)) == Some(AllHeaders(o))
  {
    hide HeaderIn, HeaderAt, HeaderOffset, Writable, WithinLimits, ReadHeaders;
    forall k | 0 <= k < HeaderCount(o) ensures HeaderIn(File(o), HeaderOffset(o), k, AllHeaders(o)[k]) { HeaderReadAt(o, k); }
    GatherHeaders(File(o), HeaderOffset(o), AllHeaders(o));
  }

  // ----- sections -----

  /** What the reader should find in section k. */
  ghost function DataAt(o: Object, k: nat): Bytes
    requires Writable(o) && k < HeaderCount(o)
  {
    if k == 0 || k == |o.sections| + 1 then []
    else if k <= |o.sections| then PieceAt(o, k).data
    else PieceAt(o, k - 1).data
  }

  lemma PayloadRead(o: Object, k: nat)
    requires Writable(o) && k < HeaderCount(o)
    ensures Payload(File(o), HeaderAt(o, k)) == Some(DataAt(o, k))
  {
    hide File, Slots, Begin, StrTab, NameOffset, Names, Enc, EncTable, EhdrFields, Ident, SymRows, RelaRows, HeaderRows, RelocsOf,
         SymbolNames, Writable;
    if 0 < k <= |o.sections| {
      PieceInFile(o, k);
    } else if k > |o.sections| + 1 {
      PieceInFile(o, k - 1);
    }
  }

  ghost function ViewAt(o: Object, k: nat): SectionView
    requires Writable(o) && k < HeaderCount(o)
  {
    var h := HeaderAt(o, k);
    SectionView(if k == 0 then [] else NameAt(o, k - 1), h.kind, h.flags, h.size, h.link, h.info, h.align, h.entsize, DataAt(o, k))
  }

  ghost function AllViews(o: Object): (v: seq<SectionView>)
    requires Writable(o)
    ensures |v| == HeaderCount(o)
  {
    seq(HeaderCount(o), k requires 0 <= k < HeaderCount(o) => ViewAt(o, k))
  }

  lemma EmptyName(names: seq<Bytes>)
    ensures ReadStr(StrTab(names), 0) == []
  {
    StrTabPrefix(names, 0);
    assert names[..0] == [];
  }

  lemma NullName(o: Object)
    ensures HeaderAt(o, 0).name == 0
  {}

  lemma SectionRead(o: Object, k: nat)
    requires Writable(o) && WithinLimits(o) && k < HeaderCount(o)
    ensures ReadSection(File(o), StrTab(Names(o)), HeaderAt(o, k)) == Some(ViewAt(o, k))
  {
    hide File, HeaderAt, StrTab, Names, Writable, WithinLimits, DataAt, NameAt, Payload, HeaderCount, ReadStr;
    PayloadRead(o, k);
    if k == 0 {
      EmptyName(Names(o));
      NullName(o);
    } else {
      HeaderName(o, k);
    }
  }

  lemma {:induction false} GatherSections(file: Bytes, names: Bytes, h: seq<Shdr>, v: seq<SectionView>)
    requires |h| == |v| && forall k :: 0 <= k < |h| ==> ReadSection(file, names, h[k]) == Some(v[k])
    ensures ReadSections(file, names, h) == Some(v)
  {
    hide ReadSection;
    if h != [] {
      GatherSections(file, names, h[..|h| - 1], v[..|v| - 1]);
      assert v == v[..|v| - 1] + [v[|v| - 1]];
    }
  }

  lemma SectionsRead(o: Object)
    requires Writable(o) && WithinLimits(o)
    ensures ReadSections(File(o), StrTab(Names(o)), AllHeaders(o)) == Some(AllViews(o))
  {
    hide File, HeaderAt, StrTab, Names, Writable, WithinLimits, ReadSection, ViewAt, ReadSections, HeaderCount;
    forall k | 0 <= k < HeaderCount(o)
      ensures ReadSection(File(o), StrTab(Names(o)), AllHeaders(o)[k]) == Some(AllViews(o)[k])
    {
      SectionRead(o, k);
    }
    GatherSections(File(o), StrTab(Names(o)), AllHeaders(o), AllViews(o));
  }

  lemma {:induction false} FirstSymtab(s: seq<SectionView>, k: nat, i: nat)
    requires k <= i < |s| && s[i].kind == SHT_SYMTAB
    requires forall j :: k <= j < i ==> s[j].kind != SHT_SYMTAB
    ensures FindSymtab(s, k) == Some(i)
    decreases i - k
  {
    if k < i { FirstSymtab(s, k + 1, i); }
  }

  lemma ViewKinds(o: Object, k: nat)
    requires Writable(o) && k < HeaderCount(o)
    ensures ViewAt(o, k).kind == SHT_SYMTAB <==> k == SymtabIndex(o)
    ensures ViewAt(o, k).kind == SHT_RELA <==> |o.sections| + 1 < k < SymtabIndex(o)
    ensures k == SymtabIndex(o) ==> ViewAt(o, k).link == k + 1
  {
    hide NameAt, DataAt, Begin, Slots, NameOffset, Names, SlotAt;
  }

  lemma TableShape(o: Object, k: nat)
    requires Writable(o) && k < HeaderCount(o)
    ensures ViewAt(o, k).kind in {2, 4} ==> ViewAt(o, k).entsize == 24 && ViewAt(o, k).align == 8
  {
    hide NameAt, DataAt, Begin, Slots, NameOffset, Names, SlotAt;
  }

  lemma SymtabFound(o: Object)
    requires Writable(o)
    ensures FindSymtab(AllViews(o), 0) == Some(SymtabIndex(o)) && AllViews(o)[SymtabIndex(o)].link == SymtabIndex(o) + 1
  {
    hide ViewAt, Writable;
    forall k | 0 <= k < HeaderCount(o)
      ensures AllViews(o)[k].kind == SHT_SYMTAB <==> k == SymtabIndex(o)
    {
      ViewKinds(o, k);
    }
    ViewKinds(o, SymtabIndex(o));
    FirstSymtab(AllViews(o), 0, SymtabIndex(o));
  }

  /** The tables the reader works on hold what the writer put there. */
  lemma TablesRead(o: Object)
    requires Writable(o)
    ensures AllViews(o)[SymtabIndex(o)].data == EncTable(SymWidths(), SymRows(o))
    ensures AllViews(o)[SymtabIndex(o) + 1].data == StrTab(SymbolNames(o))
    ensures Payload(File(o), AllHeaders(o)[HeaderCount(o) - 1]) == Some(StrTab(Names(o)))
  {
    hide File, HeaderAt, StrTab, Names, Writable, EncTable, SymWidths, SymRows, SymbolNames, HeaderRows, RelaRows, Payload, NameAt,
         Relocated, EhdrFields, Enc, Ident;
    PayloadRead(o, HeaderCount(o) - 1);
  }

  // ----- symbols -----

  lemma {:induction false} PickHolds(symbols: seq<Symbol>, n: nat, i: nat)
    requires i < n <= |symbols|
    ensures i in Pick(symbols, symbols[i].binding.Local?, n)
  {
    if i < n - 1 { PickHolds(symbols, n - 1, i); }
  }

  lemma {:induction false} PickIncreases(symbols: seq<Symbol>, local: bool, n: nat)
    requires n <= |symbols|
    ensures forall p, q :: 0 <= p < q < |Pick(symbols, local, n)| ==> Pick(symbols, local, n)[p] < Pick(symbols, local, n)[q]
  {
    if n != 0 { PickIncreases(symbols, local, n - 1); }
  }

  lemma {:induction false} PositionFound(order: seq<nat>, i: nat)
    requires i in order
    ensures PositionIn(order, i) < |order| && order[PositionIn(order, i)] == i
  {
    if order[0] != i { PositionFound(order[1..], i); }
  }

  lemma {:induction false} PositionOnly(order: seq<nat>, p: nat)
    requires p < |order| && forall a, b :: 0 <= a < b < |order| ==> order[a] != order[b]
    ensures PositionIn(order, order[p]) == p
  {
    if p != 0 { PositionOnly(order[1..], p - 1); }
  }

  lemma EntryHolds(o: Object, i: nat)
    requires i < |o.symbols|
    ensures 1 <= EntryOf(o, i) <= |o.symbols| && Order(o)[EntryOf(o, i) - 1] == i
  {
    PickHolds(o.symbols, |o.symbols|, i);
    PositionFound(Order(o), i);
  }

  lemma OrderDistinct(o: Object)
    ensures forall a, b :: 0 <= a < b < |Order(o)| ==> Order(o)[a] != Order(o)[b]
  {
    var n := |o.symbols|;
    PickIncreases(o.symbols, true, n);
    PickIncreases(o.symbols, false, n);
    var locals, others := Pick(o.symbols, true, n), Pick(o.symbols, false, n);
    hide Pick;
    forall a, b | 0 <= a < b < |Order(o)| ensures Order(o)[a] != Order(o)[b] {
      if a < |locals| <= b { assert o.symbols[locals[a]].binding.Local? && !o.symbols[others[b - |locals|]].binding.Local?; }
    }
  }

  lemma EntryClass(o: Object, i: nat)
    requires i < |o.symbols|
    ensures o.symbols[i].binding.Local? <==> EntryOf(o, i) < FirstGlobal(o)
  {
    var locals, others := Pick(o.symbols, true, |o.symbols|), Pick(o.symbols, false, |o.symbols|);
    EntryHolds(o, i);
    var p := EntryOf(o, i) - 1;
    hide Pick, EntryOf;
    if p < |locals| { assert locals[p] == i; } else { assert others[p - |locals|] == i; }
  }

  lemma EntryOrder(o: Object, i: nat, j: nat)
    requires i < j < |o.symbols| && o.symbols[i].binding.Local? == o.symbols[j].binding.Local?
    ensures EntryOf(o, i) < EntryOf(o, j)
  {
    var locals, others := Pick(o.symbols, true, |o.symbols|), Pick(o.symbols, false, |o.symbols|);
    PickIncreases(o.symbols, true, |o.symbols|);
    PickIncreases(o.symbols, false, |o.symbols|);
    EntryHolds(o, i);
    EntryHolds(o, j);
    EntryClass(o, i);
    EntryClass(o, j);
    var p, q := EntryOf(o, i) - 1, EntryOf(o, j) - 1;
    hide Pick, EntryOf;
    if p < |locals| {
      assert locals[q] == j && locals[p] == i;
    } else {
      assert others[q - |locals|] == j && others[p - |locals|] == i;
    }
  }

  /** The reordering is a bijection onto entries 1..n that keeps relative order within the
      local and within the other symbols, and puts the local ones first. */
  lemma SymbolOrder(o: Object, i: nat, j: nat)
    requires i < |o.symbols| && j < |o.symbols|
    ensures 1 <= EntryOf(o, i) <= |o.symbols|
    ensures EntryOf(o, i) == EntryOf(o, j) <==> i == j
    ensures EntryOf(o, Order(o)[i]) == i + 1
    ensures i < j && o.symbols[i].binding.Local? == o.symbols[j].binding.Local? ==> EntryOf(o, i) < EntryOf(o, j)
    ensures o.symbols[i].binding.Local? <==> EntryOf(o, i) < FirstGlobal(o)
  {
    hide *;
    EntryHolds(o, i);
    EntryHolds(o, j);
    EntryIs(o, i + 1);
    EntryClass(o, i);
    if i < j && o.symbols[i].binding.Local? == o.symbols[j].binding.Local? { EntryOrder(o, i, j); }
  }

  lemma EntryIs(o: Object, e: nat)
    requires 1 <= e <= |o.symbols|
    ensures EntryOf(o, Order(o)[e - 1]) == e
  {
    OrderDistinct(o);
    PositionOnly(Order(o), e - 1);
  }

  /** sh_info separates STB_LOCAL entries from the rest exactly when no local symbol is
      undefined. */
  lemma FirstGlobalExact(o: Object)
    ensures (forall i :: 0 <= i < |o.symbols| ==> (SymbolBind(o.symbols[i]) == 0 <==> EntryOf(o, i) < FirstGlobal(o)))
            <==> (forall i :: 0 <= i < |o.symbols| && o.symbols[i].binding.Local? ==> o.symbols[i].section.Some?)
  {
    hide EntryOf, FirstGlobal, Order;
    forall i | 0 <= i < |o.symbols| ensures o.symbols[i].binding.Local? <==> EntryOf(o, i) < FirstGlobal(o) {
      EntryClass(o, i);
    }
    if i :| 0 <= i < |o.symbols| && o.symbols[i].binding.Local? && o.symbols[i].section.None? {
      assert SymbolBind(o.symbols[i]) == 1 && EntryOf(o, i) < FirstGlobal(o);
    }
  }

  function SymbolViewOf(o: Object, s: Symbol): SymbolView {
    var inText := s.section.Some? && s.section.value < |o.sections| && o.sections[s.section.value].kind.Text?;
    SymbolView(s.name, if s.section.Some? && s.binding.Local? then 0 else 1, if inText then 2 else 0, 0,
               if s.section.None? then 0 else 1 + s.section.value, s.value, s.size)
  }

  predicate SmallSymbol(v: seq<nat>) {
    |v| == 6 && v[0] < 0x1_0000_0000 && v[1] < 256 && v[2] < 256 && v[3] < 0x1_0000 &&
    v[4] < 0x1_0000_0000_0000_0000 && v[5] < 0x1_0000_0000_0000_0000
  }

  lemma SmallSymbolFits(v: seq<nat>)
    requires SmallSymbol(v)
    ensures Fits(SymWidths(), v)
  {
    Pow256Values();
    hide Pow256;
  }

  lemma SymbolLimits(o: Object, i: nat)
    requires Writable(o) && WithinLimits(o) && i < |o.symbols|
    ensures var s := o.symbols[i];
            NulFree(s.name) && s.value < 0x1_0000_0000_0000_0000 && s.size < 0x1_0000_0000_0000_0000 && SymbolShndx(s) < 0x1_0000
  {
    hide End, Slots, StrTab, RelocsOf, SymbolNames, Names, Relocated;
    assert o.symbols[i] in o.symbols;
  }

  lemma SymRowSmall(o: Object, p: nat)
    requires Writable(o) && WithinLimits(o) && p < |o.symbols|
    ensures SmallSymbol(SymRow(o, p))
    ensures ReadStr(StrTab(SymbolNames(o)), SymRow(o, p)[0]) == o.symbols[Order(o)[p]].name
  {
    hide Writable, WithinLimits, StrTab, NameOffset, ReadStr, Order, SymbolShndx;
    SymbolLimits(o, Order(o)[p]);
    SomeLimits(o);
    assert SymbolNames(o)[p] == o.symbols[Order(o)[p]].name;
    NameReadBack(SymbolNames(o), p);
  }

  lemma ReadSymbolBack(names: Bytes, v: seq<nat>)
    requires SmallSymbol(v)
    ensures |Enc(SymWidths(), v)| == 24
    ensures ReadSymbol(names, Enc(SymWidths(), v)) == SymbolView(ReadStr(names, v[0]), v[1] / 16, v[1] % 16, v[2], v[3], v[4], v[5])
  {
    Widths();
    SmallSymbolFits(v);
    SymFieldPlaces();
    var w := SymWidths();
    assert w[0] == 4 && w[1] == 1 && w[2] == 1 && w[3] == 2 && w[4] == 8 && w[5] == 8;
    hide Enc, Width, SymWidths, ReadStr, Fits, FieldAt, NumAt;
    FieldReadBack(w, v, 0);
    FieldReadBack(w, v, 1);
    FieldReadBack(w, v, 2);
    FieldReadBack(w, v, 3);
    FieldReadBack(w, v, 4);
    FieldReadBack(w, v, 5);
  }

  lemma SymFieldPlaces()
    ensures var w := SymWidths();
            FieldAt(w, 0) == 0 && FieldAt(w, 1) == 4 && FieldAt(w, 2) == 5 && FieldAt(w, 3) == 6 && FieldAt(w, 4) == 8 && FieldAt(w, 5) == 16
  {
    var w := SymWidths();
    assert FieldAt(w, 2) == 5 by { assert FieldAt(w, 1) == 4 by { assert FieldAt(w, 0) == 0; } }
    assert FieldAt(w, 4) == 8 by { assert FieldAt(w, 3) == 6; }
  }

  predicate RecordIn(table: Bytes, k: nat, b: Bytes) {
    24 * k + 24 <= |table| && table[24 * k..24 * k + 24] == b
  }

  /** A table of 24-byte records, taken apart. */
  lemma RecordsIn(w: seq<nat>, rows: seq<seq<nat>>, k: nat)
    requires (forall r :: r in rows ==> |r| == |w|) && Width(w) == 24 && k < |rows|
    ensures |EncTable(w, rows)| / 24 == |rows| && RecordIn(EncTable(w, rows), k, Enc(w, rows[k]))
  {
    hide EncTable, Enc, Width;
    RowAt(w, rows, k);
  }

  lemma SymbolAt(names: Bytes, table: Bytes, k: nat, b: Bytes)
    requires k < |table| / 24 && RecordIn(table, k, b)
    ensures |b| == 24 && ReadSymbols(names, table)[k] == ReadSymbol(names, b)
  {
    hide ReadSymbol;
  }

  /** Symbol i is in the table, at the entry given to it. */
  ghost predicate SymbolReads(o: Object, i: nat) {
    var table := EncTable(SymWidths(), SymRows(o));
    i < |o.symbols| && EntryOf(o, i) < |table| / 24 &&
    ReadSymbols(StrTab(SymbolNames(o)), table)[EntryOf(o, i)] == SymbolViewOf(o, o.symbols[i])
  }

  lemma SymbolRead(o: Object, i: nat)
    requires Writable(o) && WithinLimits(o) && i < |o.symbols|
    ensures SymbolReads(o, i)
  {
    var e := EntryOf(o, i);
    hide Writable, WithinLimits, EncTable, Enc, ReadSymbol, SymWidths, Width, SymRow, SymRows, ReadSymbols, RecordIn, StrTab, SymbolNames,
         ReadStr, Order, EntryOf, SymbolViewOf, SmallSymbol;
    EntryHolds(o, i);
    Widths();
    RecordsIn(SymWidths(), SymRows(o), e);
    SymRowAt(o, e - 1);
    var names, table, row := StrTab(SymbolNames(o)), EncTable(SymWidths(), SymRows(o)), SymRow(o, e - 1);
    SymbolAt(names, table, e, Enc(SymWidths(), row));
    SymRowSmall(o, e - 1);
    ReadSymbolBack(names, row);
    SymRowView(o, e - 1, names);
  }

  lemma SymRowAt(o: Object, p: nat)
    requires p < |o.symbols|
    ensures SymRows(o)[p + 1] == SymRow(o, p)
  {}

  lemma SymRowView(o: Object, p: nat, names: Bytes)
    requires p < |o.symbols|
    requires ReadStr(names, SymRow(o, p)[0]) == o.symbols[Order(o)[p]].name
    ensures var v := SymRow(o, p);
            SymbolView(ReadStr(names, v[0]), v[1] / 16, v[1] % 16, v[2], v[3], v[4], v[5]) == SymbolViewOf(o, o.symbols[Order(o)[p]])
  {
    hide ReadStr;
    SymRowFields(o, p);
  }

  lemma SymRowFields(o: Object, p: nat)
    requires p < |o.symbols|
    ensures var v, s := SymRow(o, p), o.symbols[Order(o)[p]];
            v[1] / 16 == SymbolBind(s) && v[1] % 16 == SymbolType(o, s) && v[2] == 0 && v[3] == SymbolShndx(s) && v[4] == s.value && v[5] == s.size
  {}

  // ----- relocations -----

  /** R_X86_64_PC32, biased because the field is measured from its end, or R_X86_64_64. */
  function RelaViewOf(o: Object, r: Reloc): RelaView
    requires (r.kind.Rel32? || r.kind.Addr64?) && Find(o.symbols, r.symbol).Some?
  {
    RelaView(r.offset, EntryOf(o, Find(o.symbols, r.symbol).value), if r.kind.Rel32? then 2 else 1,
             if r.kind.Rel32? then r.addend - 4 else r.addend)
  }

  ghost function RelaViews(o: Object, i: nat): (v: seq<RelaView>)
    requires Writable(o)
    ensures |v| == |RelocsOf(o.relocs, i)|
  {
    var rs := RelocsOf(o.relocs, i);
    assert forall k :: 0 <= k < |rs| ==> rs[k] in rs;
    seq(|rs|, k requires 0 <= k < |rs| => RelaViewOf(o, rs[k]))
  }

  lemma InfoParts(entry: nat, kind: nat)
    requires kind < 0x1_0000_0000 && entry < 0x1_0000_0000
    ensures (entry * 0x1_0000_0000 + kind) / 0x1_0000_0000 == entry && (entry * 0x1_0000_0000 + kind) % 0x1_0000_0000 == kind
    ensures entry * 0x1_0000_0000 + kind < 0x1_0000_0000_0000_0000
  {
  }

  lemma RelaFields(o: Object, r: Reloc)
    requires (r.kind.Rel32? || r.kind.Addr64?) && Find(o.symbols, r.symbol).Some?
    ensures var entry, kind := EntryOf(o, Find(o.symbols, r.symbol).value), if r.kind.Rel32? then 2 else 1;
            RelaRow(o, r) == [r.offset, entry * 0x1_0000_0000 + kind, Twos(8, if r.kind.Rel32? then r.addend - 4 else r.addend)]
  {
    hide EntryOf, FindFrom, Twos;
  }

  lemma RelaFits(o: Object, r: Reloc)
    requires Writable(o) && WithinLimits(o) && r in o.relocs
    ensures Fits(RelaWidths(), RelaRow(o, r))
    ensures Signed(8, RelaRow(o, r)[2]) == if r.kind.Rel32? then r.addend - 4 else r.addend
    ensures RelaRow(o, r)[1] / 0x1_0000_0000 == EntryOf(o, Find(o.symbols, r.symbol).value)
    ensures RelaRow(o, r)[1] % 0x1_0000_0000 == if r.kind.Rel32? then 2 else 1
  {
    assert r.offset < 0x1_0000_0000_0000_0000 && -0x8000_0000 <= r.addend < 0x8000_0000;
    var entry, kind := EntryOf(o, Find(o.symbols, r.symbol).value), if r.kind.Rel32? then 2 else 1;
    var addend := if r.kind.Rel32? then r.addend - 4 else r.addend;
    EntryHolds(o, Find(o.symbols, r.symbol).value);
    SomeLimits(o);
    RelaFields(o, r);
    hide *;
    assert entry < 0x1_0000_0000;
    AddendBack(addend);
    InfoParts(entry, kind);
    SmallRela(r.offset, entry * 0x1_0000_0000 + kind, Twos(8, addend));
  }

  lemma AddendBack(addend: int)
    requires -0x1_0000_0000 <= addend < 0x1_0000_0000
    ensures Signed(8, Twos(8, addend)) == addend && Twos(8, addend) < 0x1_0000_0000_0000_0000
  {
    hide Signed, Twos, Pow256;
    Pow256Values();
    SignedTwos(8, addend);
  }

  lemma SmallRela(a: nat, b: nat, c: nat)
    requires a < 0x1_0000_0000_0000_0000 && b < 0x1_0000_0000_0000_0000 && c < 0x1_0000_0000_0000_0000
    ensures Fits(RelaWidths(), [a, b, c])
  {
    Pow256Values();
    hide Pow256;
  }

  lemma ReadRelaBack(v: seq<nat>)
    requires Fits(RelaWidths(), v)
    ensures |Enc(RelaWidths(), v)| == 24
    ensures ReadRela(Enc(RelaWidths(), v)) == RelaView(v[0], v[1] / 0x1_0000_0000, v[1] % 0x1_0000_0000, Signed(8, v[2]))
  {
    Widths();
    RelaFieldPlaces();
    var w := RelaWidths();
    assert w[0] == 8 && w[1] == 8 && w[2] == 8;
    hide Enc, Width, RelaWidths, Signed, Fits, FieldAt, NumAt;
    FieldReadBack(w, v, 0);
    FieldReadBack(w, v, 1);
    FieldReadBack(w, v, 2);
    InfoHalves(Enc(w, v), v[1]);
  }

  lemma RelaFieldPlaces()
    ensures var w := RelaWidths(); FieldAt(w, 0) == 0 && FieldAt(w, 1) == 8 && FieldAt(w, 2) == 16
  {
    var w := RelaWidths();
    assert FieldAt(w, 1) == 8 by { assert FieldAt(w, 0) == 0; }
  }

  /** The type is the low half of the info field, the symbol the high half. */
  lemma InfoHalves(b: Bytes, info: nat)
    requires |b| == 24 && NumAt(b, 8, 8) == info
    ensures NumAt(b, 12, 4) == info / 0x1_0000_0000 && NumAt(b, 8, 4) == info % 0x1_0000_0000
  {
    Halves(b, 8, 4);
    Pow256Values();
    hide NumAt, Pow256;
  }

  lemma RelaAt(table: Bytes, k: nat, b: Bytes)
    requires k < |table| / 24 && RecordIn(table, k, b)
    ensures |b| == 24 && ReadRelas(table)[k] == ReadRela(b)
  {
    hide ReadRela;
  }

  lemma RelaRowAt(o: Object, i: nat, k: nat)
    requires Writable(o) && k < |RelocsOf(o.relocs, i)|
    ensures var r := RelocsOf(o.relocs, i)[k];
            r in o.relocs && (r.kind.Rel32? || r.kind.Addr64?) && Find(o.symbols, r.symbol).Some? &&
            RelaRows(o, i)[k] == RelaRow(o, r) && RelaRow(o, r)[0] == r.offset && RelaViews(o, i)[k] == RelaViewOf(o, r)
  {
    hide MapReloc, FindFrom, EntryOf, RelocsOf, Twos;
    var r := RelocsOf(o.relocs, i)[k];
    assert r in RelocsOf(o.relocs, i);
  }

  lemma RelaReadAt(o: Object, i: nat, k: nat)
    requires Writable(o) && WithinLimits(o) && k < |RelocsOf(o.relocs, i)|
    ensures var table := EncTable(RelaWidths(), RelaRows(o, i));
            |table| / 24 == |RelocsOf(o.relocs, i)| && ReadRelas(table)[k] == RelaViews(o, i)[k]
  {
    hide Writable, WithinLimits, EncTable, Enc, ReadRela, EntryOf, RelaWidths, Width, FindFrom, RelaRow, RelaRows, RelaViews, Signed,
         Fits, MapReloc, RelocsOf, ReadRelas, RecordIn, Find;
    Widths();
    RelaRowAt(o, i, k);
    var r := RelocsOf(o.relocs, i)[k];
    RecordsIn(RelaWidths(), RelaRows(o, i), k);
    RelaAt(EncTable(RelaWidths(), RelaRows(o, i)), k, Enc(RelaWidths(), RelaRow(o, r)));
    RelaFits(o, r);
    ReadRelaBack(RelaRow(o, r));
  }

  lemma RelasRead(o: Object, i: nat)
    requires Writable(o) && WithinLimits(o) && RelocsOf(o.relocs, i) != []
    ensures ReadRelas(EncTable(RelaWidths(), RelaRows(o, i))) == RelaViews(o, i)
  {
    hide WithinLimits, EncTable, ReadRela, RelaRows, Writable, RelocsOf;
    RelaReadAt(o, i, 0);
    var got := ReadRelas(EncTable(RelaWidths(), RelaRows(o, i)));
    forall k | 0 <= k < |got| ensures got[k] == RelaViews(o, i)[k] { RelaReadAt(o, i, k); }
  }

  /** The relocation tables of an object: one for each section that has relocations. */
  ghost function Tables(o: Object): (t: seq<RelaTable>)
    requires Writable(o)
    ensures |t| == |Relocated(o)|
  {
    seq(|Relocated(o)|, k requires 0 <= k < |Relocated(o)| => RelaTable(1 + Relocated(o)[k], RelaViews(o, Relocated(o)[k])))
  }

  lemma RelaSection(o: Object, k: nat)
    requires Writable(o) && WithinLimits(o) && |o.sections| + 1 < k < SymtabIndex(o)
    ensures var v := ViewAt(o, k);
            v.kind == SHT_RELA && RelaTable(v.info, ReadRelas(v.data)) == Tables(o)[k - |o.sections| - 2]
  {
    hide NameAt, Begin, Slots, NameOffset, Names, SlotAt, RelaRows, RelaViews, EncTable, ReadRelas, WithinLimits, Writable, RelaWidths,
         RelocsOf, RelocatedBelow;
    RelasRead(o, Relocated(o)[k - |o.sections| - 2]);
  }

  lemma {:induction false} TablesBelow(o: Object, p: nat)
    requires Writable(o) && WithinLimits(o) && p <= HeaderCount(o)
    ensures var first := |o.sections| + 2;
            RelaTables(AllViews(o)[..p]) == Tables(o)[..if p <= first then 0 else if p <= SymtabIndex(o) then p - first else |Tables(o)|]
  {
    hide ViewAt, Tables, WithinLimits, Writable, ReadRelas;
    if p != 0 {
      var s := AllViews(o)[..p];
      assert s[..p - 1] == AllViews(o)[..p - 1] && s[p - 1] == ViewAt(o, p - 1);
      TablesBelow(o, p - 1);
      ViewKinds(o, p - 1);
      if |o.sections| + 1 < p - 1 < SymtabIndex(o) { RelaSection(o, p - 1); }
    }
  }

  lemma AllTables(o: Object)
    requires Writable(o) && WithinLimits(o)
    ensures RelaTables(AllViews(o)) == Tables(o)
  {
    hide ViewAt, Tables, WithinLimits, Writable, RelaTables, AllViews;
    TablesBelow(o, HeaderCount(o));
    assert AllViews(o)[..HeaderCount(o)] == AllViews(o);
  }

  // ----- the whole file -----

  lemma SymbolCount(o: Object)
    ensures |EncTable(SymWidths(), SymRows(o))| / 24 == |o.symbols| + 1
  {
    Widths();
    RecordsIn(SymWidths(), SymRows(o), 0);
  }

  lemma HeaderFieldsRead(o: Object)
    ensures var e := EhdrFields(o);
            && e[0] == 1 && e[1] == 62 && e[2] == 1 && e[5] == HeaderOffset(o) && e[6] == 0 && e[7] == 64 && e[9] == 0 && e[10] == 64
            && e[11] == HeaderCount(o) && e[12] == HeaderCount(o) - 1
    ensures Ident() == [0x7f, 0x45, 0x4c, 0x46, 2, 1, 1, 0, 0, 0, 0, 0, 0, 0, 0, 0]
  {}

  /** What the reader returns. */
  ghost function ViewOf(o: Object): View
    requires Writable(o)
  {
    View(AllViews(o), ReadSymbols(StrTab(SymbolNames(o)), EncTable(SymWidths(), SymRows(o))), Tables(o))
  }

  lemma FileReads(o: Object)
    requires Writable(o) && WithinLimits(o)
    ensures Read(File(o)) == Some(ViewOf(o))
  {
    hide Writable, WithinLimits, File, EhdrFields, HeaderAt, HeaderOffset, StrTab, Names, SymbolNames, SymWidths, SymRows, EncTable,
         ReadSymbols, RelaTables, Tables, ViewAt, ReadSections, ReadHeaders, Payload, FindSymtab, ReadEhdr, Ident;
    EhdrRead(o);
    HeaderFieldsRead(o);
    HeadersRead(o);
    TablesRead(o);
    SectionsRead(o);
    SymtabFound(o);
    AllTables(o);
  }

  /** sh_flags: bit 0 for what is writable, bit 1 for what occupies memory, bit 2 for what is executable. */
  function Flags(writable: bool, loaded: bool, executable: bool): nat {
    (if writable then 1 else 0) + (if loaded then 2 else 0) + if executable then 4 else 0
  }

  /** Section i as the reader shows it, its type SHT_NOBITS or SHT_PROGBITS. */
  function SectionViewOf(c: Section): SectionView {
    SectionView(c.name, if c.kind.Bss? then 8 else 1, Flags(c.kind.Data? || c.kind.Bss?, true, c.kind.Text?),
                if c.kind.Bss? && c.virtualSize > |c.data| then c.virtualSize else |c.data|, 0, 0,
                if c.alignment == 0 then 1 else c.alignment, 0, if c.kind.Bss? then [] else c.data)
  }

  /** The sections the format adds: the stack note, a relocation table (SHT_RELA) per section that has relocations, and
      after them the symbol table (SHT_SYMTAB) and two string tables (SHT_STRTAB). */
  ghost predicate TablesNamed(o: Object, v: seq<SectionView>) {
    var n, rel := |o.sections|, Relocated(o);
    var m := n + |rel| + 2;
    && |v| == m + 3
    && v[n + 1] == SectionView(Ascii(".note.GNU-stack"), 1, 0, 0, 0, 0, 1, 0, [])
    && (forall k :: 0 <= k < |rel| ==> RelaNamed(o, k, v))
    && v[m].name == Ascii(".symtab") && v[m].kind == 2 && v[m].link == m + 1
    && v[m + 1].name == Ascii(".strtab") && v[m + 1].kind == 3
    && v[m + 2].name == Ascii(".shstrtab") && v[m + 2].kind == 3
  }

  /** The name of relocation table k is ".rela" and its section's, or as much of it as 63 bytes hold. */
  ghost predicate RelaNamed(o: Object, k: nat, v: seq<SectionView>)
    requires k < |Relocated(o)| && |o.sections| + 2 + k < |v|
  {
    var s, name := v[|o.sections| + 2 + k], o.sections[Relocated(o)[k]].name;
    && s.kind == 4 && s.link == |o.sections| + |Relocated(o)| + 2 && s.info == 1 + Relocated(o)[k]
    && s.name <= Ascii(".rela") + name && |s.name| == if |name| <= 58 then 5 + |name| else 63
  }

  lemma RelaShape(o: Object, k: nat)
    requires Writable(o) && k < |Relocated(o)|
    ensures RelaNamed(o, k, AllViews(o))
  {
    hide DataAt, Begin, Slots, NameOffset, Names, SlotAt, Ascii, Relocated, Writable;
  }

  lemma NoteShape(o: Object)
    requires Writable(o)
    ensures ViewAt(o, |o.sections| + 1) == SectionView(Ascii(".note.GNU-stack"), 1, 0, 0, 0, 0, 1, 0, [])
  {
    hide Begin, Slots, NameOffset, Names, SlotAt, Ascii, Relocated, Writable;
  }

  lemma TableNames(o: Object)
    requires Writable(o)
    ensures var m := |o.sections| + |Relocated(o)| + 2;
            && ViewAt(o, m).name == Ascii(".symtab") && ViewAt(o, m).kind == 2 && ViewAt(o, m).link == m + 1
            && ViewAt(o, m + 1).name == Ascii(".strtab") && ViewAt(o, m + 1).kind == 3
            && ViewAt(o, m + 2).name == Ascii(".shstrtab") && ViewAt(o, m + 2).kind == 3
            && m + 3 == HeaderCount(o)
  {
    hide DataAt, Begin, Slots, NameOffset, Names, SlotAt, Ascii, Relocated, Writable, FirstGlobal, RelaName;
  }

  lemma NamesOfTables(o: Object)
    requires Writable(o)
    ensures TablesNamed(o, AllViews(o))
  {
    hide ViewAt, Relocated, Writable, RelaNamed, Ascii;
    TableNames(o);
    NoteShape(o);
    forall k | 0 <= k < |Relocated(o)| ensures RelaNamed(o, k, AllViews(o)) { RelaShape(o, k); }
  }

  /** In the file a section's bytes start at a multiple of its alignment, and the tables at a multiple of eight. */
  lemma OffsetsAligned(o: Object, k: nat)
    requires 0 < k < HeaderCount(o)
    ensures k <= |o.sections| && !o.sections[k - 1].kind.Bss? ==>
              HeaderAt(o, k).offset % (if o.sections[k - 1].alignment == 0 then 1 else o.sections[k - 1].alignment) == 0
    ensures k > |o.sections| && HeaderAt(o, k).kind in {2, 4} ==> HeaderAt(o, k).offset % 8 == 0
    ensures HeaderOffset(o) % 8 == 0
  {
    hide NameAt, NameOffset, Names, Relocated, RelocsOf, End;
  }

  /** Everything in the object is in the view, in the place the object gives it. */
  ghost predicate Recovers(o: Object, v: View) {
    && |v.sections| == HeaderCount(o)
    && (forall i :: 0 <= i < |o.sections| ==> v.sections[1 + i] == SectionViewOf(o.sections[i]))
    && (forall k :: 0 <= k < |v.sections| && v.sections[k].kind in {2, 4} ==> v.sections[k].entsize == 24 && v.sections[k].align == 8)
    && TablesNamed(o, v.sections)
    && |v.symbols| == |o.symbols| + 1
    && (forall i :: 0 <= i < |o.symbols| ==>
          1 <= EntryOf(o, i) < |v.symbols| && v.symbols[EntryOf(o, i)] == SymbolViewOf(o, o.symbols[i]))
    && |v.relas| == |Relocated(o)|
    && (forall k :: 0 <= k < |v.relas| ==> Gathers(o, v.relas[k], Relocated(o)[k]))
  }

  /** The table holds the relocations of section i, in order, each against its symbol. */
  ghost predicate Gathers(o: Object, t: RelaTable, i: nat) {
    var rs := RelocsOf(o.relocs, i);
    && t.target == 1 + i && |t.entries| == |rs|
    && (forall k :: 0 <= k < |rs| ==>
          (rs[k].kind.Rel32? || rs[k].kind.Addr64?) && Find(o.symbols, rs[k].symbol).Some? && t.entries[k] == RelaViewOf(o, rs[k]))
  }

  lemma TableGathers(o: Object, k: nat)
    requires Writable(o) && k < |Relocated(o)|
    ensures Gathers(o, Tables(o)[k], Relocated(o)[k])
  {
    hide RelaViewOf, RelocsOf, Relocated, MapReloc, Find;
    var i := Relocated(o)[k];
    forall q | 0 <= q < |RelocsOf(o.relocs, i)| ensures RelaViews(o, i)[q] == RelaViewOf(o, RelocsOf(o.relocs, i)[q]) {
      RelaRowAt(o, i, q);
    }
  }

  lemma ContentView(o: Object, i: nat)
    requires Writable(o) && i < |o.sections|
    ensures ViewAt(o, 1 + i) == SectionViewOf(o.sections[i])
  {
    hide Begin, Slots, NameOffset, Names, Writable;
  }

  /** Reading back an ELF file recovers every section, symbol and relocation of the object. */
  lemma RoundTrip(o: Object)
    requires Writable(o) && WithinLimits(o)
    ensures Read(File(o)).Some? && Recovers(o, Read(File(o)).value)
  {
    hide Writable, WithinLimits, File, Read, ViewAt, StrTab, SymbolNames, SymWidths, SymRows, EncTable, ReadSymbols, Tables,
         SectionViewOf, SymbolViewOf, Gathers, Order, EntryOf, Relocated, TablesNamed;
    FileReads(o);
    SymbolCount(o);
    forall i | 0 <= i < |o.sections| ensures AllViews(o)[1 + i] == SectionViewOf(o.sections[i]) { ContentView(o, i); }
    forall i | 0 <= i < |o.symbols| ensures SymbolReads(o, i) && 1 <= EntryOf(o, i) {
      SymbolRead(o, i);
      EntryHolds(o, i);
    }
    forall k | 0 <= k < |AllViews(o)| && AllViews(o)[k].kind in {2, 4} ensures AllViews(o)[k].entsize == 24 && AllViews(o)[k].align == 8 {
      TableShape(o, k);
    }
    forall k | 0 <= k < |Tables(o)| ensures Gathers(o, Tables(o)[k], Relocated(o)[k]) { TableGathers(o, k); }
    NamesOfTables(o);
  }

  /** A relocation read back names the symbol it was made for. */
  lemma RelocationNamesItsSymbol(o: Object, v: View, r: Reloc)
    requires Writable(o) && Recovers(o, v) && r in o.relocs
    ensures RelaViewOf(o, r).symbol < |v.symbols| && v.symbols[RelaViewOf(o, r).symbol].name == r.symbol
  {
    EntryHolds(o, Find(o.symbols, r.symbol).value);
    hide EntryOf, Gathers;
  }

  lemma {:induction false} RelocatedBelowHolds(o: Object, n: nat, i: nat)
    requires i < n && RelocsOf(o.relocs, i) != []
    ensures i in RelocatedBelow(o, n)
  {
    if i < n - 1 { RelocatedBelowHolds(o, n - 1, i); }
  }

  /** No relocation is missing: its section has a table, and the table has it. */
  lemma NoRelocationLost(o: Object, v: View, r: nat) returns (k: nat, q: nat)
    requires Writable(o) && Recovers(o, v) && r < |o.relocs|
    ensures k < |v.relas| && v.relas[k].target == 1 + o.relocs[r].section
    ensures q < |v.relas[k].entries| && v.relas[k].entries[q] == RelaViewOf(o, o.relocs[r])
  {
    var i := o.relocs[r].section;
    RelocsOfComplete(o.relocs, r);
    RelocatedBelowHolds(o, |o.sections|, i);
    hide RelocatedBelow, RelocsOf, RelaViewOf, EntryOf;
    k :| 0 <= k < |Relocated(o)| && Relocated(o)[k] == i;
    assert Gathers(o, v.relas[k], i);
    q :| 0 <= q < |RelocsOf(o.relocs, i)| && RelocsOf(o.relocs, i)[q] == o.relocs[r];
  }
}
