/** Reading a COFF file back by the specification recovers the object it was written from. */
module CoffRoundTrip {
  import opened ByteCodec
  import opened ByteFields
  import opened ObjectModel
  import opened Wrappers
  import opened Coff

  predicate Word32(v: nat) { v < 0x1_0000_0000 }

  /** What the format's fields can hold, and the names its two name encodings leave alone. */
  ghost predicate WithinLimits(o: Object) {
    && |o.sections| <= 0x7FFF && Word32(End(Slots(o))) && Word32(RecordCount(o))
    && (forall c :: c in o.sections ==> GoodSection(c))
    && (forall s :: s in o.symbols ==> GoodSymbol(s))
    && (forall r :: r in o.relocs ==> Word32(r.offset))
  }

  ghost predicate GoodSection(c: Section) {
    NulFree(c.name) && c.name != [] && c.name[0] != 0x2f && Word32(c.Extent()) && Word32(Characteristics(c))
  }

  ghost predicate GoodSymbol(s: Symbol) { NulFree(s.name) && s.name != [] && Word32(s.value) }

  // ----- the pieces are where the headers say -----

  lemma SlotOfPiece(o: Object, k: nat)
    requires k < PieceCount(o)
    ensures PieceAt(o, k).Shape() == SlotAt(o, k)
  {
    Widths();
    hide Enc, EncTable, Width, SymbolRows, SectionRows, RelocRowsOf, FileRow, RelocsOf, SectionSymbolRows, Strings, FileWidths, SectionWidths,
         RelocWidths, SymbolWidths, AuxWidths;
    var n := |o.sections|;
    if k == 1 {
      TableSize(SectionWidths(), SectionRows(o), 40);
    } else if n + 2 <= k < 2 * n + 2 {
      TableSize(RelocWidths(), RelocRowsOf(o, RelocsOf(o.relocs, k - n - 2)), 10);
    } else if k == 2 * n + 2 {
      TableSize(SymbolWidths(), SymbolRows(o), 18);
    } else if k == 2 * n + 3 {
      TableSize(SymbolWidths() + AuxWidths(), SectionSymbolRows(o), 36);
    }
  }

  lemma ShapesAreSlots(o: Object)
    ensures Shapes(Pieces(o)) == Slots(o)
  {
    hide PieceAt, SlotAt;
    forall k | 0 <= k < PieceCount(o) ensures Shapes(Pieces(o))[k] == Slots(o)[k] { SlotOfPiece(o, k); }
  }

  /** Piece k of the file, found by the offset the headers promise. */
  lemma PieceInFile(o: Object, k: nat)
    requires k < PieceCount(o)
    ensures var from, data := Begin(Slots(o), k), PieceAt(o, k).data;
            from + |data| <= |File(o)| && File(o)[from..from + |data|] == data && |data| == SlotAt(o, k).size
    ensures |File(o)| == End(Slots(o))
  {
    hide SlotAt, PieceAt;
    ShapesAreSlots(o);
    SlotOfPiece(o, k);
    assert Pieces(o)[k] == PieceAt(o, k);
    hide Pieces, Slots, Shapes, Place, Begin, End, PieceCount;
    PlacedAt(Pieces(o), k);
  }

  /** Nothing is padded: each piece begins where the one before it ends. */
  lemma SlotsTouch(o: Object, k: nat)
    requires k < PieceCount(o)
    ensures Begin(Slots(o), k) + SlotAt(o, k).size <= End(Slots(o))
    ensures k + 1 < PieceCount(o) ==> Begin(Slots(o), k + 1) == Begin(Slots(o), k) + SlotAt(o, k).size
    ensures k == 0 ==> Begin(Slots(o), 0) == 0
    ensures k + 1 == PieceCount(o) ==> End(Slots(o)) == Begin(Slots(o), k) + SlotAt(o, k).size
  {
    var s := Slots(o);
    assert s[..k + 1][..k] == s[..k];
    EndMonotone(s, k + 1);
    assert s[k].align == 1;
    if k == 0 { assert s[..0] == []; }
    if k + 1 == PieceCount(o) { assert s[..k + 1] == s; } else { assert s[k + 1].align == 1; }
  }

  // ----- the string table -----

  lemma {:induction false} ReadStrShift(a: Bytes, b: Bytes, off: nat)
    requires 4 <= |a| && 1 <= off <= |b| && a[4..] == b[1..]
    requires |a| == |b| + 3
    ensures ReadStr(a, off + 3) == ReadStr(b, off)
    decreases |b| - off
  {
    if off < |b| {
      assert a[off + 3] == a[4..][off - 1] == b[1..][off - 1] == b[off];
      if b[off] != 0 { ReadStrShift(a, b, off + 1); }
    }
  }

  /** Every long name is found at the offset the writer gives it. */
  lemma LongNameRead(o: Object, k: nat)
    requires k < |o.sections| + |o.symbols| && LongNames(o)[k] != [] && NulFree(LongNames(o)[k])
    ensures ReadStr(Strings(o), StringOffset(o, k)) == LongNames(o)[k]
    ensures 4 <= StringOffset(o, k) < |Strings(o)|
  {
    var names := LongNames(o);
    NameReadBack(names, k);
    hide LongNames, StrTab, ReadStr;
    var a, b := Strings(o), StrTab(names);
    assert a[4..] == b[1..];
    ReadStrShift(a, b, NameOffset(names, k));
  }

  lemma StringsSize(o: Object)
    ensures |Strings(o)| >= 4 && (Word32(|Strings(o)|) ==> Num(Strings(o)[..4]) == |Strings(o)|)
  {
    hide StrTab, LongNames, Le, Num;
    Pow256Values();
    var body := StrTab(LongNames(o))[1..];
    assert Strings(o)[..4] == Le(4, 4 + |body|);
    if Word32(|Strings(o)|) { NumOfFitting(4, 4 + |body|); }
  }

  // ----- names -----

  lemma {:induction false} ReadPadded(name: Bytes, f: Bytes, from: nat)
    requires from <= |name| <= |f| && f[..|name|] == name && NulFree(name)
    requires |name| < |f| ==> f[|name|] == 0
    ensures ReadStr(f, from) == name[from..]
    decreases |name| - from
  {
    if from < |name| {
      assert f[from] == name[from] && name[from] in name;
      ReadPadded(name, f, from + 1);
    }
  }

  lemma ReadPad8(name: Bytes, from: nat)
    requires |name| <= 8 && from <= |name| && NulFree(name)
    ensures ReadStr(Pad8(name), from) == name[from..]
  {
    ReadPadded(name, Pad8(name), from);
  }

  lemma SectionNameRead(o: Object, i: nat)
    requires i < |o.sections| && GoodSection(o.sections[i]) && SectionNameField(o, i).Some?
    ensures |SectionNameField(o, i).value| == 8
    ensures ReadSectionName(Strings(o), SectionNameField(o, i).value) == o.sections[i].name
  {
    var name, field := o.sections[i].name, SectionNameField(o, i).value;
    if |name| <= 8 {
      ReadPad8(name, 0);
      assert field[0] == name[0];
    } else {
      assert LongNames(o)[i] == name;
      LongNameRead(o, i);
      hide LongNames, StringOffset, Strings;
      var digits := Decimal(StringOffset(o, i));
      DecimalDigits(StringOffset(o, i));
      ReadPad8([0x2f] + digits, 1);
      assert ([0x2f] + digits)[1..] == digits;
      ParseBack(StringOffset(o, i));
    }
  }

  lemma SymbolNameRead(o: Object, k: nat, name: Bytes)
    requires k < |o.sections| + |o.symbols| && NulFree(name) && name != [] && Word32(|Strings(o)|)
    requires name == if k < |o.sections| then o.sections[k].name else o.symbols[k - |o.sections|].name
    ensures ReadSymbolName(Strings(o), SymbolNameField(o, k, name)) == name
  {
    var field := SymbolNameField(o, k, name);
    if |name| <= 8 {
      ReadPad8(name, 0);
      assert field[0] == name[0] && name[0] in name;
      assert field[..4][0] != Zeros(4)[0];
    } else {
      assert LongNames(o)[k] == name;
      LongNameRead(o, k);
      hide LongNames, StringOffset, Strings;
      Pow256Values();
      NumOfFitting(4, StringOffset(o, k));
      assert field[..4] == Zeros(4) && field[4..] == Le(4, StringOffset(o, k));
    }
  }

  // ----- the file header and the frame -----

  lemma FirstPieces(o: Object)
    ensures PieceAt(o, 0).data == Enc(FileWidths(), FileRow(o)) && SlotAt(o, 0).size == 20
    ensures PieceAt(o, 1).data == EncTable(SectionWidths(), SectionRows(o)) && SlotAt(o, 1).size == 40 * |o.sections|
  {
    hide Enc, EncTable, FileRow, SectionRows, FileWidths, SectionWidths, RelocsOf, Strings;
  }

  lemma LastPieces(o: Object)
    ensures var k := 2 * |o.sections| + 2;
            PieceAt(o, k).data == EncTable(SymbolWidths(), SymbolRows(o)) && SlotAt(o, k).size == 18 * |o.symbols| &&
            PieceAt(o, k + 1).data == EncTable(SymbolWidths() + AuxWidths(), SectionSymbolRows(o)) &&
            SlotAt(o, k + 1).size == 36 * |o.sections| &&
            PieceAt(o, k + 2).data == Strings(o) && SlotAt(o, k + 2).size == |Strings(o)|
  {
    hide Enc, EncTable, SymbolRows, SectionSymbolRows, SymbolWidths, AuxWidths, RelocsOf, Strings;
  }

  lemma SomeLimits(o: Object)
    requires WithinLimits(o)
    ensures |o.sections| <= 0x7FFF && End(Slots(o)) < 0x1_0000_0000 && RecordCount(o) < 0x1_0000_0000
  {}

  lemma FileRowFits(o: Object)
    requires WithinLimits(o)
    ensures Fits(FileWidths(), FileRow(o))
  {
    hide Pow256, RecordCount, Slots, End, Begin, SlotAt, WithinLimits;
    Pow256Values();
    SomeLimits(o);
    SlotsTouch(o, 2 * |o.sections| + 2);
    var w, v := FileWidths(), FileRow(o);
    forall i | 0 <= i < |w| ensures v[i] < Pow256(w[i]) {
      assert w[i] == 2 || w[i] == 4;
    }
  }

  lemma FileRowRead(o: Object)
    requires WithinLimits(o)
    ensures |File(o)| >= 20 && ReadFileRow(File(o)[..20]) == FileRow(o)
  {
    hide *;
    Widths();
    FirstPieces(o);
    Counts(o);
    PieceInFile(o, 0);
    SlotsTouch(o, 0);
    FileRowFits(o);
    DecEnc(FileWidths(), FileRow(o));
    FileRowFrom(File(o), FileRow(o));
  }

  lemma FileRowFrom(file: Bytes, v: seq<nat>)
    requires |v| == |FileWidths()| && |Enc(FileWidths(), v)| == 20 && Dec(FileWidths(), Enc(FileWidths(), v)) == v
    requires 20 <= |file| && file[0..0 + 20] == Enc(FileWidths(), v)
    ensures ReadFileRow(file[..20]) == v
  {
    assert file[..20] == file[0..20];
    FileRowIs(file[..20]);
    hide Enc, Dec, FileWidths, ReadFileRow;
  }

  lemma FileFieldPlaces()
    ensures var w := FileWidths();
            && FieldAt(w, 0) == 0 && FieldAt(w, 1) == 2 && FieldAt(w, 2) == 4 && FieldAt(w, 3) == 8 && FieldAt(w, 4) == 12 && FieldAt(w, 5) == 16
            && FieldAt(w, 6) == 18
    ensures var w := FileWidths(); w[0] == 2 && w[1] == 2 && w[2] == 4 && w[3] == 4 && w[4] == 4 && w[5] == 2 && w[6] == 2
  {
    var w := FileWidths();
    assert FieldAt(w, 2) == 4 by { assert FieldAt(w, 1) == 2 by { assert FieldAt(w, 0) == 0; } }
    assert FieldAt(w, 4) == 12 by { assert FieldAt(w, 3) == 8; }
    assert FieldAt(w, 6) == 18 by { assert FieldAt(w, 5) == 16; }
  }

  lemma FileFields(b: Bytes)
    requires |b| == 20 && Width(FileWidths()) == 20
    ensures var v := Dec(FileWidths(), b);
            && v[0] == NumAt(b, 0, 2) && v[1] == NumAt(b, 2, 2) && v[2] == NumAt(b, 4, 4) && v[3] == NumAt(b, 8, 4)
            && v[4] == NumAt(b, 12, 4) && v[5] == NumAt(b, 16, 2) && v[6] == NumAt(b, 18, 2)
  {
    hide *;
    FileFieldPlaces();
    DecAt(FileWidths(), b, 0);
    DecAt(FileWidths(), b, 1);
    DecAt(FileWidths(), b, 2);
    DecAt(FileWidths(), b, 3);
    DecAt(FileWidths(), b, 4);
    DecAt(FileWidths(), b, 5);
    DecAt(FileWidths(), b, 6);
  }

  /** The file header's fields are where the specification puts them. */
  lemma FileRowIs(b: Bytes)
    requires |b| == 20
    ensures |b| == Width(FileWidths()) && ReadFileRow(b) == Dec(FileWidths(), b)
  {
    hide *;
    Widths();
    FileFields(b);
    FileFieldsGiven(b);
    var r, v := ReadFileRow(b), Dec(FileWidths(), b);
    forall k | 0 <= k < 7 ensures r[k] == v[k] {}
  }

  lemma FileFieldsGiven(b: Bytes)
    requires |b| == 20
    ensures var v := ReadFileRow(b);
            && v[0] == NumAt(b, 0, 2) && v[1] == NumAt(b, 2, 2) && v[2] == NumAt(b, 4, 4) && v[3] == NumAt(b, 8, 4)
            && v[4] == NumAt(b, 12, 4) && v[5] == NumAt(b, 16, 2) && v[6] == NumAt(b, 18, 2)
    ensures |FileWidths()| == 7
  {
    hide NumAt;
  }

  lemma Counts(o: Object)
    ensures PieceCount(o) == 2 * |o.sections| + 5 && RecordCount(o) == |o.symbols| + 2 * |o.sections|
    ensures SymbolTableAt(o) == Begin(Slots(o), 2 * |o.sections| + 2)
  {}

  /** End of the symbol table, as the reader computes it. */
  function TableEnd(o: Object): nat { SymbolTableAt(o) + 18 * RecordCount(o) }

  lemma TableEndDef(o: Object)
    ensures TableEnd(o) == Begin(Slots(o), 2 * |o.sections| + 2) + 18 * |o.symbols| + 36 * |o.sections|
    ensures SymbolTableAt(o) == Begin(Slots(o), 2 * |o.sections| + 2) && PieceCount(o) == 2 * |o.sections| + 5
  {}

  /** The string table follows the symbol table at once. */
  lemma TableEndIs(o: Object)
    ensures TableEnd(o) == Begin(Slots(o), 2 * |o.sections| + 4) && |File(o)| == TableEnd(o) + |Strings(o)|
    ensures Begin(Slots(o), 2 * |o.sections| + 3) == SymbolTableAt(o) + 18 * |o.symbols|
    ensures |File(o)| == End(Slots(o))
  {
    hide *;
    var k := 2 * |o.sections| + 2;
    TableEndDef(o);
    LastPieces(o);
    PieceInFile(o, k + 2);
    SlotsTouch(o, k);
    SlotsTouch(o, k + 1);
    SlotsTouch(o, k + 2);
  }

  /** The string table, found and measured as the reader does. */
  predicate StringsAt(file: Bytes, end: nat, strings: Bytes) {
    end + 4 <= |file| && Num(file[end..end + 4]) == |strings| && end + |strings| <= |file| && file[end..end + |strings|] == strings
  }

  lemma StringsFrom(file: Bytes, end: nat, strings: Bytes)
    requires 4 <= |strings| && end + |strings| <= |file| && file[end..end + |strings|] == strings && Num(strings[..4]) == |strings|
    ensures StringsAt(file, end, strings)
  {
    hide Num;
    SubSlice(file, end, |strings|, 0, 4);
    assert strings[..4] == strings[0..4];
  }

  lemma StringsRead(o: Object)
    requires WithinLimits(o)
    ensures StringsAt(File(o), TableEnd(o), Strings(o))
  {
    hide *;
    SomeLimits(o);
    TableEndDef(o);
    TableEndIs(o);
    LastPieces(o);
    PieceInFile(o, 2 * |o.sections| + 4);
    StringsFit(o);
    StringsSize(o);
    StringsFrom(File(o), TableEnd(o), Strings(o));
  }

  lemma StringsFit(o: Object)
    requires WithinLimits(o)
    ensures Word32(|Strings(o)|)
  {
    hide Strings, TableEnd, File, Slots, End;
    TableEndIs(o);
  }

  // ----- sections -----

  /** IMAGE_REL_AMD64_ADDR64, ADDR32NB, REL32 and SECREL. */
  function RelocViewOf(o: Object, r: Reloc): RelocView {
    var s := Find(o.symbols, r.symbol);
    RelocView(r.offset, if s.Some? then s.value else 0, match r.kind case Addr64 => 1 case Addr32Nb => 3 case Rel32 => 4 case SectionRel32 => 11)
  }

  function RelocViews(o: Object, i: nat): (v: seq<RelocView>)
    ensures |v| == |RelocsOf(o.relocs, i)|
  {
    var rs := RelocsOf(o.relocs, i);
    seq(|rs|, k requires 0 <= k < |rs| => RelocViewOf(o, rs[k]))
  }

  function SectionViewOf(o: Object, i: nat): SectionView
    requires i < |o.sections|
  {
    var c := o.sections[i];
    SectionView(c.name, if c.kind.Bss? then [] else c.data, RelocViews(o, i),
                if c.characteristics != 0 then c.characteristics else Flags(c.kind.Text?, c.kind.Rdata? || c.kind.Data?, c.kind.Bss?, c.kind.Text?,
                                                                            true, c.kind.Data? || c.kind.Bss?))
  }

  /** Bits 5, 6 and 7: code, initialized data, uninitialized data; bits 29, 30 and 31: execute, read, write. */
  function Flags(code: bool, data: bool, bss: bool, execute: bool, readable: bool, writable: bool): nat {
    (if code then 0x20 else 0) + (if data then 0x40 else 0) + (if bss then 0x80 else 0)
    + (if execute then 0x2000_0000 else 0) + (if readable then 0x4000_0000 else 0) + if writable then 0x8000_0000 else 0
  }

  lemma RelocFits(o: Object, r: Reloc)
    requires WithinLimits(o) && r in o.relocs
    ensures Fits(RelocWidths(), RelocRow(o, r))
  {
    hide Pow256, Slots, End;
    Pow256Values();
    var w, v := RelocWidths(), RelocRow(o, r);
    forall i | 0 <= i < |w| ensures v[i] < Pow256(w[i]) {
      assert w[i] == 2 || w[i] == 4;
    }
  }

  lemma ReadRelocBack(v: seq<nat>)
    requires Fits(RelocWidths(), v)
    ensures |Enc(RelocWidths(), v)| == 10 && ReadReloc(Enc(RelocWidths(), v)) == RelocView(v[0], v[1], v[2])
  {
    Widths();
    RelocFieldPlaces();
    var w := RelocWidths();
    assert |w| == 3;
    hide Enc, Width, RelocWidths, Fits, FieldAt, NumAt;
    FieldReadBack(w, v, 0);
    FieldReadBack(w, v, 1);
    FieldReadBack(w, v, 2);
  }

  lemma RelocFieldPlaces()
    ensures var w := RelocWidths(); FieldAt(w, 0) == 0 && FieldAt(w, 1) == 4 && FieldAt(w, 2) == 8 && w[0] == 4 && w[1] == 4 && w[2] == 2
  {
    var w := RelocWidths();
    assert FieldAt(w, 1) == 4 by { assert FieldAt(w, 0) == 0; }
  }

  predicate RelocIn(file: Bytes, at: nat, k: nat, v: RelocView) {
    at + 10 * k + 10 <= |file| && ReadReloc(file[at + 10 * k..at + 10 * k + 10]) == v
  }

  lemma GatherRelocs(file: Bytes, at: nat, v: seq<RelocView>)
    requires v != [] ==> forall k :: 0 <= k < |v| ==> RelocIn(file, at, k, v[k])
    ensures ReadRelocs(file, at, |v|) == Some(v)
  {
    hide ReadReloc;
    if v != [] {
      assert RelocIn(file, at, |v| - 1, v[|v| - 1]);
      var r := ReadRelocs(file, at, |v|).value;
      forall k | 0 <= k < |v| ensures r[k] == v[k] { assert RelocIn(file, at, k, v[k]); }
      assert r == v;
    }
  }

  lemma RelocPiece(o: Object, i: nat)
    requires i < |o.sections|
    ensures 2 + |o.sections| + i < PieceCount(o)
    ensures PieceAt(o, 2 + |o.sections| + i).data == EncTable(RelocWidths(), RelocRowsOf(o, RelocsOf(o.relocs, i)))
    ensures SlotAt(o, 2 + |o.sections| + i).size == 10 * |RelocsOf(o.relocs, i)|
    ensures PieceAt(o, 2 + i).data == Raw(o.sections[i]) && SlotAt(o, 2 + i).size == |Raw(o.sections[i])|
  {
    hide Enc, EncTable, RelocRowsOf, RelocWidths, RelocsOf, Strings;
  }

  lemma RelocRowIs(o: Object, i: nat, k: nat)
    requires k < |RelocsOf(o.relocs, i)|
    ensures var r := RelocsOf(o.relocs, i)[k];
            r in o.relocs && RelocRowsOf(o, RelocsOf(o.relocs, i))[k] == RelocRow(o, r) &&
            RelocViews(o, i)[k] == RelocView(RelocRow(o, r)[0], RelocRow(o, r)[1], RelocRow(o, r)[2])
  {
    hide RelocsOf, FindFrom;
    assert RelocsOf(o.relocs, i)[k] in RelocsOf(o.relocs, i);
  }

  lemma RelocReadAt(o: Object, i: nat, k: nat)
    requires WithinLimits(o) && i < |o.sections| && k < |RelocsOf(o.relocs, i)|
    ensures RelocIn(File(o), Begin(Slots(o), 2 + |o.sections| + i), k, RelocViews(o, i)[k])
  {
    hide Enc, EncTable, RelocRowsOf, RelocWidths, RelocsOf, Slots, Begin, SlotAt, PieceAt, WithinLimits, File, Width, ReadReloc, RelocRow,
         RelocViews, PieceCount;
    Widths();
    RelocPiece(o, i);
    var at := Begin(Slots(o), 2 + |o.sections| + i);
    PieceInFile(o, 2 + |o.sections| + i);
    RowInFile(File(o), at, RelocWidths(), RelocRowsOf(o, RelocsOf(o.relocs, i)), k);
    RelocRowIs(o, i, k);
    RelocFits(o, RelocsOf(o.relocs, i)[k]);
    ReadRelocBack(RelocRow(o, RelocsOf(o.relocs, i)[k]));
  }

  lemma RelocsRead(o: Object, i: nat, at: nat)
    requires WithinLimits(o) && i < |o.sections|
    requires RelocsOf(o.relocs, i) != [] ==> at == Begin(Slots(o), 2 + |o.sections| + i)
    ensures ReadRelocs(File(o), at, |RelocsOf(o.relocs, i)|) == Some(RelocViews(o, i))
  {
    hide RelocsOf, Slots, Begin, WithinLimits, File, RelocViews, RelocIn, ReadRelocs;
    if RelocsOf(o.relocs, i) != [] {
      forall k | 0 <= k < |RelocViews(o, i)| ensures RelocIn(File(o), at, k, RelocViews(o, i)[k]) { RelocReadAt(o, i, k); }
    }
    GatherRelocs(File(o), at, RelocViews(o, i));
  }

  lemma SectionLimits(o: Object, i: nat)
    requires WithinLimits(o) && i < |o.sections|
    ensures GoodSection(o.sections[i])
  {
    hide GoodSection, Slots, End;
    assert o.sections[i] in o.sections;
  }

  predicate SmallSection(v: seq<nat>) {
    && |v| == 10 && v[0] < 0x1_0000_0000_0000_0000 && Word32(v[1]) && Word32(v[2]) && Word32(v[3]) && Word32(v[4]) && Word32(v[5])
    && Word32(v[6]) && v[7] < 0x1_0000 && v[8] < 0x1_0000 && Word32(v[9])
  }

  lemma SmallSectionFits(v: seq<nat>)
    requires SmallSection(v)
    ensures Fits(SectionWidths(), v)
  {
    Pow256Values();
    hide Pow256;
  }

  lemma SectionFieldSmall(o: Object, i: nat)
    requires i < |o.sections| && GoodSection(o.sections[i]) && SectionNameField(o, i).Some?
    ensures SectionRow(o, i)[0] < 0x1_0000_0000_0000_0000 && Le(8, SectionRow(o, i)[0]) == SectionNameField(o, i).value
  {
    hide SectionNameField, Num, Le, Slots, Begin, RelocsOf, GoodSection;
    SectionNameRead(o, i);
    LeNum(SectionNameField(o, i).value);
    Pow256Values();
  }

  lemma SectionRowParts(o: Object, i: nat)
    requires i < |o.sections|
    ensures var v := SectionRow(o, i);
            v[1] == 0 && v[2] == 0 && v[3] == |Raw(o.sections[i])| && (v[4] == 0 || v[4] == Begin(Slots(o), 2 + i)) &&
            (v[5] == 0 || v[5] == Begin(Slots(o), 2 + |o.sections| + i)) && v[6] == 0 && v[7] == |RelocsOf(o.relocs, i)| &&
            v[8] == 0 && v[9] == Characteristics(o.sections[i])
  {
    hide Slots, Begin, SectionNameField, RelocsOf, Num, Raw, Characteristics;
  }

  lemma RowLimits(o: Object, i: nat)
    requires Writable(o) && WithinLimits(o) && i < |o.sections|
    ensures |RelocsOf(o.relocs, i)| <= 0xFFFF && SectionNameField(o, i).Some? && GoodSection(o.sections[i])
    ensures Characteristics(o.sections[i]) < 0x1_0000_0000
  {
    hide WithinLimits, RelocsOf, SectionNameField, Characteristics;
    SectionLimits(o, i);
  }

  lemma SectionRowFits(o: Object, i: nat)
    requires Writable(o) && WithinLimits(o) && i < |o.sections|
    ensures Fits(SectionWidths(), SectionRow(o, i))
  {
    hide *;
    RowLimits(o, i);
    SomeLimits(o);
    RelocPiece(o, i);
    SlotsTouch(o, 2 + i);
    SlotsTouch(o, 2 + |o.sections| + i);
    SectionFieldSmall(o, i);
    SectionRowParts(o, i);
    SmallRow(SectionRow(o, i));
    SmallSectionFits(SectionRow(o, i));
  }

  lemma SmallRow(v: seq<nat>)
    requires |v| == 10 && v[0] < 0x1_0000_0000_0000_0000 && v[1] < 0x1_0000_0000 && v[2] < 0x1_0000_0000 && v[3] < 0x1_0000_0000
    requires v[4] < 0x1_0000_0000 && v[5] < 0x1_0000_0000 && v[6] < 0x1_0000_0000 && v[7] < 0x1_0000 && v[8] < 0x1_0000
    requires v[9] < 0x1_0000_0000
    ensures SmallSection(v)
  {}

  lemma SectionRowBack(v: seq<nat>)
    requires Fits(SectionWidths(), v)
    ensures |Enc(SectionWidths(), v)| == 40 && ReadSectionFields(Enc(SectionWidths(), v)) == v
  {
    Widths();
    SectionFieldsAre(Enc(SectionWidths(), v));
    hide Enc, Dec, Width, SectionWidths, Fits, ReadSectionFields;
    DecEnc(SectionWidths(), v);
  }

  lemma SectionFieldPlaces()
    ensures var w := SectionWidths();
            && FieldAt(w, 0) == 0 && FieldAt(w, 1) == 8 && FieldAt(w, 2) == 12 && FieldAt(w, 3) == 16 && FieldAt(w, 4) == 20 && FieldAt(w, 5) == 24
            && FieldAt(w, 6) == 28 && FieldAt(w, 7) == 32 && FieldAt(w, 8) == 34 && FieldAt(w, 9) == 36
    ensures var w := SectionWidths();
            && w[0] == 8 && w[1] == 4 && w[2] == 4 && w[3] == 4 && w[4] == 4 && w[5] == 4 && w[6] == 4 && w[7] == 2 && w[8] == 2 && w[9] == 4
  {
    var w := SectionWidths();
    assert FieldAt(w, 2) == 12 by { assert FieldAt(w, 1) == 8 by { assert FieldAt(w, 0) == 0; } }
    assert FieldAt(w, 4) == 20 by { assert FieldAt(w, 3) == 16; }
    assert FieldAt(w, 6) == 28 by { assert FieldAt(w, 5) == 24; }
    assert FieldAt(w, 8) == 34 by { assert FieldAt(w, 7) == 32; }
  }

  lemma SectionFields(b: Bytes)
    requires |b| == 40 && Width(SectionWidths()) == 40
    ensures var v := Dec(SectionWidths(), b);
            && v[0] == NumAt(b, 0, 8) && v[1] == NumAt(b, 8, 4) && v[2] == NumAt(b, 12, 4) && v[3] == NumAt(b, 16, 4)
            && v[4] == NumAt(b, 20, 4) && v[5] == NumAt(b, 24, 4) && v[6] == NumAt(b, 28, 4) && v[7] == NumAt(b, 32, 2)
            && v[8] == NumAt(b, 34, 2) && v[9] == NumAt(b, 36, 4)
  {
    hide *;
    SectionFieldPlaces();
    DecAt(SectionWidths(), b, 0);
    DecAt(SectionWidths(), b, 1);
    DecAt(SectionWidths(), b, 2);
    DecAt(SectionWidths(), b, 3);
    DecAt(SectionWidths(), b, 4);
    DecAt(SectionWidths(), b, 5);
    DecAt(SectionWidths(), b, 6);
    DecAt(SectionWidths(), b, 7);
    DecAt(SectionWidths(), b, 8);
    DecAt(SectionWidths(), b, 9);
  }

  /** A section header's fields are where the specification puts them. */
  lemma SectionFieldsAre(b: Bytes)
    requires |b| == 40
    ensures |b| == Width(SectionWidths()) && ReadSectionFields(b) == Dec(SectionWidths(), b)
  {
    hide *;
    Widths();
    SectionFields(b);
    SectionFieldsGiven(b);
    var r, v := ReadSectionFields(b), Dec(SectionWidths(), b);
    forall k | 0 <= k < 10 ensures r[k] == v[k] {}
  }

  lemma SectionFieldsGiven(b: Bytes)
    requires |b| == 40
    ensures var v := ReadSectionFields(b);
            && v[0] == NumAt(b, 0, 8) && v[1] == NumAt(b, 8, 4) && v[2] == NumAt(b, 12, 4) && v[3] == NumAt(b, 16, 4)
            && v[4] == NumAt(b, 20, 4) && v[5] == NumAt(b, 24, 4) && v[6] == NumAt(b, 28, 4) && v[7] == NumAt(b, 32, 2)
            && v[8] == NumAt(b, 34, 2) && v[9] == NumAt(b, 36, 4)
    ensures |SectionWidths()| == 10
  {
    hide NumAt;
  }

  /** The section table's row i, as the reader reads it. */
  predicate SectionRowAt(file: Bytes, i: nat, row: seq<nat>) {
    20 + 40 * i + 40 <= |file| && ReadSectionFields(file[20 + 40 * i..20 + 40 * i + 40]) == row
  }

  lemma SectionRowInFile(o: Object, i: nat)
    requires Writable(o) && WithinLimits(o) && i < |o.sections|
    ensures SectionRowAt(File(o), i, SectionRow(o, i))
  {
    hide Enc, EncTable, SectionRow, SectionWidths, Slots, Begin, SlotAt, PieceAt, WithinLimits, File, Width, Writable, ReadSectionFields,
         PieceCount;
    Widths();
    Counts(o);
    FirstPieces(o);
    SlotsTouch(o, 0);
    PieceInFile(o, 1);
    RowInFile(File(o), 20, SectionWidths(), SectionRows(o), i);
    SectionRowFits(o, i);
    SectionRowBack(SectionRow(o, i));
  }

  lemma RawRead(o: Object, i: nat)
    requires i < |o.sections|
    ensures var at, data := Begin(Slots(o), 2 + i), Raw(o.sections[i]);
            at + |data| <= |File(o)| && File(o)[at..at + |data|] == data
  {
    hide Slots, Begin, SlotAt, PieceAt, File, PieceCount;
    RelocPiece(o, i);
    PieceInFile(o, 2 + i);
  }

  lemma ViewOfSection(o: Object, i: nat)
    requires i < |o.sections|
    ensures var c := o.sections[i]; SectionViewOf(o, i) == SectionView(c.name, Raw(c), RelocViews(o, i), Characteristics(c))
  {
    hide RelocViews;
  }

  lemma SectionRead(o: Object, i: nat)
    requires Writable(o) && WithinLimits(o) && i < |o.sections|
    ensures ReadSection(File(o), Strings(o), 20 + 40 * i) == Some(SectionViewOf(o, i))
  {
    hide Slots, Begin, WithinLimits, File, ReadSectionFields, Strings, ReadRelocs, RelocViews, RelocsOf, Num, Le, SectionNameField,
         ReadSectionName, Characteristics, GoodSection;
    ViewOfSection(o, i);
    hide SectionViewOf;
    SectionRowInFile(o, i);
    SectionLimits(o, i);
    SectionNameRead(o, i);
    SectionFieldSmall(o, i);
    RawRead(o, i);
    RelocsRead(o, i, SectionRow(o, i)[5]);
  }

  function SectionViews(o: Object, n: nat): (v: seq<SectionView>)
    requires n <= |o.sections|
    ensures |v| == n
  {
    seq(n, i requires 0 <= i < n => SectionViewOf(o, i))
  }

  lemma {:induction false} SectionsRead(o: Object, n: nat)
    requires Writable(o) && WithinLimits(o) && n <= |o.sections|
    ensures ReadSections(File(o), Strings(o), n) == Some(SectionViews(o, n))
  {
    hide WithinLimits, Writable, File, Strings, ReadSection, SectionViewOf;
    if n != 0 {
      SectionsRead(o, n - 1);
      SectionRead(o, n - 1);
      assert SectionViews(o, n) == SectionViews(o, n - 1) + [SectionViewOf(o, n - 1)];
    }
  }

  // ----- symbols -----

  /** Storage class 3 is static, 2 external; type 0x20 is a function. */
  function SymbolViewOf(o: Object, s: Symbol): SymbolView {
    var inText := s.section.Some? && s.section.value < |o.sections| && o.sections[s.section.value].kind.Text?;
    SymbolView(s.name, s.value, if s.section.None? then 0 else 1 + s.section.value, if inText then 0x20 else 0, if s.binding.Local? then 3 else 2, 0)
  }

  function SectionSymbolOf(o: Object, i: nat): SymbolView
    requires i < |o.sections|
  {
    SymbolView(o.sections[i].name, 0, i + 1, 0, 3, 1)
  }

  function DefinitionOf(o: Object, i: nat): Definition
    requires i < |o.sections|
  {
    var c := o.sections[i];
    Definition(if c.virtualSize > |c.data| then c.virtualSize else |c.data|, |RelocsOf(o.relocs, i)|, 0, 0, 0, 0)
  }

  predicate SmallSymbol(v: seq<nat>) {
    |v| == 6 && v[0] < 0x1_0000_0000_0000_0000 && Word32(v[1]) && v[2] < 0x8000 && v[3] < 0x1_0000 && v[4] < 256 && v[5] < 256
  }

  lemma ReadSymbolBack(strings: Bytes, v: seq<nat>)
    requires SmallSymbol(v)
    ensures |Enc(SymbolWidths(), v)| == 18
    ensures ReadSymbol(strings, Enc(SymbolWidths(), v)) ==
            SymbolView(ReadSymbolName(strings, Le(8, v[0])), v[1], v[2], v[3], v[4], v[5])
  {
    Widths();
    SymbolFieldsBack(v);
    SmallSigned(v[2]);
    hide Enc, Width, SymbolWidths, ReadSymbolName, Le, NumAt, Signed;
  }

  lemma SmallSigned(n: nat)
    requires n < 0x8000
    ensures Signed(2, n) == n
  {
    Pow256Values();
  }

  lemma SymbolFieldsBack(v: seq<nat>)
    requires SmallSymbol(v) && Width(SymbolWidths()) == 18
    ensures var b := Enc(SymbolWidths(), v);
            && |b| == 18 && NumAt(b, 0, 8) == v[0] && NumAt(b, 8, 4) == v[1] && NumAt(b, 12, 2) == v[2] && NumAt(b, 14, 2) == v[3]
            && NumAt(b, 16, 1) == v[4] && NumAt(b, 17, 1) == v[5]
  {
    assert |v| == 6;
    hide *;
    SmallSymbolFits(v);
    SymbolFieldPlaces();
    FieldReadBack(SymbolWidths(), v, 0);
    FieldReadBack(SymbolWidths(), v, 1);
    FieldReadBack(SymbolWidths(), v, 2);
    FieldReadBack(SymbolWidths(), v, 3);
    FieldReadBack(SymbolWidths(), v, 4);
    FieldReadBack(SymbolWidths(), v, 5);
  }

  lemma SymbolFieldPlaces()
    ensures var w := SymbolWidths();
            FieldAt(w, 0) == 0 && FieldAt(w, 1) == 8 && FieldAt(w, 2) == 12 && FieldAt(w, 3) == 14 && FieldAt(w, 4) == 16 && FieldAt(w, 5) == 17
    ensures var w := SymbolWidths(); w[0] == 8 && w[1] == 4 && w[2] == 2 && w[3] == 2 && w[4] == 1 && w[5] == 1
  {
    var w := SymbolWidths();
    assert FieldAt(w, 2) == 12 by { assert FieldAt(w, 1) == 8 by { assert FieldAt(w, 0) == 0; } }
    assert FieldAt(w, 4) == 16 by { assert FieldAt(w, 3) == 14; }
  }

  lemma SmallSymbolFits(v: seq<nat>)
    requires SmallSymbol(v)
    ensures Fits(SymbolWidths(), v)
  {
    Pow256Values();
    hide Pow256;
  }

  lemma ReadAuxBack(v: seq<nat>)
    requires |v| == 6 && Word32(v[0]) && v[1] < 0x1_0000 && v[2..] == [0, 0, 0, 0]
    ensures |Enc(AuxWidths(), v)| == 18 && ReadAux(Enc(AuxWidths(), v)) == Definition(v[0], v[1], 0, 0, 0, 0)
  {
    hide Enc, Width, NumAt;
    Widths();
    Pow256Values();
    hide Pow256;
    AuxFieldPlaces();
    assert v[2] == v[2..][0] && v[3] == v[2..][1] && v[4] == v[2..][2] && v[5] == v[2..][3];
    assert Fits(AuxWidths(), v);
    FieldReadBack(AuxWidths(), v, 0);
    FieldReadBack(AuxWidths(), v, 1);
    FieldReadBack(AuxWidths(), v, 2);
    FieldReadBack(AuxWidths(), v, 3);
    FieldReadBack(AuxWidths(), v, 4);
    FieldReadBack(AuxWidths(), v, 5);
  }

  lemma AuxFieldPlaces()
    ensures var w := AuxWidths();
            FieldAt(w, 0) == 0 && FieldAt(w, 1) == 4 && FieldAt(w, 2) == 6 && FieldAt(w, 3) == 8 && FieldAt(w, 4) == 12 && FieldAt(w, 5) == 14
  {
    var w := AuxWidths();
    assert FieldAt(w, 2) == 6 by { assert FieldAt(w, 1) == 4 by { assert FieldAt(w, 0) == 0; } }
    assert FieldAt(w, 4) == 12 by { assert FieldAt(w, 3) == 8; }
  }

  lemma SymbolLimits(o: Object, i: nat)
    requires Writable(o) && WithinLimits(o) && i < |o.symbols|
    ensures GoodSymbol(o.symbols[i]) && SectionNumber(o.symbols[i]) < 0x8000
  {
    hide GoodSymbol, GoodSection, Slots, End, RelocsOf, SectionNameField;
    assert o.symbols[i] in o.symbols;
  }

  lemma FieldNumber(o: Object, k: nat, name: Bytes)
    requires k < |o.sections| + |o.symbols|
    ensures var u := Num(SymbolNameField(o, k, name));
            u < 0x1_0000_0000_0000_0000 && Le(8, u) == SymbolNameField(o, k, name)
  {
    hide SymbolNameField, Num, Le;
    LeNum(SymbolNameField(o, k, name));
    Pow256Values();
  }

  lemma SymbolRowRead(o: Object, i: nat)
    requires Writable(o) && WithinLimits(o) && i < |o.symbols|
    ensures |Enc(SymbolWidths(), SymbolRow(o, i))| == 18
    ensures ReadSymbol(Strings(o), Enc(SymbolWidths(), SymbolRow(o, i))) == SymbolViewOf(o, o.symbols[i])
  {
    hide SymbolNameField, Num, Le, Enc, ReadSymbol, ReadSymbolName, WithinLimits, Writable, Strings, SymbolWidths;
    var s, k := o.symbols[i], |o.sections| + i;
    SymbolLimits(o, i);
    StringsFit(o);
    FieldNumber(o, k, s.name);
    SymbolNameRead(o, k, s.name);
    ReadSymbolBack(Strings(o), SymbolRow(o, i));
  }

  function SectionHalf(o: Object, i: nat): (v: seq<nat>)
    requires i < |o.sections|
    ensures |v| == |SymbolWidths()|
  {
    [Num(SymbolNameField(o, i, o.sections[i].name)), 0, i + 1, 0, 3, 1]
  }

  function AuxHalf(o: Object, i: nat): (v: seq<nat>)
    requires i < |o.sections|
    ensures |v| == |AuxWidths()|
  {
    [o.sections[i].Extent(), |RelocsOf(o.relocs, i)|, 0, 0, 0, 0]
  }

  lemma SectionSymbolRead(o: Object, i: nat)
    requires Writable(o) && WithinLimits(o) && i < |o.sections|
    ensures |Enc(SymbolWidths(), SectionHalf(o, i))| == 18 && |Enc(AuxWidths(), AuxHalf(o, i))| == 18
    ensures ReadSymbol(Strings(o), Enc(SymbolWidths(), SectionHalf(o, i))) == SectionSymbolOf(o, i)
    ensures ReadAux(Enc(AuxWidths(), AuxHalf(o, i))) == DefinitionOf(o, i)
  {
    hide SymbolNameField, Num, Le, Enc, ReadSymbol, ReadSymbolName, WithinLimits, Writable, Strings, SymbolWidths, AuxWidths, ReadAux,
         RelocsOf;
    var name := o.sections[i].name;
    RowLimits(o, i);
    SomeLimits(o);
    StringsFit(o);
    FieldNumber(o, i, name);
    SymbolNameRead(o, i, name);
    ReadSymbolBack(Strings(o), SectionHalf(o, i));
    assert AuxHalf(o, i)[2..] == [0, 0, 0, 0];
    ReadAuxBack(AuxHalf(o, i));
  }

  lemma SectionSymbolBytes(o: Object, i: nat)
    requires i < |o.sections|
    ensures Enc(SymbolWidths() + AuxWidths(), SectionSymbolRow(o, i)) ==
            Enc(SymbolWidths(), SectionHalf(o, i)) + Enc(AuxWidths(), AuxHalf(o, i))
  {
    EncAppend(SymbolWidths(), AuxWidths(), SectionHalf(o, i), AuxHalf(o, i));
    hide Enc, SymbolWidths, AuxWidths, Num, SymbolNameField, RelocsOf;
    assert SectionSymbolRow(o, i) == SectionHalf(o, i) + AuxHalf(o, i);
  }

  /** The symbol table's bytes. */
  function Table(o: Object): Bytes {
    EncTable(SymbolWidths(), SymbolRows(o)) + EncTable(SymbolWidths() + AuxWidths(), SectionSymbolRows(o))
  }

  /** The 18 bytes of record k. */
  predicate Record(t: Bytes, k: nat, b: Bytes) {
    18 * k + 18 <= |t| && t[18 * k..18 * k + 18] == b
  }

  lemma TableSizeIs(o: Object)
    ensures |Table(o)| == 18 * RecordCount(o)
    ensures |EncTable(SymbolWidths(), SymbolRows(o))| == 18 * |o.symbols|
  {
    hide EncTable, SymbolWidths, AuxWidths, SymbolRows, SectionSymbolRows, Width;
    Widths();
    TableSize(SymbolWidths(), SymbolRows(o), 18);
    TableSize(SymbolWidths() + AuxWidths(), SectionSymbolRows(o), 36);
  }

  lemma SymbolRecord(o: Object, i: nat)
    requires i < |o.symbols|
    ensures Record(Table(o), i, Enc(SymbolWidths(), SymbolRow(o, i)))
  {
    hide Enc, EncTable, SymbolWidths, AuxWidths, SymbolRow, SectionSymbolRows, Width;
    Widths();
    RowAt(SymbolWidths(), SymbolRows(o), i);
    var t := EncTable(SymbolWidths(), SymbolRows(o));
    PrefixSlice(Table(o), t, 18 * i, 18 * i + 18);
  }

  lemma SectionRecord(o: Object, i: nat)
    requires i < |o.sections|
    ensures Record(Table(o), |o.symbols| + 2 * i, Enc(SymbolWidths(), SectionHalf(o, i)))
    ensures Record(Table(o), |o.symbols| + 2 * i + 1, Enc(AuxWidths(), AuxHalf(o, i)))
  {
    hide Enc, EncTable, SymbolWidths, AuxWidths, SymbolRows, SectionSymbolRow, Width, SectionHalf, AuxHalf, Table;
    Widths();
    EncWidths(o, i);
    TableSizeIs(o);
    RowAt(SymbolWidths() + AuxWidths(), SectionSymbolRows(o), i);
    SectionSymbolBytes(o, i);
    var a, b := EncTable(SymbolWidths(), SymbolRows(o)), EncTable(SymbolWidths() + AuxWidths(), SectionSymbolRows(o));
    assert Table(o) == a + b by { TableIs(o); }
    TwoRecords(a, b, |o.symbols|, i, Enc(SymbolWidths(), SectionHalf(o, i)), Enc(AuxWidths(), AuxHalf(o, i)));
  }

  lemma TableIs(o: Object)
    ensures Table(o) == EncTable(SymbolWidths(), SymbolRows(o)) + EncTable(SymbolWidths() + AuxWidths(), SectionSymbolRows(o))
  {}

  lemma EncWidths(o: Object, i: nat)
    requires i < |o.sections|
    ensures |Enc(SymbolWidths(), SectionHalf(o, i))| == 18 && |Enc(AuxWidths(), AuxHalf(o, i))| == 18
  {
    hide Enc, SectionHalf, AuxHalf;
    Widths();
  }

  lemma TwoRecords(a: Bytes, b: Bytes, n: nat, i: nat, x: Bytes, y: Bytes)
    requires |a| == 18 * n && |x| == 18 && |y| == 18 && 36 * i + 36 <= |b| && b[36 * i..36 * i + 36] == x + y
    ensures Record(a + b, n + 2 * i, x) && Record(a + b, n + 2 * i + 1, y)
  {
    var t, p := a + b, 18 * n + 36 * i;
    assert t[p..p + 36] == x + y;
    SubSlice(t, p, 36, 0, 18);
    SubSlice(t, p, 36, 18, 36);
    assert (x + y)[0..18] == x && (x + y)[18..36] == y;
  }

  /** The reader's maps, from a section symbol on. */
  ghost predicate SectionRecordsFrom(o: Object, i: nat, r: (map<nat, SymbolView>, map<nat, Definition>)) {
    && (forall j :: i <= j < |o.sections| ==> SectionKept(o, j, r))
    && (forall k :: k in r.0 ==> k >= |o.symbols| + 2 * i)
    && (forall k :: k in r.1 ==> k >= |o.symbols| + 2 * i)
  }

  ghost predicate SectionKept(o: Object, j: nat, r: (map<nat, SymbolView>, map<nat, Definition>)) {
    var k := |o.symbols| + 2 * j;
    j < |o.sections| && k in r.0 && r.0[k] == SectionSymbolOf(o, j) && k in r.1 && r.1[k] == DefinitionOf(o, j)
  }

  lemma {:induction false} SectionRecords(o: Object, i: nat)
    requires Writable(o) && WithinLimits(o) && i <= |o.sections|
    ensures SectionRecordsFrom(o, i, ReadRecords(Table(o), Strings(o), |o.symbols| + 2 * i))
    decreases |o.sections| - i
  {
    hide *;
    TableSizeIs(o);
    Counts(o);
    var k := |o.symbols| + 2 * i;
    if i < |o.sections| {
      EncWidths(o, i);
      SectionRecord(o, i);
      SectionSymbolRead(o, i);
      SectionSymbolAux(o, i);
      SectionRecords(o, i + 1);
      ReadPair(Table(o), Strings(o), k, Enc(SymbolWidths(), SectionHalf(o, i)), Enc(AuxWidths(), AuxHalf(o, i)));
      AddPair(o, i, ReadRecords(Table(o), Strings(o), k + 2), ReadRecords(Table(o), Strings(o), k));
    } else {
      NoRecords(o, Table(o), Strings(o));
    }
  }

  lemma NoRecords(o: Object, t: Bytes, strings: Bytes)
    requires |t| == 18 * (|o.symbols| + 2 * |o.sections|)
    ensures SectionRecordsFrom(o, |o.sections|, ReadRecords(t, strings, |o.symbols| + 2 * |o.sections|))
  {}

  /** A record followed by its auxiliary record. */
  lemma ReadPair(t: Bytes, strings: Bytes, k: nat, b: Bytes, c: Bytes)
    requires |b| == 18 && |c| == 18 && Record(t, k, b) && Record(t, k + 1, c) && ReadSymbol(strings, b).aux == 1
    ensures var rest := ReadRecords(t, strings, k + 2);
            ReadRecords(t, strings, k) == (rest.0[k := ReadSymbol(strings, b)], rest.1[k := ReadAux(c)])
  {
    hide ReadSymbol, ReadAux;
    assert t[18 * k + 18..18 * k + 36] == c;
  }

  /** A record with none. */
  lemma ReadSingle(t: Bytes, strings: Bytes, k: nat, b: Bytes)
    requires |b| == 18 && Record(t, k, b) && ReadSymbol(strings, b).aux == 0
    ensures var rest := ReadRecords(t, strings, k + 1);
            ReadRecords(t, strings, k) == (rest.0[k := ReadSymbol(strings, b)], rest.1)
  {
    hide ReadSymbol, ReadAux;
  }

  lemma AddPair(o: Object, i: nat, rest: (map<nat, SymbolView>, map<nat, Definition>), r: (map<nat, SymbolView>, map<nat, Definition>))
    requires i < |o.sections| && SectionRecordsFrom(o, i + 1, rest)
    requires var k := |o.symbols| + 2 * i; r == (rest.0[k := SectionSymbolOf(o, i)], rest.1[k := DefinitionOf(o, i)])
    ensures SectionRecordsFrom(o, i, r)
  {
    forall j | i <= j < |o.sections| ensures SectionKept(o, j, r) { StillKept(o, i, j, rest, r); }
  }

  lemma SectionSymbolAux(o: Object, i: nat)
    requires i < |o.sections|
    ensures SectionSymbolOf(o, i).aux == 1
  {}

  lemma StillKept(o: Object, i: nat, j: nat, rest: (map<nat, SymbolView>, map<nat, Definition>), r: (map<nat, SymbolView>, map<nat, Definition>))
    requires i <= j < |o.sections| && (j > i ==> SectionKept(o, j, rest))
    requires var k := |o.symbols| + 2 * i; r == (rest.0[k := SectionSymbolOf(o, i)], rest.1[k := DefinitionOf(o, i)])
    ensures SectionKept(o, j, r)
  {}

  /** The maps from an ordinary symbol on. */
  ghost predicate RecordsFrom(o: Object, i: nat, r: (map<nat, SymbolView>, map<nat, Definition>)) {
    && (forall j :: i <= j < |o.symbols| ==> j in r.0 && r.0[j] == SymbolViewOf(o, o.symbols[j]))
    && (forall j :: 0 <= j < |o.sections| ==> SectionKept(o, j, r))
  }

  lemma {:induction false} SymbolRecords(o: Object, i: nat)
    requires Writable(o) && WithinLimits(o) && i <= |o.symbols|
    ensures RecordsFrom(o, i, ReadRecords(Table(o), Strings(o), i))
    decreases |o.symbols| - i
  {
    hide Writable, WithinLimits, Table, Strings, ReadSymbol, ReadAux, SymbolViewOf, SectionSymbolOf, Enc, SymbolWidths, SymbolRow,
         SectionKept, ReadRecords;
    if i == |o.symbols| {
      SectionRecords(o, 0);
      assert |o.symbols| + 2 * 0 == i;
    } else {
      TableSizeIs(o);
      SymbolRecord(o, i);
      SymbolRowRead(o, i);
      NoAux(o, i);
      SymbolRecords(o, i + 1);
      ReadSingle(Table(o), Strings(o), i, Enc(SymbolWidths(), SymbolRow(o, i)));
      AddSymbol(o, i, ReadRecords(Table(o), Strings(o), i + 1), ReadRecords(Table(o), Strings(o), i));
    }
  }

  lemma AddSymbol(o: Object, i: nat, rest: (map<nat, SymbolView>, map<nat, Definition>), r: (map<nat, SymbolView>, map<nat, Definition>))
    requires i < |o.symbols| && RecordsFrom(o, i + 1, rest) && r == (rest.0[i := SymbolViewOf(o, o.symbols[i])], rest.1)
    ensures RecordsFrom(o, i, r)
  {
    hide SymbolViewOf, SectionSymbolOf;
    forall j | 0 <= j < |o.sections| ensures SectionKept(o, j, r) { assert SectionKept(o, j, rest); }
  }

  lemma NoAux(o: Object, i: nat)
    requires i < |o.symbols|
    ensures SymbolViewOf(o, o.symbols[i]).aux == 0
  {}

  lemma TableParts(o: Object)
    ensures Table(o) == EncTable(SymbolWidths(), SymbolRows(o)) + EncTable(SymbolWidths() + AuxWidths(), SectionSymbolRows(o))
  {}

  /** The bytes from one offset to another. */
  predicate Lies(file: Bytes, from: nat, to: nat, data: Bytes) {
    from <= to <= |file| && file[from..to] == data
  }

  lemma LiesFrom(file: Bytes, from: nat, size: nat, to: nat, data: Bytes)
    requires from + size <= |file| && file[from..from + size] == data && to == from + size
    ensures Lies(file, from, to, data)
  {}

  lemma LiesJoin(file: Bytes, from: nat, mid: nat, to: nat, a: Bytes, b: Bytes)
    requires Lies(file, from, mid, a) && Lies(file, mid, to, b)
    ensures Lies(file, from, to, a + b)
  {
    assert file[from..to] == file[from..mid] + file[mid..to];
  }

  lemma PieceLies(o: Object, k: nat)
    requires k + 1 < PieceCount(o)
    ensures Lies(File(o), Begin(Slots(o), k), Begin(Slots(o), k + 1), PieceAt(o, k).data)
  {
    hide *;
    PieceInFile(o, k);
    SlotsTouch(o, k);
    LiesFrom(File(o), Begin(Slots(o), k), SlotAt(o, k).size, Begin(Slots(o), k + 1), PieceAt(o, k).data);
  }

  lemma TableInFile(o: Object)
    ensures Lies(File(o), SymbolTableAt(o), TableEnd(o), Table(o))
  {
    hide *;
    var k := 2 * |o.sections| + 2;
    TableEndDef(o);
    TableEndIs(o);
    TableParts(o);
    LastPieces(o);
    PieceLies(o, k);
    PieceLies(o, k + 1);
    LiesJoin(File(o), Begin(Slots(o), k), Begin(Slots(o), k + 1), Begin(Slots(o), k + 2), PieceAt(o, k).data, PieceAt(o, k + 1).data);
  }

  // ----- the whole file -----

  /** Everything in the object is in the view. */
  ghost predicate Recovers(o: Object, v: View) {
    && v.sections == SectionViews(o, |o.sections|)
    && RecordsFrom(o, 0, (v.records, v.definitions))
  }

  lemma FileRowParts(o: Object)
    ensures var v := FileRow(o);
            v[0] == 0x8664 && v[1] == |o.sections| && v[3] == SymbolTableAt(o) && v[4] == RecordCount(o) && v[5] == 0 && v[6] == 0
    ensures TableEnd(o) == SymbolTableAt(o) + 18 * RecordCount(o)
  {}

  /** Reading back a COFF file recovers every section with its bytes and relocations, every
      symbol under its own record index, and every section's extent. */
  lemma RoundTrip(o: Object)
    requires Writable(o) && WithinLimits(o)
    ensures Read(File(o)).Some? && Recovers(o, Read(File(o)).value)
  {
    hide Writable, WithinLimits, File, FileRow, Strings, ReadSections, ReadRecords, Table, SectionViews, RecordsFrom, Num, ReadFileRow,
         TableEnd, RecordCount, SymbolTableAt;
    FileRowRead(o);
    FileRowParts(o);
    StringsRead(o);
    SectionsRead(o, |o.sections|);
    TableInFile(o);
    SymbolRecords(o, 0);
  }

  /** A relocation read back names the symbol it was made for. */
  lemma RelocationNamesItsSymbol(o: Object, v: View, r: Reloc)
    requires Writable(o) && Recovers(o, v) && r in o.relocs
    ensures RelocViewOf(o, r).symbol in v.records && v.records[RelocViewOf(o, r).symbol].name == r.symbol
  {
    hide RelocsOf, SectionNameField;
  }
}
