/** The COFF writer pass by pass: string offsets, counts, layout, then everything in order
    with the relocations grouped by a counting sort. */
module CoffWriter {
  import opened ByteCodec
  import opened ObjectModel
  import opened Wrappers
  import opened Coff
  import opened CountingSort
  import CoffRoundTrip

  // ----- string offsets -----

  lemma LongNameStep(o: Object, k: nat)
    requires k < |o.sections| + |o.symbols|
    ensures var name := if k < |o.sections| then o.sections[k].name else o.symbols[k - |o.sections|].name;
            StringOffset(o, k) == (if |name| > 8 then |StrTab(LongNames(o)[..k])| + 3 else 0) &&
            |StrTab(LongNames(o)[..k + 1])| == |StrTab(LongNames(o)[..k])| + if |name| > 8 then |name| + 1 else 0
  {
    var names := LongNames(o);
    assert names[..k + 1][..k] == names[..k] && names[..k + 1][k] == names[k];
  }

  lemma StringsLength(o: Object)
    ensures |StrTab(LongNames(o)[..0])| == 1
    ensures |Strings(o)| == |StrTab(LongNames(o)[..|o.sections| + |o.symbols|])| + 3
  {
    assert LongNames(o)[..|o.sections| + |o.symbols|] == LongNames(o);
  }

  /** A place in the string table for every name of more than eight bytes. */
  method AssignStringOffsets(o: Object) returns (sectionOffsets: array<nat>, symbolOffsets: array<nat>, size: nat)
    ensures fresh(sectionOffsets) && sectionOffsets.Length == |o.sections|
    ensures fresh(symbolOffsets) && symbolOffsets.Length == |o.symbols|
    ensures forall i :: 0 <= i < |o.sections| ==> sectionOffsets[i] == StringOffset(o, i)
    ensures forall i :: 0 <= i < |o.symbols| ==> symbolOffsets[i] == StringOffset(o, |o.sections| + i)
    ensures size == |Strings(o)|
  {
    hide StrTab, LongNames, StringOffset, Strings;
    sectionOffsets := new nat[|o.sections|](_ => 0);
    symbolOffsets := new nat[|o.symbols|](_ => 0);
    StringsLength(o);
    size := 4;
    for i := 0 to |o.sections|
      invariant size == |StrTab(LongNames(o)[..i])| + 3
      invariant forall j :: 0 <= j < i ==> sectionOffsets[j] == StringOffset(o, j)
      invariant forall j :: i <= j < |o.sections| ==> sectionOffsets[j] == 0
      invariant forall j :: 0 <= j < |o.symbols| ==> symbolOffsets[j] == 0
    {
      LongNameStep(o, i);
      if |o.sections[i].name| > 8 {
        sectionOffsets[i] := size;
        size := size + |o.sections[i].name| + 1;
      }
    }
    for i := 0 to |o.symbols|
      invariant size == |StrTab(LongNames(o)[..|o.sections| + i])| + 3
      invariant forall j :: 0 <= j < |o.sections| ==> sectionOffsets[j] == StringOffset(o, j)
      invariant forall j :: 0 <= j < i ==> symbolOffsets[j] == StringOffset(o, |o.sections| + j)
      invariant forall j :: i <= j < |o.symbols| ==> symbolOffsets[j] == 0
    {
      LongNameStep(o, |o.sections| + i);
      if |o.symbols[i].name| > 8 {
        symbolOffsets[i] := size;
        size := size + |o.symbols[i].name| + 1;
      }
    }
  }

  // ----- counts -----

  ghost predicate Counted(relocs: seq<Reloc>, counts: array<nat>)
    reads counts
  {
    forall i :: 0 <= i < counts.Length ==> counts[i] == |RelocsOf(relocs, i)|
  }

  method TallyRelocations(o: Object) returns (error: Option<Error>, counts: array<nat>)
    ensures fresh(counts) && counts.Length == |o.sections|
    ensures error.None? <==> InSections(o.relocs, |o.sections|)
    ensures error.None? ==> Counted(o.relocs, counts)
  {
    counts := new nat[|o.sections|](_ => 0);
    for r := 0 to |o.relocs|
      invariant InSections(o.relocs[..r], |o.sections|) && Counted(o.relocs[..r], counts)
    {
      var section := o.relocs[r].section;
      assert o.relocs[..r + 1][..r] == o.relocs[..r];
      if section >= |o.sections| {
        assert !InSections(o.relocs, |o.sections|);
        return Some(InvalidSection), counts;
      }
      counts[section] := counts[section] + 1;
    }
    assert o.relocs[..|o.relocs|] == o.relocs;
    error := None;
  }

  ghost predicate FewRelocs(o: Object) {
    forall i :: 0 <= i < |o.sections| ==> |RelocsOf(o.relocs, i)| <= 0xFFFF
  }

  method CheckCounts(o: Object, counts: array<nat>) returns (ok: bool)
    requires counts.Length == |o.sections| && Counted(o.relocs, counts)
    ensures ok <==> FewRelocs(o)
  {
    for i := 0 to |o.sections|
      invariant forall j :: 0 <= j < i ==> |RelocsOf(o.relocs, j)| <= 0xFFFF
    {
      if counts[i] > 0xFFFF {
        assert |RelocsOf(o.relocs, i)| > 0xFFFF;
        return false;
      }
    }
    ok := true;
  }

  // ----- layout -----

  function RawOffset(o: Object, i: nat): nat
    requires i < |o.sections|
  {
    if Raw(o.sections[i]) == [] then 0 else Begin(Slots(o), 2 + i)
  }

  function RelocOffset(o: Object, i: nat): nat
    requires i < |o.sections|
  {
    if RelocsOf(o.relocs, i) == [] then 0 else Begin(Slots(o), 2 + |o.sections| + i)
  }

  lemma FrontSlots(o: Object)
    ensures Begin(Slots(o), 2) == 20 + 40 * |o.sections|
  {
    hide *;
    CoffRoundTrip.Counts(o);
    CoffRoundTrip.FirstPieces(o);
    CoffRoundTrip.SlotsTouch(o, 0);
    CoffRoundTrip.SlotsTouch(o, 1);
  }

  lemma PayloadSlots(o: Object, i: nat)
    requires i < |o.sections|
    ensures Begin(Slots(o), 3 + i) == Begin(Slots(o), 2 + i) + |Raw(o.sections[i])|
    ensures Begin(Slots(o), 3 + |o.sections| + i) == Begin(Slots(o), 2 + |o.sections| + i) + 10 * |RelocsOf(o.relocs, i)|
  {
    hide *;
    CoffRoundTrip.Counts(o);
    CoffRoundTrip.RelocPiece(o, i);
    CoffRoundTrip.SlotsTouch(o, 2 + i);
    CoffRoundTrip.SlotsTouch(o, 2 + |o.sections| + i);
  }

  /** Offsets of payloads and relocations, and of the symbol table after them. */
  method LayOut(o: Object, counts: array<nat>) returns (rawOffsets: array<nat>, relocOffsets: array<nat>, symbolTable: nat)
    requires counts.Length == |o.sections| && Counted(o.relocs, counts)
    ensures fresh(rawOffsets) && rawOffsets.Length == |o.sections| && fresh(relocOffsets) && relocOffsets.Length == |o.sections|
    ensures forall i :: 0 <= i < |o.sections| ==> rawOffsets[i] == RawOffset(o, i) && relocOffsets[i] == RelocOffset(o, i)
    ensures symbolTable == SymbolTableAt(o)
  {
    hide Slots, Begin, RelocsOf;
    rawOffsets := new nat[|o.sections|](_ => 0);
    relocOffsets := new nat[|o.sections|](_ => 0);
    FrontSlots(o);
    var offset := 20 + |o.sections| * 40;
    for i := 0 to |o.sections|
      invariant offset == Begin(Slots(o), 2 + i)
      invariant forall j :: 0 <= j < i ==> rawOffsets[j] == RawOffset(o, j)
      invariant forall j :: i <= j < |o.sections| ==> rawOffsets[j] == 0
      invariant forall j :: 0 <= j < |o.sections| ==> relocOffsets[j] == 0
    {
      PayloadSlots(o, i);
      var c := o.sections[i];
      if !c.kind.Bss? && |c.data| > 0 {
        rawOffsets[i] := offset;
        offset := offset + |c.data|;
      }
    }
    for i := 0 to |o.sections|
      invariant offset == Begin(Slots(o), 2 + |o.sections| + i)
      invariant forall j :: 0 <= j < |o.sections| ==> rawOffsets[j] == RawOffset(o, j)
      invariant forall j :: 0 <= j < i ==> relocOffsets[j] == RelocOffset(o, j)
      invariant forall j :: i <= j < |o.sections| ==> relocOffsets[j] == 0
    {
      PayloadSlots(o, i);
      if counts[i] > 0 {
        relocOffsets[i] := offset;
        offset := offset + counts[i] * 10;
      }
    }
    symbolTable := offset;
    CoffRoundTrip.Counts(o);
  }

  // ----- writing -----

  ghost predicate Written(o: Object, file: Bytes, k: nat) {
    k <= PieceCount(o) && file == Place(Pieces(o)[..k])
  }

  /** Nothing is ever padded. */
  lemma WriteStep(o: Object, file: Bytes, k: nat)
    requires k < PieceCount(o) && Written(o, file, k)
    ensures Written(o, file + PieceAt(o, k).data, k + 1)
  {
    hide PieceAt, PieceCount, Place, Begin, End, Shapes, Pieces;
    PieceUnpadded(o, k);
    var ps := Pieces(o);
    PlaceGrows(ps, k);
    UnpaddedBegin(ps, k);
    assert file + Zeros(0) + PieceAt(o, k).data == file + PieceAt(o, k).data;
  }

  lemma PieceUnpadded(o: Object, k: nat)
    requires k < PieceCount(o)
    ensures Pieces(o)[k] == PieceAt(o, k) && PieceAt(o, k).align == 1
  {
  }

  lemma UnpaddedBegin(ps: seq<Piece>, k: nat)
    requires k < |ps| && ps[k].align == 1
    ensures Begin(Shapes(ps), k) == End(Shapes(ps)[..k])
  {}

  /** The first k rows of a table follow what was there before. */
  ghost predicate Rows(w: seq<nat>, rows: seq<seq<nat>>, base: Bytes, file: Bytes, k: nat) {
    (forall r :: r in rows ==> |r| == |w|) && k <= |rows| && (forall r :: r in rows[..k] ==> |r| == |w|) &&
    file == base + EncTable(w, rows[..k])
  }

  lemma RowsStart(w: seq<nat>, rows: seq<seq<nat>>, base: Bytes)
    requires forall r :: r in rows ==> |r| == |w|
    ensures Rows(w, rows, base, base, 0)
  {
    assert base + [] == base;
  }

  lemma RowsNext(w: seq<nat>, rows: seq<seq<nat>>, base: Bytes, file: Bytes, k: nat)
    requires Rows(w, rows, base, file, k) && k < |rows|
    ensures |rows[k]| == |w| && Rows(w, rows, base, file + Enc(w, rows[k]), k + 1)
  {
    hide Enc, EncTable, Width;
    TableGrows(w, rows, k);
    Associate(base, EncTable(w, rows[..k]), Enc(w, rows[k]));
  }

  lemma Associate(a: Bytes, b: Bytes, c: Bytes)
    ensures a + b + c == a + (b + c)
  {}

  lemma RowsDone(w: seq<nat>, rows: seq<seq<nat>>, base: Bytes, file: Bytes)
    requires Rows(w, rows, base, file, |rows|)
    ensures file == base + EncTable(w, rows)
  {
    assert rows[..|rows|] == rows;
  }

  ghost predicate NamesFit(o: Object) {
    forall i :: 0 <= i < |o.sections| ==> SectionNameField(o, i).Some?
  }

  /** The eight name bytes of a section header, or failure when the decimal offset is too long. */
  method SectionNameBytes(o: Object, i: nat, offset: nat) returns (field: Option<Bytes>)
    requires i < |o.sections| && offset == StringOffset(o, i)
    ensures field == SectionNameField(o, i)
  {
    var name := o.sections[i].name;
    if |name| <= 8 { return Some(Pad8(name)); }
    var text := [0x2f] + Decimal(offset);
    if |text| >= 8 { return None; }
    field := Some(Pad8(text));
  }

  method SymbolNameBytes(o: Object, k: nat, name: Bytes, offset: nat) returns (field: Bytes)
    requires k < |o.sections| + |o.symbols| && offset == StringOffset(o, k)
    ensures field == SymbolNameField(o, k, name)
  {
    field := if |name| <= 8 then Pad8(name) else Zeros(4) + Le(4, offset);
  }

  method WriteSectionHeaders(o: Object, counts: array<nat>, names: array<nat>, raw: array<nat>, relocs: array<nat>, start: Bytes)
    returns (ok: bool, file: Bytes)
    requires counts.Length == names.Length == raw.Length == relocs.Length == |o.sections| && Counted(o.relocs, counts)
    requires forall i :: 0 <= i < |o.sections| ==>
               names[i] == StringOffset(o, i) && raw[i] == RawOffset(o, i) && relocs[i] == RelocOffset(o, i)
    requires Written(o, start, 1)
    ensures ok <==> NamesFit(o)
    ensures ok ==> Written(o, file, 2)
  {
    hide Rows, Enc, EncTable, SectionWidths, StringOffset, SectionNameField, RelocsOf, Begin, Slots, Written, SectionRows, Num,
         Characteristics, RawOffset, RelocOffset;
    RowsStart(SectionWidths(), SectionRows(o), start);
    file := start;
    for i := 0 to |o.sections|
      invariant Rows(SectionWidths(), SectionRows(o), start, file, i)
      invariant forall j :: 0 <= j < i ==> SectionNameField(o, j).Some?
    {
      var field := SectionNameBytes(o, i, names[i]);
      if field.None? { return false, file; }
      var header := SectionHeader(o, i, field.value, raw[i], relocs[i], counts[i]);
      RowsNext(SectionWidths(), SectionRows(o), start, file, i);
      file := file + header;
    }
    ok := true;
    HeadersWritten(o, start, file);
  }

  lemma HeadersWritten(o: Object, start: Bytes, file: Bytes)
    requires Written(o, start, 1) && Rows(SectionWidths(), SectionRows(o), start, file, |o.sections|)
    ensures Written(o, file, 2)
  {
    hide Rows, EncTable, SectionWidths, SectionRows, Written, PieceAt;
    RowsDone(SectionWidths(), SectionRows(o), start, file);
    CoffRoundTrip.FirstPieces(o);
    WriteStep(o, start, 1);
  }

  method SectionHeader(o: Object, i: nat, field: Bytes, raw: nat, reloc: nat, count: nat) returns (header: Bytes)
    requires i < |o.sections| && SectionNameField(o, i) == Some(field)
    requires raw == RawOffset(o, i) && reloc == RelocOffset(o, i) && count == |RelocsOf(o.relocs, i)|
    ensures header == Enc(SectionWidths(), SectionRows(o)[i])
  {
    hide *;
    var c := o.sections[i];
    var row := [Num(field), 0, 0, if c.kind.Bss? then 0 else |c.data|, raw, reloc, 0, count, 0, Characteristics(c)];
    SectionRowIs(o, i, field);
    header := Enc(SectionWidths(), row);
  }

  lemma SectionRowIs(o: Object, i: nat, field: Bytes)
    requires i < |o.sections| && SectionNameField(o, i) == Some(field)
    ensures var c := o.sections[i];
            SectionRows(o)[i] == [Num(field), 0, 0, if c.kind.Bss? then 0 else |c.data|, RawOffset(o, i), RelocOffset(o, i),
                                  0, |RelocsOf(o.relocs, i)|, 0, Characteristics(c)]
  {
    hide Num, Characteristics, Begin, Slots, SectionNameField, RelocsOf;
  }

  method WritePayloads(o: Object, start: Bytes) returns (file: Bytes)
    requires Written(o, start, 2)
    ensures Written(o, file, 2 + |o.sections|)
  {
    hide Written, PieceAt, PieceCount;
    file := start;
    for i := 0 to |o.sections|
      invariant Written(o, file, 2 + i)
    {
      CoffRoundTrip.RelocPiece(o, i);
      WriteStep(o, file, 2 + i);
      var c := o.sections[i];
      if c.kind.Bss? || |c.data| == 0 {
        assert file + [] == file;
        continue;
      }
      file := file + c.data;
    }
  }

  // ----- relocations -----

  /** The records of all relocations, in grouped order. */
  function GroupedRows(o: Object, m: nat): (rows: seq<seq<nat>>)
    requires forall k :: 0 <= k < |Grouped(o.relocs, m)| ==> Grouped(o.relocs, m)[k] < |o.relocs|
    ensures forall r :: r in rows ==> |r| == |RelocWidths()|
    ensures |rows| == |Grouped(o.relocs, m)|
  {
    RelocRowsOf(o, Pick(o.relocs, Grouped(o.relocs, m)))
  }

  lemma GroupedIndices(relocs: seq<Reloc>, m: nat)
    ensures forall k :: 0 <= k < |Grouped(relocs, m)| ==> Grouped(relocs, m)[k] < |relocs|
  {
    hide Grouped, PlaceOf;
    forall k | 0 <= k < |Grouped(relocs, m)| ensures Grouped(relocs, m)[k] < |relocs| { GroupedInside(relocs, m, k); }
  }

  lemma {:induction false} EncTableAppend(w: seq<nat>, a: seq<seq<nat>>, b: seq<seq<nat>>)
    requires (forall r :: r in a ==> |r| == |w|) && (forall r :: r in b ==> |r| == |w|)
    ensures (forall r :: r in a + b ==> |r| == |w|) && EncTable(w, a + b) == EncTable(w, a) + EncTable(w, b)
  {
    hide Enc, Width;
    if b == [] {
      assert a + b == a;
    } else {
      var front := b[..|b| - 1];
      assert (a + b)[..|a + b| - 1] == a + front && (a + b)[|a + b| - 1] == b[|b| - 1];
      EncTableAppend(w, a, front);
      Associate(EncTable(w, a), EncTable(w, front), Enc(w, b[|b| - 1]));
    }
  }

  lemma GroupedRowsNext(o: Object, m: nat)
    ensures (GroupedIndices(o.relocs, m); GroupedIndices(o.relocs, m + 1);
             EncTable(RelocWidths(), GroupedRows(o, m + 1)) ==
             EncTable(RelocWidths(), GroupedRows(o, m)) + EncTable(RelocWidths(), RelocRowsOf(o, RelocsOf(o.relocs, m))))
  {
    hide EncTable, RelocWidths, RelocRow, IndicesOf, Grouped, RelocsOf, StartOf;
    GroupedIndices(o.relocs, m);
    GroupedIndices(o.relocs, m + 1);
    IndicesAreFilter(o.relocs, m, |o.relocs|);
    assert o.relocs[..|o.relocs|] == o.relocs;
    var a, b := Grouped(o.relocs, m), IndicesOf(o.relocs, m, |o.relocs|);
    GroupedStep(o.relocs, m + 1);
    assert Pick(o.relocs, a + b) == Pick(o.relocs, a) + Pick(o.relocs, b);
    assert GroupedRows(o, m + 1) == GroupedRows(o, m) + RelocRowsOf(o, Pick(o.relocs, b));
    EncTableAppend(RelocWidths(), GroupedRows(o, m), RelocRowsOf(o, Pick(o.relocs, b)));
  }

  /** Writing the grouped records writes every section's relocation piece. */
  lemma {:induction false} GroupedWritten(o: Object, start: Bytes, m: nat)
    requires Written(o, start, 2 + |o.sections|) && m <= |o.sections|
    ensures (GroupedIndices(o.relocs, m);
             Written(o, start + EncTable(RelocWidths(), GroupedRows(o, m)), 2 + |o.sections| + m))
  {
    hide *;
    CoffRoundTrip.Counts(o);
    GroupedIndices(o.relocs, m);
    if m == 0 {
      NoTable(o);
      assert start + [] == start;
    } else {
      GroupedIndices(o.relocs, m - 1);
      GroupedWritten(o, start, m - 1);
      GroupedRowsNext(o, m - 1);
      CoffRoundTrip.RelocPiece(o, m - 1);
      var before, own := EncTable(RelocWidths(), GroupedRows(o, m - 1)), EncTable(RelocWidths(), RelocRowsOf(o, RelocsOf(o.relocs, m - 1)));
      WriteStep(o, start + before, 2 + |o.sections| + m - 1);
      Associate(start, before, own);
    }
  }

  lemma NoTable(o: Object)
    ensures EncTable(RelocWidths(), GroupedRows(o, 0)) == []
  {}

  ghost predicate AllDefined(o: Object) {
    forall r :: r in o.relocs ==> Find(o.symbols, r.symbol).Some?
  }

  /** Relocations in grouped order; fails at the first one against an undefined symbol. */
  method WriteRelocs(o: Object, counts: array<nat>, start: Bytes) returns (ok: bool, file: Bytes)
    requires counts.Length == |o.sections| && Counted(o.relocs, counts) && InSections(o.relocs, |o.sections|)
    requires Written(o, start, 2 + |o.sections|)
    ensures ok <==> AllDefined(o)
    ensures ok ==> Written(o, file, 2 + 2 * |o.sections|)
  {
    hide Rows, Enc, EncTable, RelocWidths, RelocRow, RelocsOf, Written, PieceAt, PieceCount, Grouped, IndicesOf, PlaceOf, MapReloc,
         RelocRowsOf;
    var m := |o.sections|;
    GroupedIndices(o.relocs, m);
    CountsAgree(o, counts);
    var starts, ordered := OrderRelocations(o.relocs, m, counts);
    ghost var rows := GroupedRows(o, m);
    RowsStart(RelocWidths(), rows, start);
    file := start;
    var k := 0;
    while k < ordered.Length
      invariant k <= ordered.Length && ordered[..] == Grouped(o.relocs, m)
      invariant Rows(RelocWidths(), rows, start, file, k)
      invariant forall q :: 0 <= q < k ==> Find(o.symbols, o.relocs[ordered[q]].symbol).Some?
    {
      assert ordered[k] == ordered[..][k];
      var reloc := o.relocs[ordered[k]];
      var s := Find(o.symbols, reloc.symbol);
      if s.None? {
        assert reloc in o.relocs;
        return false, file;
      }
      RelocRowAt(o, m, k, s.value);
      RowsNext(RelocWidths(), rows, start, file, k);
      file := file + Enc(RelocWidths(), [reloc.offset, s.value, MapReloc(reloc.kind)]);
      k := k + 1;
    }
    ok := true;
    AllFound(o, m, ordered);
    RowsDone(RelocWidths(), rows, start, file);
    GroupedWritten(o, start, m);
  }

  lemma RelocRowAt(o: Object, m: nat, k: nat, s: nat)
    requires forall k :: 0 <= k < |Grouped(o.relocs, m)| ==> Grouped(o.relocs, m)[k] < |o.relocs|
    requires k < |Grouped(o.relocs, m)| && Find(o.symbols, o.relocs[Grouped(o.relocs, m)[k]].symbol) == Some(s)
    ensures var r := o.relocs[Grouped(o.relocs, m)[k]];
            |GroupedRows(o, m)[k]| == 3 && GroupedRows(o, m)[k] == [r.offset, s, MapReloc(r.kind)]
  {
    hide Grouped, MapReloc, FindFrom;
  }

  lemma CountsAgree(o: Object, counts: array<nat>)
    requires Counted(o.relocs, counts)
    ensures forall i :: 0 <= i < counts.Length ==> counts[i] == |IndicesOf(o.relocs, i, |o.relocs|)|
  {
    hide IndicesOf, RelocsOf;
    assert o.relocs[..|o.relocs|] == o.relocs;
    forall i | 0 <= i < counts.Length ensures counts[i] == |IndicesOf(o.relocs, i, |o.relocs|)| {
      IndicesAreFilter(o.relocs, i, |o.relocs|);
    }
  }

  lemma AllFound(o: Object, m: nat, ordered: array<nat>)
    requires InSections(o.relocs, m) && ordered[..] == Grouped(o.relocs, m)
    requires forall q :: 0 <= q < ordered.Length ==>
               ordered[q] < |o.relocs| && Find(o.symbols, o.relocs[ordered[q]].symbol).Some?
    ensures AllDefined(o)
  {
    hide Grouped, PlaceOf, FindFrom;
    forall r | r in o.relocs ensures Find(o.symbols, r.symbol).Some? {
      var i :| 0 <= i < |o.relocs| && o.relocs[i] == r;
      GroupedHolds(o.relocs, m, i);
      assert ordered[..][PlaceOf(o.relocs, i)] == i;
    }
  }

  // ----- symbols -----

  ghost predicate SymbolsPlaced(o: Object) {
    forall i :: 0 <= i < |o.symbols| ==> SymbolPlaced(o, o.symbols[i])
  }

  lemma SymbolRowsAt(o: Object, i: nat)
    requires i < |o.symbols|
    ensures SymbolRows(o)[i] == SymbolRow(o, i)
  {}

  lemma SymbolPieces(o: Object)
    ensures var k := 2 + 2 * |o.sections|;
            k + 3 == PieceCount(o) && PieceAt(o, k).data == EncTable(SymbolWidths(), SymbolRows(o)) &&
            PieceAt(o, k + 1).data == EncTable(SymbolWidths() + AuxWidths(), SectionSymbolRows(o)) &&
            PieceAt(o, k + 2).data == Strings(o)
  {
    CoffRoundTrip.LastPieces(o);
  }

  method WriteSymbols(o: Object, names: array<nat>, start: Bytes) returns (ok: bool, file: Bytes)
    requires names.Length == |o.symbols| && forall i :: 0 <= i < |o.symbols| ==> names[i] == StringOffset(o, |o.sections| + i)
    requires Written(o, start, 2 + 2 * |o.sections|)
    ensures ok <==> SymbolsPlaced(o)
    ensures ok ==> Written(o, file, 3 + 2 * |o.sections|)
  {
    hide Rows, Enc, EncTable, SymbolWidths, StringOffset, SymbolNameField, Written, SymbolRows, Num, PieceAt, PieceCount, Strings,
         SectionSymbolRows, AuxWidths;
    RowsStart(SymbolWidths(), SymbolRows(o), start);
    file := start;
    for i := 0 to |o.symbols|
      invariant Rows(SymbolWidths(), SymbolRows(o), start, file, i)
      invariant forall j :: 0 <= j < i ==> SymbolPlaced(o, o.symbols[j])
    {
      var placed, record := SymbolRecord(o, i, names[i]);
      if !placed { return false, file; }
      RowsNext(SymbolWidths(), SymbolRows(o), start, file, i);
      file := file + record;
    }
    ok := true;
    SymbolsWritten(o, start, file);
  }

  method SymbolRecord(o: Object, i: nat, offset: nat) returns (placed: bool, record: Bytes)
    requires i < |o.symbols| && offset == StringOffset(o, |o.sections| + i)
    ensures placed == SymbolPlaced(o, o.symbols[i]) && (placed ==> record == Enc(SymbolWidths(), SymbolRows(o)[i]))
  {
    hide Enc, SymbolWidths, StringOffset, SymbolNameField, Num;
    var s := o.symbols[i];
    var storage := if s.binding.Local? then 3 else 2;
    var number, kind := 0, 0;
    if s.section.Some? {
      if s.section.value >= |o.sections| { return false, []; }
      number := s.section.value + 1;
      if o.sections[s.section.value].kind.Text? { kind := 0x20; }
    }
    var field := SymbolNameBytes(o, |o.sections| + i, s.name, offset);
    SymbolRowsAt(o, i);
    placed, record := true, Enc(SymbolWidths(), [Num(field), s.value, number, kind, storage, 0]);
  }

  lemma SymbolsWritten(o: Object, start: Bytes, file: Bytes)
    requires Written(o, start, 2 + 2 * |o.sections|) && Rows(SymbolWidths(), SymbolRows(o), start, file, |o.symbols|)
    ensures Written(o, file, 3 + 2 * |o.sections|)
  {
    hide Rows, EncTable, SymbolWidths, SymbolRows, SectionSymbolRows, AuxWidths, Strings, Written, PieceAt, PieceCount;
    RowsDone(SymbolWidths(), SymbolRows(o), start, file);
    SymbolPieces(o);
    WriteStep(o, start, 2 + 2 * |o.sections|);
  }

  lemma SectionSymbolRowsAt(o: Object, i: nat)
    requires i < |o.sections|
    ensures SectionSymbolRows(o)[i] == SectionSymbolRow(o, i)
    ensures Enc(SymbolWidths() + AuxWidths(), SectionSymbolRow(o, i)) ==
            Enc(SymbolWidths(), CoffRoundTrip.SectionHalf(o, i)) + Enc(AuxWidths(), CoffRoundTrip.AuxHalf(o, i))
  {
    hide Enc, SymbolWidths, AuxWidths;
    CoffRoundTrip.SectionSymbolBytes(o, i);
  }

  /** One section's symbol and auxiliary record. */
  method SectionSymbol(o: Object, i: nat, name: nat, count: nat) returns (b: Bytes)
    requires i < |o.sections| && name == StringOffset(o, i) && count == |RelocsOf(o.relocs, i)|
    ensures b == Enc(SymbolWidths() + AuxWidths(), SectionSymbolRow(o, i))
  {
    hide Enc, SymbolWidths, AuxWidths, StringOffset, SymbolNameField, Num, SectionSymbolRow, RelocsOf;
    var c := o.sections[i];
    var length := if c.virtualSize > |c.data| then c.virtualSize else |c.data|;
    var field := SymbolNameBytes(o, i, c.name, name);
    SectionSymbolRowsAt(o, i);
    b := Enc(SymbolWidths(), [Num(field), 0, i + 1, 0, 3, 1]) + Enc(AuxWidths(), [length, count, 0, 0, 0, 0]);
  }

  method WriteSectionSymbols(o: Object, names: array<nat>, counts: array<nat>, start: Bytes) returns (file: Bytes)
    requires names.Length == counts.Length == |o.sections| && Counted(o.relocs, counts)
    requires forall i :: 0 <= i < |o.sections| ==> names[i] == StringOffset(o, i)
    requires Written(o, start, 3 + 2 * |o.sections|)
    ensures Written(o, file, 4 + 2 * |o.sections|)
  {
    ghost var w := SymbolWidths() + AuxWidths();
    hide Rows, Enc, EncTable, SymbolWidths, StringOffset, Written, PieceAt, PieceCount, Strings, SectionSymbolRows, SectionSymbolRow,
         AuxWidths, RelocsOf, SymbolRows;
    RowsStart(w, SectionSymbolRows(o), start);
    file := start;
    for i := 0 to |o.sections|
      invariant Rows(w, SectionSymbolRows(o), start, file, i)
    {
      var b := SectionSymbol(o, i, names[i], counts[i]);
      SectionSymbolRowsAt(o, i);
      RowsNext(w, SectionSymbolRows(o), start, file, i);
      file := file + b;
    }
    RowsDone(w, SectionSymbolRows(o), start, file);
    SymbolPieces(o);
    WriteStep(o, start, 3 + 2 * |o.sections|);
  }

  // ----- strings -----

  lemma StringsStart(o: Object)
    ensures StrTab(LongNames(o)[..0])[1..] == []
    ensures Strings(o) == Le(4, |Strings(o)|) + StrTab(LongNames(o))[1..]
  {
    hide Le;
  }

  lemma StringsNext(o: Object, k: nat)
    requires k < |o.sections| + |o.symbols|
    ensures var name := if k < |o.sections| then o.sections[k].name else o.symbols[k - |o.sections|].name;
            StrTab(LongNames(o)[..k + 1])[1..] ==
            StrTab(LongNames(o)[..k])[1..] + if |name| > 8 then name + [0] else []
    ensures StringOffset(o, k) != 0 <==> LongNames(o)[k] != []
  {
    var names := LongNames(o);
    assert names[..k + 1][..k] == names[..k] && names[..k + 1][k] == names[k];
  }

  /** Its size, then the long names in the order the offsets were given out. */
  method WriteStrings(o: Object, sectionNames: array<nat>, symbolNames: array<nat>, size: nat, start: Bytes) returns (file: Bytes)
    requires sectionNames.Length == |o.sections| && symbolNames.Length == |o.symbols| && size == |Strings(o)|
    requires forall i :: 0 <= i < |o.sections| ==> sectionNames[i] == StringOffset(o, i)
    requires forall i :: 0 <= i < |o.symbols| ==> symbolNames[i] == StringOffset(o, |o.sections| + i)
    ensures file == start + Strings(o)
  {
    hide StrTab, LongNames, Strings, Le;
    StringsStart(o);
    var head := start + Le(4, size);
    file := head;
    for i := 0 to |o.sections|
      invariant file == head + StrTab(LongNames(o)[..i])[1..]
    {
      StringsNext(o, i);
      LongNameStep(o, i);
      if sectionNames[i] != 0 { file := file + o.sections[i].name + [0]; }
    }
    for i := 0 to |o.symbols|
      invariant file == head + StrTab(LongNames(o)[..|o.sections| + i])[1..]
    {
      StringsNext(o, |o.sections| + i);
      LongNameStep(o, |o.sections| + i);
      if symbolNames[i] != 0 { file := file + o.symbols[i].name + [0]; }
    }
    assert LongNames(o)[..|o.sections| + |o.symbols|] == LongNames(o);
  }

  // ----- the writer -----

  method WriteFileHeader(o: Object, symbolTable: nat) returns (file: Bytes)
    requires symbolTable == SymbolTableAt(o)
    ensures Written(o, file, 1)
  {
    file := Enc(FileWidths(), [0x8664, |o.sections|, 0, symbolTable, |o.symbols| + |o.sections| * 2, 0, 0]);
    HeaderWritten(o);
  }

  lemma HeaderWritten(o: Object)
    ensures Written(o, Enc(FileWidths(), [0x8664, |o.sections|, 0, SymbolTableAt(o), |o.symbols| + |o.sections| * 2, 0, 0]), 1)
  {
    NothingWritten(o);
    FileRowIs(o);
    hide *;
    CoffRoundTrip.FirstPieces(o);
    CoffRoundTrip.Counts(o);
    WriteStep(o, [], 0);
    assert [] + PieceAt(o, 0).data == PieceAt(o, 0).data;
  }

  lemma NothingWritten(o: Object)
    ensures Written(o, [], 0)
  {
    hide PieceAt;
    assert Pieces(o)[..0] == [];
  }

  lemma FileRowIs(o: Object)
    ensures FileRow(o) == [0x8664, |o.sections|, 0, SymbolTableAt(o), |o.symbols| + |o.sections| * 2, 0, 0]
  {}

  lemma AllWritten(o: Object, file: Bytes)
    requires Written(o, file, PieceCount(o))
    ensures file == File(o)
  {
    hide Place, PieceAt;
    assert Pieces(o)[..PieceCount(o)] == Pieces(o);
  }

  /** The checks the writer makes, together. */
  lemma Checks(o: Object)
    ensures Writable(o) <==>
              SmallTables(o) && InSections(o.relocs, |o.sections|) && FewRelocs(o) && NamesFit(o) && AllDefined(o) && SymbolsPlaced(o)
  {
    hide SectionNameField, RelocsOf, FindFrom, SmallTables;
    if Writable(o) {
      forall r | 0 <= r < |o.relocs| ensures o.relocs[r].section < |o.sections| { assert o.relocs[r] in o.relocs; }
      forall i | 0 <= i < |o.symbols| ensures SymbolPlaced(o, o.symbols[i]) { assert o.symbols[i] in o.symbols; }
    }
    if InSections(o.relocs, |o.sections|) && SymbolsPlaced(o) {
      forall s | s in o.symbols && s.section.Some? ensures s.section.value < |o.sections| {
        var i :| 0 <= i < |o.symbols| && o.symbols[i] == s;
        assert SymbolPlaced(o, o.symbols[i]);
      }
    }
  }

  /** The write pass. */
  method WriteFile(o: Object, counts: array<nat>, sectionNames: array<nat>, symbolNames: array<nat>, size: nat,
                   raw: array<nat>, relocs: array<nat>, symbolTable: nat) returns (result: Result<Bytes>)
    requires counts.Length == sectionNames.Length == raw.Length == relocs.Length == |o.sections| && symbolNames.Length == |o.symbols|
    requires Counted(o.relocs, counts) && InSections(o.relocs, |o.sections|)
    requires forall i :: 0 <= i < |o.sections| ==>
               sectionNames[i] == StringOffset(o, i) && raw[i] == RawOffset(o, i) && relocs[i] == RelocOffset(o, i)
    requires forall i :: 0 <= i < |o.symbols| ==> symbolNames[i] == StringOffset(o, |o.sections| + i)
    requires size == |Strings(o)| && symbolTable == SymbolTableAt(o)
    ensures result.Ok? <==> NamesFit(o) && AllDefined(o) && SymbolsPlaced(o)
    ensures result.Ok? ==> result.value == File(o)
  {
    hide *;
    var file := WriteFileHeader(o, symbolTable);
    var ok;
    ok, file := WriteSectionHeaders(o, counts, sectionNames, raw, relocs, file);
    if !ok { return Err(TooLarge); }
    file := WritePayloads(o, file);
    ok, file := WriteRelocs(o, counts, file);
    if !ok { return Err(UndefinedSymbol); }
    ok, file := WriteSymbols(o, symbolNames, file);
    if !ok { return Err(InvalidSection); }
    file := WriteSectionSymbols(o, sectionNames, counts, file);
    SymbolPieces(o);
    WriteStep(o, file, 4 + 2 * |o.sections|);
    file := WriteStrings(o, sectionNames, symbolNames, size, file);
    AllWritten(o, file);
    result := Ok(file);
  }

  /** The object is written exactly when the format's tables can hold it, every index is in
      range and every target is defined; what is written is then File(o). */
  method WriteObjectFile(o: Object) returns (result: Result<Bytes>)
    ensures result.Ok? <==> Writable(o)
    ensures result.Ok? ==> result.value == File(o)
  {
    Checks(o);
    hide Writable, InSections, FewRelocs, NamesFit, AllDefined, SymbolsPlaced, Counted, StringOffset, Strings, RawOffset, RelocOffset,
         SymbolTableAt, File, RelocsOf;
    if !SmallTables(o) { return Err(TooLarge); }
    var sectionNames, symbolNames, size := AssignStringOffsets(o);
    var error, counts := TallyRelocations(o);
    if error.Some? { return Err(error.value); }
    var few := CheckCounts(o, counts);
    if !few { return Err(TooLarge); }
    var raw, relocs, symbolTable := LayOut(o, counts);
    result := WriteFile(o, counts, sectionNames, symbolNames, size, raw, relocs, symbolTable);
  }
}
